/**
 * Message formats of the Pair-Setup exchange: TLV8 bodies keyed by tag, and the
 * characteristic-write envelope that carries every outbound message.
 */
module Wire {
  import opened Wrappers

  type Bytes = seq<bv8>

  /** The TLV8 field tags that Pair-Setup reads or writes. */
  datatype Tag =
    | Method | Identifier | Salt | PublicKey | Proof | EncryptedData
    | State | Error | Signature | FragmentData | FragmentLast

  /**
   * A decoded TLV8 body. A JavaScript Buffer is truthy even when it is empty,
   * so "the field is present" is exactly "the tag is a key".
   */
  type Tlv8 = map<Tag, Bytes>

  function Lookup(tlv: Tlv8, tag: Tag): Option<Bytes>
  {
    if tag in tlv then Some(tlv[tag]) else None
  }

  /** Service and characteristic of the pairing endpoint. */
  datatype Address = Address(service: string, characteristic: string)

  const PairSetupAddress := Address("000000550000100080000026bb765291", "0000004c0000100080000026bb765291")

  datatype OpCode = CharacteristicWrite

  /** Keys of a characteristic-write payload: the HAP-Param-Value and HAP-Param-Return-Response entries. */
  datatype Param = Value | ReturnResponse

  /** An outbound message as handed to the transport. */
  datatype Request = Request(address: Address, opcode: OpCode, cid: int, payload: map<Param, Bytes>, insecure: bool)

  /**
   * An inbound message: the entry stored under the Error tag of the outer
   * response object, if any, and the TLV8-encoded HAP-Param-Value. An Error tag
   * inside the decoded value is not this entry.
   */
  datatype Response = Response(error: Option<Bytes>, value: Bytes)

  /** `Buffer.from([n])` keeps the low eight bits of n. */
  function StateByte(state: nat): bv8
  {
    (state % 256) as bv8
  }

  /** Every pairing message is an insecure characteristic write to the pairing endpoint asking for a response. */
  predicate IsPairingWrite(m: Request, address: Address, cid: int)
  {
    && m.address == address
    && m.opcode == CharacteristicWrite
    && m.cid == cid
    && m.payload.Keys == {Value, ReturnResponse}
    && m.payload[ReturnResponse] == [1]
    && m.insecure
  }

  /** The envelope shared by all outbound messages, around an encoded body. */
  function WriteRequest(address: Address, cid: int, value: Bytes): (m: Request)
    ensures IsPairingWrite(m, address, cid)
    ensures Value in m.payload && m.payload[Value] == value
  {
    Request(address, CharacteristicWrite, cid, map[Value := value, ReturnResponse := [1]], true)
  }

  /** M1: the step counter and Method = 1 (pair setup). */
  function M1Body(state: nat): Tlv8
  {
    map[State := [StateByte(state)], Method := [1]]
  }

  /** M3: the step counter, the SRP public value A and the proof M1. */
  function M3Body(state: nat, publicKey: Bytes, proof: Bytes): Tlv8
  {
    map[State := [StateByte(state)], PublicKey := publicKey, Proof := proof]
  }

  /** M5: the step counter and the sealed controller proof. */
  function M5Body(state: nat, encryptedData: Bytes): Tlv8
  {
    map[State := [StateByte(state)], EncryptedData := encryptedData]
  }

  /** The inner TLV of M5 before encryption. */
  function ControllerInfo(pairingId: Bytes, ltpk: Bytes, signature: Bytes): Tlv8
  {
    map[Identifier := pairingId, PublicKey := ltpk, Signature := signature]
  }

  /** A fragment acknowledgement: FragmentData holding no bytes. */
  const AcknowledgementBody: Tlv8 := map[FragmentData := []]
}
