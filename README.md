# Pair-Setup controller session

This project models the controller side of the HomeKit Accessory Protocol
Pair-Setup handshake (messages M1 to M6), as implemented by class `PairSetup`
in `src/hap/pairing/PairSetup.js`. The driver alternates `getRequest` and
`handleResponse` while `hasMoreRequests` holds, then reads `getResult`.

The model has the following modules:

- `Wire`: TLV8 tags and bodies as `map<Tag, seq<bv8>>`, plus the request and
  response envelopes of a characteristic write.
- `Faults`: what a JavaScript call can throw, and `Outcome`, a value or a thrown fault.
- `Crypto`: the foreign primitives as one record of opaque functions. These are
  SRP-6a, HKDF-SHA512, Ed25519, the AEAD seal and open, and the TLV8 encoder and
  decoder. The only facts assumed of them are output lengths: a derived key has 32
  bytes, and sealing keeps the plaintext length and adds a 16-byte tag.
- `Framing`: the byte layouts of the protocol.
  - M5 sends ciphertext ‖ tag.
  - M6 splits at length − 16.
  - The signed material is derived key ‖ pairing identifier ‖ LTPK.
- `Exchange`: the key schedule and its labels, the construction of M5's
  EncryptedData, and the checks of M6 in the order the code runs them.
- `Fragments`: one `_decodeResponse` step over the reassembly buffer.
- `Handshake`: the control part of a session as a value. It covers the step
  counter, the pending-acknowledgement flag and the reassembly buffer, and how the
  two driver calls move them. The run lemmas live here: unit steps, fragment
  reassembly, lockstep rounds and a complete handshake.
- `Session`: class `PairSetup` with the source's fields and methods. Each method
  keeps the invariant `Valid()` and is tied to `Handshake` by
  `Control() == Handshake.Send(old(Control())).0` and the `Receive` counterpart.

Some JavaScript semantics are modelled explicitly:

- Reading a property of `undefined` throws `TypeError`.
- `Buffer.alloc` with a negative size throws `RangeError`.
- A foreign primitive handed `undefined` throws, modelled as `UndefinedArgument`.
  These are `srp.Client` without a salt, `setB` without B, `hkdf` without a shared
  secret, `verifyAndDecrypt` without a key and `ed25519.Verify` without a signature.
- A `Buffer` is truthy even when empty, so "field present" means "key in the TLV map".
- `Buffer.from([n])` keeps the low eight bits of the step counter.
- The Error entry that `handleResponse` looks for is read from the outer response
  object, next to HAP-Param-Value, not from the decoded body. An Error tag inside
  the decoded body reaches the M2, M4 and M6 handlers, which ignore it.

## Model

| member | source | states |
|---|---|---|
| Wire.WriteRequest | src/hap/pairing/PairSetup.js:86-97 | every outbound message is an insecure CharacteristicWrite to the pairing address and characteristic, with exactly HAP-Param-Value (the encoded body) and HAP-Param-Return-Response = [1] |
| Framing.SplitSealed | src/hap/pairing/PairSetup.js:293-297 | M6's split is defined exactly when EncryptedData has at least 16 bytes; the tag is the last 16 bytes and ciphertext ‖ tag gives back the input |
| Framing.SplitInvertsSeal | src/hap/pairing/PairSetup.js:151-161 | splitting undoes M5's concatenation of any ciphertext with a 16-byte tag |
| Framing.SignedMaterialFields | src/hap/pairing/PairSetup.js:141 | with a 32-byte derived key, the signed material has the key at bytes 0-31, then the pairing identifier, then the LTPK |
| Framing.SignedMaterialInjective | src/hap/pairing/PairSetup.js:311 | for identifiers of one length, equal signed material means equal derived key, identifier and LTPK |
| Exchange.SessionKey | src/hap/pairing/PairSetup.js:153-156 | the session key derived from the shared secret with the Encrypt salt and info labels is 32 bytes long |
| Exchange.ControllerEncryptedData | src/hap/pairing/PairSetup.js:136-161 | M5's EncryptedData is 16 bytes longer than the encoded inner TLV, and M6's split of it recovers exactly the ciphertext and tag that sealing produced |
| Exchange.VerifyAccessory | src/hap/pairing/PairSetup.js:291-315 | the M6 checks in code order: no EncryptedData is a TypeError, fewer than 16 bytes a RangeError, then no session key an undefined argument, no shared secret an undefined argument, no Identifier or PublicKey a TypeError and no Signature an undefined argument; when all of these are present there is no fault, and the signature is accepted exactly when Ed25519 verifies it over the accessory material |
| Fragments.Reassemble | src/hap/pairing/PairSetup.js:238-264 | more data is needed exactly when FragmentData is present, and its bytes are appended to the buffer; a FragmentLast empties the buffer and decodes buffer ‖ last chunk; with neither, the buffer is left as it was and the decoded outer TLV is returned |
| Handshake.Send | src/hap/pairing/PairSetup.js:60-80 | getRequest sends the acknowledgement exactly when one is pending; afterwards none is pending, the buffer is unchanged and the counter rises by one exactly when no acknowledgement was pending |
| Handshake.Receive | src/hap/pairing/PairSetup.js:206-236 | an Error entry leaves the control state unchanged; otherwise an acknowledgement is owed exactly when FragmentData is present, and the counter rises by one exactly when the response is dispatched, to the handler of the new state; the new buffer and the dispatched TLV are those of Fragments.Reassemble |
| Handshake.StateMovesByUnitSteps | src/hap/pairing/PairSetup.js:223 | across any run of the driver the counter never decreases and rises by at most one per call |
| Handshake.FragmentedResponse | src/hap/pairing/PairSetup.js:214-259 | continuation chunks f1..fn, each acknowledged, then a last chunk l: the counter stays put until l, every chunk is acknowledged once in order, and the dispatched body is the decoding of buffer ‖ f1 ‖ … ‖ fn ‖ l with the buffer emptied |
| Handshake.LockstepRounds | src/hap/pairing/PairSetup.js:67-235 | under strict alternation with unfragmented responses, each getRequest builds the message of the next state and each handleResponse dispatches the state after it, owing no acknowledgement |
| Handshake.CompleteHandshake | src/hap/pairing/PairSetup.js:55-58 | a fresh session answered by three unfragmented responses sends M1, M3, M5 and dispatches M2, M4, M6; it has more requests before each getRequest and none after M6 |
| Session.PairSetup.constructor | src/hap/pairing/PairSetup.js:30-53 | a new session starts at step 0 with no pending acknowledgement, an empty buffer, no error, no result and no key material |
| Session.PairSetup.HasMoreRequests | src/hap/pairing/PairSetup.js:55-58 | more requests follow exactly when no error is stored and either step 6 is not yet reached or an acknowledgement is pending |
| Session.PairSetup.GetRequest | src/hap/pairing/PairSetup.js:60-80 | moves the control state as Handshake.Send; a pending acknowledgement yields the FragmentData = empty message and leaves the key material alone; otherwise M1 (State = [1], Method = [1]), M3 or M5 is built for new states 1, 3, 5 and nothing for others; every built message is a pairing write |
| Session.PairSetup.GetM1Request | src/hap/pairing/PairSetup.js:82-98 | M1 is the pairing write of State and Method = 1 |
| Session.PairSetup.GetM3Request | src/hap/pairing/PairSetup.js:100-126 | without a salt nothing is stored and the call throws; without B the SRP client is stored and the call throws; otherwise client, A and proof are stored and sent with the state |
| Session.PairSetup.GetM5Request | src/hap/pairing/PairSetup.js:128-182 | the pairing identifier and keypair are always stored first; without an SRP client the call throws TypeError; otherwise shared secret and session key are stored and M5 carries the sealed controller TLV |
| Session.PairSetup.AcknowledgeFragment | src/hap/pairing/PairSetup.js:184-204 | the acknowledgement is the pairing write of FragmentData holding no bytes |
| Session.PairSetup.HandleResponse | src/hap/pairing/PairSetup.js:206-236 | moves the control state as Handshake.Receive; an Error entry is stored, nothing else changes and no more requests follow; a continuation chunk changes only the buffer and flag; a completed response is dispatched, and from step 6 on no more requests follow |
| Session.PairSetup.Dispatch | src/hap/pairing/PairSetup.js:223-235 | the counter rises by exactly one and the handler of the new state runs, states other than 2, 4 and 6 changing nothing else |
| Session.PairSetup.DecodeResponse | src/hap/pairing/PairSetup.js:238-264 | buffer and outcome are those of Fragments.Reassemble; the flag is set on a continuation chunk; counter, error, result and key material are untouched |
| Session.PairSetup.HandleM2Response | src/hap/pairing/PairSetup.js:266-276 | salt and B are stored as found, even when absent; a missing salt throws, then a missing B throws, with the counter already at 2 |
| Session.PairSetup.HandleM4Response | src/hap/pairing/PairSetup.js:279-289 | a failed proof check, or a missing SRP client, is stored as the session error; nothing else changes |
| Session.PairSetup.HandleM6Response | src/hap/pairing/PairSetup.js:291-326 | a failed check throws its fault; a bad signature returns without setting error or result; an accepted one records the controller's identity and the accessory's identifier and LTPK, or throws TypeError if the controller identity was never made |
| Session.PairSetup.GetResult | src/hap/pairing/PairSetup.js:327-334 | a stored error is raised; otherwise the result, possibly none, is returned |

## Left out

- Cryptography: SRP-6a (RFC 5054 group 3072), HKDF-SHA512, Ed25519 and the
  ChaCha20-Poly1305 seal and open are opaque functions. Only their output lengths
  are assumed.
- `srp.Client.checkM2` throwing is modelled as a boolean that is false on
  rejection, and `computeK` on a client whose B was never set is an opaque value.
  The `fast-srp-hap` library is not part of this model.
- What the foreign libraries do when handed `undefined` is not shown. The model
  takes it to be a throw (`UndefinedArgument`).
- The TLV8 encoder and decoder are opaque functions between byte strings and tag maps.
- Randomness: the SRP private key, the M5 seed and the UUID enter as constructor
  parameters. The UUID stands for the string bytes `Buffer.from(uuid())`.
- The `attributeDatabase` lookup enters as the constructor's `cid` parameter.
  Logging is left out.
- The SRP group parameters (`_params`) are part of the opaque SRP client.
- The hex and string rendering of the result's fields is left out; the result holds raw bytes.
- A response without a HAP-Param-Value entry is left out: `Response` always carries a value.
- The boolean returned by `verifyAndDecrypt` is ignored, as in the code. A wrong
  tag shows up only through what the plaintext buffer decodes to.
- `Session.PairSetup.HandleResponse` does not claim that error and result exclude
  each other. The code does not prevent both from being set when a driver keeps
  calling after an error.
- `Session.PairSetup.GetM5Request` assigns shared secret and session key after
  the signing steps rather than before them. No fault can occur between those
  points in the model, so the final state is the same.
