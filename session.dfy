/**
 * The controller side of HomeKit Pair-Setup (M1 to M6) as one mutable session
 * object. getRequest and handleResponse take turns; the step counter, the
 * pending acknowledgement and the reassembly buffer move as module Handshake
 * describes, while the key material is filled in step by step.
 */
module Session {
  import opened Wrappers
  import opened Wire
  import opened Faults
  import opened Crypto
  import opened Framing
  import opened Exchange
  import Fragments
  import Handshake

  /** What a successful pairing hands back, as raw bytes. */
  datatype PairingResult = PairingResult(
    controllerPairingId: Bytes,
    controllerLtsk: Bytes,
    controllerLtpk: Bytes,
    accessoryPairingId: Bytes,
    accessoryLtpk: Bytes)

  /** The session's key fields, gathered to say at once which of them a call changes. */
  datatype KeyMaterial = KeyMaterial(
    salt: Option<Bytes>,
    accessoryPublicKey: Option<Bytes>,
    srp: Option<SrpClient>,
    srpPublicKey: Option<Bytes>,
    srpProof: Option<Bytes>,
    controllerPairingId: Option<Bytes>,
    controllerLtsk: Option<Bytes>,
    controllerLtpk: Option<Bytes>,
    sharedSecret: Option<Bytes>,
    encryptionKey: Option<Bytes>)

  const NoKeyMaterial := KeyMaterial(None, None, None, None, None, None, None, None, None, None)

  /** A builder's outcome as getRequest returns it. */
  function AsRequest(o: Outcome<Request>): Outcome<Option<Request>>
  {
    match o
    case Returned(m) => Returned(Some(m))
    case Threw(f) => Threw(f)
  }

  class PairSetup {
    const prims: Primitives
    const address: Address := PairSetupAddress
    const cid: int
    const pin: Bytes
    /** The SRP private value, 32 random bytes drawn at construction. */
    const key: Bytes
    /** The 32 random bytes the M5 signing keypair is made from. */
    const seed: Bytes
    /** The controller's pairing identifier: a freshly generated UUID string. */
    const pairingUuid: Bytes

    var state: nat
    var acknowledgeFragment: bool
    var reassemblyBuffer: Bytes
    var error: Option<Fault>
    var result: Option<PairingResult>

    var salt: Option<Bytes>
    var accessoryPublicKey: Option<Bytes>
    var srp: Option<SrpClient>
    var srpPublicKey: Option<Bytes>
    var srpProof: Option<Bytes>
    var controllerPairingId: Option<Bytes>
    var controllerLtsk: Option<Bytes>
    var controllerLtpk: Option<Bytes>
    var sharedSecret: Option<Bytes>
    var encryptionKey: Option<Bytes>

    function Control(): Handshake.Control
      reads this
    {
      Handshake.Control(state, acknowledgeFragment, reassemblyBuffer)
    }

    function Keys(): KeyMaterial
      reads this
    {
      KeyMaterial(salt, accessoryPublicKey, srp, srpPublicKey, srpProof,
                  controllerPairingId, controllerLtsk, controllerLtpk, sharedSecret, encryptionKey)
    }

    /** The session's invariant: its primitives are sound and its fields consistent. */
    ghost predicate Valid()
      reads this
    {
      && prims.Sound()
      && Consistent(state, Keys(), result)
    }

    /**
     * Each key field is only ever set once its step has been reached, and
     * holds what that step computed from the fields before it.
     */
    ghost predicate Consistent(s: nat, k: KeyMaterial, r: Option<PairingResult>)
    {
      && (k.salt.Some? || k.accessoryPublicKey.Some? ==> s >= 2)
      && SrpConsistent(s, k)
      && ControllerConsistent(s, k)
      && SecretConsistent(k)
      && ResultConsistent(s, k, r)
    }

    /** The SRP client is built at M3 from the salt, the fixed identity, the PIN and the private key. */
    ghost predicate SrpConsistent(s: nat, k: KeyMaterial)
    {
      && (k.srp.Some? ==>
            && s >= 3
            && k.salt == Some(k.srp.value.salt)
            && k.srp.value.identity == SrpIdentity && k.srp.value.password == pin && k.srp.value.secret == key)
      && (k.srpPublicKey.Some? || k.srpProof.Some? ==>
            && k.srp.Some? && k.srp.value.serverPublicKey.Some?
            && k.srpPublicKey == Some(prims.computeA(k.srp.value))
            && k.srpProof == Some(prims.computeM1(k.srp.value)))
    }

    /** The controller's identity is made at M5 from the pairing UUID and the seed. */
    ghost predicate ControllerConsistent(s: nat, k: KeyMaterial)
    {
      k.controllerPairingId.Some? || k.controllerLtsk.Some? || k.controllerLtpk.Some? ==>
        && s >= 5
        && k.controllerPairingId == Some(pairingUuid)
        && k.controllerLtsk == Some(prims.makeKeypair(seed).privateKey)
        && k.controllerLtpk == Some(prims.makeKeypair(seed).publicKey)
    }

    /** The shared secret comes from the SRP client, the session key from the shared secret. */
    ghost predicate SecretConsistent(k: KeyMaterial)
    {
      && (k.sharedSecret.Some? ==>
            && k.controllerPairingId.Some?
            && k.srp.Some? && k.sharedSecret == Some(prims.computeK(k.srp.value)))
      && (k.encryptionKey.Some? ==>
            && k.sharedSecret.Some? && k.encryptionKey == Some(SessionKey(prims, k.sharedSecret.value)))
    }

    /** A result exists only after M6 and carries the controller's own identity. */
    ghost predicate ResultConsistent(s: nat, k: KeyMaterial, r: Option<PairingResult>)
    {
      r.Some? ==>
        && s >= 6 && k.encryptionKey.Some?
        && r.value.controllerPairingId == pairingUuid
        && r.value.controllerLtsk == prims.makeKeypair(seed).privateKey
        && r.value.controllerLtpk == prims.makeKeypair(seed).publicKey
    }

    /** Consistency bounds the step only from below, so moving on keeps it. */
    lemma LaterStepKeeps(s: nat, k: KeyMaterial, r: Option<PairingResult>)
      requires Consistent(s, k, r)
      ensures Consistent(s + 1, k, r)
    {
    }

    /** What M2 records keeps the fields consistent. */
    lemma M2Keeps(k: KeyMaterial, r: Option<PairingResult>, tlv: Tlv8)
      requires Consistent(2, k, r)
      ensures Consistent(2, k.(salt := Lookup(tlv, Salt), accessoryPublicKey := Lookup(tlv, PublicKey)), r)
    {
    }

    /** Both outcomes of building M3 from unset SRP fields keep the fields consistent. */
    lemma M3Keeps(k: KeyMaterial, r: Option<PairingResult>)
      requires Consistent(3, k, r) && k.salt.Some? && k.srp.None?
      ensures var client := SrpClient(k.salt.value, SrpIdentity, pin, key, None);
        && Consistent(3, k.(srp := Some(client)), r)
        && (k.accessoryPublicKey.Some? ==>
              var ready := client.(serverPublicKey := k.accessoryPublicKey);
              Consistent(3, k.(srp := Some(ready), srpPublicKey := Some(prims.computeA(ready)),
                               srpProof := Some(prims.computeM1(ready))), r))
    {
    }

    /** Both outcomes of building M5 keep the fields consistent. */
    lemma M5Keeps(k: KeyMaterial, r: Option<PairingResult>)
      requires Consistent(5, k, r)
      ensures var keys := prims.makeKeypair(seed);
        var identified := k.(controllerPairingId := Some(pairingUuid), controllerLtsk := Some(keys.privateKey),
                             controllerLtpk := Some(keys.publicKey));
        && Consistent(5, identified, r)
        && (k.srp.Some? ==>
              var secret := prims.computeK(k.srp.value);
              Consistent(5, identified.(sharedSecret := Some(secret), encryptionKey := Some(SessionKey(prims, secret))), r))
    {
    }

    /**
     * A new session. The characteristic instance id comes from the attribute
     * database lookup; key, seed and pairingUuid stand for the random values.
     */
    constructor(prims: Primitives, cid: int, pin: Bytes, key: Bytes, seed: Bytes, pairingUuid: Bytes)
      requires prims.Sound()
      requires |key| == 32 && |seed| == 32
      ensures Valid()
      ensures this.prims == prims && this.cid == cid && this.pin == pin
      ensures this.key == key && this.seed == seed && this.pairingUuid == pairingUuid
      ensures Control() == Handshake.Start
      ensures error.None? && result.None? && Keys() == NoKeyMaterial
    {
      this.prims := prims;
      this.cid := cid;
      this.pin := pin;
      this.key := key;
      this.seed := seed;
      this.pairingUuid := pairingUuid;
      state := 0;
      acknowledgeFragment := false;
      reassemblyBuffer := [];
      error := None;
      result := None;
      salt, accessoryPublicKey, srp, srpPublicKey, srpProof := None, None, None, None, None;
      controllerPairingId, controllerLtsk, controllerLtpk := None, None, None;
      sharedSecret, encryptionKey := None, None;
    }

    /** Whether the driver should ask for another message. */
    function HasMoreRequests(): (more: bool)
      reads this
      ensures more <==> error.None? && (state < 6 || acknowledgeFragment)
    {
      Handshake.Live(error.Some?, Control())
    }

    /**
     * The next outbound message: the owed acknowledgement if there is one;
     * otherwise the counter moves one step and M1, M3 or M5 is built for the
     * new state, and nothing is built for any other state.
     */
    method GetRequest() returns (o: Outcome<Option<Request>>)
      requires Valid()
      modifies this
      ensures Valid()
      ensures Control() == Handshake.Send(old(Control())).0
      ensures error == old(error) && result == old(result)
      ensures old(acknowledgeFragment) ==>
        && o == Returned(Some(WriteRequest(address, cid, prims.encode(AcknowledgementBody))))
        && Keys() == old(Keys())
      ensures !old(acknowledgeFragment) && state == 1 ==>
        && o == Returned(Some(WriteRequest(address, cid, prims.encode(M1Body(1)))))
        && Keys() == old(Keys())
      ensures !old(acknowledgeFragment) && state == 3 ==> M3Effect(o)
      ensures !old(acknowledgeFragment) && state == 5 ==> M5Effect(o)
      ensures !old(acknowledgeFragment) && state != 1 && state != 3 && state != 5 ==>
        o == Returned(None) && Keys() == old(Keys())
      ensures o.Returned? && o.value.Some? ==> IsPairingWrite(o.value.value, PairSetupAddress, cid)
    {
      if acknowledgeFragment {
        acknowledgeFragment := false;
        var m := AcknowledgeFragment();
        return Returned(Some(m));
      }
      LaterStepKeeps(state, Keys(), result);
      state := state + 1;
      if state == 1 {
        var m := GetM1Request();
        o := Returned(Some(m));
      } else if state == 3 {
        var m := GetM3Request();
        o := AsRequest(m);
      } else if state == 5 {
        var m := GetM5Request();
        o := AsRequest(m);
      } else {
        o := Returned(None);
      }
    }

    /** M1: start pair setup with Method = 1. */
    method GetM1Request() returns (m: Request)
      ensures m == WriteRequest(address, cid, prims.encode(M1Body(state)))
      ensures IsPairingWrite(m, address, cid)
    {
      var body := M1Body(state);
      m := WriteRequest(address, cid, prims.encode(body));
    }

    /** The effect of building M3, given that state 3 has just been entered. */
    twostate predicate M3Effect(new o: Outcome<Option<Request>>)
      reads this
    {
      var before := old(Keys());
      if before.salt.None? then
        // the SRP client cannot be built without a salt
        o == Threw(UndefinedArgument) && Keys() == before
      else
        var client := SrpClient(before.salt.value, SrpIdentity, pin, key, None);
        if before.accessoryPublicKey.None? then
          // the client exists, but B cannot be set
          o == Threw(UndefinedArgument) && Keys() == before.(srp := Some(client))
        else
          var ready := client.(serverPublicKey := before.accessoryPublicKey);
          var a := prims.computeA(ready);
          var proof := prims.computeM1(ready);
          && Keys() == before.(srp := Some(ready), srpPublicKey := Some(a), srpProof := Some(proof))
          && o == Returned(Some(WriteRequest(address, cid, prims.encode(M3Body(state, a, proof)))))
    }

    /** M3: build the SRP client from the M2 salt and B, and send A with the proof M1. */
    method GetM3Request() returns (o: Outcome<Request>)
      requires Valid() && state == 3 && srp.None?
      modifies this
      ensures Valid()
      ensures Control() == old(Control()) && error == old(error) && result == old(result)
      ensures M3Effect(AsRequest(o))
    {
      if salt.None? {
        return Threw(UndefinedArgument);
      }
      M3Keeps(Keys(), result);
      srp := Some(SrpClient(salt.value, SrpIdentity, pin, key, None));
      if accessoryPublicKey.None? {
        return Threw(UndefinedArgument);
      }
      srp := Some(srp.value.(serverPublicKey := accessoryPublicKey));
      srpPublicKey := Some(prims.computeA(srp.value));
      srpProof := Some(prims.computeM1(srp.value));
      var body := M3Body(state, srpPublicKey.value, srpProof.value);
      o := Returned(WriteRequest(address, cid, prims.encode(body)));
    }

    /** The effect of building M5, given that state 5 has just been entered. */
    twostate predicate M5Effect(new o: Outcome<Option<Request>>)
      reads this
    {
      var before := old(Keys());
      var keys := prims.makeKeypair(seed);
      var identified := before.(controllerPairingId := Some(pairingUuid),
                                controllerLtsk := Some(keys.privateKey),
                                controllerLtpk := Some(keys.publicKey));
      if before.srp.None? then
        // the shared secret is asked of an SRP client that was never built
        o == Threw(TypeError) && Keys() == identified
      else
        var secret := prims.computeK(before.srp.value);
        && Keys() == identified.(sharedSecret := Some(secret), encryptionKey := Some(SessionKey(prims, secret)))
        && o == Returned(Some(WriteRequest(address, cid,
                 prims.encode(M5Body(state, ControllerEncryptedData(prims, secret, pairingUuid, keys))))))
    }

    /**
     * M5: make the long-term keypair and pairing identifier, sign the
     * controller material, and seal the inner TLV under the session key.
     */
    method GetM5Request() returns (o: Outcome<Request>)
      requires Valid() && state == 5
      modifies this
      ensures Valid()
      ensures Control() == old(Control()) && error == old(error) && result == old(result)
      ensures M5Effect(AsRequest(o))
    {
      var keyPair := prims.makeKeypair(seed);
      M5Keeps(Keys(), result);
      controllerPairingId := Some(pairingUuid);
      controllerLtsk := Some(keyPair.privateKey);
      controllerLtpk := Some(keyPair.publicKey);
      if srp.None? {
        return Threw(TypeError);
      }
      var secret := prims.computeK(srp.value);
      var encrypted := ControllerEncryptedData(prims, secret, pairingUuid, keyPair);
      var sessionKey := SessionKey(prims, secret);
      sharedSecret := Some(secret);
      encryptionKey := Some(sessionKey);
      var body := M5Body(state, encrypted);
      o := Returned(WriteRequest(address, cid, prims.encode(body)));
    }

    /** The acknowledgement of a continuation chunk: FragmentData with no bytes. */
    method AcknowledgeFragment() returns (m: Request)
      ensures m == WriteRequest(address, cid, prims.encode(AcknowledgementBody))
      ensures IsPairingWrite(m, address, cid)
    {
      var body := AcknowledgementBody;
      m := WriteRequest(address, cid, prims.encode(body));
    }

    /**
     * Consume one response. An Error entry is stored and nothing else changes;
     * a continuation chunk is buffered and owes an acknowledgement; otherwise
     * the counter moves one step and the handler of the new state runs.
     */
    method HandleResponse(r: Response) returns (o: Outcome<()>)
      requires Valid()
      modifies this
      ensures Valid()
      ensures Control() == Handshake.Receive(prims.decode, old(Control()), r).0
      ensures r.error.Some? ==>
        && error == Some(AccessoryError(r.error.value))
        && Control() == old(Control()) && result == old(result) && Keys() == old(Keys())
        && o == Returned(())
        && !HasMoreRequests()
      ensures var inbound := Handshake.Receive(prims.decode, old(Control()), r).1;
        && (inbound.AwaitingFragment? ==>
              error == old(error) && result == old(result) && Keys() == old(Keys()) && o == Returned(()))
        && (inbound.Dispatch? ==> DispatchEffect(inbound.tlv, o))
        && (inbound.Dispatch? && state >= 6 ==> !HasMoreRequests())
    {
      if r.error.Some? {
        error := Some(AccessoryError(r.error.value));
        return Returned(());
      }
      acknowledgeFragment := false;
      var decoded := DecodeResponse(r.value);
      if decoded.MoreDataNeeded? {
        acknowledgeFragment := true;
        return Returned(());
      }
      o := Dispatch(decoded.tlv);
    }

    /** What the handler of the state just entered does with a complete TLV. */
    twostate predicate DispatchEffect(tlv: Tlv8, new o: Outcome<()>)
      reads this
    {
      && (state == 2 ==> M2Effect(tlv, o))
      && (state == 4 ==> M4Effect(tlv) && o == Returned(()))
      && (state == 6 ==> M6Effect(tlv, o))
      && (state != 2 && state != 4 && state != 6 ==>
            error == old(error) && result == old(result) && Keys() == old(Keys()) && o == Returned(()))
    }

    /** Move one step and run the handler of the new state, if it has one. */
    method Dispatch(tlv: Tlv8) returns (o: Outcome<()>)
      requires Valid()
      modifies this
      ensures Valid()
      ensures Control() == old(Control()).(state := old(state) + 1)
      ensures DispatchEffect(tlv, o)
    {
      LaterStepKeeps(state, Keys(), result);
      state := state + 1;
      if state == 2 {
        o := HandleM2Response(tlv);
      } else if state == 4 {
        HandleM4Response(tlv);
        o := Returned(());
      } else if state == 6 {
        o := HandleM6Response(tlv);
      } else {
        o := Returned(());
      }
    }

    /** Decode the HAP-Param-Value of a response, reassembling fragments. */
    method DecodeResponse(value: Bytes) returns (d: Fragments.Decoded)
      requires Valid()
      modifies this
      ensures Valid()
      ensures var step := Fragments.Reassemble(prims.decode, old(reassemblyBuffer), value);
        reassemblyBuffer == step.buffer && d == step.decoded
      ensures acknowledgeFragment == (d.MoreDataNeeded? || old(acknowledgeFragment))
      ensures state == old(state) && error == old(error) && result == old(result) && Keys() == old(Keys())
    {
      var outer := prims.decode(value);
      if FragmentData in outer {
        acknowledgeFragment := true;
        reassemblyBuffer := reassemblyBuffer + outer[FragmentData];
        return Fragments.MoreDataNeeded;
      }
      if FragmentLast in outer {
        var reassembled := reassemblyBuffer + outer[FragmentLast];
        outer := prims.decode(reassembled);
        reassemblyBuffer := [];
      }
      d := Fragments.Complete(outer);
    }

    /** The effect of the M2 handler: salt and B are kept even when absent, then checked. */
    twostate predicate M2Effect(tlv: Tlv8, new o: Outcome<()>)
      reads this
    {
      && Keys() == old(Keys()).(salt := Lookup(tlv, Salt), accessoryPublicKey := Lookup(tlv, PublicKey))
      && error == old(error) && result == old(result)
      && o == if Salt !in tlv then Threw(MissingSalt)
              else if PublicKey !in tlv then Threw(MissingAccessoryPublicKey)
              else Returned(())
    }

    /** M2: the accessory's salt and SRP public value B; either missing throws. */
    method HandleM2Response(tlv: Tlv8) returns (o: Outcome<()>)
      requires Valid() && state == 2
      modifies this
      ensures Valid()
      ensures Control() == old(Control())
      ensures M2Effect(tlv, o)
    {
      M2Keeps(Keys(), result, tlv);
      salt := Lookup(tlv, Salt);
      accessoryPublicKey := Lookup(tlv, PublicKey);
      if salt.None? {
        return Threw(MissingSalt);
      }
      if accessoryPublicKey.None? {
        return Threw(MissingAccessoryPublicKey);
      }
      o := Returned(());
    }

    /**
     * The effect of the M4 handler: a rejected proof, or an SRP client that was
     * never built, is caught and stored as the session's error.
     */
    twostate predicate M4Effect(tlv: Tlv8)
      reads this
    {
      && Keys() == old(Keys()) && result == old(result)
      && error == if old(srp).None? then Some(TypeError)
                  else if !prims.checkM2(old(srp).value, Lookup(tlv, Proof)) then Some(ProofCheckFailed)
                  else old(error)
    }

    /** M4: check the accessory's SRP proof. */
    method HandleM4Response(tlv: Tlv8)
      requires Valid() && state == 4
      modifies this
      ensures Valid()
      ensures Control() == old(Control())
      ensures M4Effect(tlv)
    {
      var accessoryProof := Lookup(tlv, Proof);
      if srp.None? {
        error := Some(TypeError);
      } else if !prims.checkM2(srp.value, accessoryProof) {
        error := Some(ProofCheckFailed);
      }
    }

    /**
     * The effect of the M6 handler: a failed check throws, a bad signature
     * returns quietly, and an accepted signature records the result.
     */
    twostate predicate M6Effect(tlv: Tlv8, new o: Outcome<()>)
      reads this
    {
      && Keys() == old(Keys()) && error == old(error)
      && match VerifyAccessory(prims, tlv, encryptionKey, sharedSecret)
         case Failed(f) => o == Threw(f) && result == old(result)
         case SignatureRejected => o == Returned(()) && result == old(result)
         case Accepted(id, ltpk) =>
           if controllerPairingId.None? || controllerLtsk.None? || controllerLtpk.None? then
             o == Threw(TypeError) && result == old(result)
           else
             && o == Returned(())
             && result == Some(PairingResult(controllerPairingId.value, controllerLtsk.value,
                                             controllerLtpk.value, id, ltpk))
    }

    /** M6: open the accessory's proof, verify its signature and record the result. */
    method HandleM6Response(tlv: Tlv8) returns (o: Outcome<()>)
      requires Valid() && state == 6
      modifies this
      ensures Valid()
      ensures Control() == old(Control())
      ensures M6Effect(tlv, o)
    {
      var verdict := VerifyAccessory(prims, tlv, encryptionKey, sharedSecret);
      match verdict
      case Failed(f) =>
        o := Threw(f);
      case SignatureRejected =>
        o := Returned(());
      case Accepted(accessoryPairingId, accessoryLtpk) =>
        if controllerPairingId.None? || controllerLtsk.None? || controllerLtpk.None? {
          o := Threw(TypeError);
        } else {
          result := Some(PairingResult(controllerPairingId.value, controllerLtsk.value, controllerLtpk.value,
                                       accessoryPairingId, accessoryLtpk));
          o := Returned(());
        }
    }

    /** The stored error is raised; otherwise the result, if any, is returned. */
    method GetResult() returns (o: Outcome<Option<PairingResult>>)
      ensures error.Some? ==> o == Threw(error.value)
      ensures error.None? ==> o == Returned(result)
    {
      if error.Some? {
        return Threw(error.value);
      }
      o := Returned(result);
    }
  }
}
