/**
 * The control part of a Pair-Setup session: the step counter, the pending
 * acknowledgement flag and the reassembly buffer, and how getRequest and
 * handleResponse move them. The cryptographic steps dispatched at states 2, 4
 * and 6 never touch these three fields, so runs of the driver can be studied here
 * with the codec's decoder as the only collaborator.
 */
module Handshake {
  import opened Wrappers
  import opened Wire
  import opened Fragments

  datatype Control = Control(state: nat, ack: bool, buffer: Bytes)

  /** A freshly constructed session. */
  const Start := Control(0, false, [])

  /** hasMoreRequests: no error stored, and steps remain or an acknowledgement is owed. */
  predicate Live(failed: bool, c: Control)
  {
    !failed && (c.state < 6 || c.ack)
  }

  /** What getRequest produced: the acknowledgement, or the message of a new step. */
  datatype Outbound = Acknowledge | Advance(state: nat)

  /** getRequest: a pending acknowledgement is sent first; otherwise the counter moves one step. */
  function Send(c: Control): (r: (Control, Outbound))
    ensures r.1.Acknowledge? <==> c.ack
    ensures !r.0.ack && r.0.buffer == c.buffer
    ensures r.0.state == c.state + (if c.ack then 0 else 1)
    ensures r.1.Advance? ==> r.1.state == r.0.state
  {
    if c.ack then (c.(ack := false), Acknowledge)
    else (c.(state := c.state + 1), Advance(c.state + 1))
  }

  /** What handleResponse did with a response. */
  datatype Inbound = ErrorReported(code: Bytes) | AwaitingFragment | Dispatch(state: nat, tlv: Tlv8)

  /**
   * handleResponse: an Error entry is reported and nothing else moves; a
   * continuation chunk is buffered and owes an acknowledgement; anything else
   * completes a step and is dispatched to the handler of the new state.
   */
  function Receive(decode: Bytes -> Tlv8, c: Control, r: Response): (x: (Control, Inbound))
    ensures r.error.Some? ==> x == (c, ErrorReported(r.error.value))
    ensures r.error.None? ==> (x.1.AwaitingFragment? <==> FragmentData in decode(r.value))
    ensures x.0.ack <==> (if r.error.Some? then c.ack else x.1.AwaitingFragment?)
    ensures x.0.state == c.state + (if x.1.Dispatch? then 1 else 0)
    ensures x.1.Dispatch? ==> x.1.state == x.0.state
    ensures r.error.None? ==>
      var d := Reassemble(decode, c.buffer, r.value);
      && x.0.buffer == d.buffer
      && (x.1.Dispatch? ==> d.decoded.Complete? && x.1.tlv == d.decoded.tlv)
  {
    if r.error.Some? then (c, ErrorReported(r.error.value))
    else
      var d := Reassemble(decode, c.buffer, r.value);
      match d.decoded
      case MoreDataNeeded => (Control(c.state, true, d.buffer), AwaitingFragment)
      case Complete(tlv) => (Control(c.state + 1, false, d.buffer), Dispatch(c.state + 1, tlv))
  }

  /** The two calls the driver makes. */
  datatype Event = GetRequest | HandleResponse(response: Response)

  datatype Observation = Sent(outbound: Outbound) | Received(inbound: Inbound)

  function Next(decode: Bytes -> Tlv8, c: Control, e: Event): (Control, Observation)
  {
    match e
    case GetRequest => var (c', o) := Send(c); (c', Sent(o))
    case HandleResponse(r) => var (c', i) := Receive(decode, c, r); (c', Received(i))
  }

  /** The control states a run passes through, the starting one included. */
  function Trace(decode: Bytes -> Tlv8, c: Control, es: seq<Event>): (t: seq<Control>)
    ensures |t| == |es| + 1 && t[0] == c
    decreases |es|
  {
    if es == [] then [c] else [c] + Trace(decode, Next(decode, c, es[0]).0, es[1..])
  }

  /** What each call of a run produced. */
  function Observe(decode: Bytes -> Tlv8, c: Control, es: seq<Event>): (obs: seq<Observation>)
    ensures |obs| == |es|
    decreases |es|
  {
    if es == [] then [] else [Next(decode, c, es[0]).1] + Observe(decode, Next(decode, c, es[0]).0, es[1..])
  }

  /** Unfolding one call of a run. */
  lemma {:induction false} RunUnfold(decode: Bytes -> Tlv8, c: Control, e: Event, es: seq<Event>)
    ensures Trace(decode, c, [e] + es) == [c] + Trace(decode, Next(decode, c, e).0, es)
    ensures Observe(decode, c, [e] + es) == [Next(decode, c, e).1] + Observe(decode, Next(decode, c, e).0, es)
  {
    assert ([e] + es)[0] == e;
    assert ([e] + es)[1..] == es;
  }

  /** Along t the counter never decreases and rises by at most one per position. */
  predicate UnitSteps(t: seq<Control>)
  {
    forall i, j :: 0 <= i <= j < |t| ==> t[i].state <= t[j].state <= t[i].state + (j - i)
  }

  /**
   * Across any run the counter never decreases and grows by at most one per
   * call: between positions i and j it rises by at most j - i.
   */
  lemma {:induction false} StateMovesByUnitSteps(decode: Bytes -> Tlv8, c: Control, es: seq<Event>)
    ensures UnitSteps(Trace(decode, c, es))
    decreases |es|
  {
    if es != [] {
      var c1 := Next(decode, c, es[0]).0;
      assert c.state <= c1.state <= c.state + 1;
      StateMovesByUnitSteps(decode, c1, es[1..]);
      var t := Trace(decode, c, es);
      var t1 := Trace(decode, c1, es[1..]);
      assert t == [c] + t1;
      forall i, j | 0 <= i <= j < |t|
        ensures t[i].state <= t[j].state <= t[i].state + (j - i)
      {
        if 0 < i {
          assert t[i] == t1[i - 1] && t[j] == t1[j - 1];
        } else if 0 < j {
          assert t[j] == t1[j - 1] && t1[0] == c1;
        }
      }
    }
  }

  /** A response that carries a continuation chunk. */
  predicate IsContinuation(decode: Bytes -> Tlv8, r: Response)
  {
    r.error.None? && FragmentData in decode(r.value)
  }

  /** A response that carries the last chunk of a fragmented message. */
  predicate IsFinal(decode: Bytes -> Tlv8, r: Response)
  {
    r.error.None? && FragmentData !in decode(r.value) && FragmentLast in decode(r.value)
  }

  /** The continuation chunks of a sequence of responses, concatenated in order. */
  function Chunks(decode: Bytes -> Tlv8, rs: seq<Response>): Bytes
    requires forall i :: 0 <= i < |rs| ==> IsContinuation(decode, rs[i])
  {
    if rs == [] then []
    else assert IsContinuation(decode, rs[0]); decode(rs[0].value)[FragmentData] + Chunks(decode, rs[1..])
  }

  /** Each continuation chunk followed by the driver's next getRequest. */
  function Acknowledged(rs: seq<Response>): (es: seq<Event>)
    ensures |es| == 2 * |rs|
  {
    if rs == [] then [] else [HandleResponse(rs[0]), GetRequest] + Acknowledged(rs[1..])
  }

  /** handleResponse on a continuation chunk buffers it and owes an acknowledgement. */
  lemma ContinuationStep(decode: Bytes -> Tlv8, c: Control, r: Response)
    requires IsContinuation(decode, r)
    ensures Next(decode, c, HandleResponse(r))
         == (Control(c.state, true, c.buffer + decode(r.value)[FragmentData]), Received(AwaitingFragment))
  {
  }

  /** handleResponse on the last chunk completes the step with the reassembled body. */
  lemma FinalStep(decode: Bytes -> Tlv8, c: Control, r: Response)
    requires IsFinal(decode, r)
    ensures Next(decode, c, HandleResponse(r))
         == (Control(c.state + 1, false, []),
             Received(Dispatch(c.state + 1, decode(c.buffer + decode(r.value)[FragmentLast]))))
  {
  }

  /** A continuation chunk and its acknowledgement, at the head of a run. */
  lemma {:induction false} AcknowledgedChunk(decode: Bytes -> Tlv8, c: Control, r: Response, es: seq<Event>)
    requires IsContinuation(decode, r)
    ensures var c2 := Control(c.state, false, c.buffer + decode(r.value)[FragmentData]);
      && Trace(decode, c, [HandleResponse(r), GetRequest] + es)
         == [c, c2.(ack := true)] + Trace(decode, c2, es)
      && Observe(decode, c, [HandleResponse(r), GetRequest] + es)
         == [Received(AwaitingFragment), Sent(Acknowledge)] + Observe(decode, c2, es)
  {
    var c1 := Control(c.state, true, c.buffer + decode(r.value)[FragmentData]);
    assert [HandleResponse(r), GetRequest] + es == [HandleResponse(r)] + ([GetRequest] + es);
    ContinuationStep(decode, c, r);
    RunUnfold(decode, c, HandleResponse(r), [GetRequest] + es);
    RunUnfold(decode, c1, GetRequest, es);
  }

  /** What the driver sees while n continuation chunks arrive: each is buffered, then acknowledged. */
  function AcknowledgementPattern(n: nat): (obs: seq<Observation>)
    ensures |obs| == 2 * n
  {
    if n == 0 then [] else [Received(AwaitingFragment), Sent(Acknowledge)] + AcknowledgementPattern(n - 1)
  }

  /**
   * Fragment reassembly over a whole exchange: continuation chunks, each
   * answered by an acknowledgement, then the last chunk. Every chunk is
   * acknowledged exactly once with the counter held still, and the step
   * completes on the last chunk with the buffer emptied and the decoded body
   * being that of the starting buffer, every chunk in order, then the last chunk.
   */
  lemma {:induction false} FragmentedResponse(decode: Bytes -> Tlv8, c: Control, rs: seq<Response>, last: Response)
    requires forall i :: 0 <= i < |rs| ==> IsContinuation(decode, rs[i])
    requires IsFinal(decode, last)
    ensures var es := Acknowledged(rs) + [HandleResponse(last)];
      var t := Trace(decode, c, es);
      && Observe(decode, c, es) == AcknowledgementPattern(|rs|)
           + [Received(Dispatch(c.state + 1, decode(c.buffer + Chunks(decode, rs) + decode(last.value)[FragmentLast])))]
      && t[|es|] == Control(c.state + 1, false, [])
      && forall k | 0 <= k < |es| :: t[k].state == c.state
    decreases |rs|
  {
    var es := Acknowledged(rs) + [HandleResponse(last)];
    if rs == [] {
      assert es == [HandleResponse(last)];
      RunUnfold(decode, c, HandleResponse(last), []);
      FinalStep(decode, c, last);
      assert c.buffer + Chunks(decode, rs) == c.buffer;
    } else {
      var r := rs[0];
      var rest := rs[1..];
      var chunk := decode(r.value)[FragmentData];
      var es' := Acknowledged(rest) + [HandleResponse(last)];
      var c2 := Control(c.state, false, c.buffer + chunk);
      var t := Trace(decode, c, es);
      var t' := Trace(decode, c2, es');
      var obs := Observe(decode, c, es);
      var obs' := Observe(decode, c2, es');
      assert t == [c, c2.(ack := true)] + t' && obs == [Received(AwaitingFragment), Sent(Acknowledge)] + obs' by {
        assert es == [HandleResponse(r), GetRequest] + es';
        AcknowledgedChunk(decode, c, r, es');
      }
      assert c2.buffer + Chunks(decode, rest) == c.buffer + Chunks(decode, rs) by {
        assert Chunks(decode, rs) == chunk + Chunks(decode, rest);
      }
      FragmentedResponse(decode, c2, rest, last);
      forall k | 0 <= k < |es| ensures t[k].state == c.state {
        if 2 <= k { assert t[k] == t'[k - 2]; }
      }
    }
  }

  /** A response that completes its step in one piece. */
  predicate Unfragmented(decode: Bytes -> Tlv8, r: Response)
  {
    r.error.None? && FragmentData !in decode(r.value)
  }

  /** A handleResponse call that completed a step and dispatched state s. */
  predicate DispatchedAt(o: Observation, s: nat)
  {
    o.Received? && o.inbound.Dispatch? && o.inbound.state == s
  }

  /** Strict alternation: getRequest, then handleResponse with the accessory's answer. */
  function Rounds(rs: seq<Response>): (es: seq<Event>)
    ensures |es| == 2 * |rs|
  {
    if rs == [] then [] else [GetRequest, HandleResponse(rs[0])] + Rounds(rs[1..])
  }

  /**
   * Observations of strict alternation from counter s: getRequest builds the
   * message of state s + 1, then handleResponse dispatches state s + 2, and so on.
   */
  predicate Lockstep(obs: seq<Observation>, s: nat)
    decreases |obs|
  {
    if |obs| < 2 then obs == []
    else obs[0] == Sent(Advance(s + 1)) && DispatchedAt(obs[1], s + 2) && Lockstep(obs[2..], s + 2)
  }

  /**
   * Under strict alternation with unfragmented responses, getRequest always
   * builds the message of the next state and handleResponse dispatches the one
   * after it; each round moves the counter by exactly two and owes no
   * acknowledgement.
   */
  lemma {:induction false} LockstepRounds(decode: Bytes -> Tlv8, c: Control, rs: seq<Response>)
    requires !c.ack
    requires forall i :: 0 <= i < |rs| ==> Unfragmented(decode, rs[i])
    ensures var es := Rounds(rs);
      var t := Trace(decode, c, es);
      && Lockstep(Observe(decode, c, es), c.state)
      && t[|es|].state == c.state + |es| && !t[|es|].ack
    decreases |rs|
  {
    var es := Rounds(rs);
    if rs == [] {
      assert es == [];
    } else {
      var r := rs[0];
      var es' := Rounds(rs[1..]);
      var c1 := c.(state := c.state + 1);
      var (c2, i2) := Receive(decode, c1, r);
      var t := Trace(decode, c, es);
      var t' := Trace(decode, c2, es');
      var obs := Observe(decode, c, es);
      var obs' := Observe(decode, c2, es');
      assert t == [c, c1] + t' && obs == [Sent(Advance(c.state + 1)), Received(i2)] + obs' by {
        assert es == [GetRequest] + ([HandleResponse(r)] + es');
        assert Next(decode, c, GetRequest) == (c1, Sent(Advance(c.state + 1)));
        RunUnfold(decode, c, GetRequest, [HandleResponse(r)] + es');
        RunUnfold(decode, c1, HandleResponse(r), es');
      }
      assert c2.state == c.state + 2 && !c2.ack && i2.Dispatch?;
      LockstepRounds(decode, c2, rs[1..]);
      assert obs[2..] == obs';
      assert t[|es|] == t'[|es'|];
    }
  }

  /**
   * A fresh session answered by three unfragmented responses sends M1, M3 and
   * M5, dispatches M2, M4 and M6, has more requests before each getRequest and
   * none once M6 has been handled.
   */
  lemma CompleteHandshake(decode: Bytes -> Tlv8, m2: Response, m4: Response, m6: Response)
    requires Unfragmented(decode, m2) && Unfragmented(decode, m4) && Unfragmented(decode, m6)
    ensures var es := Rounds([m2, m4, m6]);
      var t := Trace(decode, Start, es);
      var obs := Observe(decode, Start, es);
      && obs[0] == Sent(Advance(1)) && obs[2] == Sent(Advance(3)) && obs[4] == Sent(Advance(5))
      && DispatchedAt(obs[1], 2) && DispatchedAt(obs[3], 4) && DispatchedAt(obs[5], 6)
      && Live(false, t[0]) && Live(false, t[2]) && Live(false, t[4])
      && !Live(false, t[6])
  {
    var rs := [m2, m4, m6];
    var es := Rounds(rs);
    LockstepRounds(decode, Start, rs);
    StateMovesByUnitSteps(decode, Start, es);
    var t := Trace(decode, Start, es);
    var obs := Observe(decode, Start, es);
    assert t[0].state <= t[2].state <= t[0].state + 2;
    assert t[2].state <= t[4].state <= t[2].state + 2;
    assert Lockstep(obs, 0);
    var o2 := obs[2..];
    assert Lockstep(o2, 2) && o2[0] == obs[2] && o2[1] == obs[3];
    var o4 := o2[2..];
    assert Lockstep(o4, 4) && o4[0] == obs[4] && o4[1] == obs[5];
  }
}
