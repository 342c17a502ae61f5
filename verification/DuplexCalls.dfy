/**
 What a close and a shared RequestID do to the calls of a session
 (crates/mutiny-duplex/src/lib.rs): nothing is sent once the session is closed, and a
 waiting call loses its table entry without an answer only to another call with its id.
 */
module DuplexCalls {
  import opened Wrappers
  import opened Runs
  import opened Duplex

  // ------------------------------------------------------------------- close

  /** A call whose frame has been written. */
  predicate Sent(pc: CallPc) {
    || pc.Waiting? || pc.Expired?
    || (pc.Done? && (pc.outcome.Got? || pc.outcome.ReaderStopped? || pc.outcome.TimedOut?))
  }

  /** Since `s`, a closed session has taken no call and sent nothing. */
  ghost predicate NothingNew(s: Session, s': Session) {
    && s'.closed && |s'.calls| == |s.calls|
    && forall t :: 0 <= t < |s.calls| ==>
         s'.calls[t].id == s.calls[t].id && (Sent(s'.calls[t].pc) <==> Sent(s.calls[t].pc))
  }

  lemma CallSendsNothing(s: Session, x: Session, e: Event, t: nat)
    requires NothingNew(s, x) && t < |x.calls| && CallStep(x, e, t).Success?
    ensures NothingNew(s, CallStep(x, e, t).value)
  {
    var y := CallStep(x, e, t).value;
    assert |y.calls| == |x.calls| && y.closed;
    assert forall u :: 0 <= u < |x.calls| && u != t ==> y.calls[u] == x.calls[u];
  }

  lemma StepSendsNothing(s: Session, x: Session, e: Event)
    requires NothingNew(s, x) && Step(x, e).Success?
    ensures NothingNew(s, Step(x, e).value)
  {
    if CallerOf(e).Some? {
      CallSendsNothing(s, x, e, CallerOf(e).value);
    }
  }

  /** Whatever happens after a close, no call is taken and no frame is sent any more. */
  lemma CloseStopsRequests(s: Session, events: seq<Event>)
    requires Run(Machine(), s, [Close] + events).Success?
    ensures NothingNew(s, Run(Machine(), s, [Close] + events).value)
  {
    RunOne(Machine(), s, Close);
    RunSplits(Machine(), s, [Close], events);
    var inv := (x: Session) => NothingNew(s, x);
    forall x, e | inv(x) && Machine()(x, e).Success? ensures inv(Machine()(x, e).value) {
      StepSendsNothing(s, x, e);
    }
    RunInvariant(Machine(), inv, Step(s, Close).value, events);
  }

  /** A request is taken exactly when it expects something and the session is open. */
  lemma RequestTakenIff(s: Session, id: nat, expected: seq<nat>, fits: bool)
    ensures Step(s, Request(id, expected, fits)).Success?
    ensures var s' := Step(s, Request(id, expected, fits)).value;
            s' == if |expected| > 0 && !s.closed
                  then s.(calls := s.calls + [Call(id, expected, fits, Checked, [])]) else s
  {
  }

  /** A read error ends the session: every listed call is told, and nothing is left in the table. */
  lemma ReadErrorEnds(s: Session)
    requires Inv(s) && s.reader.Reading?
    ensures var r := Run(Machine(), s, [ReadError, SetClosed, Drain]);
            && r.Success? && r.value.reader.Exited? && r.value.closed && r.value.pending == map[]
            && |r.value.calls| == |s.calls|
            && forall t :: 0 <= t < |s.calls| && Listed(s, t) ==> r.value.calls[t].inbox == [Stopped]
  {
    var s1 := s.(reader := Closing);
    var s2 := s1.(closed := true, reader := Draining);
    assert Step(s, ReadError) == Success(s1) && Step(s1, SetClosed) == Success(s2);
    StepKeepsInv(s, ReadError);
    StepKeepsInv(s1, SetClosed);
    DrainTellsAll(s2);
    RunOfThree(s, ReadError, SetClosed, Drain, s1, s2, Step(s2, Drain).value);
    assert forall t :: 0 <= t < |s.calls| && Listed(s, t) ==> Listed(s2, t);
  }

  // ------------------------------------------------------------- lost entries

  /** The steps that take the entry of call `t` away. */
  predicate Unlists(s: Session, e: Event, t: nat)
    requires t < |s.calls|
  {
    match e
    case Match => s.reader.Routing? && s.reader.frame.id == s.calls[t].id
                  && s.reader.frame.messageType in s.calls[t].expected
    case Drain => true
    case RemoveUnsent(u) => u < |s.calls| && s.calls[u].id == s.calls[t].id
    case RemoveExpired(u) => u < |s.calls| && s.calls[u].id == s.calls[t].id
    case _ => false
  }

  /** An entry goes exactly with its answer, with the drain, or with a call of its id that gives up. */
  lemma EntryLostIff(s: Session, e: Event, t: nat)
    requires Inv(s) && t < |s.calls| && Listed(s, t) && Step(s, e).Success?
    ensures t < |Step(s, e).value.calls|
    ensures !Listed(Step(s, e).value, t) <==> Unlists(s, e, t)
  {
    if CallerOf(e).Some? {
      CallUnlists(s, e, CallerOf(e).value, t);
    }
  }

  lemma CallUnlists(s: Session, e: Event, u: nat, t: nat)
    requires t < |s.calls| && u < |s.calls| && CallerOf(e) == Some(u) && Listed(s, t) && CallStep(s, e, u).Success?
    ensures |CallStep(s, e, u).value.calls| == |s.calls|
    ensures !Listed(CallStep(s, e, u).value, t) <==> Unlists(s, e, t)
  {
  }

  ghost predicate DistinctCalls(s: Session) {
    forall t, u :: 0 <= t < u < |s.calls| ==> s.calls[t].id != s.calls[u].id
  }

  /** A call that still has a sender: listed, or just matched. */
  ghost predicate Attached(s: Session, t: nat)
    requires t < |s.calls|
  {
    Listed(s, t) || (s.reader.Matched? && s.reader.call == t)
  }

  predicate Unanswered(c: Call) {
    (c.pc.Registered? || c.pc.SendFailed? || c.pc.Waiting? || c.pc.Expired?) && c.inbox == []
  }

  ghost predicate AllAttached(s: Session) {
    forall t :: 0 <= t < |s.calls| && Unanswered(s.calls[t]) ==> Attached(s, t)
  }

  lemma CallKeepsAttached(s: Session, e: Event, u: nat)
    requires DistinctCalls(s) && AllAttached(s) && u < |s.calls| && CallStep(s, e, u).Success?
    ensures AllAttached(CallStep(s, e, u).value)
  {
    var s' := CallStep(s, e, u).value;
    assert s'.reader == s.reader && |s'.calls| == |s.calls|;
    forall t | 0 <= t < |s'.calls| && Unanswered(s'.calls[t]) ensures Attached(s', t) {
      if t != u {
        assert s'.calls[t] == s.calls[t] && s.calls[t].id != s.calls[u].id;
      }
    }
  }

  lemma MatchKeepsAttached(s: Session)
    requires TableOk(s) && AllAttached(s) && Step(s, Match).Success?
    ensures AllAttached(Step(s, Match).value)
  {
    var s' := Step(s, Match).value;
    forall t | 0 <= t < |s'.calls| && Unanswered(s'.calls[t]) ensures Attached(s', t) {
      assert Attached(s, t);
    }
  }

  lemma DeliverKeepsAttached(s: Session)
    requires AllAttached(s) && Step(s, Deliver).Success?
    ensures AllAttached(Step(s, Deliver).value)
  {
    var s' := Step(s, Deliver).value;
    forall t | 0 <= t < |s'.calls| && Unanswered(s'.calls[t]) ensures Attached(s', t) {
      assert t != s.reader.call && s'.calls[t] == s.calls[t];
      assert Attached(s, t);
    }
  }

  lemma DrainKeepsAttached(s: Session)
    requires AllAttached(s) && Step(s, Drain).Success?
    ensures AllAttached(Step(s, Drain).value)
  {
    var s' := Step(s, Drain).value;
    forall t | 0 <= t < |s'.calls| ensures !Unanswered(s'.calls[t]) {
      assert Unanswered(s.calls[t]) ==> Attached(s, t);
    }
  }

  /** The other steps of the reader, and those of no call, touch neither entries nor inboxes. */
  lemma OthersKeepAttached(s: Session, e: Event)
    requires AllAttached(s) && CallerOf(e).None? && Step(s, e).Success? && !e.Match? && !e.Deliver? && !e.Drain?
    ensures AllAttached(Step(s, e).value)
  {
    var s' := Step(s, e).value;
    assert s'.pending == s.pending && s.calls <= s'.calls && (s.reader.Matched? ==> s'.reader == s.reader);
    assert forall t :: |s.calls| <= t < |s'.calls| ==> s'.calls[t].pc.Checked?;
    forall t | 0 <= t < |s'.calls| && Unanswered(s'.calls[t]) ensures Attached(s', t) {
      assert t < |s.calls| && Attached(s, t);
    }
  }

  lemma ReaderKeepsAttached(s: Session, e: Event)
    requires TableOk(s) && AllAttached(s) && CallerOf(e).None? && Step(s, e).Success?
    ensures AllAttached(Step(s, e).value)
  {
    match e
    case Match => MatchKeepsAttached(s);
    case Deliver => DeliverKeepsAttached(s);
    case Drain => DrainKeepsAttached(s);
    case _ => OthersKeepAttached(s, e);
  }

  lemma StepKeepsIds(s: Session, e: Event)
    requires Step(s, e).Success? && DistinctCalls(Step(s, e).value)
    ensures DistinctCalls(s)
  {
    var s' := Step(s, e).value;
    if CallerOf(e).Some? {
      CallKeepsIds(s, e, CallerOf(e).value);
    }
    forall t, u | 0 <= t < u < |s.calls| ensures s.calls[t].id != s.calls[u].id {
      assert s'.calls[t].id != s'.calls[u].id;
    }
  }

  lemma CallKeepsIds(s: Session, e: Event, u: nat)
    requires u < |s.calls| && CallStep(s, e, u).Success?
    ensures var s' := CallStep(s, e, u).value;
            |s'.calls| == |s.calls| && forall t :: 0 <= t < |s.calls| ==> s'.calls[t].id == s.calls[t].id
  {
  }

  lemma StepKeepsAttached(s: Session, e: Event)
    requires Inv(s) && Step(s, e).Success? && (DistinctCalls(s) ==> AllAttached(s))
    ensures DistinctCalls(Step(s, e).value) ==> AllAttached(Step(s, e).value)
  {
    if DistinctCalls(Step(s, e).value) {
      StepKeepsIds(s, e);
      if CallerOf(e).Some? {
        CallKeepsAttached(s, e, CallerOf(e).value);
      } else {
        ReaderKeepsAttached(s, e);
      }
    }
  }

  /** As long as no RequestID is used twice, no waiting call finds itself without a sender. */
  lemma FreshIdsStayAttached(limits: Limits, events: seq<Event>, t: nat)
    requires Run(Machine(), NewSession(limits), events).Success?
    requires var s := Run(Machine(), NewSession(limits), events).value;
             t < |s.calls| && DistinctCalls(s)
    ensures Step(Run(Machine(), NewSession(limits), events).value, Disconnected(t)).Failure?
  {
    var inv := (s: Session) => Inv(s) && (DistinctCalls(s) ==> AllAttached(s));
    NewSessionOk(limits);
    forall s, e | inv(s) && Machine()(s, e).Success? ensures inv(Machine()(s, e).value) {
      StepKeepsInv(s, e);
      StepKeepsAttached(s, e);
    }
    RunInvariant(Machine(), inv, NewSession(limits), events);
  }

  /** A waiting call without a sender is told that the reader stopped. */
  lemma DetachedIff(s: Session, t: nat)
    requires t < |s.calls|
    ensures Step(s, Disconnected(t)).Success? <==> s.calls[t].pc.Waiting? && s.calls[t].inbox == [] && !Attached(s, t)
    ensures Step(s, Disconnected(t)).Success? ==>
              Step(s, Disconnected(t)).value == SetPc(s, t, Done(ReaderStopped))
  {
  }

  /** A call is made and its response is matched. */
  function FirstSteps(expected: seq<nat>, f: Frame): seq<Event> {
    [Request(f.id, expected, true), Register(0), Send(0, true)] + [ReadFrame(f), CheckRate(true), Match]
  }

  /** It times out before it looks, another call takes its RequestID, and its removal hits that one. */
  function SecondSteps(expected: seq<nat>, f: Frame): seq<Event> {
    [Expire(0)] + [Request(f.id, expected, true), Register(1), Send(1, true)] + [RemoveExpired(0)] + [Disconnected(1)]
  }

  lemma FirstCall(s: Session, expected: seq<nat>, f: Frame) returns (s6: Session)
    requires s == NewSession(s.limits)
    requires s.limits.maxPending >= 1 && f.messageType in expected && WithinRate(s.limits, f)
    ensures Run(Machine(), s, FirstSteps(expected, f)) == Success(s6)
    ensures !s6.closed && s6.pending == map[] && s6.limits == s.limits
    ensures s6.calls == [Call(f.id, expected, true, Waiting, [])] && s6.reader == Matched(f, 0)
  {
    var c := Call(f.id, expected, true, Checked, []);
    RequestSent(s, expected, f);
    var s3 := s.(calls := s.calls + [c.(pc := Waiting)], pending := s.pending[f.id := 0]);
    s6 := RequestInFlight(s, s3, c, f);
    RunSplits(Machine(), s, [Request(f.id, expected, true), Register(0), Send(0, true)],
              [ReadFrame(f), CheckRate(true), Match]);
  }

  lemma SecondCall(s6: Session, expected: seq<nat>, f: Frame) returns (s12: Session)
    requires expected != [] && !s6.closed && s6.pending == map[] && s6.limits.maxPending >= 1
    requires s6.calls == [Call(f.id, expected, true, Waiting, [])] && s6.reader == Matched(f, 0)
    ensures Run(Machine(), s6, SecondSteps(expected, f)) == Success(s12)
    ensures !s12.closed && |s12.calls| == 2 && s12.calls[1] == Call(f.id, expected, true, Done(ReaderStopped), [])
  {
    var s7 := SetPc(s6, 0, Expired);
    var request := [Request(f.id, expected, true), Register(1), Send(1, true)];
    RunOne(Machine(), s6, Expire(0));
    RequestSent(s7, expected, f);
    RunSplits(Machine(), s6, [Expire(0)], request);
    var s10 := Run(Machine(), s7, request).value;
    var s11 := Step(s10, RemoveExpired(0)).value;
    RunOne(Machine(), s10, RemoveExpired(0));
    RunSplits(Machine(), s6, [Expire(0)] + request, [RemoveExpired(0)]);
    assert s11.pending == map[] && s11.calls[1] == Call(f.id, expected, true, Waiting, []);
    DetachedIff(s11, 1);
    s12 := Step(s11, Disconnected(1)).value;
    RunOne(Machine(), s11, Disconnected(1));
    RunSplits(Machine(), s6, [Expire(0)] + request + [RemoveExpired(0)], [Disconnected(1)]);
  }

  /**
   A second call with the RequestID of one that has just been answered is cut off by the
   timeout of the first, in a session that stays open.
   */
  lemma SharedIdCutsOff(limits: Limits, expected: seq<nat>, f: Frame)
    requires limits.maxPending >= 1 && f.messageType in expected && WithinRate(limits, f)
    ensures var r := Run(Machine(), NewSession(limits), FirstSteps(expected, f) + SecondSteps(expected, f));
            && r.Success? && !r.value.closed && |r.value.calls| == 2
            && r.value.calls[1] == Call(f.id, expected, true, Done(ReaderStopped), [])
  {
    var s := NewSession(limits);
    var s6 := FirstCall(s, expected, f);
    var s12 := SecondCall(s6, expected, f);
    RunSplits(Machine(), s, FirstSteps(expected, f), SecondSteps(expected, f));
  }
}
