/**
 Request routing over one full-duplex session (crates/mutiny-duplex/src/lib.rs).

 Callers, their timeouts and the one reader share a pending table, a bounded
 queue and a closed flag. Every step below is one locked section or one atomic
 access to them, so a run is any interleaving of such steps. `Send` stands where the
 closed flag is read; the write that follows under the writer lock touches nothing that
 other steps look at, and only its result, `written`, matters. `received`, `fates`,
 `taken`, `offered` and the callers' inboxes are history: what came in, where it went, what
 was taken off the queue, and which call each frame answered when it was matched.
 */
module Duplex {
  import opened Wrappers
  import opened Runs

  datatype Frame = Frame(id: nat, messageType: nat, size: nat)

  datatype Limits = Limits(maxPending: nat, maxQueue: nat, maxFrames: nat, maxBytes: nat)

  datatype Delivery = Response(frame: Frame) | Stopped

  datatype Outcome = Duplicate | PendingLimit | TooLarge | SendError | Got(frame: Frame) | ReaderStopped | TimedOut

  /** Where a call of `request_with_id` is. */
  datatype CallPc = Checked | Registered | SendFailed | Waiting | Expired | Done(outcome: Outcome)

  /** One call; `fits` says whether its payload fits a frame. */
  datatype Call = Call(id: nat, expected: seq<nat>, fits: bool, pc: CallPc, inbox: seq<Delivery>)

  datatype ReaderPc =
    | Reading
    | HasFrame(frame: Frame)
    | Routing(frame: Frame)
    | Matched(frame: Frame, call: nat)
    | Unmatched(frame: Frame)
    | Closing
    | Draining
    | Exited

  datatype Fate = ToWaiter(call: nat) | ToQueue | ByClose

  datatype Session = Session(
    limits: Limits, calls: seq<Call>, pending: map<nat, nat>, queue: seq<Frame>, closed: bool,
    reader: ReaderPc, windowFrames: nat, windowBytes: nat, received: seq<Frame>, fates: seq<Fate>,
    taken: seq<Frame>, offered: seq<Option<nat>>)

  datatype Event =
    | Request(id: nat, expected: seq<nat>, fits: bool)
    | Register(call: nat)
    | BuildFrame(call: nat)
    | Send(call: nat, written: bool)
    | RemoveUnsent(call: nat)
    | Receive(call: nat)
    | Expire(call: nat)
    | RemoveExpired(call: nat)
    | Disconnected(call: nat)
    | TakeUnsolicited
    | Close
    | ReadFrame(frame: Frame)
    | ReadError
    | CheckRate(newWindow: bool)
    | Match
    | Deliver
    | Enqueue
    | SetClosed
    | Drain

  function NewSession(limits: Limits): Session {
    Session(limits, [], map[], [], false, Reading, 0, 0, [], [], [], [])
  }

  function SetPc(s: Session, t: nat, pc: CallPc): Session
    requires t < |s.calls|
  {
    s.(calls := s.calls[t := s.calls[t].(pc := pc)])
  }

  /** `request_with_id`, one step of call `t`. */
  function CallStep(s: Session, e: Event, t: nat): (r: Result<Session>)
    requires t < |s.calls|
  {
    var call := s.calls[t];
    match e
    case Register(_) =>
      if !call.pc.Checked? then Failure
      else if call.id in s.pending then Success(SetPc(s, t, Done(Duplicate)))
      else if |s.pending| >= s.limits.maxPending then Success(SetPc(s, t, Done(PendingLimit)))
      else Success(SetPc(s.(pending := s.pending[call.id := t]), t, Registered))
    case BuildFrame(_) =>
      if call.pc.Registered? && !call.fits then Success(SetPc(s, t, Done(TooLarge))) else Failure
    case Send(_, written) =>
      if !call.pc.Registered? || !call.fits then Failure
      else if s.closed || !written then Success(SetPc(s, t, SendFailed))
      else Success(SetPc(s, t, Waiting))
    case RemoveUnsent(_) =>
      if call.pc.SendFailed? then Success(SetPc(s.(pending := s.pending - {call.id}), t, Done(SendError))) else Failure
    case Receive(_) =>
      if call.pc.Waiting? && call.inbox != [] then
        Success(SetPc(s, t, Done(if call.inbox[0].Response? then Got(call.inbox[0].frame) else ReaderStopped)))
      else Failure
    case Expire(_) => if call.pc.Waiting? && call.inbox == [] then Success(SetPc(s, t, Expired)) else Failure
    case RemoveExpired(_) =>
      if call.pc.Expired? then Success(SetPc(s.(pending := s.pending - {call.id}), t, Done(TimedOut))) else Failure
    case Disconnected(_) =>
      if call.pc.Waiting? && call.inbox == [] && !(call.id in s.pending && s.pending[call.id] == t)
         && !(s.reader.Matched? && s.reader.call == t)
      then Success(SetPc(s, t, Done(ReaderStopped))) else Failure
    case _ => Failure
  }

  function Post(s: Session, t: nat, d: Delivery): Session
    requires t < |s.calls|
  {
    s.(calls := s.calls[t := s.calls[t].(inbox := s.calls[t].inbox + [d])])
  }

  /** Does the frame answer a pending request? */
  predicate Answers(s: Session, f: Frame) {
    f.id in s.pending && s.pending[f.id] < |s.calls| && f.messageType in s.calls[s.pending[f.id]].expected
  }

  /** The listed call that waits for this RequestID and this type, if there is one. */
  function Answerer(s: Session, f: Frame): Option<nat> {
    if f.id !in s.pending then None
    else
      var t := s.pending[f.id];
      if t < |s.calls| && f.messageType in s.calls[t].expected then Some(t) else None
  }

  /** The loop of `spawn_reader`, one step. */
  function ReaderStep(s: Session, e: Event): (r: Result<Session>) {
    match e
    case ReadFrame(f) =>
      if s.reader.Reading? then Success(s.(reader := HasFrame(f), received := s.received + [f])) else Failure
    case ReadError => if s.reader.Reading? then Success(s.(reader := Closing)) else Failure
    case CheckRate(newWindow) =>
      if !s.reader.HasFrame? then Failure
      else
        var frames := (if newWindow then 0 else s.windowFrames) + 1;
        var bytes := (if newWindow then 0 else s.windowBytes) + 26 + s.reader.frame.size;
        var s' := s.(windowFrames := frames, windowBytes := bytes);
        if frames > s.limits.maxFrames || bytes > s.limits.maxBytes
        then Success(s'.(reader := Closing, fates := s.fates + [ByClose], offered := s.offered + [None]))
        else Success(s'.(reader := Routing(s.reader.frame)))
    case Match =>
      if !s.reader.Routing? then Failure
      else
        var f := s.reader.frame;
        var s' := s.(offered := s.offered + [Answerer(s, f)]);
        if Answers(s, f) then Success(s'.(reader := Matched(f, s.pending[f.id]), pending := s.pending - {f.id}))
        else Success(s'.(reader := Unmatched(f)))
    case Deliver =>
      if s.reader.Matched? && s.reader.call < |s.calls|
      then Success(Post(s, s.reader.call, Response(s.reader.frame))
                   .(reader := Reading, fates := s.fates + [ToWaiter(s.reader.call)]))
      else Failure
    case Enqueue =>
      if !s.reader.Unmatched? then Failure
      else if |s.queue| < s.limits.maxQueue
      then Success(s.(queue := s.queue + [s.reader.frame], reader := Reading, fates := s.fates + [ToQueue]))
      else Success(s.(reader := Closing, fates := s.fates + [ByClose]))
    case SetClosed => if s.reader.Closing? then Success(s.(closed := true, reader := Draining)) else Failure
    case Drain =>
      if s.reader.Draining? then Success(s.(calls := Drained(s), pending := map[], reader := Exited)) else Failure
    case _ => Failure
  }

  /** Draining tells every pending waiter that the reader stopped. */
  function Drained(s: Session): (calls: seq<Call>)
    ensures |calls| == |s.calls|
  {
    seq(|s.calls|, t requires 0 <= t < |s.calls| =>
      if s.calls[t].id in s.pending && s.pending[s.calls[t].id] == t
      then s.calls[t].(inbox := s.calls[t].inbox + [Stopped]) else s.calls[t])
  }

  function Step(s: Session, e: Event): (r: Result<Session>) {
    match e
    case Request(id, expected, fits) =>
      if expected == [] || s.closed then Success(s)
      else Success(s.(calls := s.calls + [Call(id, expected, fits, Checked, [])]))
    case TakeUnsolicited =>
      if s.queue != [] then Success(s.(queue := s.queue[1..], taken := s.taken + [s.queue[0]])) else Failure
    case Close => Success(s.(closed := true))
    case Register(t) => if t < |s.calls| then CallStep(s, e, t) else Failure
    case BuildFrame(t) => if t < |s.calls| then CallStep(s, e, t) else Failure
    case Send(t, _) => if t < |s.calls| then CallStep(s, e, t) else Failure
    case RemoveUnsent(t) => if t < |s.calls| then CallStep(s, e, t) else Failure
    case Receive(t) => if t < |s.calls| then CallStep(s, e, t) else Failure
    case Expire(t) => if t < |s.calls| then CallStep(s, e, t) else Failure
    case RemoveExpired(t) => if t < |s.calls| then CallStep(s, e, t) else Failure
    case Disconnected(t) => if t < |s.calls| then CallStep(s, e, t) else Failure
    case _ => ReaderStep(s, e)
  }

  // -------------------------------------------------------------- invariants

  ghost predicate Listed(s: Session, t: nat)
    requires t < |s.calls|
  {
    s.calls[t].id in s.pending && s.pending[s.calls[t].id] == t
  }

  predicate MayBeListed(pc: CallPc, reader: ReaderPc) {
    || pc.Registered? || pc.SendFailed? || pc == Done(TooLarge)
    || (!reader.Exited? && (pc.Waiting? || pc.Expired?))
  }

  /** A listed call is unanswered and has not returned, except when its payload was too large. */
  ghost predicate ListedOk(s: Session, id: nat)
    requires id in s.pending
  {
    var t := s.pending[id];
    && t < |s.calls| && s.calls[t].id == id && s.calls[t].inbox == []
    && MayBeListed(s.calls[t].pc, s.reader)
  }

  /** What a call may have been sent, and what it may have returned. */
  ghost predicate CallOk(c: Call) {
    && |c.inbox| <= 1
    && (c.inbox != [] && c.inbox[0].Response? ==>
          c.inbox[0].frame.id == c.id && c.inbox[0].frame.messageType in c.expected)
    && (c.pc.Done? && c.pc.outcome.Got? ==> c.inbox == [Response(c.pc.outcome.frame)])
    && (c.pc == Done(TooLarge) ==> !c.fits)
    && (c.pc.Checked? ==> c.inbox == [])
    && (c.pc.SendFailed? || c.pc.Waiting? || c.pc.Expired? ==> c.fits)
  }

  /** The frame the reader holds, if any. */
  function Held(r: ReaderPc): Option<Frame> {
    match r
    case HasFrame(f) => Some(f)
    case Routing(f) => Some(f)
    case Matched(f, _) => Some(f)
    case Unmatched(f) => Some(f)
    case _ => None
  }

  ghost predicate ReaderOk(s: Session) {
    && (s.reader.Matched? ==>
          && s.reader.call < |s.calls| && !Listed(s, s.reader.call)
          && s.calls[s.reader.call].inbox == [] && !s.calls[s.reader.call].pc.Checked?
          && s.calls[s.reader.call].id == s.reader.frame.id
          && s.reader.frame.messageType in s.calls[s.reader.call].expected)
    && (s.reader.Draining? || s.reader.Exited? ==> s.closed)
  }

  /** A fate is lawful: a waiter got this very frame; and the reader stops after a frame it closed on. */
  ghost predicate FateOk(s: Session, i: nat)
    requires i < |s.fates| && i < |s.received|
  {
    match s.fates[i]
    case ToWaiter(t) => t < |s.calls| && s.calls[t].inbox == [Response(s.received[i])]
    case ToQueue => true
    case ByClose => i == |s.received| - 1 && (s.reader.Closing? || s.reader.Draining? || s.reader.Exited?)
  }

  /** Only the frame the reader holds, the last one received, has no fate yet. */
  ghost predicate HeldOk(s: Session) {
    && |s.received| == |s.fates| + (if Held(s.reader).Some? then 1 else 0)
    && (Held(s.reader).Some? ==> s.received[|s.received| - 1] == Held(s.reader).value)
  }

  ghost predicate FatesOk(s: Session) {
    && HeldOk(s)
    && (forall i :: 0 <= i < |s.fates| ==> FateOk(s, i))
    && forall i, k :: 0 <= i < k < |s.fates| && s.fates[i].ToWaiter? && s.fates[k].ToWaiter? ==>
         s.fates[i].call != s.fates[k].call
  }

  /** The received frames that were put on the queue, in order. */
  function Queued(received: seq<Frame>, fates: seq<Fate>): seq<Frame>
    requires |fates| <= |received|
  {
    if fates == [] then []
    else
      var n := |fates| - 1;
      Queued(received, fates[..n]) + if fates[n].ToQueue? then [received[n]] else []
  }

  /** Nothing put on the queue is lost, repeated or reordered, and nothing else is on it. */
  ghost predicate QueueOk(s: Session) {
    |s.fates| <= |s.received| && s.taken + s.queue == Queued(s.received, s.fates)
  }

  /** A call was answered only by a frame whose fate it is. */
  ghost predicate AnswersOk(s: Session) {
    forall t :: 0 <= t < |s.calls| && Answered(s.calls[t]) ==> ToWaiter(t) in s.fates
  }

  predicate Answered(c: Call) {
    exists d :: d in c.inbox && d.Response?
  }

  ghost predicate CapsOk(s: Session) {
    && |s.pending| <= s.limits.maxPending && |s.queue| <= s.limits.maxQueue
    && (s.reader.Routing? ==> s.windowFrames <= s.limits.maxFrames && s.windowBytes <= s.limits.maxBytes)
  }

  ghost predicate TableOk(s: Session) {
    && (forall id :: id in s.pending ==> ListedOk(s, id))
    && (forall t :: 0 <= t < |s.calls| ==> CallOk(s.calls[t]))
    && (forall t :: 0 <= t < |s.calls| && s.calls[t].pc.Checked? ==> !Listed(s, t))
  }

  /** What routing needs of the table, the reader and the fates. */
  ghost predicate RoutingOk(s: Session) {
    TableOk(s) && ReaderOk(s) && FatesOk(s) && CapsOk(s)
  }

  ghost predicate Inv(s: Session) {
    RoutingOk(s) && QueueOk(s) && AnswersOk(s)
  }

  // -------------------------------------------------------------- every step

  lemma MapSizes(m: map<nat, nat>, k: nat, v: nat)
    ensures |m - {k}| <= |m| && |m[k := v]| <= |m| + 1
  {
    assert (m - {k}).Keys == m.Keys - {k};
    assert m[k := v].Keys == m.Keys + {k};
    assert |m.Keys + {k}| <= |m.Keys| + 1;
    assert |m.Keys - {k}| <= |m.Keys|;
  }

  predicate Stopping(r: ReaderPc) { r.Closing? || r.Draining? || r.Exited? }

  /** Fates stay lawful while inboxes and received frames stay as they are. */
  lemma FatesKept(s: Session, s': Session)
    requires FatesOk(s) && s'.fates == s.fates && s'.received == s.received && |s.calls| <= |s'.calls|
    requires forall t :: 0 <= t < |s.calls| ==> s'.calls[t].inbox == s.calls[t].inbox
    requires Held(s'.reader) == Held(s.reader) && (Stopping(s.reader) ==> Stopping(s'.reader))
    ensures FatesOk(s')
  {
    forall i | 0 <= i < |s.fates| ensures FateOk(s', i) {
      assert FateOk(s, i);
    }
  }

  /** A call moves on; the table stays as it is. */
  lemma CallMoves(s: Session, t: nat, pc: CallPc)
    requires RoutingOk(s) && t < |s.calls| && !pc.Checked? && CallOk(s.calls[t].(pc := pc))
    requires Listed(s, t) ==> MayBeListed(pc, s.reader)
    ensures RoutingOk(SetPc(s, t, pc))
  {
    var s' := SetPc(s, t, pc);
    FatesKept(s, s');
    forall id | id in s.pending ensures ListedOk(s', id) {
      assert ListedOk(s, id);
    }
  }

  /** An entry is removed from the table, whoever it belonged to. */
  lemma EntryRemoved(s: Session, id: nat)
    requires RoutingOk(s)
    ensures RoutingOk(s.(pending := s.pending - {id}))
  {
    var s' := s.(pending := s.pending - {id});
    MapSizes(s.pending, id, 0);
    FatesKept(s, s');
    forall k | k in s'.pending ensures ListedOk(s', k) {
      assert ListedOk(s, k);
    }
  }

  lemma RegisterKeeps(s: Session, t: nat)
    requires RoutingOk(s) && Step(s, Register(t)).Success?
    ensures RoutingOk(Step(s, Register(t)).value)
  {
    var call := s.calls[t];
    if call.id in s.pending {
      CallMoves(s, t, Done(Duplicate));
    } else if |s.pending| >= s.limits.maxPending {
      CallMoves(s, t, Done(PendingLimit));
    } else {
      CallMoves(s, t, Registered);
      EntryAdded(SetPc(s, t, Registered), t);
    }
  }

  lemma EntryAdded(s: Session, t: nat)
    requires RoutingOk(s) && t < |s.calls| && s.calls[t].pc.Registered? && s.calls[t].inbox == []
    requires s.calls[t].id !in s.pending && |s.pending| < s.limits.maxPending
    requires s.reader.Matched? ==> s.reader.call != t
    ensures RoutingOk(s.(pending := s.pending[s.calls[t].id := t]))
  {
    MapSizes(s.pending, s.calls[t].id, t);
    FatesKept(s, s.(pending := s.pending[s.calls[t].id := t]));
    TableGrows(s, t);
  }

  lemma TableGrows(s: Session, t: nat)
    requires TableOk(s) && t < |s.calls| && s.calls[t].pc.Registered? && s.calls[t].inbox == []
    requires s.calls[t].id !in s.pending
    ensures TableOk(s.(pending := s.pending[s.calls[t].id := t]))
  {
    var s' := s.(pending := s.pending[s.calls[t].id := t]);
    forall k | k in s'.pending ensures ListedOk(s', k) {
      assert k in s.pending ==> ListedOk(s, k);
    }
  }

  /** A call that leaves the table. */
  lemma RemovalKeeps(s: Session, e: Event, t: nat)
    requires RoutingOk(s) && t < |s.calls| && CallStep(s, e, t).Success? && (e.RemoveUnsent? || e.RemoveExpired?)
    ensures RoutingOk(CallStep(s, e, t).value)
  {
    var call := s.calls[t];
    assert CallOk(call);
    EntryRemoved(s, call.id);
    CallMoves(s.(pending := s.pending - {call.id}), t, Done(if e.RemoveUnsent? then SendError else TimedOut));
  }

  lemma CallStepKeeps(s: Session, e: Event, t: nat)
    requires RoutingOk(s) && t < |s.calls| && CallStep(s, e, t).Success?
    requires !e.Register? && !e.RemoveUnsent? && !e.RemoveExpired?
    ensures RoutingOk(CallStep(s, e, t).value)
  {
    var call := s.calls[t];
    assert CallOk(call);
    if Listed(s, t) { assert ListedOk(s, call.id); }
    match e
    case BuildFrame(_) => CallMoves(s, t, Done(TooLarge));
    case Send(_, written) => CallMoves(s, t, if s.closed || !written then SendFailed else Waiting);
    case Receive(_) =>
      CallMoves(s, t, Done(if call.inbox[0].Response? then Got(call.inbox[0].frame) else ReaderStopped));
    case Expire(_) => CallMoves(s, t, Expired);
    case Disconnected(_) => CallMoves(s, t, Done(ReaderStopped));
  }

  /** The table does not see the reader move before it exits. */
  lemma TableKept(s: Session, s': Session)
    requires TableOk(s) && s'.calls == s.calls && s'.pending == s.pending && !s'.reader.Exited?
    ensures TableOk(s')
  {
    forall k | k in s.pending ensures ListedOk(s', k) {
      assert ListedOk(s, k);
    }
    forall t | 0 <= t < |s.calls| && s.calls[t].pc.Checked? ensures !Listed(s', t) {
      assert !Listed(s, t);
    }
  }

  lemma FrameReadKeeps(s: Session, f: Frame)
    requires RoutingOk(s) && s.reader.Reading?
    ensures RoutingOk(s.(reader := HasFrame(f), received := s.received + [f]))
  {
    var s' := s.(reader := HasFrame(f), received := s.received + [f]);
    TableKept(s, s');
    forall i | 0 <= i < |s.fates| ensures FateOk(s', i) {
      assert FateOk(s, i);
    }
  }

  lemma ReadErrorKeeps(s: Session)
    requires RoutingOk(s) && s.reader.Reading?
    ensures RoutingOk(s.(reader := Closing))
  {
    TableKept(s, s.(reader := Closing));
    FatesKept(s, s.(reader := Closing));
  }

  lemma CheckRateKeeps(s: Session, newWindow: bool)
    requires RoutingOk(s) && Step(s, CheckRate(newWindow)).Success?
    ensures RoutingOk(Step(s, CheckRate(newWindow)).value)
  {
    var s' := Step(s, CheckRate(newWindow)).value;
    TableKept(s, s');
    forall i | 0 <= i < |s.fates| ensures FateOk(s', i) {
      assert FateOk(s, i);
    }
  }

  lemma ReadKeeps(s: Session, e: Event)
    requires RoutingOk(s) && Step(s, e).Success? && (e.ReadFrame? || e.ReadError? || e.CheckRate?)
    ensures RoutingOk(Step(s, e).value)
  {
    match e
    case ReadFrame(f) => FrameReadKeeps(s, f);
    case ReadError => ReadErrorKeeps(s);
    case CheckRate(newWindow) => CheckRateKeeps(s, newWindow);
  }

  lemma MatchKeeps(s: Session)
    requires RoutingOk(s) && Step(s, Match).Success?
    ensures RoutingOk(Step(s, Match).value)
  {
    var f := s.reader.frame;
    var offered := s.offered + [Answerer(s, f)];
    if Answers(s, f) {
      assert ListedOk(s, f.id);
      EntryRemoved(s, f.id);
      var s' := s.(pending := s.pending - {f.id});
      ReaderMoves(s', Matched(f, s.pending[f.id]));
      HistoryKeeps(s'.(reader := Matched(f, s.pending[f.id])), offered);
    } else {
      ReaderMoves(s, Unmatched(f));
      HistoryKeeps(s.(reader := Unmatched(f)), offered);
    }
  }

  lemma HistoryKeeps(s: Session, offered: seq<Option<nat>>)
    requires RoutingOk(s)
    ensures RoutingOk(s.(offered := offered))
  {
    FatesKept(s, s.(offered := offered));
    forall k | k in s.pending ensures ListedOk(s.(offered := offered), k) {
      assert ListedOk(s, k);
    }
  }

  /** The reader moves on with the frame it holds. */
  lemma ReaderMoves(s: Session, r: ReaderPc)
    requires RoutingOk(s) && s.reader.Routing? && Held(r) == Some(s.reader.frame) && (r.Matched? || r.Unmatched?)
    requires ReaderOk(s.(reader := r))
    ensures RoutingOk(s.(reader := r))
  {
    FatesKept(s, s.(reader := r));
    forall k | k in s.pending ensures ListedOk(s.(reader := r), k) {
      assert ListedOk(s, k);
    }
  }

  lemma QuietKeeps(s: Session, e: Event)
    requires RoutingOk(s) && Step(s, e).Success? && (e.Request? || e.TakeUnsolicited? || e.Close? || e.SetClosed?)
    ensures RoutingOk(Step(s, e).value)
  {
    FatesKept(s, Step(s, e).value);
  }

  lemma DeliverKeeps(s: Session)
    requires RoutingOk(s) && Step(s, Deliver).Success?
    ensures RoutingOk(Step(s, Deliver).value)
  {
    var s' := Step(s, Deliver).value;
    forall i | 0 <= i < |s.fates| ensures FateOk(s', i) && (s.fates[i].ToWaiter? ==> s.fates[i].call != s.reader.call) {
      assert FateOk(s, i);
    }
  }

  lemma EnqueueKeeps(s: Session)
    requires RoutingOk(s) && Step(s, Enqueue).Success?
    ensures RoutingOk(Step(s, Enqueue).value)
  {
    var s' := Step(s, Enqueue).value;
    TableKept(s, s');
    forall i | 0 <= i < |s.fates| ensures FateOk(s', i) {
      assert FateOk(s, i);
    }
  }

  lemma DrainKeeps(s: Session)
    requires RoutingOk(s) && Step(s, Drain).Success?
    ensures RoutingOk(Step(s, Drain).value)
  {
    var s' := Step(s, Drain).value;
    forall t | 0 <= t < |s.calls| ensures CallOk(s'.calls[t]) {
      assert CallOk(s.calls[t]);
      if Listed(s, t) { assert ListedOk(s, s.calls[t].id); }
    }
    forall i | 0 <= i < |s.fates| ensures FateOk(s', i) {
      assert FateOk(s, i);
      assert s.fates[i].ToWaiter? ==> !Listed(s, s.fates[i].call);
    }
  }

  lemma StepKeepsRouting(s: Session, e: Event)
    requires RoutingOk(s) && Step(s, e).Success?
    ensures RoutingOk(Step(s, e).value)
  {
    match e
    case Register(t) => RegisterKeeps(s, t);
    case RemoveUnsent(t) => RemovalKeeps(s, e, t);
    case RemoveExpired(t) => RemovalKeeps(s, e, t);
    case BuildFrame(t) => CallStepKeeps(s, e, t);
    case Send(t, _) => CallStepKeeps(s, e, t);
    case Receive(t) => CallStepKeeps(s, e, t);
    case Expire(t) => CallStepKeeps(s, e, t);
    case Disconnected(t) => CallStepKeeps(s, e, t);
    case ReadFrame(_) => ReadKeeps(s, e);
    case ReadError => ReadKeeps(s, e);
    case CheckRate(_) => ReadKeeps(s, e);
    case Match => MatchKeeps(s);
    case Deliver => DeliverKeeps(s);
    case Enqueue => EnqueueKeeps(s);
    case Drain => DrainKeeps(s);
    case Request(_, _, _) => QuietKeeps(s, e);
    case TakeUnsolicited => QuietKeeps(s, e);
    case Close => QuietKeeps(s, e);
    case SetClosed => QuietKeeps(s, e);
  }

  // ------------------------------------------------------------ conservation

  lemma {:induction false} QueuedLonger(received: seq<Frame>, f: Frame, fates: seq<Fate>)
    requires |fates| <= |received|
    ensures Queued(received + [f], fates) == Queued(received, fates)
  {
    if fates != [] {
      QueuedLonger(received, f, fates[..|fates| - 1]);
    }
  }

  lemma QueuedOne(received: seq<Frame>, fates: seq<Fate>, fate: Fate)
    requires |fates| < |received|
    ensures Queued(received, fates + [fate])
            == Queued(received, fates) + if fate.ToQueue? then [received[|fates|]] else []
  {
    assert (fates + [fate])[..|fates|] == fates;
  }

  lemma EnqueueKeepsQueue(s: Session)
    requires HeldOk(s) && QueueOk(s) && s.reader.Unmatched?
    ensures QueueOk(ReaderStep(s, Enqueue).value)
  {
    QueueGrows(s.taken, s.queue, s.received, s.fates);
  }

  lemma QueueGrows(taken: seq<Frame>, queue: seq<Frame>, received: seq<Frame>, fates: seq<Fate>)
    requires |fates| < |received| && taken + queue == Queued(received, fates)
    ensures taken + (queue + [received[|fates|]]) == Queued(received, fates + [ToQueue])
    ensures taken + queue == Queued(received, fates + [ByClose])
  {
    QueuedOne(received, fates, ToQueue);
    QueuedOne(received, fates, ByClose);
    assert taken + (queue + [received[|fates|]]) == (taken + queue) + [received[|fates|]];
  }

  lemma ReaderKeepsQueue(s: Session, e: Event)
    requires HeldOk(s) && QueueOk(s) && ReaderStep(s, e).Success?
    ensures QueueOk(ReaderStep(s, e).value)
  {
    match e
    case ReadFrame(f) => QueuedLonger(s.received, f, s.fates);
    case CheckRate(_) => QueuedOne(s.received, s.fates, ByClose);
    case Deliver => QueuedOne(s.received, s.fates, ToWaiter(s.reader.call));
    case Enqueue => EnqueueKeepsQueue(s);
    case _ =>
  }

  /** The steps of a call leave frames, fates and inboxes alone. */
  lemma CallKeepsFrames(s: Session, e: Event, t: nat)
    requires t < |s.calls| && CallStep(s, e, t).Success?
    ensures var s' := CallStep(s, e, t).value;
            && s'.received == s.received && s'.fates == s.fates && s'.queue == s.queue && s'.taken == s.taken
            && |s'.calls| == |s.calls| && forall k :: 0 <= k < |s.calls| ==> s'.calls[k].inbox == s.calls[k].inbox
  {
  }

  /** The caller whose step this is, if any. */
  function CallerOf(e: Event): Option<nat> {
    match e
    case Register(t) => Some(t)
    case BuildFrame(t) => Some(t)
    case Send(t, _) => Some(t)
    case RemoveUnsent(t) => Some(t)
    case Receive(t) => Some(t)
    case Expire(t) => Some(t)
    case RemoveExpired(t) => Some(t)
    case Disconnected(t) => Some(t)
    case _ => None
  }

  lemma StepKeepsQueue(s: Session, e: Event)
    requires HeldOk(s) && QueueOk(s) && Step(s, e).Success?
    ensures QueueOk(Step(s, e).value)
  {
    if CallerOf(e).Some? {
      CallKeepsFrames(s, e, CallerOf(e).value);
    } else if e.TakeUnsolicited? {
      assert s.queue == [s.queue[0]] + s.queue[1..];
      assert s.taken + s.queue == s.taken + [s.queue[0]] + s.queue[1..];
    } else if !e.Request? && !e.Close? {
      ReaderKeepsQueue(s, e);
    }
  }

  /** The reader answers only by delivering, which records the fate; draining answers nobody. */
  lemma ReaderKeepsAnswers(s: Session, e: Event)
    requires AnswersOk(s) && ReaderStep(s, e).Success?
    ensures AnswersOk(ReaderStep(s, e).value)
  {
    var s' := ReaderStep(s, e).value;
    assert forall f :: f in s.fates ==> f in s'.fates;
    forall t | 0 <= t < |s'.calls| && Answered(s'.calls[t]) ensures ToWaiter(t) in s'.fates {
      var d :| d in s'.calls[t].inbox && d.Response?;
      if e.Deliver? && t == s.reader.call {
        assert s'.fates[|s.fates|] == ToWaiter(t);
      } else {
        assert d in s.calls[t].inbox;
      }
    }
  }

  lemma StepKeepsAnswers(s: Session, e: Event)
    requires AnswersOk(s) && Step(s, e).Success?
    ensures AnswersOk(Step(s, e).value)
  {
    var s' := Step(s, e).value;
    if CallerOf(e).Some? {
      CallKeepsFrames(s, e, CallerOf(e).value);
      SameInboxes(s, s');
    } else if e.Request? || e.Close? || e.TakeUnsolicited? {
      SameInboxes(s, s');
    } else {
      ReaderKeepsAnswers(s, e);
    }
  }

  lemma SameInboxes(s: Session, s': Session)
    requires AnswersOk(s) && s'.fates == s.fates && |s.calls| <= |s'.calls|
    requires forall k :: 0 <= k < |s.calls| ==> s'.calls[k].inbox == s.calls[k].inbox
    requires forall k :: |s.calls| <= k < |s'.calls| ==> s'.calls[k].inbox == []
    ensures AnswersOk(s')
  {
    forall t | 0 <= t < |s'.calls| && Answered(s'.calls[t]) ensures ToWaiter(t) in s'.fates {
      assert Answered(s.calls[t]);
    }
  }

  lemma StepKeepsInv(s: Session, e: Event)
    requires Inv(s) && Step(s, e).Success?
    ensures Inv(Step(s, e).value)
  {
    StepKeepsRouting(s, e);
    StepKeepsQueue(s, e);
    StepKeepsAnswers(s, e);
  }

  // ---------------------------------------------------------------- all runs

  function Machine(): (Session, Event) -> Result<Session> {
    (s: Session, e: Event) => Step(s, e)
  }

  lemma NewSessionOk(limits: Limits)
    ensures Inv(NewSession(limits))
  {
  }

  lemma RunsKeepInv(limits: Limits, events: seq<Event>)
    requires Run(Machine(), NewSession(limits), events).Success?
    ensures Inv(Run(Machine(), NewSession(limits), events).value)
  {
    NewSessionOk(limits);
    var inv := (s: Session) => Inv(s);
    forall s, e | inv(s) && Machine()(s, e).Success? ensures inv(Machine()(s, e).value) {
      StepKeepsInv(s, e);
    }
    RunInvariant(Machine(), inv, NewSession(limits), events);
  }

  // ------------------------------------------------- where a frame has to go

  /** A frame went to the call it answered when it was matched, and to no call when it answered none. */
  ghost predicate OfferedOk(s: Session) {
    && |s.offered| == |s.fates| + (if s.reader.Matched? || s.reader.Unmatched? then 1 else 0)
    && (s.reader.Matched? ==> s.offered[|s.fates|] == Some(s.reader.call))
    && (s.reader.Unmatched? ==> s.offered[|s.fates|] == None)
    && forall i :: 0 <= i < |s.fates| ==>
         s.offered[i] == match s.fates[i] case ToWaiter(t) => Some(t) case _ => None
  }

  lemma CallKeepsOffered(s: Session, e: Event, t: nat)
    requires t < |s.calls| && CallStep(s, e, t).Success?
    ensures var s' := CallStep(s, e, t).value;
            s'.offered == s.offered && s'.fates == s.fates && s'.reader == s.reader
  {
  }

  lemma StepKeepsOffered(s: Session, e: Event)
    requires OfferedOk(s) && Step(s, e).Success?
    ensures OfferedOk(Step(s, e).value)
  {
    if CallerOf(e).Some? {
      CallKeepsOffered(s, e, CallerOf(e).value);
    }
  }

  /**
   In every interleaving: a frame that the reader is done with went to a waiter exactly
   when some listed call was waiting for it as it was matched, and then to that call.
   */
  lemma AnswersReachTheirCalls(limits: Limits, events: seq<Event>, i: nat)
    requires Run(Machine(), NewSession(limits), events).Success?
    requires i < |Run(Machine(), NewSession(limits), events).value.fates|
    ensures var s := Run(Machine(), NewSession(limits), events).value;
            i < |s.offered| && s.offered[i] == match s.fates[i] case ToWaiter(t) => Some(t) case _ => None
  {
    var inv := (s: Session) => OfferedOk(s);
    forall s, e | inv(s) && Machine()(s, e).Success? ensures inv(Machine()(s, e).value) {
      StepKeepsOffered(s, e);
    }
    RunInvariant(Machine(), inv, NewSession(limits), events);
  }

  /**
   A routed frame that answers a pending request: matching and delivering it succeed, the
   request's entry is gone, its inbox holds the frame, and nothing else has changed.
   */
  lemma ResponseIsDelivered(s: Session)
    requires Inv(s) && s.reader.Routing? && s.reader.frame.id in s.pending
    requires var t := s.pending[s.reader.frame.id];
             t < |s.calls| ==> s.reader.frame.messageType in s.calls[t].expected
    ensures Step(s, Match).Success? && Step(Step(s, Match).value, Deliver).Success?
    ensures var f, t := s.reader.frame, s.pending[s.reader.frame.id];
            var s' := Step(Step(s, Match).value, Deliver).value;
            && t < |s.calls| && s.calls[t].id == f.id
            && s' == s.(calls := s.calls[t := s.calls[t].(inbox := [Response(f)])], pending := s.pending - {f.id},
                        reader := Reading, fates := s.fates + [ToWaiter(t)], offered := s.offered + [Some(t)])
  {
    var f := s.reader.frame;
    assert ListedOk(s, f.id);
    var t := s.pending[f.id];
    var s1 := s.(reader := Matched(f, t), pending := s.pending - {f.id}, offered := s.offered + [Some(t)]);
    assert Step(s, Match) == Success(s1);
    assert s1.calls[t].inbox + [Response(f)] == [Response(f)];
  }

  /** Any other routed frame is queued, or closes the session exactly when the queue is full. */
  lemma OtherFrameIsQueued(s: Session)
    requires Inv(s) && s.reader.Routing?
    requires var f := s.reader.frame;
             f.id in s.pending && s.pending[f.id] < |s.calls| ==>
               f.messageType !in s.calls[s.pending[f.id]].expected
    ensures Step(s, Match).Success? && Step(Step(s, Match).value, Enqueue).Success?
    ensures var f := s.reader.frame;
            var s', seen := Step(Step(s, Match).value, Enqueue).value, s.offered + [None];
            s' == if |s.queue| < s.limits.maxQueue
                  then s.(queue := s.queue + [f], reader := Reading, fates := s.fates + [ToQueue], offered := seen)
                  else s.(reader := Closing, fates := s.fates + [ByClose], offered := seen)
  {
  }

  /** Draining tells every listed call that the reader stopped, and empties the table. */
  lemma DrainTellsAll(s: Session)
    requires Inv(s) && s.reader.Draining?
    ensures Step(s, Drain).Success?
    ensures var s' := Step(s, Drain).value;
            && s'.reader.Exited? && s'.closed && s'.pending == map[] && |s'.calls| == |s.calls|
            && forall t :: 0 <= t < |s.calls| ==>
                 s'.calls[t] == if Listed(s, t) then s.calls[t].(inbox := [Stopped]) else s.calls[t]
  {
    forall t | 0 <= t < |s.calls| && Listed(s, t) ensures s.calls[t].inbox == [] {
      assert ListedOk(s, s.calls[t].id);
    }
  }

  /** What registering does: refused when the RequestID is pending or the table is full, listed otherwise. */
  lemma RegisterOutcome(s: Session, t: nat)
    requires t < |s.calls| && s.calls[t].pc.Checked?
    ensures Step(s, Register(t)).Success?
    ensures var s', c := Step(s, Register(t)).value, s.calls[t];
            s' == if c.id in s.pending then SetPc(s, t, Done(Duplicate))
                  else if |s.pending| >= s.limits.maxPending then SetPc(s, t, Done(PendingLimit))
                  else SetPc(s.(pending := s.pending[c.id := t]), t, Registered)
  {
  }

  /** A frame is routed exactly when it and its window stay within both rate limits. */
  lemma RateOutcome(s: Session, newWindow: bool)
    requires s.reader.HasFrame?
    ensures Step(s, CheckRate(newWindow)).Success?
    ensures var f, s' := s.reader.frame, Step(s, CheckRate(newWindow)).value;
            var frames := if newWindow then 1 else s.windowFrames + 1;
            var bytes := if newWindow then 26 + f.size else s.windowBytes + 26 + f.size;
            && s'.windowFrames == frames && s'.windowBytes == bytes
            && s'.reader == if frames <= s.limits.maxFrames && bytes <= s.limits.maxBytes then Routing(f) else Closing
  {
  }

  /** A call that waits too long gives up its entry and returns. */
  lemma TimeoutOutcome(s: Session, t: nat)
    requires t < |s.calls| && s.calls[t].pc.Waiting? && s.calls[t].inbox == []
    ensures Step(s, Expire(t)) == Success(SetPc(s, t, Expired))
    ensures Step(SetPc(s, t, Expired), RemoveExpired(t)).Success?
    ensures var s' := Step(SetPc(s, t, Expired), RemoveExpired(t)).value;
            s'.pending == s.pending - {s.calls[t].id} && s'.calls == s.calls[t := s.calls[t].(pc := Done(TimedOut))]
  {
  }

  /** The room a new rate window leaves for a frame. */
  predicate WithinRate(limits: Limits, f: Frame) {
    limits.maxFrames >= 1 && 26 + f.size <= limits.maxBytes
  }

  /** The steps of one undisturbed request. */
  function RequestSteps(t: nat, expected: seq<nat>, f: Frame): seq<Event> {
    [Request(f.id, expected, true), Register(t), Send(t, true),
     ReadFrame(f), CheckRate(true), Match, Deliver, Receive(t)]
  }

  /**
   An undisturbed request on an open session, with a free RequestID and room in the table,
   returns the frame that answers it and leaves the table as it was.
   */
  lemma RequestIsAnswered(s: Session, expected: seq<nat>, f: Frame)
    requires Inv(s) && !s.closed && s.reader.Reading? && f.id !in s.pending && |s.pending| < s.limits.maxPending
    requires f.messageType in expected && WithinRate(s.limits, f)
    ensures var t := |s.calls|;
            var r := Run(Machine(), s, RequestSteps(t, expected, f));
            && r.Success? && r.value.pending == s.pending && r.value.reader.Reading? && r.value.queue == s.queue
            && |r.value.calls| == t + 1 && r.value.calls[t].pc == Done(Got(f)) && r.value.calls[..t] == s.calls
  {
    var t := |s.calls|;
    var c := Call(f.id, expected, true, Checked, []);
    var s3 := s.(calls := s.calls + [c.(pc := Waiting)], pending := s.pending[f.id := t]);
    RequestSent(s, expected, f);
    var s6 := RequestInFlight(s, s3, c, f);
    var a, b, d := [Request(f.id, expected, true), Register(t), Send(t, true)],
                   [ReadFrame(f), CheckRate(true), Match], [Deliver, Receive(t)];
    RequestReturns(s, s6, c, f);
    assert a + b + d == RequestSteps(t, expected, f);
    RunSplits(Machine(), s, a, b);
    RunSplits(Machine(), s, a + b, d);
  }

  lemma RequestSent(s: Session, expected: seq<nat>, f: Frame)
    requires !s.closed && f.id !in s.pending && |s.pending| < s.limits.maxPending && expected != []
    ensures var t, c := |s.calls|, Call(f.id, expected, true, Waiting, []);
            Run(Machine(), s, [Request(f.id, expected, true), Register(t), Send(t, true)])
            == Success(s.(calls := s.calls + [c], pending := s.pending[f.id := t]))
  {
    var t := |s.calls|;
    var s1 := s.(calls := s.calls + [Call(f.id, expected, true, Checked, [])]);
    var s2 := SetPc(s1.(pending := s1.pending[f.id := t]), t, Registered);
    var s3 := SetPc(s2, t, Waiting);
    RunOfThree(s, Request(f.id, expected, true), Register(t), Send(t, true), s1, s2, s3);
    assert s3.calls == s.calls + [Call(f.id, expected, true, Waiting, [])];
  }

  lemma RunOfThree(s: Session, a: Event, b: Event, c: Event, s1: Session, s2: Session, s3: Session)
    requires Step(s, a) == Success(s1) && Step(s1, b) == Success(s2) && Step(s2, c) == Success(s3)
    ensures Run(Machine(), s, [a, b, c]) == Success(s3)
  {
    RunOne(Machine(), s, a);
    RunSplits(Machine(), s, [a], [b]);
    RunOne(Machine(), s1, b);
    RunSplits(Machine(), s, [a] + [b], [c]);
    RunOne(Machine(), s2, c);
    assert [a] + [b] + [c] == [a, b, c];
  }

  /** The frame arrives and is matched with the request. */
  lemma RequestInFlight(s: Session, s3: Session, c: Call, f: Frame) returns (s6: Session)
    requires s.reader.Reading? && f.id !in s.pending && WithinRate(s.limits, f)
    requires c.id == f.id && f.messageType in c.expected
    requires s3 == s.(calls := s.calls + [c.(pc := Waiting)], pending := s.pending[f.id := |s.calls|])
    ensures Run(Machine(), s3, [ReadFrame(f), CheckRate(true), Match]) == Success(s6)
    ensures s6.calls == s3.calls && s6.pending == s.pending && s6.queue == s.queue
    ensures s6.reader == Matched(f, |s.calls|) && s6.closed == s.closed && s6.limits == s.limits
  {
    var t := |s.calls|;
    var s4 := s3.(reader := HasFrame(f), received := s3.received + [f]);
    var s5 := s4.(windowFrames := 1, windowBytes := 26 + f.size, reader := Routing(f));
    s6 := s5.(offered := s5.offered + [Some(t)], reader := Matched(f, t), pending := s5.pending - {f.id});
    assert Step(s3, ReadFrame(f)) == Success(s4);
    assert Step(s4, CheckRate(true)) == Success(s5);
    MatchesNew(s5, t, f);
    RunOfThree(s3, ReadFrame(f), CheckRate(true), Match, s4, s5, s6);
    assert s6.pending == s.pending;
  }

  lemma MatchesNew(s: Session, t: nat, f: Frame)
    requires s.reader == Routing(f) && f.id in s.pending && s.pending[f.id] == t < |s.calls|
    requires f.messageType in s.calls[t].expected
    ensures Step(s, Match) ==
            Success(s.(offered := s.offered + [Some(t)], reader := Matched(f, t), pending := s.pending - {f.id}))
  {
  }

  /** The response is delivered and received. */
  lemma RequestReturns(s: Session, s6: Session, c: Call, f: Frame)
    requires s6.calls == s.calls + [c.(pc := Waiting)] && s6.reader == Matched(f, |s.calls|) && c.inbox == []
    ensures var t := |s.calls|;
            var r := Run(Machine(), s6, [Deliver, Receive(t)]);
            && r.Success? && r.value.pending == s6.pending && r.value.reader.Reading? && r.value.queue == s6.queue
            && r.value.calls == s.calls + [c.(pc := Done(Got(f)), inbox := [Response(f)])]
  {
    var t := |s.calls|;
    var s7 := Step(s6, Deliver).value;
    assert s6.calls[t] == c.(pc := Waiting) && c.inbox + [Response(f)] == [Response(f)];
    assert s7.calls == s.calls + [c.(pc := Waiting, inbox := [Response(f)])];
    RunOne(Machine(), s6, Deliver);
    RunSplits(Machine(), s6, [Deliver], [Receive(t)]);
    RunOne(Machine(), s7, Receive(t));
    assert [Deliver] + [Receive(t)] == [Deliver, Receive(t)];
  }

  /** A frame marked for the queue has its own place among the queued ones. */
  lemma {:induction false} QueuedAt(received: seq<Frame>, fates: seq<Fate>, i: nat)
    requires i < |fates| <= |received| && fates[i].ToQueue?
    ensures var k := |Queued(received, fates[..i])|;
            k < |Queued(received, fates)| && Queued(received, fates)[k] == received[i]
    decreases |fates|
  {
    var n := |fates| - 1;
    if i < n {
      QueuedAt(received, fates[..n], i);
      assert fates[..n][..i] == fates[..i];
    }
  }

  /** Where the frame received as number `i` went. */
  ghost predicate WentTo(s: Session, i: nat)
    requires i < |s.fates| <= |s.received|
  {
    match s.fates[i]
    case ToQueue =>
      var k := |Queued(s.received, s.fates[..i])|;
      k < |s.taken + s.queue| && (s.taken + s.queue)[k] == s.received[i]
    case ByClose => i == |s.received| - 1 && Stopping(s.reader)
    case ToWaiter(t) =>
      && t < |s.calls| && s.calls[t].inbox == [Response(s.received[i])]
      && s.received[i].id == s.calls[t].id && s.received[i].messageType in s.calls[t].expected
      && forall k :: 0 <= k < |s.fates| && k != i ==> s.fates[k] != ToWaiter(t)
  }

  /**
   In every interleaving: every received frame the reader is done with went to exactly
   one place. What was taken off the queue and what is on it are the frames marked for
   the queue, each once and in order; a frame that went to a waiter is the one thing in
   that waiter's inbox, with its RequestID and an expected type; and no call was answered
   by anything else.
   */
  lemma EveryFrameHasOneFate(limits: Limits, events: seq<Event>, i: nat)
    requires Run(Machine(), NewSession(limits), events).Success?
    requires i < |Run(Machine(), NewSession(limits), events).value.fates|
    ensures var s := Run(Machine(), NewSession(limits), events).value;
            && |s.fates| <= |s.received| <= |s.fates| + 1
            && WentTo(s, i)
            && s.taken + s.queue == Queued(s.received, s.fates)
            && forall t :: 0 <= t < |s.calls| && Answered(s.calls[t]) ==> ToWaiter(t) in s.fates
  {
    RunsKeepInv(limits, events);
    var s := Run(Machine(), NewSession(limits), events).value;
    assert FateOk(s, i);
    if s.fates[i].ToWaiter? {
      assert CallOk(s.calls[s.fates[i].call]);
    } else if s.fates[i].ToQueue? {
      QueuedAt(s.received, s.fates, i);
    }
  }

  /**
   In every interleaving: a call is sent at most one result; what it returns as a
   response has its own RequestID and an expected type; both caps hold.
   */
  lemma EveryCallGetsItsOwn(limits: Limits, events: seq<Event>, t: nat)
    requires Run(Machine(), NewSession(limits), events).Success?
    requires t < |Run(Machine(), NewSession(limits), events).value.calls|
    ensures var s := Run(Machine(), NewSession(limits), events).value;
            && |s.calls[t].inbox| <= 1
            && (s.calls[t].pc.Done? && s.calls[t].pc.outcome.Got? ==>
                  var f := s.calls[t].pc.outcome.frame;
                  f.id == s.calls[t].id && f.messageType in s.calls[t].expected)
            && |s.pending| <= s.limits.maxPending && |s.queue| <= s.limits.maxQueue
  {
    RunsKeepInv(limits, events);
    var s := Run(Machine(), NewSession(limits), events).value;
    assert CallOk(s.calls[t]);
  }

  /**
   Once the reader has drained and exited and every call whose payload fits a frame has
   returned, the table holds nothing but calls whose payload does not fit.
   */
  lemma NothingLeftAfterExit(limits: Limits, events: seq<Event>)
    requires Run(Machine(), NewSession(limits), events).Success?
    requires var s := Run(Machine(), NewSession(limits), events).value;
             s.reader.Exited? && forall t :: 0 <= t < |s.calls| && s.calls[t].fits ==> s.calls[t].pc.Done?
    ensures var s := Run(Machine(), NewSession(limits), events).value;
            && (forall id :: id in s.pending ==> s.pending[id] < |s.calls| && !s.calls[s.pending[id]].fits)
            && ((forall t :: 0 <= t < |s.calls| ==> s.calls[t].fits) ==> s.pending == map[])
  {
    RunsKeepInv(limits, events);
    var s := Run(Machine(), NewSession(limits), events).value;
    forall id | id in s.pending ensures s.pending[id] < |s.calls| && !s.calls[s.pending[id]].fits {
      assert ListedOk(s, id) && CallOk(s.calls[s.pending[id]]);
    }
    if forall t :: 0 <= t < |s.calls| ==> s.calls[t].fits {
      assert forall id :: id !in s.pending;
    }
  }

  /** A fitting call that registered too late: it is about to be refused, refused, or gone from the table. */
  ghost predicate Late(s: Session, t: nat) {
    && s.reader.Exited? && s.closed && t < |s.calls| && s.calls[t].fits
    && (s.calls[t].pc.Registered? || s.calls[t].pc.SendFailed? || s.calls[t].pc == Done(SendError))
    && (s.calls[t].pc.Done? ==> !Listed(s, t))
  }

  lemma LateSteps(s: Session, e: Event, t: nat)
    requires Inv(s) && Late(s, t) && CallerOf(e).Some? && Step(s, e).Success?
    ensures Late(Step(s, e).value, t)
  {
    if CallerOf(e).value != t && s.calls[t].pc.Done? {
      assert !Listed(Step(s, e).value, t);
    }
  }

  lemma StepKeepsLate(s: Session, e: Event, t: nat)
    requires Inv(s) && Late(s, t) && Step(s, e).Success?
    ensures Late(Step(s, e).value, t)
  {
    if CallerOf(e).Some? {
      LateSteps(s, e, t);
    }
  }

  /**
   After the exit the closed flag is up. Whatever happens in between, a call with a fitting
   payload that is `Registered`, that is, has not read the flag yet, never waits for an
   answer: it can always take its next step,
   which is the refused send and then its own removal, and once it has returned its entry
   is gone.
   */
  lemma LateCallIsRemoved(limits: Limits, events: seq<Event>, more: seq<Event>, t: nat)
    requires Run(Machine(), NewSession(limits), events).Success?
    requires var s := Run(Machine(), NewSession(limits), events).value;
             s.reader.Exited? && t < |s.calls| && s.calls[t].pc.Registered? && s.calls[t].fits
             && Run(Machine(), s, more).Success?
    ensures var s := Run(Machine(), Run(Machine(), NewSession(limits), events).value, more).value;
            && Late(s, t)
            && (s.calls[t].pc.Registered? ==> forall written ::
                  Step(s, Send(t, written)) == Success(SetPc(s, t, SendFailed)))
            && (s.calls[t].pc.SendFailed? ==>
                  Step(s, RemoveUnsent(t)).Success? && !Listed(Step(s, RemoveUnsent(t)).value, t))
  {
    RunsKeepInv(limits, events);
    var s := Run(Machine(), NewSession(limits), events).value;
    var inv := (x: Session) => Inv(x) && Late(x, t);
    forall x, e | inv(x) && Machine()(x, e).Success? ensures inv(Machine()(x, e).value) {
      StepKeepsInv(x, e);
      StepKeepsLate(x, e, t);
    }
    RunInvariant(Machine(), inv, s, more);
  }

  /**
   A call that returns leaves an entry of its own behind exactly when its payload
   did not fit a frame: the error of `Frame::new` returns before any removal.
   */
  lemma LeftoverIffTooLarge(s: Session, e: Event, t: nat)
    requires Inv(s) && Step(s, e).Success? && t < |s.calls| && Listed(s, t)
    requires !s.calls[t].pc.Done? && HasReturned(Step(s, e).value, t)
    ensures Listed(Step(s, e).value, t) <==> !s.calls[t].fits
  {
    StepKeepsInv(s, e);
    assert CallOk(s.calls[t]) && ListedOk(s, s.calls[t].id);
    ReturnsOf(s, e, t);
    var s' := Step(s, e).value;
    assert CallOk(s'.calls[t]);
    assert Listed(s', t) ==> ListedOk(s', s'.calls[t].id);
  }

  /** The leftover is reachable: one request that is too large leaves its entry in a new session. */
  lemma LeftoverIsReachable(limits: Limits, id: nat, expected: nat)
    requires limits.maxPending >= 1
    ensures var events := [Request(id, [expected], false), Register(0), BuildFrame(0)];
            var end := Run(Machine(), NewSession(limits), events);
            && end.Success? && end.value.pending == map[id := 0]
            && |end.value.calls| == 1 && end.value.calls[0].pc == Done(TooLarge)
  {
    var s0 := NewSession(limits);
    var request, register, build := Request(id, [expected], false), Register(0), BuildFrame(0);
    var s1 := Step(s0, request).value;
    RunOne(Machine(), s0, request);
    var s2 := Step(s1, register).value;
    RunSplits(Machine(), s0, [request], [register]);
    RunOne(Machine(), s1, register);
    RunSplits(Machine(), s0, [request] + [register], [build]);
    RunOne(Machine(), s2, build);
    assert [request] + [register] + [build] == [request, register, build];
  }

  predicate HasReturned(s: Session, t: nat) {
    t < |s.calls| && s.calls[t].pc.Done?
  }

  /** The steps with which a listed call returns. */
  lemma ReturnsOf(s: Session, e: Event, t: nat)
    requires Step(s, e).Success? && t < |s.calls| && Listed(s, t) && s.calls[t].inbox == []
    requires !s.calls[t].pc.Done? && !s.calls[t].pc.Checked? && HasReturned(Step(s, e).value, t)
    ensures e == BuildFrame(t) || e == RemoveUnsent(t) || e == RemoveExpired(t)
  {
  }

  // ------------------------------------------------------------- request ids

  const HALF := 0x8000_0000_0000_0000

  /** The id with its top bit set (`id | 1 << 63`) or cleared (`id & !(1 << 63)`). */
  function Normalize(id: nat, laneHigh: bool): nat {
    id % HALF + if laneHigh then HALF else 0
  }

  /** `allocate_request_id`: the next id of this lane that is not zero; the counter wraps at 64 bits. */
  method AllocateRequestId(next: nat, laneHigh: bool) returns (id: nat, next': nat)
    requires next < 2 * HALF
    ensures 0 < id < 2 * HALF && (id >= HALF <==> laneHigh)
    ensures id == Normalize(next, laneHigh) || (Normalize(next, laneHigh) == 0 && id == Normalize(next + 1, laneHigh))
    ensures next' == (next + if Normalize(next, laneHigh) == 0 then 2 else 1) % (2 * HALF)
    ensures var used := if next % HALF == 0 && !laneHigh then next + 1 else next;
            id % HALF == used % HALF && next' == (used + 1) % (2 * HALF)
  {
    next' := next;
    ghost var turns := 0;
    while true
      invariant turns == 0 ==> next' == next
      invariant turns == 1 ==> next' == (next + 1) % (2 * HALF) && Normalize(next, laneHigh) == 0
      invariant 0 <= turns <= 1
      decreases 1 - turns
    {
      id := Normalize(next', laneHigh);
      next' := (next' + 1) % (2 * HALF);
      if id != 0 {
        return;
      }
      turns := turns + 1;
    }
  }

  /** Opposite lanes never allocate the same id. */
  lemma LanesDisjoint(a: nat, b: nat)
    ensures Normalize(a, true) != Normalize(b, false)
  {
  }

  /** Within a lane, fewer than 2^63 consecutive counter values give distinct ids. */
  lemma LaneDistinct(a: nat, b: nat, laneHigh: bool)
    requires a < b < a + HALF
    ensures Normalize(a, laneHigh) != Normalize(b, laneHigh)
  {
  }
}
