/** Draining a store (engine/store.go:151-242, 1262-1360): admission, background
    work, any number of Close calls, and the group-commit goroutine, as a state
    machine over every interleaving. */
module CloseProtocol {

  /** Where a mutation or a background fold is. */
  datatype Phase =
    | Outside
    | Admitted
    | Asking(path: string, asked: nat)   // sending its request, asked after this many syncs
    | Waiting(id: nat)                   // its request was received; waiting for the reply

  datatype Closer = NotClosing | Draining | Stopping | Following | Returned

  datatype Mode = Receiving | Flushing(thenStop: bool)

  datatype Committer = NotStarted | Running(pending: seq<nat>, armed: bool, mode: Mode) | Stopped

  /** One group-commit request and the syncs it was answered from, by number. */
  datatype Request = Request(path: string, asked: nat, replies: seq<nat>)

  /** syncs lists the paths synced, in order. */
  datatype State = State(
    closed: bool, ops: nat, stop: bool, done: bool,
    phases: map<nat, Phase>, closers: map<nat, Closer>,
    committer: Committer, requests: seq<Request>, syncs: seq<string>, writes: nat)

  function PhaseOf(s: State, t: nat): Phase {
    if t in s.phases then s.phases[t] else Outside
  }

  function CloserOf(s: State, c: nat): Closer {
    if c in s.closers then s.closers[c] else NotClosing
  }

  const Initial := State(false, 0, false, false, map[], map[], NotStarted, [], [], 0)

  datatype Step =
    | Begin(t: nat)                  // beginOp: admitted, or refused and nothing changes
    | Write(t: nat)
    | Ask(t: nat, path: string)      // groupCommit: starts the committer on first use
    | Receive(t: nat)                // the committer takes the request
    | Fire                           // the timer: start flushing
    | Sync(path: string)             // one file synced, its waiters answered
    | Flushed                        // nothing pending any more
    | Wake(t: nat)                   // a waiter has its reply
    | End(t: nat)                    // endOp
    | Call(c: nat)                   // Close is called
    | Drained(c: nat)                // the drain is over
    | StopSeen                       // the committer sees the stop signal
    | Gone(c: nat)                   // the committer has exited
    | Follow(c: nat)                 // a later caller sees the first one finish

  predicate Enabled(s: State, step: Step) {
    match step
    case Begin(t) => PhaseOf(s, t).Outside?
    case Write(t) => PhaseOf(s, t).Admitted?
    case Ask(t, _) => PhaseOf(s, t).Admitted?
    case Receive(t) => PhaseOf(s, t).Asking? && s.committer.Running? && s.committer.mode.Receiving?
    case Fire => s.committer.Running? && s.committer.mode.Receiving? && s.committer.armed
    case Sync(path) => s.committer.Running? && s.committer.mode.Flushing?
    case Flushed => s.committer.Running? && s.committer.mode.Flushing? && s.committer.pending == []
    case Wake(t) =>
      PhaseOf(s, t).Waiting? && PhaseOf(s, t).id < |s.requests| && s.requests[PhaseOf(s, t).id].replies != []
    case End(t) => PhaseOf(s, t).Admitted?
    case Call(c) => CloserOf(s, c).NotClosing?
    case Drained(c) => CloserOf(s, c).Draining? && s.ops == 0
    case StopSeen => s.stop && s.committer.Running? && s.committer.mode.Receiving?
    case Gone(c) => CloserOf(s, c).Stopping? && s.committer.Stopped?
    case Follow(c) => CloserOf(s, c).Following? && s.done
  }

  /** The requests of one path among some ids. */
  function ForPath(ids: seq<nat>, requests: seq<Request>, path: string, yes: bool): (r: seq<nat>)
    ensures forall id :: id in r <==> id in ids && ((id < |requests| && requests[id].path == path) <==> yes)
  {
    if ids == [] then []
    else
      (if (ids[0] < |requests| && requests[ids[0]].path == path) <==> yes then [ids[0]] else []) +
      ForPath(ids[1..], requests, path, yes)
  }

  /** Sends one reply, from sync number n, to each of these requests. */
  function Answer(requests: seq<Request>, ids: seq<nat>, n: nat): (r: seq<Request>)
    ensures |r| == |requests|
    ensures forall id | 0 <= id < |requests| ::
              r[id] == if id in ids then requests[id].(replies := requests[id].replies + [n]) else requests[id]
  {
    seq(|requests|, id requires 0 <= id < |requests| =>
      if id in ids then requests[id].(replies := requests[id].replies + [n]) else requests[id])
  }

  function Next(s: State, step: Step): State
    requires Enabled(s, step)
  {
    match step
    case Begin(t) => if s.closed then s else s.(ops := s.ops + 1, phases := s.phases[t := Admitted])
    case Write(t) => s.(writes := s.writes + 1)
    case Ask(t, path) =>
      s.(phases := s.phases[t := Asking(path, |s.syncs|)],
         committer := if s.committer.NotStarted? then Running([], false, Receiving) else s.committer)
    case Receive(t) =>
      var p := PhaseOf(s, t);
      s.(phases := s.phases[t := Waiting(|s.requests|)],
         requests := s.requests + [Request(p.path, p.asked, [])],
         committer := s.committer.(pending := s.committer.pending + [|s.requests|], armed := true))
    case Fire => s.(committer := s.committer.(mode := Flushing(false)))
    case Sync(path) =>
      s.(syncs := s.syncs + [path],
         requests := Answer(s.requests, ForPath(s.committer.pending, s.requests, path, true), |s.syncs| + 1),
         committer := s.committer.(pending := ForPath(s.committer.pending, s.requests, path, false)))
    case Flushed =>
      s.(committer := if s.committer.mode.thenStop then Stopped else Running([], false, Receiving))
    case Wake(t) => s.(phases := s.phases[t := Admitted])
    case End(t) => s.(ops := if s.ops > 0 then s.ops - 1 else 0, phases := s.phases[t := Outside])
    case Call(c) =>
      if s.closed then s.(closers := s.closers[c := Following])
      else s.(closed := true, closers := s.closers[c := Draining])
    case Drained(c) =>
      if s.committer.NotStarted? then s.(done := true, closers := s.closers[c := Returned])
      else s.(stop := true, closers := s.closers[c := Stopping])
    case StopSeen => s.(committer := s.committer.(mode := Flushing(true)))
    case Gone(c) => s.(done := true, closers := s.closers[c := Returned])
    case Follow(c) => s.(closers := s.closers[c := Returned])
  }

  // -------------------------------------------------------------------- invariants

  ghost function InFlight(s: State): set<nat> {
    set t | t in s.phases && !s.phases[t].Outside?
  }

  /** The counter counts the operations in flight. */
  ghost predicate Counted(s: State) {
    s.ops == |InFlight(s)|
  }

  predicate Pending(s: State, id: nat) {
    s.committer.Running? && id in s.committer.pending
  }

  /** The first reply came from a sync of the path asked for, made after it was
      asked. */
  predicate AnsweredBy(s: State, r: Request)
    requires r.replies != []
  {
    r.asked < r.replies[0] <= |s.syncs| && s.syncs[r.replies[0] - 1] == r.path
  }

  /** Each request received is answered once, by a sync that came after it was
      asked, or is still pending. */
  ghost predicate Answered(s: State) {
    forall id: nat | id < |s.requests| ::
      && |s.requests[id].replies| == (if Pending(s, id) then 0 else 1)
      && s.requests[id].asked <= |s.syncs|
      && (s.requests[id].replies != [] ==> AnsweredBy(s, s.requests[id]))
  }

  /** What is pending was received; a waiter waits for a request of its own. */
  ghost predicate Matched(s: State) {
    && (s.committer.Running? ==> forall id | id in s.committer.pending :: id < |s.requests|)
    && (forall t | t in s.phases && s.phases[t].Waiting? :: s.phases[t].id < |s.requests|)
    && (forall t, u | t in s.phases && u in s.phases && s.phases[t].Waiting? && s.phases[t] == s.phases[u] :: t == u)
    && (forall t | t in s.phases && s.phases[t].Asking? :: s.phases[t].asked <= |s.syncs|)
  }

  ghost predicate Waited(s: State) {
    forall id: nat | Pending(s, id) :: exists t :: t in s.phases && s.phases[t] == Waiting(id)
  }

  /** The committer runs while somebody needs it. */
  ghost predicate Served(s: State) {
    forall t | t in s.phases && (s.phases[t].Asking? || s.phases[t].Waiting?) :: s.committer.Running?
  }

  /** While requests are pending the timer runs or a flush is under way. */
  predicate Armed(s: State) {
    s.committer.Running? && s.committer.mode.Receiving? && s.committer.pending != [] ==> s.committer.armed
  }

  predicate Idle(s: State) {
    s.closed && s.ops == 0
  }

  /** The first Close is still at it. */
  predicate AtWork(s: State, c: nat) {
    CloserOf(s, c) == (if s.stop then Stopping else Draining)
  }

  /** What each part of closing implies. */
  ghost predicate Closing(s: State) {
    && (s.stop ==> Idle(s))
    && (s.done ==> Idle(s) && !s.committer.Running?)
    && (s.committer.Stopped? ==> s.stop)
    && (s.committer.Running? && s.committer.mode == Flushing(true) ==> s.stop)
    && (s.stop ==> !s.committer.NotStarted?)
    && (s.closed && !s.done ==> exists c :: AtWork(s, c))
    && (forall c | c in s.closers && (s.closers[c].Draining? || s.closers[c].Stopping?) :: AtWork(s, c) && !s.done)
    && (forall c, d | AtWork(s, c) && AtWork(s, d) :: c == d)
    && (forall c | c in s.closers ::
          && (!s.closers[c].NotClosing? ==> s.closed)
          && (s.closers[c].Stopping? ==> s.stop)
          && (s.closers[c].Returned? ==> s.done))
  }

  ghost predicate Inv(s: State) {
    Counted(s) && Answered(s) && Matched(s) && Waited(s) && Served(s) && Armed(s) && Closing(s)
  }

  lemma InitialInv()
    ensures Inv(Initial)
  {
    assert InFlight(Initial) == {};
  }

  lemma NoneInFlight(s: State)
    requires Counted(s) && s.ops == 0
    ensures forall t | t in s.phases :: s.phases[t].Outside?
  {
    assert InFlight(s) == {};
    assert forall t | t in s.phases && !s.phases[t].Outside? :: t in InFlight(s);
  }

  /** The operation t goes on to another phase. */
  predicate Moved(s: State, n: State, t: nat, p: Phase) {
    n.phases == s.phases[t := p]
  }

  lemma CountedMove(s: State, n: State, t: nat, p: Phase)
    requires Counted(s) && Moved(s, n, t, p) && n.ops == s.ops && !PhaseOf(s, t).Outside? && !p.Outside?
    ensures Counted(n)
  {
    assert InFlight(n) == InFlight(s);
  }

  lemma CountedEnter(s: State, n: State, t: nat)
    requires Counted(s) && Moved(s, n, t, Admitted) && n.ops == s.ops + 1 && PhaseOf(s, t).Outside?
    ensures Counted(n)
  {
    assert InFlight(n) == InFlight(s) + {t};
  }

  lemma CountedLeave(s: State, n: State, t: nat)
    requires Counted(s) && Moved(s, n, t, Outside) && !PhaseOf(s, t).Outside?
    requires n.ops == if s.ops > 0 then s.ops - 1 else 0
    ensures Counted(n)
  {
    assert t in InFlight(s) && InFlight(n) == InFlight(s) - {t};
  }

  lemma CountedFrame(s: State, n: State)
    requires Counted(s) && n.phases == s.phases && n.ops == s.ops
    ensures Counted(n)
  {
    assert InFlight(n) == InFlight(s);
  }

  lemma StepCounted(s: State, step: Step)
    requires Counted(s) && Enabled(s, step)
    ensures Counted(Next(s, step))
  {
    hide Counted, ForPath, Answer;
    var n := Next(s, step);
    match step {
      case Begin(t) =>
        if s.closed {
          CountedFrame(s, n);
        } else {
          CountedEnter(s, n, t);
        }
      case Ask(t, path) => CountedMove(s, n, t, Asking(path, |s.syncs|));
      case Receive(t) => CountedMove(s, n, t, Waiting(|s.requests|));
      case Wake(t) => CountedMove(s, n, t, Admitted);
      case End(t) => CountedLeave(s, n, t);
      case _ => CountedFrame(s, n);
    }
  }

  /** Requests stay as they are, and so does what is pending. */
  lemma AnsweredFrame(s: State, n: State)
    requires Answered(s) && n.requests == s.requests && n.syncs == s.syncs
    requires forall id: nat :: Pending(n, id) <==> Pending(s, id)
    ensures Answered(n)
  {
    hide Pending;
    forall id: nat | id < |n.requests| && n.requests[id].replies != [] ensures AnsweredBy(n, n.requests[id]) {
      assert AnsweredBy(s, s.requests[id]);
    }
  }

  lemma AnsweredReceive(s: State, t: nat)
    requires Answered(s) && Matched(s) && Enabled(s, Receive(t))
    ensures Answered(Next(s, Receive(t)))
  {
    hide Waited, Served, Armed, Closing, Counted;
    var n := Next(s, Receive(t));
    forall id: nat | id < |n.requests|
      ensures |n.requests[id].replies| == (if Pending(n, id) then 0 else 1) && n.requests[id].asked <= |n.syncs|
      ensures n.requests[id].replies != [] ==> AnsweredBy(n, n.requests[id])
    {
      if id < |s.requests| {
        assert Pending(n, id) <==> Pending(s, id);
        assert n.requests[id] == s.requests[id];
      }
    }
  }

  lemma AnsweredSync(s: State, path: string)
    requires Answered(s) && Matched(s) && Enabled(s, Sync(path))
    ensures Answered(Next(s, Sync(path)))
  {
    hide Waited, Served, Armed, Closing, Counted;
    var n := Next(s, Sync(path));
    var hit := ForPath(s.committer.pending, s.requests, path, true);
    forall id: nat | id < |n.requests|
      ensures |n.requests[id].replies| == (if Pending(n, id) then 0 else 1) && n.requests[id].asked <= |n.syncs|
      ensures n.requests[id].replies != [] ==> AnsweredBy(n, n.requests[id])
    {
      assert Pending(s, id) <==> id in s.committer.pending;
      assert id in hit <==> Pending(s, id) && s.requests[id].path == path;
      assert Pending(n, id) <==> Pending(s, id) && s.requests[id].path != path;
    }
  }

  lemma StepAnswered(s: State, step: Step)
    requires Inv(s) && Enabled(s, step)
    ensures Answered(Next(s, step))
  {
    hide Answered, Matched, Waited, Served, Armed, Closing, Counted, ForPath, Answer, AnsweredBy;
    match step {
      case Receive(t) => AnsweredReceive(s, t);
      case Sync(path) => AnsweredSync(s, path);
      case _ => AnsweredFrame(s, Next(s, step));
    }
  }

  /** No operation starts to wait, and no request goes away. */
  lemma MatchedMove(s: State, n: State, t: nat, p: Phase)
    requires Matched(s) && Moved(s, n, t, p) && !p.Waiting? && (p.Asking? ==> p.asked <= |s.syncs|)
    requires n.requests == s.requests && n.syncs == s.syncs
    requires n.committer.Running? ==>
               n.committer.pending == [] || (s.committer.Running? && n.committer.pending == s.committer.pending)
    ensures Matched(n)
  {
  }

  lemma MatchedFrame(s: State, n: State)
    requires Matched(s) && n.phases == s.phases && |n.requests| == |s.requests| && |n.syncs| >= |s.syncs|
    requires n.committer.Running? ==>
               forall id | id in n.committer.pending :: s.committer.Running? && id in s.committer.pending
    ensures Matched(n)
  {
  }

  lemma MatchedReceive(s: State, t: nat)
    requires Matched(s) && Enabled(s, Receive(t))
    ensures Matched(Next(s, Receive(t)))
  {
  }

  lemma InvMatched(s: State)
    requires Inv(s)
    ensures Matched(s)
  {
  }

  lemma StepMatched(s: State, step: Step)
    requires Inv(s) && Enabled(s, step)
    ensures Matched(Next(s, step))
  {
    hide Inv, Matched, Answer, CloserOf;
    InvMatched(s);
    var n := Next(s, step);
    match step {
      case Begin(t) =>
        if s.closed {
          MatchedFrame(s, n);
        } else {
          MatchedMove(s, n, t, Admitted);
        }
      case Ask(t, path) => MatchedMove(s, n, t, Asking(path, |s.syncs|));
      case Receive(t) => MatchedReceive(s, t);
      case Wake(t) => MatchedMove(s, n, t, Admitted);
      case End(t) => MatchedMove(s, n, t, Outside);
      case _ => MatchedRest(s, step);
    }
  }

  /** The steps of closers and committer leave the operations where they are. */
  lemma MatchedRest(s: State, step: Step)
    requires Matched(s) && Enabled(s, step)
    requires !step.Begin? && !step.Ask? && !step.Receive? && !step.Wake? && !step.End?
    ensures Matched(Next(s, step))
  {
    hide Matched, Answer, CloserOf;
    MatchedFrame(s, Next(s, step));
  }

  lemma StepWaited(s: State, step: Step)
    requires Inv(s) && Enabled(s, step)
    ensures Waited(Next(s, step))
  {
    var n := Next(s, step);
    forall id: nat | Pending(n, id) ensures exists t :: t in n.phases && n.phases[t] == Waiting(id) {
      if step.Receive? && id == |s.requests| {
        assert n.phases[step.t] == Waiting(id);
      } else {
        assert Pending(s, id);
        var t :| t in s.phases && s.phases[t] == Waiting(id);
        assert t in n.phases && n.phases[t] == Waiting(id);
      }
    }
  }

  lemma StepServed(s: State, step: Step)
    requires Inv(s) && Enabled(s, step)
    ensures Served(Next(s, step))
  {
    if s.stop {
      NoneInFlight(s);
    }
  }

  lemma StepArmed(s: State, step: Step)
    requires Inv(s) && Enabled(s, step)
    ensures Armed(Next(s, step))
  {
    hide Counted, Answered, Matched, Waited, Served, Closing;
  }

  /** The closers stay where they are. */
  lemma ClosingFrame(s: State, n: State)
    requires Closing(s)
    requires n.closed == s.closed && n.stop == s.stop && n.done == s.done && n.closers == s.closers
    requires s.stop || s.done ==> n.ops == 0
    requires s.done ==> !n.committer.Running?
    requires n.committer.Stopped? || (n.committer.Running? && n.committer.mode == Flushing(true)) ==> s.stop
    requires s.stop ==> !n.committer.NotStarted?
    ensures Closing(n)
  {
    forall c ensures AtWork(n, c) <==> AtWork(s, c) {
    }
    if n.closed && !n.done {
      var c :| AtWork(s, c);
      assert AtWork(n, c);
    }
  }

  lemma ClosingCall(s: State, c: nat)
    requires Closing(s) && Enabled(s, Call(c))
    ensures Closing(Next(s, Call(c)))
  {
    var n := Next(s, Call(c));
    forall d | d != c ensures AtWork(n, d) <==> AtWork(s, d) {
    }
    if s.closed {
      assert !AtWork(n, c);
      if !n.done {
        var d :| AtWork(s, d);
        assert AtWork(n, d);
      }
    } else {
      assert AtWork(n, c);
    }
  }

  lemma ClosingDrained(s: State, c: nat)
    requires Closing(s) && Enabled(s, Drained(c))
    ensures Closing(Next(s, Drained(c)))
  {
    var n := Next(s, Drained(c));
    assert AtWork(s, c);
    if !n.done {
      assert AtWork(n, c);
    }
    forall d | d != c ensures CloserOf(n, d) == CloserOf(s, d) {
    }
  }

  /** A closer that waited for the end has seen it. */
  lemma ClosingEnds(s: State, n: State, c: nat)
    requires Closing(s) && (CloserOf(s, c).Following? || CloserOf(s, c).Stopping?)
    requires n == s.(done := true, closers := s.closers[c := Returned])
    requires s.stop || s.done
    requires Idle(s) && !s.committer.Running? && (CloserOf(s, c).Following? ==> s.done)
    ensures Closing(n)
  {
    forall d | d in s.closers && (s.closers[d].Draining? || s.closers[d].Stopping?) ensures AtWork(s, d) && !s.done {
    }
    if CloserOf(s, c).Stopping? {
      assert AtWork(s, c);
    }
  }

  lemma StepClosing(s: State, step: Step)
    requires Inv(s) && Enabled(s, step)
    ensures Closing(Next(s, step))
  {
    hide Counted, Answered, Matched, Waited, Armed, Closing, Answer, ForPath;
    if s.ops == 0 {
      NoneInFlight(s);
    }
    ClosingSays(s);
    var n := Next(s, step);
    match step {
      case Call(c) => ClosingCall(s, c);
      case Drained(c) => ClosingDrained(s, c);
      case Gone(c) => ClosingEnds(s, n, c);
      case Follow(c) => ClosingEnds(s, n, c);
      case _ => ClosingFrame(s, n);
    }
  }

  lemma ClosingSays(s: State)
    requires Closing(s)
    ensures (s.stop || s.done ==> Idle(s)) && (s.done ==> !s.committer.Running?)
    ensures (s.committer.Stopped? ==> s.stop) && (s.stop ==> !s.committer.NotStarted?)
    ensures s.committer.Running? && s.committer.mode == Flushing(true) ==> s.stop
  {
  }

  lemma StepKeeps(s: State, step: Step)
    requires Inv(s) && Enabled(s, step)
    ensures Inv(Next(s, step))
  {
    hide Counted, Answered, Matched, Waited, Served, Armed, Closing, Enabled, Next;
    StepCounted(s, step);
    StepAnswered(s, step);
    StepMatched(s, step);
    StepWaited(s, step);
    StepServed(s, step);
    StepArmed(s, step);
    StepClosing(s, step);
  }

  // -------------------------------------------------------------------------- runs

  /** Every step is enabled when it is taken. */
  predicate Legal(steps: seq<Step>)
    decreases |steps|, 0
  {
    steps == [] ||
    (Legal(steps[..|steps| - 1]) && Enabled(After(steps[..|steps| - 1]), steps[|steps| - 1]))
  }

  function After(steps: seq<Step>): State
    requires Legal(steps)
    decreases |steps|, 1
  {
    if steps == [] then Initial else Next(After(steps[..|steps| - 1]), steps[|steps| - 1])
  }

  lemma {:induction false} LegalKeeps(steps: seq<Step>)
    requires Legal(steps)
    ensures Inv(After(steps))
    decreases |steps|
  {
    hide Inv, Next, Enabled;
    if steps == [] {
      InitialInv();
    } else {
      LegalKeeps(steps[..|steps| - 1]);
      StepKeeps(After(steps[..|steps| - 1]), steps[|steps| - 1]);
    }
  }

  ghost predicate SomeReturned(s: State) {
    exists c :: CloserOf(s, c).Returned?
  }

  /** Once a Close has returned, a step finds nothing in flight, and neither
      admits, writes, asks nor syncs. */
  lemma ReturnedIsQuiet(steps: seq<Step>, step: Step)
    requires Legal(steps) && SomeReturned(After(steps)) && Enabled(After(steps), step)
    ensures var s, n := After(steps), Next(After(steps), step);
            && InFlight(s) == InFlight(n) == {} && SomeReturned(n)
            && n.writes == s.writes && n.syncs == s.syncs && n.requests == s.requests
  {
    hide After, Legal;
    LegalKeeps(steps);
    var s := After(steps);
    var c :| CloserOf(s, c).Returned?;
    NoneInFlight(s);
    assert CloserOf(Next(s, step), c).Returned?;
  }

  /** Whatever happens after a Close has returned, nothing more of this store is
      ever in flight, and nothing more is written. */
  lemma {:induction false} ClosedForGood(steps: seq<Step>, more: seq<Step>)
    requires Legal(steps) && SomeReturned(After(steps)) && Legal(steps + more)
    ensures var s, n := After(steps), After(steps + more);
            && InFlight(n) == {} && !n.committer.Running? && SomeReturned(n)
            && n.writes == s.writes && n.syncs == s.syncs && n.requests == s.requests
    decreases |more|
  {
    hide Next, Enabled, Inv, Legal, After, SomeReturned;
    LegalKeeps(steps + more);
    if more == [] {
      assert steps + more == steps;
    } else {
      var rest := more[..|more| - 1];
      assert (steps + more)[..|steps + more| - 1] == steps + rest;
      LegalStep(steps + more);
      ClosedForGood(steps, rest);
      ReturnedIsQuiet(steps + rest, more[|more| - 1]);
    }
    ReturnedIsIdle(After(steps + more));
  }

  lemma LegalStep(steps: seq<Step>)
    requires Legal(steps) && steps != []
    ensures var front, last := steps[..|steps| - 1], steps[|steps| - 1];
            Legal(front) && Enabled(After(front), last) && After(steps) == Next(After(front), last)
  {
    hide Next, Enabled;
  }

  lemma ReturnedIsIdle(s: State)
    requires Inv(s) && SomeReturned(s)
    ensures InFlight(s) == {} && !s.committer.Running?
  {
    hide Answered, Matched, Waited, Served, Armed;
    var c :| CloserOf(s, c).Returned?;
    NoneInFlight(s);
  }

  /** A waiter that wakes was answered exactly once, from a sync of its path made
      after it asked. */
  lemma WokenOnce(steps: seq<Step>, t: nat)
    requires Legal(steps) && Enabled(After(steps), Wake(t))
    ensures var r := After(steps).requests[PhaseOf(After(steps), t).id];
            |r.replies| == 1 && AnsweredBy(After(steps), r)
  {
    LegalKeeps(steps);
  }

  /** No waiter is stranded: unanswered, it is pending at a running committer
      that is flushing or whose timer is set. */
  lemma NeverStranded(steps: seq<Step>, t: nat)
    requires Legal(steps) && PhaseOf(After(steps), t).Waiting?
    ensures After(steps).committer.Running? && PhaseOf(After(steps), t).id < |After(steps).requests|
    ensures After(steps).requests[PhaseOf(After(steps), t).id].replies == [] ==>
              && PhaseOf(After(steps), t).id in After(steps).committer.pending
              && (After(steps).committer.mode.Receiving? ==> Enabled(After(steps), Fire))
  {
    LegalKeeps(steps);
  }

  /** The committer exits with nothing pending and nobody in flight. */
  lemma ExitsIdle(steps: seq<Step>)
    requires Legal(steps) && After(steps).committer.Stopped?
    ensures InFlight(After(steps)) == {}
    ensures forall id: nat | id < |After(steps).requests| :: |After(steps).requests[id].replies| == 1
  {
    LegalKeeps(steps);
    NoneInFlight(After(steps));
  }

  /** Nothing is left behind by the last flush: on the stop signal nothing can
      be pending any more. */
  lemma NothingPendingOnStop(steps: seq<Step>)
    requires Legal(steps) && After(steps).stop && After(steps).committer.Running?
    ensures After(steps).committer.pending == []
  {
    LegalKeeps(steps);
    NoneInFlight(After(steps));
    if After(steps).committer.pending != [] {
      assert Pending(After(steps), After(steps).committer.pending[0]);
    }
  }
}
