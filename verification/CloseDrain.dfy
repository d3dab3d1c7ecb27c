/** Closing comes to an end (engine/store.go:195-229, 1278-1360): from every
    reachable state the pending requests can be answered, the operations in
    flight can finish, and every Close that was called can return, while no new
    operation starts. */
module CloseDrain {
  import opened CloseProtocol

  /** These steps can be taken from s, one after the other, and end in n. */
  ghost predicate Leads(s: State, steps: seq<Step>, n: State)
    decreases |steps|
  {
    if steps == [] then s == n
    else Enabled(s, steps[0]) && Leads(Next(s, steps[0]), steps[1..], n)
  }

  lemma LeadsOne(s: State, step: Step)
    requires Enabled(s, step)
    ensures Leads(s, [step], Next(s, step))
  {
    assert Leads(Next(s, step), [], Next(s, step));
  }

  lemma {:induction false} LeadsJoin(s: State, a: seq<Step>, m: State, b: seq<Step>, n: State)
    requires Leads(s, a, m) && Leads(m, b, n)
    ensures Leads(s, a + b, n)
    decreases |a|
  {
    hide Enabled, Next;
    if a == [] {
      assert a + b == b;
    } else {
      LeadsJoin(Next(s, a[0]), a[1..], m, b, n);
      assert (a + b)[1..] == a[1..] + b;
    }
  }

  lemma {:induction false} LeadsKeeps(s: State, steps: seq<Step>, n: State)
    requires Inv(s) && Leads(s, steps, n)
    ensures Inv(n)
    decreases |steps|
  {
    hide Enabled, Next, Inv;
    if steps != [] {
      StepKeeps(s, steps[0]);
      LeadsKeeps(Next(s, steps[0]), steps[1..], n);
    }
  }

  lemma {:induction false} LeadsLegal(done: seq<Step>, steps: seq<Step>, n: State)
    requires Legal(done) && Leads(After(done), steps, n)
    ensures Legal(done + steps) && After(done + steps) == n
    decreases |steps|
  {
    hide Enabled, Next;
    if steps == [] {
      assert done + steps == done;
    } else {
      assert (done + [steps[0]])[..|done|] == done;
      LeadsLegal(done + [steps[0]], steps[1..], n);
      assert done + [steps[0]] + steps[1..] == done + steps;
    }
  }

  /** Only the committer moved: everybody else is where they were. */
  ghost predicate SameParties(s: State, n: State) {
    && n.phases == s.phases && n.ops == s.ops && n.closed == s.closed && n.stop == s.stop && n.done == s.done
    && n.closers == s.closers && n.writes == s.writes && |n.requests| == |s.requests|
    && forall id: nat | id < |s.requests| :: n.requests[id].path == s.requests[id].path
  }

  /** Syncing the first pending path answers at least its request. */
  lemma ForPathShrinks(ids: seq<nat>, requests: seq<Request>, path: string)
    ensures |ForPath(ids, requests, path, false)| <= |ids|
    ensures (exists i :: 0 <= i < |ids| && ids[i] < |requests| && requests[ids[i]].path == path) ==>
              |ForPath(ids, requests, path, false)| < |ids|
  {
    if ids != [] {
      ForPathShrinks(ids[1..], requests, path);
      if i :| 0 <= i < |ids| && ids[i] < |requests| && requests[ids[i]].path == path {
        if i > 0 {
          assert ids[1..][i - 1] == ids[i];
        }
      }
    }
  }

  /** A flush under way can sync path after path until nothing is pending; each
      sync of a pending path leaves fewer. */
  lemma {:induction false} Flush(s: State) returns (steps: seq<Step>, n: State)
    requires Inv(s) && s.committer.Running? && s.committer.mode.Flushing?
    ensures Leads(s, steps, n) && |steps| <= |s.committer.pending| && SameParties(s, n)
    ensures n.committer.Running? && n.committer.mode == s.committer.mode && n.committer.pending == []
    decreases |s.committer.pending|
  {
    if s.committer.pending == [] {
      return [], s;
    }
    assert Pending(s, s.committer.pending[0]);
    var path := s.requests[s.committer.pending[0]].path;
    var m := Next(s, Sync(path));
    StepKeeps(s, Sync(path));
    ForPathShrinks(s.committer.pending, s.requests, path);
    steps, n := Flush(m);
    assert ([Sync(path)] + steps)[1..] == steps;
    steps := [Sync(path)] + steps;
  }

  /** Before the stop signal a running committer can answer everything pending
      and be ready for more. */
  lemma Settle(s: State) returns (steps: seq<Step>, n: State)
    requires Inv(s) && s.committer.Running? && !s.stop
    ensures Leads(s, steps, n) && |steps| <= |s.committer.pending| + 2 && SameParties(s, n)
    ensures n.committer.Running? && n.committer.mode.Receiving? && n.committer.pending == []
  {
    var m, first := s, [];
    if s.committer.mode.Receiving? {
      if s.committer.pending == [] {
        return [], s;
      }
      m, first := Next(s, Fire), [Fire];
      LeadsOne(s, Fire);
      StepKeeps(s, Fire);
    }
    var middle, f := Flush(m);
    LeadsKeeps(m, middle, f);
    LeadsOne(f, Flushed);
    LeadsJoin(m, middle, f, [Flushed], Next(f, Flushed));
    LeadsJoin(s, first, m, middle + [Flushed], Next(f, Flushed));
    steps, n := first + (middle + [Flushed]), Next(f, Flushed);
  }

  /** A waiter without a reply gets one within as many committer steps as there
      are requests pending, and two. */
  lemma AnswerComes(done: seq<Step>, t: nat) returns (more: seq<Step>)
    requires Legal(done) && PhaseOf(After(done), t).Waiting?
    ensures Legal(done + more) && Enabled(After(done + more), Wake(t))
    ensures After(done).committer.Running? && |more| <= |After(done).committer.pending| + 2
  {
    hide Legal, After;
    LegalKeeps(done);
    var s := After(done);
    NotStopping(s, t);
    var n;
    more, n := Settle(s);
    LeadsKeeps(s, more, n);
    LeadsLegal(done, more, n);
    Replied(n, t);
  }

  lemma NotStopping(s: State, t: nat)
    requires Inv(s) && t in s.phases && !s.phases[t].Outside?
    ensures !s.stop && s.ops > 0
  {
    assert t in InFlight(s);
  }

  lemma Replied(n: State, t: nat)
    requires Inv(n) && PhaseOf(n, t).Waiting? && n.committer.Running? && n.committer.pending == []
    ensures Enabled(n, Wake(t))
  {
    assert |n.requests[PhaseOf(n, t).id].replies| == 1;
  }

  // --------------------------------------------------------------------- draining

  /** One operation finished; closing stands where it stood. */
  ghost predicate Released(s: State, n: State) {
    n.ops == s.ops - 1 && n.closed == s.closed && n.stop == s.stop && n.done == s.done && n.closers == s.closers
  }

  lemma EndAdmitted(s: State, t: nat)
    requires Inv(s) && PhaseOf(s, t).Admitted?
    ensures Enabled(s, End(t)) && Leads(s, [End(t)], Next(s, End(t))) && Released(s, Next(s, End(t)))
  {
    NotStopping(s, t);
    LeadsOne(s, End(t));
  }

  lemma EndWaiting(s: State, t: nat) returns (steps: seq<Step>, n: State)
    requires Inv(s) && PhaseOf(s, t).Waiting?
    ensures Leads(s, steps, n) && Released(s, n)
  {
    NotStopping(s, t);
    var first, m := Settle(s);
    LeadsKeeps(s, first, m);
    Replied(m, t);
    var w := Next(m, Wake(t));
    StepKeeps(m, Wake(t));
    LeadsOne(m, Wake(t));
    EndAdmitted(w, t);
    n := Next(w, End(t));
    LeadsJoin(m, [Wake(t)], w, [End(t)], n);
    LeadsJoin(s, first, m, [Wake(t)] + [End(t)], n);
    steps := first + ([Wake(t)] + [End(t)]);
  }

  lemma EndAsking(s: State, t: nat) returns (steps: seq<Step>, n: State)
    requires Inv(s) && PhaseOf(s, t).Asking?
    ensures Leads(s, steps, n) && Released(s, n)
  {
    NotStopping(s, t);
    var first, m := Settle(s);
    LeadsKeeps(s, first, m);
    var w := Next(m, Receive(t));
    StepKeeps(m, Receive(t));
    LeadsOne(m, Receive(t));
    var rest;
    rest, n := EndWaiting(w, t);
    LeadsJoin(m, [Receive(t)], w, rest, n);
    LeadsJoin(s, first, m, [Receive(t)] + rest, n);
    steps := first + ([Receive(t)] + rest);
  }

  /** Whoever is in flight can finish, whatever it was doing. */
  lemma Release(s: State, t: nat) returns (steps: seq<Step>, n: State)
    requires Inv(s) && t in InFlight(s)
    ensures Leads(s, steps, n) && Released(s, n)
  {
    hide Leads, Inv;
    if s.phases[t].Admitted? {
      EndAdmitted(s, t);
      steps, n := [End(t)], Next(s, End(t));
    } else if s.phases[t].Waiting? {
      steps, n := EndWaiting(s, t);
    } else {
      steps, n := EndAsking(s, t);
    }
  }

  /** The operations in flight can finish, one by one. */
  lemma {:induction false} Drain(s: State) returns (steps: seq<Step>, n: State)
    requires Inv(s)
    ensures Leads(s, steps, n) && n.ops == 0
    ensures n.closed == s.closed && n.stop == s.stop && n.done == s.done && n.closers == s.closers
    decreases s.ops
  {
    if s.ops == 0 {
      return [], s;
    }
    var t: nat :| t in InFlight(s);
    var first, m := Release(s, t);
    LeadsKeeps(s, first, m);
    steps, n := Drain(m);
    LeadsJoin(s, first, m, steps, n);
    steps := first + steps;
  }

  // ---------------------------------------------------------------------- closing

  /** After the stop signal the committer can exit. */
  lemma Exit(s: State) returns (steps: seq<Step>, n: State)
    requires Inv(s) && s.stop
    ensures Leads(s, steps, n) && n.committer.Stopped?
    ensures n.closed && n.stop && n.done == s.done && n.closers == s.closers
  {
    if s.committer.Stopped? {
      return [], s;
    }
    var first, m := LastFlush(s);
    LeadsKeeps(s, first, m);
    assert m.committer.pending == [] by {
      NothingPending(m);
    }
    LeadsOne(m, Flushed);
    LeadsJoin(s, first, m, [Flushed], Next(m, Flushed));
    steps, n := first + [Flushed], Next(m, Flushed);
  }

  lemma NothingPending(s: State)
    requires Inv(s) && s.stop && s.committer.Running?
    ensures s.committer.pending == []
  {
    NoneInFlight(s);
    if s.committer.pending != [] {
      assert Pending(s, s.committer.pending[0]);
    }
  }

  lemma LastFlush(s: State) returns (steps: seq<Step>, n: State)
    requires Inv(s) && s.stop && s.committer.Running?
    ensures Leads(s, steps, n) && n.committer.Running? && n.committer.mode == Flushing(true)
    ensures n.closed && n.stop && n.done == s.done && n.closers == s.closers
  {
    NothingPending(s);
    if s.committer.mode == Flushing(true) {
      return [], s;
    }
    if s.committer.mode.Receiving? {
      LeadsOne(s, StopSeen);
      return [StopSeen], Next(s, StopSeen);
    }
    var m := Next(s, Flushed);
    LeadsOne(s, Flushed);
    LeadsOne(m, StopSeen);
    LeadsJoin(s, [Flushed], m, [StopSeen], Next(m, StopSeen));
    return [Flushed] + [StopSeen], Next(m, StopSeen);
  }

  /** The first Close can finish. */
  lemma Finish(s: State) returns (steps: seq<Step>, n: State)
    requires Inv(s) && s.closed && !s.done
    ensures Leads(s, steps, n) && n.done
    ensures forall c | CloserOf(s, c).Following? || CloserOf(s, c).Returned? :: CloserOf(n, c) == CloserOf(s, c)
    ensures forall c | AtWork(s, c) :: CloserOf(n, c).Returned?
  {
    var first, m := Drain(s);
    LeadsKeeps(s, first, m);
    var c: nat :| AtWork(m, c);
    if !m.stop {
      LeadsOne(m, Drained(c));
      var d := Next(m, Drained(c));
      LeadsJoin(s, first, m, [Drained(c)], d);
      LeadsKeeps(m, [Drained(c)], d);
      first, m := first + [Drained(c)], d;
      if m.done {
        return first, m;
      }
    }
    var middle, e := Exit(m);
    LeadsOne(e, Gone(c));
    LeadsJoin(m, middle, e, [Gone(c)], Next(e, Gone(c)));
    LeadsJoin(s, first, m, middle + [Gone(c)], Next(e, Gone(c)));
    steps, n := first + (middle + [Gone(c)]), Next(e, Gone(c));
  }

  /** Every Close that was called can return, from whatever state it waits in. */
  lemma CloseReturns(done: seq<Step>, c: nat) returns (more: seq<Step>)
    requires Legal(done) && !CloserOf(After(done), c).NotClosing?
    ensures Legal(done + more) && CloserOf(After(done + more), c).Returned?
  {
    hide Legal, After;
    LegalKeeps(done);
    var s := After(done);
    var n := s;
    more := [];
    if !s.done {
      more, n := Finish(s);
      LeadsKeeps(s, more, n);
    }
    if CloserOf(n, c).Following? {
      LeadsOne(n, Follow(c));
      LeadsJoin(s, more, n, [Follow(c)], Next(n, Follow(c)));
      more, n := more + [Follow(c)], Next(n, Follow(c));
    }
    LeadsLegal(done, more, n);
  }

  /** While closing is under way nothing new starts: no step adds to the
      operations in flight, and each one that ends brings the drain closer. */
  lemma DrainShrinks(done: seq<Step>, step: Step)
    requires Legal(done) && After(done).closed && Enabled(After(done), step)
    ensures InFlight(Next(After(done), step)) <= InFlight(After(done))
    ensures step.End? ==> |InFlight(Next(After(done), step))| < |InFlight(After(done))|
  {
    hide Legal, After;
    LegalKeeps(done);
    var s := After(done);
    StepCounted(s, step);
    if step.End? {
      NotStopping(s, step.t);
    }
  }
}
