/** What holds over every run of any number of supervisors that share one lock file. */
module RealmRuns {
  import opened Realm

  /** `states[i + 1]` follows from `states[i]` by `steps[i]`; at first nobody has joined. */
  predicate Run(states: seq<State>, steps: seq<Step>) {
    && |states| == |steps| + 1
    && states[0] == State(map[], map[], map[])
    && forall i | 0 <= i < |steps| :: Enabled(states[i], steps[i]) && states[i + 1] == Apply(states[i], steps[i])
  }

  lemma RunStep(states: seq<State>, steps: seq<Step>, i: nat)
    requires Run(states, steps) && i < |steps|
    ensures Enabled(states[i], steps[i]) && states[i + 1] == Apply(states[i], steps[i])
  {
  }

  lemma {:induction false} RunKeepsInv(states: seq<State>, steps: seq<Step>, i: nat)
    requires Run(states, steps) && i < |states|
    ensures Inv(states[i])
  {
    if i > 0 {
      RunKeepsInv(states, steps, i - 1);
      StepKeepsInv(states[i - 1], steps[i - 1]);
    }
  }

  /** The states that some run reaches. */
  ghost predicate Reachable(r: State) {
    exists states, steps :: Run(states, steps) && states[|states| - 1] == r
  }

  lemma ReachableStep(r: State, s: Step)
    requires Reachable(r) && Enabled(r, s)
    ensures Reachable(Apply(r, s))
  {
    var states, steps :| Run(states, steps) && states[|states| - 1] == r;
    var states', steps' := states + [Apply(r, s)], steps + [s];
    assert forall i | 0 <= i < |steps'| ::
      Enabled(states'[i], steps'[i]) && states'[i + 1] == Apply(states'[i], steps'[i]);
    assert Run(states', steps');
  }

  lemma ReachableInv(r: State)
    requires Reachable(r)
    ensures Inv(r)
  {
    var states, steps :| Run(states, steps) && states[|states| - 1] == r;
    RunKeepsInv(states, steps, |states| - 1);
  }

  /** What is known of a `spawn` that has chosen its UID. */
  lemma StartingFits(r: State, h: HostId)
    requires Reachable(r) && h in r.hosts && r.hosts[h].pc.Starting?
    ensures r.hosts[h].pc.key !in r.hosts[h].children && |r.hosts[h].children| < MAX_CHILDREN
    ensures r.hosts[h].pc.isolated ==> r.Leased(r.hosts[h].pc.uid, h) && InRange(r.hosts[h].pc.uid)
                                       && FreshUid(r.hosts[h], r.hosts[h].pc.uid)
  {
    ReachableInv(r);
    assert HostInv(r, h, r.hosts[h]);
  }

  /** What is known of an entry of a table. */
  lemma TableFits(r: State, h: HostId, key: Key)
    requires Reachable(r) && h in r.hosts && key in r.hosts[h].children
    ensures r.hosts[h].children[key].pid in r.processes
    ensures r.hosts[h].children[key].isolated && !(r.hosts[h].pc.Deleting? && r.hosts[h].pc.key == key) ==>
              r.Leased(r.hosts[h].children[key].uid, h)
    ensures forall k | k in r.hosts[h].children && k != key
                       && r.hosts[h].children[k].isolated && r.hosts[h].children[key].isolated ::
              r.hosts[h].children[k].uid != r.hosts[h].children[key].uid
  {
    ReachableInv(r);
    assert HostInv(r, h, r.hosts[h]);
  }

  lemma NonemptyIsOpen(r: State, h: HostId)
    requires Reachable(r) && h in r.hosts && r.hosts[h].children != map[]
    ensures r.hosts[h].phase.Open?
  {
    ReachableInv(r);
    assert HostInv(r, h, r.hosts[h]);
  }

  /** No process is forgotten, and none comes back to life. */
  predicate Aged(r: State, t: State) {
    forall pid | pid in r.processes :: pid in t.processes && (Dead(r, pid) ==> Dead(t, pid))
  }

  /** An isolated process that still runs has its UID's byte locked by the supervisor that started it. */
  lemma RunningIsLeased(states: seq<State>, steps: seq<Step>, i: nat, pid: nat)
    requires Run(states, steps) && i < |states|
    requires pid in states[i].processes && states[i].processes[pid].alive && states[i].processes[pid].isolated
    ensures var p := states[i].processes[pid];
            99000 <= p.uid < 100000 && states[i].Leased(p.uid, p.host)
  {
    RunKeepsInv(states, steps, i);
    var r := states[i];
    var p := r.processes[pid];
    assert Tracked(r, pid, p);
    assert HostInv(r, p.host, r.hosts[p.host]);
  }

  /** In every interleaving, no two isolated processes that run anywhere in the realm share a UID. */
  lemma UidsExclusive(states: seq<State>, steps: seq<Step>, i: nat, p: nat, q: nat)
    requires Run(states, steps) && i < |states|
    requires p in states[i].processes && states[i].processes[p].alive && states[i].processes[p].isolated
    requires q in states[i].processes && states[i].processes[q].alive && states[i].processes[q].isolated
    requires p != q
    ensures states[i].processes[p].uid != states[i].processes[q].uid
  {
    var r := states[i];
    RunKeepsInv(states, steps, i);
    RunningIsLeased(states, steps, i, p);
    RunningIsLeased(states, steps, i, q);
    assert Tracked(r, p, r.processes[p]) && Tracked(r, q, r.processes[q]);
    assert HostInv(r, r.processes[p].host, r.hosts[r.processes[p].host]);
  }

  /** The entries of the tables agree: apart from an entry that `reap` is deleting, every isolated entry's
  byte is leased by its own supervisor, so two entries anywhere never carry the same isolated UID. */
  lemma EntriesExclusive(states: seq<State>, steps: seq<Step>, i: nat, g: HostId, h: HostId, k: Key, l: Key)
    requires Run(states, steps) && i < |states|
    requires g in states[i].hosts && k in states[i].hosts[g].children && states[i].hosts[g].children[k].isolated
    requires h in states[i].hosts && l in states[i].hosts[h].children && states[i].hosts[h].children[l].isolated
    requires (g, k) != (h, l)
    requires !(states[i].hosts[g].pc.Deleting? && states[i].hosts[g].pc.key == k)
    requires !(states[i].hosts[h].pc.Deleting? && states[i].hosts[h].pc.key == l)
    ensures states[i].Leased(states[i].hosts[g].children[k].uid, g)
    ensures states[i].hosts[g].children[k].uid != states[i].hosts[h].children[l].uid
  {
    RunKeepsInv(states, steps, i);
    assert HostInv(states[i], g, states[i].hosts[g]) && HostInv(states[i], h, states[i].hosts[h]);
  }

  /** When a UID is handed to a new isolated process, every process that carried it before has exited. */
  lemma ReassignedAfterExit(states: seq<State>, steps: seq<Step>, i: nat, q: nat)
    requires Run(states, steps) && i < |steps| && steps[i].Launch?
    requires q in states[i].processes && states[i].processes[q].isolated
    requires states[i + 1].processes[steps[i].pid].isolated
    requires states[i].processes[q].uid == states[i + 1].processes[steps[i].pid].uid
    ensures !states[i].processes[q].alive
  {
    if states[i].processes[q].alive {
      UidsExclusive(states, steps, i + 1, q, steps[i].pid);
    }
  }

  /** At every moment a supervisor has at most 16 children, whichever operation it is in. */
  lemma AtMostSixteen(states: seq<State>, steps: seq<Step>, i: nat, h: HostId)
    requires Run(states, steps) && i < |states| && h in states[i].hosts
    ensures |states[i].hosts[h].children| <= 16
  {
    RunKeepsInv(states, steps, i);
    assert HostInv(states[i], h, states[i].hosts[h]);
  }

  predicate Quiet(r: State, h: HostId) {
    h in r.hosts && !r.hosts[h].phase.Open?
  }

  /** A step of another supervisor leaves this one's entry as it is. */
  lemma OtherHostSame(r: State, s: Step, h: HostId)
    requires Enabled(r, s) && h in r.hosts && !By(s, h)
    ensures h in Apply(r, s).hosts && Apply(r, s).hosts[h] == r.hosts[h]
  {
  }

  lemma QuietStays(r: State, s: Step, h: HostId)
    requires Inv(r) && Enabled(r, s) && Quiet(r, h)
    ensures Quiet(Apply(r, s), h) && !(s.Launch? && s.h == h)
  {
    if By(s, h) {
      assert HostInv(r, h, r.hosts[h]);
      QuietIsIdle(r, s, h);
    } else {
      OtherHostSame(r, s, h);
    }
  }

  lemma QuietIsIdle(r: State, s: Step, h: HostId)
    requires Enabled(r, s) && By(s, h) && Quiet(r, h) && PhaseFits(r.hosts[h])
    ensures Quiet(Apply(r, s), h) && !s.Launch?
  {
  }

  lemma QuietHost(r: State, h: HostId)
    requires Inv(r) && Quiet(r, h)
    ensures r.hosts[h].stopped && r.hosts[h].children == map[]
    ensures forall pid | pid in r.processes && r.processes[pid].host == h :: !r.processes[pid].alive
  {
    assert HostInv(r, h, r.hosts[h]);
    forall pid | pid in r.processes && r.processes[pid].host == h
      ensures !r.processes[pid].alive
    {
      assert r.processes[pid].alive ==> Tracked(r, pid, r.processes[pid]);
    }
  }

  lemma {:induction false} QuietRun(states: seq<State>, steps: seq<Step>, i: nat, j: nat, h: HostId)
    requires Run(states, steps) && i <= j < |states| && Quiet(states[i], h)
    ensures Quiet(states[j], h)
    ensures forall n | i <= n < j && steps[n].Launch? :: steps[n].h != h
  {
    if i < j {
      var m := j - 1;
      QuietRun(states, steps, i, m, h);
      RunKeepsInv(states, steps, m);
      RunStep(states, steps, m);
      QuietStays(states[m], steps[m], h);
    }
  }

  /** Once `close` has emptied the table it stays empty for good, nothing is started any more, and every
  child the supervisor ever started has exited. */
  lemma ClosedForGood(states: seq<State>, steps: seq<Step>, i: nat, j: nat, h: HostId)
    requires Run(states, steps) && i <= j < |states| && Quiet(states[i], h)
    ensures h in states[j].hosts && states[j].hosts[h].stopped && states[j].hosts[h].children == map[]
    ensures forall pid | pid in states[j].processes && states[j].processes[pid].host == h ::
              !states[j].processes[pid].alive
    ensures forall n | i <= n < j && steps[n].Launch? :: steps[n].h != h
  {
    QuietRun(states, steps, i, j, h);
    RunKeepsInv(states, steps, j);
    QuietHost(states[j], h);
  }

  lemma QuietTakesNothing(r: State, s: Step, h: HostId, u: int)
    requires Inv(r) && Enabled(r, s) && Quiet(r, h) && !r.Leased(u, h)
    ensures !Apply(r, s).Leased(u, h)
  {
    assert HostInv(r, h, r.hosts[h]);
  }

  /** After `close` has closed the lock file, the supervisor never holds a byte again. */
  lemma {:induction false} ReleasedHoldsNothing(states: seq<State>, steps: seq<Step>, i: nat, j: nat, h: HostId, u: int)
    requires Run(states, steps) && i < j < |states| && steps[i] == CloseLeases(h)
    ensures Quiet(states[j], h) && !states[j].Leased(u, h)
  {
    RunKeepsInv(states, steps, j - 1);
    if j == i + 1 {
      QuietStays(states[i], steps[i], h);
    } else {
      ReleasedHoldsNothing(states, steps, i, j - 1, h, u);
      QuietStays(states[j - 1], steps[j - 1], h);
      QuietTakesNothing(states[j - 1], steps[j - 1], h, u);
    }
  }

  /** The points a stopped supervisor can still reach: none of them belongs to `spawn`. */
  predicate Winding(r: State, h: HostId) {
    && h in r.hosts && r.hosts[h].stopped
    && var pc := r.hosts[h].pc;
    pc.Idle? || pc.Stopping? || pc.Reaping? || pc.Deleting? || pc.Closing?
  }

  lemma WindingStays(r: State, s: Step, h: HostId)
    requires Enabled(r, s) && Winding(r, h)
    ensures Winding(Apply(r, s), h) && Apply(r, s).hosts[h].children.Keys <= r.hosts[h].children.Keys
    ensures !((s.Launch? || s.TakeUid?) && s.h == h)
  {
    if By(s, h) {
      OwnWindingStays(r, s, h);
    } else {
      OtherHostSame(r, s, h);
    }
  }

  lemma OwnWindingStays(r: State, s: Step, h: HostId)
    requires Enabled(r, s) && By(s, h) && Winding(r, h)
    ensures Winding(Apply(r, s), h) && Apply(r, s).hosts[h].children.Keys <= r.hosts[h].children.Keys
    ensures !s.Launch? && !s.TakeUid?
  {
  }

  /** Once `stopped` is set and no `spawn` holds the mutex, no byte is leased and no child is started again,
  even if `close` itself gives up waiting for a child. */
  lemma {:induction false} StoppedStartsNothing(states: seq<State>, steps: seq<Step>, i: nat, j: nat, h: HostId)
    requires Run(states, steps) && i <= j < |states| && Winding(states[i], h)
    ensures Winding(states[j], h) && states[j].hosts[h].children.Keys <= states[i].hosts[h].children.Keys
    ensures forall n | i <= n < j && (steps[n].Launch? || steps[n].TakeUid?) :: steps[n].h != h
  {
    if i < j {
      StoppedStartsNothing(states, steps, i, j - 1, h);
      WindingStays(states[j - 1], steps[j - 1], h);
    }
  }

  lemma UndisturbedReflexive(r: State, h: HostId)
    requires h in r.hosts
    ensures Undisturbed(r, r, h)
  {
  }

  lemma UndisturbedTransitive(r: State, s: State, t: State, h: HostId)
    requires Undisturbed(r, s, h) && Undisturbed(s, t, h)
    ensures Undisturbed(r, t, h)
  {
  }

  lemma StepUndisturbed(r: State, s: Step, h: HostId)
    requires Inv(r) && Enabled(r, s) && h in r.hosts && (!By(s, h) || s.SetStopped?)
    ensures Undisturbed(r, Apply(r, s), h)
  {
    if By(s, h) {
      StopUndisturbed(r, h);
    } else {
      OthersUndisturbed(r, s, h);
    }
  }

  /** Whatever the others do while supervisor `h` is between two of its own steps leaves it undisturbed:
  the guarantee its operations rely on. */
  lemma {:induction false} InterleavingUndisturbed(states: seq<State>, steps: seq<Step>, i: nat, j: nat, h: HostId)
    requires Run(states, steps) && i <= j < |states| && h in states[i].hosts
    requires forall n | i <= n < j :: !By(steps[n], h) || steps[n].SetStopped?
    ensures Undisturbed(states[i], states[j], h)
  {
    if i < j {
      var m := j - 1;
      InterleavingUndisturbed(states, steps, i, m, h);
      RunKeepsInv(states, steps, m);
      RunStep(states, steps, m);
      assert h in states[m].hosts;
      StepUndisturbed(states[m], steps[m], h);
      UndisturbedTransitive(states[i], states[m], states[j], h);
    } else {
      UndisturbedReflexive(states[i], h);
    }
  }
}
