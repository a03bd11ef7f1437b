/** The settings key of a virtual device: any number of first launches race to publish it without a lock.
A temporary file is an inode with no lasting name; `link` gives the target name to the whole inode. */
module SettingsKey {
  newtype Byte = x | 0 <= x < 256

  import opened Options

  type CallerId = nat
  type Inode = nat

  const KEY_SIZE := 32

  datatype Pc =
    | Checking
    | Creating                                  // the check found no target; there may be one by now
    | Writing(inode: Inode, key: seq<Byte>)     // the temporary file holds a prefix of the random key
    | Linking(inode: Inode)                     // flushed and synced
    | Opening
    | Reading(inode: Inode)
    | Returned(key: seq<Byte>)
    | Raised                                    // or the process died

  /** `target` is the inode that the name user-N.key refers to. */
  datatype State = State(inodes: map<Inode, seq<Byte>>, target: Option<Inode>, callers: map<CallerId, Pc>)

  datatype Step =
    | Call(c: CallerId)
    | FindTarget(c: CallerId)
    | MissTarget(c: CallerId)
    | CreateTemporary(c: CallerId, inode: Inode, key: seq<Byte>)
    | WriteByte(c: CallerId)
    | Flush(c: CallerId)
    | Link(c: CallerId)                         // FileExistsError when there is a target already
    | Open(c: CallerId)
    | Read(c: CallerId)
    | Die(c: CallerId)

  predicate Enabled(s: State, e: Step) {
    if e.Call? then e.c !in s.callers
    else
      e.c in s.callers &&
      var pc := s.callers[e.c];
      match e
      case FindTarget(_) => pc.Checking? && s.target.Some?
      case MissTarget(_) => pc.Checking? && s.target.None?
      case CreateTemporary(_, inode, key) => pc.Creating? && inode !in s.inodes && |key| == KEY_SIZE
      case WriteByte(_) => pc.Writing? && pc.inode in s.inodes && |s.inodes[pc.inode]| < |pc.key|
      case Flush(_) => pc.Writing? && pc.inode in s.inodes && |s.inodes[pc.inode]| == |pc.key|
      case Link(_) => pc.Linking?
      case Open(_) => pc.Opening? && s.target.Some?
      case Read(_) => pc.Reading? && pc.inode in s.inodes
      case Die(_) => !pc.Returned?
      case Call(_) => false
  }

  function At(s: State, c: CallerId, pc: Pc): State {
    s.(callers := s.callers[c := pc])
  }

  function Apply(s: State, e: Step): State
    requires Enabled(s, e)
  {
    match e
    case Call(c) => At(s, c, Checking)
    case FindTarget(c) => At(s, c, Opening)
    case MissTarget(c) => At(s, c, Creating)
    case CreateTemporary(c, inode, key) => At(s.(inodes := s.inodes[inode := []]), c, Writing(inode, key))
    case WriteByte(c) =>
      var pc := s.callers[c];
      var content := s.inodes[pc.inode];
      s.(inodes := s.inodes[pc.inode := content + [pc.key[|content|]]])
    case Flush(c) => At(s, c, Linking(s.callers[c].inode))
    case Link(c) => At(if s.target.None? then s.(target := Some(s.callers[c].inode)) else s, c, Opening)
    case Open(c) => At(s, c, Reading(s.target.value))
    case Read(c) =>
      var content := s.inodes[s.callers[c].inode];
      At(s, c, if |content| == KEY_SIZE then Returned(content) else Raised)
    case Die(c) => At(s, c, Raised)
  }

  // ------------------------------------------------------------------ the invariant

  predicate Owns(pc: Pc, inode: Inode) {
    (pc.Writing? || pc.Linking?) && pc.inode == inode
  }

  predicate CallerFits(s: State, c: CallerId, pc: Pc) {
    match pc
    case Writing(inode, key) => inode in s.inodes && |key| == KEY_SIZE && s.inodes[inode] <= key
    case Linking(inode) => inode in s.inodes && |s.inodes[inode]| == KEY_SIZE
    case Opening => s.target.Some?
    case Reading(inode) => s.target == Some(inode)
    case Returned(key) =>
      s.target.Some? && s.target.value in s.inodes && s.inodes[s.target.value] == key && |key| == KEY_SIZE
    case _ => true
  }

  predicate Inv(s: State) {
    && (s.target.Some? ==> s.target.value in s.inodes)
    && (forall c | c in s.callers :: CallerFits(s, c, s.callers[c]))
    // a target is nobody's temporary file to write, and no two callers share one
    && (forall c | c in s.callers && s.callers[c].Writing? :: s.target != Some(s.callers[c].inode))
    && (forall c, d | c in s.callers && d in s.callers && c != d && s.callers[c].Writing? ::
          !Owns(s.callers[d], s.callers[c].inode))
  }

  // One lemma for each step that changes more than its caller's place, and one for the others.

  lemma CreateKeepsInv(s: State, c: CallerId, inode: Inode, key: seq<Byte>)
    requires Inv(s) && Enabled(s, CreateTemporary(c, inode, key))
    ensures Inv(Apply(s, CreateTemporary(c, inode, key)))
  {
    var t := Apply(s, CreateTemporary(c, inode, key));
    forall d | d in s.callers ensures CallerFits(t, d, t.callers[d]) {
      assert CallerFits(s, d, s.callers[d]);
    }
  }

  lemma WriteKeepsInv(s: State, c: CallerId)
    requires Inv(s) && Enabled(s, WriteByte(c))
    ensures Inv(Apply(s, WriteByte(c)))
  {
    var t := Apply(s, WriteByte(c));
    forall d | d in s.callers ensures CallerFits(t, d, t.callers[d]) {
      assert CallerFits(s, d, s.callers[d]);
    }
  }

  lemma LinkKeepsInv(s: State, c: CallerId)
    requires Inv(s) && Enabled(s, Link(c))
    ensures Inv(Apply(s, Link(c)))
  {
    var t := Apply(s, Link(c));
    assert CallerFits(s, c, s.callers[c]);
    forall d | d in s.callers ensures CallerFits(t, d, t.callers[d]) {
      assert CallerFits(s, d, s.callers[d]);
    }
  }

  lemma MoveKeepsInv(s: State, e: Step)
    requires Inv(s) && Enabled(s, e) && !e.CreateTemporary? && !e.WriteByte? && !e.Link?
    ensures Inv(Apply(s, e))
  {
    var t := Apply(s, e);
    forall d | d in t.callers ensures CallerFits(t, d, t.callers[d]) {
      if d in s.callers {
        assert CallerFits(s, d, s.callers[d]);
      }
    }
  }

  lemma StepKeepsInv(s: State, e: Step)
    requires Inv(s) && Enabled(s, e)
    ensures Inv(Apply(s, e))
  {
    match e
    case CreateTemporary(c, inode, key) => CreateKeepsInv(s, c, inode, key);
    case WriteByte(c) => WriteKeepsInv(s, c);
    case Link(c) => LinkKeepsInv(s, c);
    case _ => MoveKeepsInv(s, e);
  }

  /** The target, once there, is never replaced, and its bytes never change. */
  lemma StepKeepsTarget(s: State, e: Step)
    requires Inv(s) && Enabled(s, e) && s.target.Some?
    ensures Apply(s, e).target == s.target
    ensures Apply(s, e).inodes[s.target.value] == s.inodes[s.target.value]
  {
  }

  /** Only complete keys are published. */
  predicate Complete(s: State) {
    s.target.Some? ==> s.target.value in s.inodes && |s.inodes[s.target.value]| == KEY_SIZE
  }

  lemma StepKeepsComplete(s: State, e: Step)
    requires Inv(s) && Enabled(s, e) && Complete(s)
    ensures Complete(Apply(s, e))
  {
    if e.Link? {
      assert CallerFits(s, e.c, s.callers[e.c]);
    }
  }

  // ------------------------------------------------------------------ runs

  /** Nobody has called yet; the target may exist from an earlier life of the device, whatever it holds. */
  predicate Initial(s: State) {
    s.callers == map[] && (s.target.Some? ==> s.target.value in s.inodes)
  }

  predicate Run(states: seq<State>, steps: seq<Step>) {
    && |states| == |steps| + 1
    && Initial(states[0])
    && forall i | 0 <= i < |steps| :: Enabled(states[i], steps[i]) && states[i + 1] == Apply(states[i], steps[i])
  }

  lemma {:induction false} RunKeepsInv(states: seq<State>, steps: seq<Step>, i: nat)
    requires Run(states, steps) && i < |states|
    ensures Inv(states[i])
  {
    if i > 0 {
      RunKeepsInv(states, steps, i - 1);
      StepKeepsInv(states[i - 1], steps[i - 1]);
    }
  }

  /** In every interleaving the name, once it refers to a key, refers to the same bytes for good. */
  lemma {:induction false} TargetNeverChanges(states: seq<State>, steps: seq<Step>, i: nat, j: nat)
    requires Run(states, steps) && i <= j < |states| && states[i].target.Some?
    ensures states[j].target == states[i].target && states[j].target.value in states[j].inodes
    ensures states[i].target.value in states[i].inodes
    ensures states[j].inodes[states[j].target.value] == states[i].inodes[states[i].target.value]
  {
    RunKeepsInv(states, steps, i);
    if i < j {
      TargetNeverChanges(states, steps, i, j - 1);
      RunKeepsInv(states, steps, j - 1);
      StepKeepsTarget(states[j - 1], steps[j - 1]);
    }
  }

  /** Every call that returns, at whatever time, returns the same 32 bytes. */
  lemma OneKey(states: seq<State>, steps: seq<Step>, i: nat, j: nat, c: CallerId, d: CallerId)
    requires Run(states, steps) && i <= j < |states|
    requires c in states[i].callers && states[i].callers[c].Returned?
    requires d in states[j].callers && states[j].callers[d].Returned?
    ensures states[i].callers[c].key == states[j].callers[d].key && |states[i].callers[c].key| == 32
  {
    RunKeepsInv(states, steps, i);
    RunKeepsInv(states, steps, j);
    assert CallerFits(states[i], c, states[i].callers[c]) && CallerFits(states[j], d, states[j].callers[d]);
    TargetNeverChanges(states, steps, i, j);
  }

  lemma {:induction false} RunKeepsComplete(states: seq<State>, steps: seq<Step>, i: nat)
    requires Run(states, steps) && Complete(states[0]) && i < |states|
    ensures Complete(states[i])
  {
    if i > 0 {
      RunKeepsComplete(states, steps, i - 1);
      RunKeepsInv(states, steps, i - 1);
      StepKeepsComplete(states[i - 1], steps[i - 1]);
    }
  }

  /** On a device whose key is absent or complete, every read sees a complete key and so returns it. */
  lemma ReadsComplete(states: seq<State>, steps: seq<Step>, i: nat)
    requires Run(states, steps) && Complete(states[0]) && i < |steps| && steps[i].Read?
    ensures states[i + 1].callers[steps[i].c].Returned?
    ensures states[i].target.Some? && states[i].target.value in states[i].inodes
    ensures states[i + 1].callers[steps[i].c].key == states[i].inodes[states[i].target.value]
  {
    RunKeepsComplete(states, steps, i);
    RunKeepsInv(states, steps, i);
    assert CallerFits(states[i], steps[i].c, states[i].callers[steps[i].c]);
  }

  /** A device whose key file is damaged is never given another identity: no call ever returns. */
  lemma DamagedNeverReplaced(states: seq<State>, steps: seq<Step>, i: nat, c: CallerId)
    requires Run(states, steps) && i < |states| && states[0].target.Some? && !Complete(states[0])
    requires c in states[i].callers
    ensures !states[i].callers[c].Returned? && states[i].target == states[0].target
  {
    TargetNeverChanges(states, steps, 0, i);
    RunKeepsInv(states, steps, i);
    assert CallerFits(states[i], c, states[i].callers[c]);
  }

  /** Step `k` made the temporary file `inode` for this key. */
  predicate MadeAt(steps: seq<Step>, k: nat, j: nat, inode: Inode, key: seq<Byte>) {
    k < j <= |steps| && steps[k].CreateTemporary? && steps[k].inode == inode && steps[k].key == key
  }

  lemma {:induction false} WriterMade(states: seq<State>, steps: seq<Step>, j: nat, c: CallerId) returns (k: nat)
    requires Run(states, steps) && j <= |steps| && c in states[j].callers && states[j].callers[c].Writing?
    ensures MadeAt(steps, k, j, states[j].callers[c].inode, states[j].callers[c].key)
  {
    var m := j - 1;
    assert Enabled(states[m], steps[m]) && states[j] == Apply(states[m], steps[m]);
    if steps[m].CreateTemporary? && steps[m].c == c {
      k := m;
    } else {
      k := WriterMade(states, steps, m, c);
    }
  }

  lemma LinkerBefore(s: State, e: Step, c: CallerId)
    requires Inv(s) && Enabled(s, e) && c in Apply(s, e).callers && Apply(s, e).callers[c].Linking?
    ensures c in s.callers
    ensures var inode := Apply(s, e).callers[c].inode;
            && inode in s.inodes && inode in Apply(s, e).inodes && Apply(s, e).inodes[inode] == s.inodes[inode]
            && (s.callers[c] == Linking(inode)
                || (s.callers[c].Writing? && s.callers[c].inode == inode && s.inodes[inode] == s.callers[c].key))
  {
    assert CallerFits(s, c, s.callers[c]);
  }

  lemma {:induction false} LinkerMade(states: seq<State>, steps: seq<Step>, j: nat, c: CallerId)
    returns (k: nat, key: seq<Byte>)
    requires Run(states, steps) && j <= |steps| && c in states[j].callers && states[j].callers[c].Linking?
    ensures var inode := states[j].callers[c].inode;
            MadeAt(steps, k, j, inode, key) && inode in states[j].inodes && states[j].inodes[inode] == key
  {
    var m := j - 1;
    assert Enabled(states[m], steps[m]) && states[j] == Apply(states[m], steps[m]);
    RunKeepsInv(states, steps, m);
    LinkerBefore(states[m], steps[m], c);
    if states[m].callers[c].Linking? {
      k, key := LinkerMade(states, steps, m, c);
    } else {
      k := WriterMade(states, steps, m, c);
      key := states[m].callers[c].key;
    }
  }

  /** On a device that had none, the key that is published holds exactly the random bytes that one of the callers
  was given, in every interleaving. */
  lemma {:induction false} TargetIsSomeonesKey(states: seq<State>, steps: seq<Step>, j: nat)
    returns (k: nat, key: seq<Byte>)
    requires Run(states, steps) && j <= |steps| && states[0].target.None? && states[j].target.Some?
    ensures MadeAt(steps, k, j, states[j].target.value, key)
    ensures states[j].target.value in states[j].inodes && states[j].inodes[states[j].target.value] == key
  {
    var m := j - 1;
    assert Enabled(states[m], steps[m]) && states[j] == Apply(states[m], steps[m]);
    RunKeepsInv(states, steps, m);
    if states[m].target.Some? {
      k, key := TargetIsSomeonesKey(states, steps, m);
      StepKeepsTarget(states[m], steps[m]);
    } else {
      k, key := LinkerMade(states, steps, m, steps[m].c);
    }
  }

  ghost predicate Reachable(s: State) {
    exists states, steps :: Run(states, steps) && states[|steps|] == s
  }

  lemma ReachableStep(s: State, e: Step)
    requires Reachable(s) && Enabled(s, e)
    ensures Reachable(Apply(s, e))
  {
    var states, steps :| Run(states, steps) && states[|steps|] == s;
    assert Run(states + [Apply(s, e)], steps + [e]);
  }

  lemma ReachableInv(s: State)
    requires Reachable(s)
    ensures Inv(s)
  {
    var states, steps :| Run(states, steps) && states[|steps|] == s;
    RunKeepsInv(states, steps, |steps|);
  }

  // ------------------------------------------------------------------ one call among many

  /** A key that is there stays there with its bytes, and one that is complete, or missing, stays so or
  becomes complete. */
  predicate TargetKept(s: State, t: State) {
    && (s.target.Some? && s.target.value in s.inodes ==>
          t.target == s.target && t.target.value in t.inodes && t.inodes[t.target.value] == s.inodes[s.target.value])
    && (Complete(s) ==> Complete(t))
  }

  /** What the steps of the others leave to caller `c`: its place, its temporary file, and the target. */
  predicate Undisturbed(s: State, t: State, c: CallerId) {
    && c in s.callers && c in t.callers && t.callers[c] == s.callers[c]
    && (s.callers[c].Writing? || s.callers[c].Linking? ==>
          s.callers[c].inode in s.inodes && s.callers[c].inode in t.inodes
          && t.inodes[s.callers[c].inode] == s.inodes[s.callers[c].inode])
    && (s.target.Some? ==> s.target.value in s.inodes)
    && TargetKept(s, t)
  }

  lemma OthersUndisturbed(s: State, e: Step, c: CallerId)
    requires Inv(s) && Enabled(s, e) && c in s.callers && e.c != c
    ensures Undisturbed(s, Apply(s, e), c)
  {
    assert CallerFits(s, c, s.callers[c]);
    if s.target.Some? {
      StepKeepsTarget(s, e);
    }
    if Complete(s) {
      StepKeepsComplete(s, e);
    }
  }

  lemma UndisturbedTransitive(s: State, t: State, u: State, c: CallerId)
    requires Undisturbed(s, t, c) && Undisturbed(t, u, c)
    ensures Undisturbed(s, u, c)
  {
  }

  lemma StepKeepsTargetAt(s: State, e: Step)
    requires Reachable(s) && Enabled(s, e)
    ensures TargetKept(s, Apply(s, e))
  {
    ReachableInv(s);
    if s.target.Some? {
      StepKeepsTarget(s, e);
    }
    if Complete(s) {
      StepKeepsComplete(s, e);
    }
  }

  class KeyDirectory {
    var s: State
    var nextInode: Inode

    ghost predicate Valid()
      reads this
    {
      Reachable(s) && forall i | i in s.inodes :: i < nextInode
    }

    method Act(e: Step)
      requires Valid() && Enabled(s, e) && (e.CreateTemporary? ==> e.inode == nextInode)
      modifies this
      ensures Valid() && s == Apply(old(s), e) && TargetKept(old(s), s)
    {
      ReachableStep(s, e);
      StepKeepsTargetAt(s, e);
      s := Apply(s, e);
      if e.CreateTemporary? {
        nextInode := nextInode + 1;
      }
    }

    /** Any steps of other callers, each of which leaves `c` undisturbed; callers know only the contract. */
    method Yield(c: CallerId)
      requires Valid() && c in s.callers
      modifies this
      ensures Valid() && Undisturbed(old(s), s, c)
    {
      ReachableInv(s);
      assert CallerFits(s, c, s.callers[c]);
    }

    /** The temporary file: created, filled byte by byte, synced and linked. */
    method PublishKey(c: CallerId, random: seq<Byte>)
      requires Valid() && c in s.callers && s.callers[c].Creating? && |random| == KEY_SIZE
      modifies this
      ensures Valid() && c in s.callers && s.callers[c].Opening? && s.target.Some?
      ensures TargetKept(old(s), s)
      // if this caller's file is the one that was published, it holds the caller's random bytes
      ensures s.target == Some(old(nextInode)) ==> s.target.value in s.inodes && s.inodes[s.target.value] == random
    {
      var inode := nextInode;
      Act(CreateTemporary(c, inode, random));
      WriteKey(c, inode, random);
      Yield(c);
      Act(Flush(c));
      Yield(c);
      Act(Link(c));
    }

    method WriteKey(c: CallerId, inode: Inode, random: seq<Byte>)
      requires Valid() && c in s.callers && s.callers[c] == Writing(inode, random) && |random| == KEY_SIZE
      requires inode in s.inodes && s.inodes[inode] == []
      modifies this
      ensures Valid() && c in s.callers && s.callers[c] == Writing(inode, random)
      ensures inode in s.inodes && s.inodes[inode] == random
      ensures TargetKept(old(s), s)
    {
      for n := 0 to KEY_SIZE
        invariant Valid() && c in s.callers && s.callers[c] == Writing(inode, random)
        invariant inode in s.inodes && s.inodes[inode] == random[..n]
        invariant TargetKept(old(s), s)
      {
        Yield(c);
        Act(WriteByte(c));
      }
    }

    /** `settings_user_key` for one caller, with the random bytes the system would give it. The key it
    returns is the target's; it raises only on a device whose target was damaged to begin with. */
    method SettingsUserKey(c: CallerId, random: seq<Byte>) returns (key: Option<seq<Byte>>)
      requires Valid() && c !in s.callers && |random| == KEY_SIZE
      modifies this
      ensures Valid() && s.target.Some? && s.target.value in s.inodes
      ensures key.Some? <==> |s.inodes[s.target.value]| == 32
      ensures key.Some? ==> key.value == s.inodes[s.target.value]
      ensures Complete(old(s)) ==> key.Some?
      ensures TargetKept(old(s), s)
    {
      Act(Call(c));
      if s.target.Some? {
        Act(FindTarget(c));
      } else {
        Act(MissTarget(c));
        Yield(c);
        PublishKey(c, random);
      }
      Yield(c);
      Act(Open(c));
      Yield(c);
      ReachableInv(s);
      assert CallerFits(s, c, s.callers[c]);
      Act(Read(c));
      var pc := s.callers[c];
      key := if pc.Returned? then Some(pc.key) else None;
    }
  }
}
