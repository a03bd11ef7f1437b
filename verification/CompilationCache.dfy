/** The compilation cache of one app: `dexopt` compiles, `retain_dexopt` carries artifacts through a
rebuild, and a stamp says what they were compiled from. The compiler is any function of the key; a run
of it may also fail, and the host may crash between any two steps. */
module CompilationCache {
  import opened Options

  /** The values `dexopt_key` collects; a reference profile also selects the compiler filter. */
  datatype Key = Key(framework: string, code: string, apk: string, profile: Option<string>, properties: string,
                     environment: string)

  datatype Output = Odex | Vdex | Art
  type Artifacts = map<Output, string>
  type Compiler = Key -> Artifacts

  /** A schema 2 `dexopt.json`. */
  datatype Stamp = Stamp(key: Key, failed: bool, artifacts: Artifacts)

  /** What the launch passes in. */
  datatype Inputs = Inputs(code: string, apk: string, environment: string)

  /** The parts of a runtime tree that matter here: image properties, reference profile, <code>/oat/arm64. */
  datatype Tree = Tree(properties: string, profile: Option<string>, artifacts: Artifacts)

  function DexoptKey(framework: string, tree: Tree, inputs: Inputs): Key {
    Key(framework, inputs.code, inputs.apk, if tree.profile == Some("") then None else tree.profile,
        tree.properties, inputs.environment)
  }

  /** `valid_dexopt` for schema 2. */
  predicate ValidDexopt(saved: Option<Stamp>, key: Key, tree: Tree) {
    saved.Some? && saved.value.key == key
    && (saved.value.failed
        || (Odex in tree.artifacts && Vdex in tree.artifacts && tree.artifacts == saved.value.artifacts))
  }

  /** What a key must tell apart, one by one: the framework, the code path, the APK, the environment, the image
  properties and the reference profile, of which an empty one counts as none. */
  predicate KeyFor(key: Key, framework: string, inputs: Inputs, tree: Tree) {
    && key.framework == framework && key.code == inputs.code && key.apk == inputs.apk
    && key.environment == inputs.environment && key.properties == tree.properties
    && (if tree.profile.None? || tree.profile.value == "" then key.profile.None? else key.profile == tree.profile)
  }

  lemma KeyIsFor(key: Key, framework: string, inputs: Inputs, tree: Tree)
    ensures key == DexoptKey(framework, tree, inputs) <==> KeyFor(key, framework, inputs, tree)
  {
  }

  /** A stamp that makes a compilation unnecessary. */
  predicate Usable(saved: Option<Stamp>, framework: string, inputs: Inputs, tree: Tree) {
    && saved.Some? && KeyFor(saved.value.key, framework, inputs, tree)
    && (saved.value.failed
        || (Odex in tree.artifacts && Vdex in tree.artifacts && tree.artifacts == saved.value.artifacts))
  }

  datatype Pc =
    | Idle
    | Clearing(key: Key)                  // old outputs are unlinked one by one
    | Compiling(key: Key)
    | Discarding(key: Key)                // the compiler failed: its outputs are unlinked
    | Compiled(key: Key, failed: bool)
    | Swapped(framework: string, retained: Option<(Key, bool)>)   // the fresh root is in place
    | Carried(key: Key, failed: bool)     // and so is its runtime.json

  /** `failures` is every key for which a compilation has failed; `torn` whether one was cut short since
  the stamp was last written or the tree last replaced. */
  datatype State = State(framework: string, inputs: Inputs, tree: Tree, stamp: Option<Stamp>, pc: Pc,
                         failures: set<Key>, torn: bool)
  {
    function Key(): Key {
      DexoptKey(framework, tree, inputs)
    }

    predicate Accepted() {
      ValidDexopt(stamp, Key(), tree)
    }
  }

  datatype Step =
    | SetProfile(profile: Option<string>)     // profman, or the guest
    | Begin
    | Unlink(output: Output)
    | Cleared
    | Emit(output: Output, data: string)
    | CompileSucceeds
    | CompileFails
    | Discarded
    | Save
    | Rebuild(framework: string, inputs: Inputs, properties: string)
    | WriteRuntime
    | SaveRetained
    | Crash

  /** The tree and the result of `retain_dexopt` when the runtime is rebuilt. */
  function Retained(s: State, framework: string, inputs: Inputs, properties: string): (r: (Tree, Option<(Key, bool)>)) {
    var bare := Tree(properties, s.tree.profile, map[]);
    var oldKey := DexoptKey(s.framework, s.tree, inputs);
    var key := DexoptKey(framework, bare, inputs);
    if oldKey == key && ValidDexopt(s.stamp, oldKey, s.tree) then
      (if s.stamp.value.failed then bare else bare.(artifacts := s.tree.artifacts), Some((key, s.stamp.value.failed)))
    else (bare, None)
  }

  /** Artifacts are carried over exactly when the framework and the properties stay and the stamp is usable with
  the new inputs. */
  lemma RetainedIff(s: State, framework: string, inputs: Inputs, properties: string)
    ensures var (tree, retained) := Retained(s, framework, inputs, properties);
            && (retained.Some? <==> framework == s.framework && properties == s.tree.properties
                                    && Usable(s.stamp, s.framework, inputs, s.tree))
            && (retained.Some? ==>
                  && KeyFor(retained.value.0, framework, inputs, tree)
                  && retained.value.1 == s.stamp.value.failed
                  && tree.artifacts == if s.stamp.value.failed then map[] else s.tree.artifacts)
            && (retained.None? ==> tree.artifacts == map[])
            && tree.profile == s.tree.profile && tree.properties == properties
  {
    var bare := Tree(properties, s.tree.profile, map[]);
    KeyIsFor(DexoptKey(framework, bare, inputs), framework, inputs, bare);
    KeyIsFor(DexoptKey(s.framework, s.tree, inputs), s.framework, inputs, s.tree);
    if s.stamp.Some? {
      KeyIsFor(s.stamp.value.key, s.framework, inputs, s.tree);
    }
  }

  predicate Enabled(c: Compiler, s: State, e: Step) {
    match e
    case SetProfile(_) => s.pc.Idle?
    case Begin => s.pc.Idle? && !s.Accepted()
    case Unlink(output) => s.pc.Clearing? || s.pc.Discarding?
    case Cleared => s.pc.Clearing? && s.tree.artifacts == map[]
    case Emit(_, _) => s.pc.Compiling?
    case CompileSucceeds => s.pc.Compiling? && s.tree.artifacts == c(s.pc.key)
    case CompileFails => s.pc.Compiling?
    case Discarded => s.pc.Discarding? && s.tree.artifacts == map[]
    case Save => s.pc.Compiled?
    case Rebuild(_, _, _) => s.pc.Idle?
    case WriteRuntime => s.pc.Swapped?
    case SaveRetained => s.pc.Carried?
    case Crash => true
  }

  function Apply(c: Compiler, s: State, e: Step): State
    requires Enabled(c, s, e)
  {
    match e
    case SetProfile(profile) => s.(tree := s.tree.(profile := profile))
    case Begin => s.(pc := Clearing(s.Key()))
    case Unlink(output) => s.(tree := s.tree.(artifacts := s.tree.artifacts - {output}))
    case Cleared => s.(pc := Compiling(s.pc.key))
    case Emit(output, data) => s.(tree := s.tree.(artifacts := s.tree.artifacts[output := data]))
    case CompileSucceeds => s.(pc := Compiled(s.pc.key, false))
    case CompileFails => s.(pc := Discarding(s.pc.key))
    case Discarded => s.(pc := Compiled(s.pc.key, true), failures := s.failures + {s.pc.key})
    case Save =>
      s.(pc := Idle, stamp := Some(Stamp(s.pc.key, s.pc.failed, if s.pc.failed then map[] else s.tree.artifacts)),
         torn := false)
    case Rebuild(framework, inputs, properties) =>
      var (tree, retained) := Retained(s, framework, inputs, properties);
      s.(inputs := inputs, tree := tree, pc := Swapped(framework, retained), torn := false)
    case WriteRuntime =>
      s.(framework := s.pc.framework,
         pc := if s.pc.retained.Some? then Carried(s.pc.retained.value.0, s.pc.retained.value.1) else Idle)
    case SaveRetained =>
      s.(pc := Idle, stamp := Some(Stamp(s.pc.key, s.pc.failed, if s.pc.failed then map[] else s.tree.artifacts)))
    case Crash =>
      s.(pc := Idle, torn := s.torn || s.pc.Clearing? || s.pc.Compiling? || s.pc.Discarding? || s.pc.Compiled?)
  }

  // ------------------------------------------------------------------ the invariant

  /** What a result that is about to be stamped says of the output directory. */
  predicate ResultFits(c: Compiler, s: State, key: Key, failed: bool) {
    if failed then key in s.failures && s.tree.artifacts == map[] else s.tree.artifacts == c(key)
  }

  predicate PcFits(c: Compiler, s: State) {
    match s.pc
    case Compiled(key, failed) => ResultFits(c, s, key, failed)
    case Swapped(_, retained) => retained.Some? ==> ResultFits(c, s, retained.value.0, retained.value.1)
    case Carried(key, failed) => ResultFits(c, s, key, failed)
    case _ => true
  }

  /** Whatever happened, the stamp tells the truth about the compiler. */
  predicate StampTrue(c: Compiler, s: State) {
    s.stamp.Some? ==>
      if s.stamp.value.failed then s.stamp.value.key in s.failures else s.stamp.value.artifacts == c(s.stamp.value.key)
  }

  /** A failed stamp means an empty output directory, unless a compilation is under way or was cut short. */
  predicate FailureClean(s: State) {
    s.stamp.Some? && s.stamp.value.failed && !s.torn && (s.pc.Idle? || s.pc.Swapped? || s.pc.Carried?) ==>
      s.tree.artifacts == map[]
  }

  predicate Inv(c: Compiler, s: State) {
    PcFits(c, s) && StampTrue(c, s) && FailureClean(s) && (s.pc.Swapped? || s.pc.Carried? ==> !s.torn)
  }

  lemma RebuildKeepsInv(c: Compiler, s: State, framework: string, inputs: Inputs, properties: string)
    requires Inv(c, s) && s.pc.Idle?
    ensures Inv(c, Apply(c, s, Rebuild(framework, inputs, properties)))
  {
  }

  lemma StepKeepsInv(c: Compiler, s: State, e: Step)
    requires Inv(c, s) && Enabled(c, s, e)
    ensures Inv(c, Apply(c, s, e))
  {
    match e
    case Rebuild(framework, inputs, properties) => RebuildKeepsInv(c, s, framework, inputs, properties);
    case _ =>
  }

  // ------------------------------------------------------------------ runs

  /** An app just installed: nothing compiled, no stamp. */
  predicate Fresh(s: State) {
    s.stamp.None? && s.pc.Idle? && s.failures == {} && !s.torn && s.tree.artifacts == map[]
  }

  predicate Run(c: Compiler, states: seq<State>, steps: seq<Step>) {
    && |states| == |steps| + 1
    && Fresh(states[0])
    && forall i | 0 <= i < |steps| :: Enabled(c, states[i], steps[i]) && states[i + 1] == Apply(c, states[i], steps[i])
  }

  ghost predicate Reachable(c: Compiler, s: State) {
    exists states, steps :: Run(c, states, steps) && states[|steps|] == s
  }

  lemma ReachableStep(c: Compiler, s: State, e: Step)
    requires Reachable(c, s) && Enabled(c, s, e)
    ensures Reachable(c, Apply(c, s, e))
  {
    var states, steps :| Run(c, states, steps) && states[|steps|] == s;
    assert Run(c, states + [Apply(c, s, e)], steps + [e]);
  }

  lemma {:induction false} RunKeepsInv(c: Compiler, states: seq<State>, steps: seq<Step>, i: nat)
    requires Run(c, states, steps) && i < |states|
    ensures Inv(c, states[i])
  {
    if i > 0 {
      RunKeepsInv(c, states, steps, i - 1);
      StepKeepsInv(c, states[i - 1], steps[i - 1]);
    }
  }

  lemma ReachableInv(c: Compiler, s: State)
    requires Reachable(c, s)
    ensures Inv(c, s)
  {
    var states, steps :| Run(c, states, steps) && states[|steps|] == s;
    RunKeepsInv(c, states, steps, |steps|);
  }

  /** Step `k` begins a compilation for which `key` is the right key. */
  predicate Begins(states: seq<State>, steps: seq<Step>, k: nat, key: Key)
    requires |states| == |steps| + 1
  {
    k < |steps| && steps[k].Begin? && KeyFor(key, states[k].framework, states[k].inputs, states[k].tree)
  }

  /** The keys that are stamped, or about to be. */
  predicate Holds(s: State, key: Key) {
    || (s.stamp.Some? && s.stamp.value.key == key)
    || ((s.pc.Clearing? || s.pc.Compiling? || s.pc.Discarding? || s.pc.Compiled? || s.pc.Carried?) && s.pc.key == key)
    || (s.pc.Swapped? && s.pc.retained.Some? && s.pc.retained.value.0 == key)
  }

  lemma HeldBefore(c: Compiler, s: State, e: Step, key: Key)
    requires Enabled(c, s, e) && Holds(Apply(c, s, e), key)
    ensures Holds(s, key) || (e.Begin? && KeyFor(key, s.framework, s.inputs, s.tree))
  {
  }

  lemma {:induction false} KeysBegun(c: Compiler, states: seq<State>, steps: seq<Step>, i: nat, key: Key)
    requires Run(c, states, steps) && i < |states| && Holds(states[i], key)
    ensures exists k: nat :: k < i && Begins(states, steps, k, key)
  {
    var m := i - 1;
    assert Enabled(c, states[m], steps[m]) && states[i] == Apply(c, states[m], steps[m]);
    HeldBefore(c, states[m], steps[m], key);
    if Holds(states[m], key) {
      KeysBegun(c, states, steps, m, key);
    } else {
      assert Begins(states, steps, m, key);
    }
  }

  predicate SameProfile(a: Option<string>, b: Option<string>) {
    a == b || ((a.None? || a.value == "") && (b.None? || b.value == ""))
  }

  /** In every run, what is accepted was compiled, at an earlier step, from the very framework, code, APK,
  environment, properties and profile that are there now. */
  lemma AcceptedWasBegun(c: Compiler, states: seq<State>, steps: seq<Step>, i: nat) returns (k: nat)
    requires Run(c, states, steps) && i < |states| && states[i].Accepted()
    ensures k < i && steps[k].Begin?
    ensures states[k].framework == states[i].framework && states[k].inputs.code == states[i].inputs.code
    ensures states[k].inputs.apk == states[i].inputs.apk && states[k].inputs.environment == states[i].inputs.environment
    ensures states[k].tree.properties == states[i].tree.properties
    ensures SameProfile(states[k].tree.profile, states[i].tree.profile)
  {
    var key, s := states[i].Key(), states[i];
    KeyIsFor(key, s.framework, s.inputs, s.tree);
    KeysBegun(c, states, steps, i, key);
    k :| k < i && Begins(states, steps, k, key);
  }

  /** In every run, even one with crashes anywhere, an accepted successful stamp means that the artifacts
  in the root are those that compiling the current key gives. */
  lemma AcceptedIsCompiled(c: Compiler, states: seq<State>, steps: seq<Step>, i: nat)
    requires Run(c, states, steps) && i < |states|
    requires states[i].Accepted() && !states[i].stamp.value.failed
    ensures states[i].tree.artifacts == c(states[i].Key())
    ensures KeyFor(states[i].Key(), states[i].framework, states[i].inputs, states[i].tree)
  {
    RunKeepsInv(c, states, steps, i);
    KeyIsFor(states[i].Key(), states[i].framework, states[i].inputs, states[i].tree);
  }

  /** Step `k` ends a compilation of `key` that failed, its outputs removed. */
  predicate FailsAt(states: seq<State>, steps: seq<Step>, k: nat, key: Key)
    requires |states| == |steps| + 1
  {
    k < |steps| && steps[k].Discarded? && states[k].pc.Discarding? && states[k].pc.key == key
  }

  /** The keys that count as failed are those of which a compilation failed before. */
  lemma {:induction false} FailuresFailed(c: Compiler, states: seq<State>, steps: seq<Step>, i: nat, key: Key)
    requires Run(c, states, steps) && i < |states|
    ensures key in states[i].failures <==> exists k: nat :: k < i && FailsAt(states, steps, k, key)
  {
    if i > 0 {
      var m := i - 1;
      assert Enabled(c, states[m], steps[m]) && states[i] == Apply(c, states[m], steps[m]);
      FailuresFailed(c, states, steps, m, key);
      assert steps[m].Discarded? && states[m].pc.key == key ==> FailsAt(states, steps, m, key);
    }
  }

  /** An accepted failed stamp means that compiling the current key did fail before. LeftoversIff says when
  outputs stand beside it. */
  lemma AcceptedFailure(c: Compiler, states: seq<State>, steps: seq<Step>, i: nat)
    requires Run(c, states, steps) && i < |states|
    requires states[i].Accepted() && states[i].stamp.value.failed
    ensures exists k: nat :: k < i && FailsAt(states, steps, k, states[i].Key())
  {
    RunKeepsInv(c, states, steps, i);
    FailuresFailed(c, states, steps, i, states[i].Key());
  }

  lemma {:induction false} NoCrashNoTear(c: Compiler, states: seq<State>, steps: seq<Step>, i: nat)
    requires Run(c, states, steps) && i < |states|
    requires forall n | 0 <= n < i :: !steps[n].Crash?
    ensures !states[i].torn
  {
    if i > 0 {
      NoCrashNoTear(c, states, steps, i - 1);
    }
  }

  /** Step `k` is a crash in the middle of a compilation, with outputs on disk, and nothing since then got
  further than profman. */
  predicate CutShortAt(states: seq<State>, steps: seq<Step>, k: nat, i: nat)
    requires |states| == |steps| + 1
  {
    && k < i <= |steps| && steps[k].Crash? && states[k].tree.artifacts != map[]
    && (states[k].pc.Clearing? || states[k].pc.Compiling? || states[k].pc.Discarding? || states[k].pc.Compiled?)
    && forall n | k < n < i :: steps[n].SetProfile? || steps[n].Crash?
  }

  /** What such a crash leaves on disk stays there. */
  lemma {:induction false} CutShortStays(c: Compiler, states: seq<State>, steps: seq<Step>, k: nat, i: nat)
    requires Run(c, states, steps) && CutShortAt(states, steps, k, i)
    ensures states[i].tree.artifacts == states[k].tree.artifacts
  {
    assert states[i] == Apply(c, states[i - 1], steps[i - 1]);
    if k < i - 1 {
      CutShortStays(c, states, steps, k, i - 1);
    }
  }

  /** With an idle app and a failed stamp, only a crash and profman can have come last where outputs are left. */
  lemma LeftoversBefore(c: Compiler, s: State, e: Step)
    requires Inv(c, s) && Enabled(c, s, e)
    requires var t := Apply(c, s, e);
             t.pc.Idle? && t.stamp.Some? && t.stamp.value.failed && t.tree.artifacts != map[]
    ensures s.tree.artifacts == Apply(c, s, e).tree.artifacts
    ensures (e.Crash? && (s.pc.Clearing? || s.pc.Compiling? || s.pc.Discarding? || s.pc.Compiled?))
            || ((e.SetProfile? || e.Crash?) && s.pc.Idle? && s.stamp == Apply(c, s, e).stamp)
  {
  }

  /** In every run, between operations, a failed stamp stands beside leftover outputs exactly when a crash
  cut a compilation short with outputs on disk, and only profile changes and further crashes came since. */
  lemma {:induction false} LeftoversIff(c: Compiler, states: seq<State>, steps: seq<Step>, i: nat)
    requires Run(c, states, steps) && i < |states|
    requires states[i].pc.Idle? && states[i].stamp.Some? && states[i].stamp.value.failed
    ensures states[i].tree.artifacts != map[] <==> exists k: nat :: CutShortAt(states, steps, k, i)
  {
    if k: nat :| CutShortAt(states, steps, k, i) {
      CutShortStays(c, states, steps, k, i);
    }
    if states[i].tree.artifacts != map[] {
      var m := i - 1;
      RunKeepsInv(c, states, steps, m);
      assert states[i] == Apply(c, states[m], steps[m]);
      LeftoversBefore(c, states[m], steps[m]);
      if states[m].pc.Idle? {
        LeftoversIff(c, states, steps, m);
        var k: nat :| CutShortAt(states, steps, k, m);
        assert CutShortAt(states, steps, k, i);
      } else {
        assert CutShortAt(states, steps, m, i);
      }
    }
  }

  /** In every crash-free run the cache agrees with recompiling: what it accepts is what the compiler gave
  for the current key, success or failure. */
  lemma CacheAgrees(c: Compiler, states: seq<State>, steps: seq<Step>, i: nat)
    requires Run(c, states, steps) && i < |states| && states[i].Accepted() && states[i].pc.Idle?
    requires forall n | 0 <= n < i :: !steps[n].Crash?
    ensures if states[i].stamp.value.failed
            then states[i].tree.artifacts == map[]
                 && exists k: nat :: k < i && FailsAt(states, steps, k, states[i].Key())
            else states[i].tree.artifacts == c(states[i].Key())
  {
    NoCrashNoTear(c, states, steps, i);
    RunKeepsInv(c, states, steps, i);
    FailuresFailed(c, states, steps, i, states[i].Key());
  }

  /** A rebuild that carries artifacts over puts into the new tree exactly what compiling there would,
  however the framework, the inputs and the properties changed. */
  lemma CarryAgrees(c: Compiler, states: seq<State>, steps: seq<Step>, i: nat)
    requires Run(c, states, steps) && i < |steps| && steps[i].Rebuild?
    requires states[i + 1].pc.retained.Some?
    ensures var key := DexoptKey(steps[i].framework, states[i + 1].tree, steps[i].inputs);
            && states[i + 1].pc.retained.value.0 == key
            && KeyFor(key, steps[i].framework, steps[i].inputs, states[i + 1].tree)
            && (if states[i + 1].pc.retained.value.1
                then states[i + 1].tree.artifacts == map[] && exists k: nat :: k < i && FailsAt(states, steps, k, key)
                else states[i + 1].tree.artifacts == c(key))
  {
    var key := DexoptKey(steps[i].framework, states[i + 1].tree, steps[i].inputs);
    RunKeepsInv(c, states, steps, i + 1);
    assert states[i + 1] == Apply(c, states[i], steps[i]);
    FailuresFailed(c, states, steps, i, key);
    KeyIsFor(key, steps[i].framework, steps[i].inputs, states[i + 1].tree);
  }

  lemma Extend(c: Compiler, states: seq<State>, steps: seq<Step>, e: Step)
    returns (states': seq<State>, steps': seq<Step>)
    requires Run(c, states, steps) && Enabled(c, states[|steps|], e)
    ensures Run(c, states', steps') && steps' == steps + [e] && states' == states + [Apply(c, states[|steps|], e)]
  {
    states', steps' := states + [Apply(c, states[|steps|], e)], steps + [e];
  }

  lemma FailedOnce(c: Compiler, start: State) returns (states: seq<State>, steps: seq<Step>)
    requires Fresh(start)
    ensures Run(c, states, steps)
    ensures states[|steps|] == start.(stamp := Some(Stamp(start.Key(), true, map[])), failures := {start.Key()})
  {
    states, steps := [start], [];
    states, steps := Extend(c, states, steps, Begin);
    states, steps := Extend(c, states, steps, Cleared);
    states, steps := Extend(c, states, steps, CompileFails);
    states, steps := Extend(c, states, steps, Discarded);
    states, steps := Extend(c, states, steps, Save);
  }

  lemma CutShort(c: Compiler, before: seq<State>, done: seq<Step>, profile: string, data: string)
    returns (states: seq<State>, steps: seq<Step>)
    requires Run(c, before, done) && profile != ""
    requires var s := before[|done|];
             s.pc.Idle? && s.tree.profile.None? && s.tree.artifacts == map[]
             && s.stamp.Some? && s.stamp.value.key.profile.None?
    ensures Run(c, states, steps)
    ensures states[|steps|] ==
            before[|done|].(tree := before[|done|].tree.(artifacts := map[Odex := data]), torn := true)
  {
    states, steps := Extend(c, before, done, SetProfile(Some(profile)));
    states, steps := Extend(c, states, steps, Begin);
    states, steps := Extend(c, states, steps, Cleared);
    states, steps := Extend(c, states, steps, Emit(Odex, data));
    states, steps := Extend(c, states, steps, Crash);
    states, steps := Extend(c, states, steps, SetProfile(None));
  }

  /** The limit of that: a key fails, another key's outputs are half written when the host crashes, and
  the first key comes back. Its failed stamp is accepted although those outputs are still there. */
  lemma CrashLeavesOutputs(c: Compiler, start: State, profile: string, data: string)
    returns (states: seq<State>, steps: seq<Step>)
    requires Fresh(start) && start.tree.profile.None? && profile != ""
    ensures Run(c, states, steps)
    ensures var s := states[|steps|];
            s.pc.Idle? && s.Accepted() && s.stamp.value.failed && s.tree.artifacts == map[Odex := data]
  {
    states, steps := FailedOnce(c, start);
    states, steps := CutShort(c, states, steps, profile, data);
  }

  // ------------------------------------------------------------------ the operations

  /** What one compilation does: whether dex2oat exits with status 0, and what it leaves when it does not. */
  datatype Outcome = Exits | Fails(leftovers: seq<(Output, string)>)

  /** The managed directory of one app, between sessions. */
  class DexoptCache {
    const compiler: Compiler
    var framework: string
    var inputs: Inputs
    var tree: Tree
    var stamp: Option<Stamp>
    ghost var pc: Pc
    ghost var failures: set<Key>
    ghost var torn: bool

    ghost function Now(): State
      reads this
    {
      State(framework, inputs, tree, stamp, pc, failures, torn)
    }

    ghost predicate Valid()
      reads this
    {
      Reachable(compiler, Now())
    }

    constructor (compiler: Compiler, framework: string, inputs: Inputs, tree: Tree)
      requires tree.artifacts == map[]
      ensures Valid() && this.compiler == compiler && pc.Idle? && Fresh(Now())
    {
      this.compiler, this.framework, this.inputs, this.tree := compiler, framework, inputs, tree;
      stamp, pc, failures, torn := None, Idle, {}, false;
      new;
      assert Run(compiler, [Now()], []);
    }

    /** Unlink every output. */
    method UnlinkOutputs()
      requires Valid() && (pc.Clearing? || pc.Discarding?)
      modifies this`tree
      ensures Valid() && tree == old(tree).(artifacts := map[])
    {
      ReachableStep(compiler, Now(), Unlink(Odex));
      tree := tree.(artifacts := tree.artifacts - {Odex});
      ReachableStep(compiler, Now(), Unlink(Vdex));
      tree := tree.(artifacts := tree.artifacts - {Vdex});
      ReachableStep(compiler, Now(), Unlink(Art));
      tree := tree.(artifacts := tree.artifacts - {Art});
      NoOutputs(tree.artifacts);
    }

    /** The outputs appear one after the other. */
    method EmitAll(outputs: seq<(Output, string)>, ghost key: Key)
      requires Valid() && pc == Compiling(key)
      modifies this`tree
      ensures Valid() && tree == old(tree).(artifacts := tree.artifacts)
      ensures tree.artifacts == Written(old(tree.artifacts), outputs)
    {
      for n := 0 to |outputs|
        invariant Valid() && tree == old(tree).(artifacts := tree.artifacts)
        invariant Written(tree.artifacts, outputs[n..]) == Written(old(tree.artifacts), outputs)
      {
        ReachableStep(compiler, Now(), Emit(outputs[n].0, outputs[n].1));
        tree := tree.(artifacts := tree.artifacts[outputs[n].0 := outputs[n].1]);
        assert outputs[n..][1..] == outputs[n + 1..];
      }
    }

    /** `dexopt`, after profman: nothing is done when the stamp is accepted; otherwise the result of this
    compilation is stamped. */
    method Dexopt(profile: Option<string>, outcome: Outcome) returns (compiled: bool)
      requires Valid() && pc.Idle?
      modifies this
      ensures Valid() && pc.Idle? && framework == old(framework) && inputs == old(inputs)
      ensures tree == old(tree).(profile := profile, artifacts := tree.artifacts)
      ensures compiled <==> !Usable(old(stamp), framework, inputs, tree.(artifacts := old(tree.artifacts)))
      ensures !compiled ==> tree.artifacts == old(tree.artifacts) && stamp == old(stamp)
      ensures compiled ==>
                && stamp.Some? && KeyFor(stamp.value.key, framework, inputs, tree)
                && stamp.value.failed == outcome.Fails? && stamp.value.artifacts == tree.artifacts
                && tree.artifacts == if outcome.Fails? then map[] else compiler(stamp.value.key)
      // so a second call accepts, unless the compiler gave no odex or no vdex
      ensures compiled ==>
                (Usable(stamp, framework, inputs, tree) <==>
                 outcome.Fails? || (Odex in tree.artifacts && Vdex in tree.artifacts))
    {
      ReachableStep(compiler, Now(), SetProfile(profile));
      tree := tree.(profile := profile);
      var key := DexoptKey(framework, tree, inputs);
      KeyIsFor(key, framework, inputs, tree);
      if stamp.Some? { KeyIsFor(stamp.value.key, framework, inputs, tree); }
      compiled := !ValidDexopt(stamp, key, tree);
      if !compiled { return; }
      Recompile(key, outcome);
    }

    /** The part of `dexopt` behind the check of the stamp. */
    method Recompile(key: Key, outcome: Outcome)
      requires Valid() && pc.Idle? && !Now().Accepted() && key == Now().Key()
      modifies this
      ensures Valid() && pc.Idle? && framework == old(framework) && inputs == old(inputs)
      ensures tree == old(tree).(artifacts := if outcome.Fails? then map[] else compiler(key))
      ensures stamp == Some(Stamp(key, outcome.Fails?, tree.artifacts))
    {
      ReachableStep(compiler, Now(), Begin);
      pc := Clearing(key);
      UnlinkOutputs();
      ReachableStep(compiler, Now(), Cleared);
      pc := Compiling(key);
      Compile(key, outcome);
      SaveDexoptStamp(key, outcome.Fails?);
    }

    method SaveDexoptStamp(key: Key, failed: bool)
      requires Valid() && pc == Compiled(key, failed)
      modifies this`stamp, this`pc, this`torn
      ensures Valid() && pc.Idle? && stamp == Some(Stamp(key, failed, if failed then map[] else tree.artifacts))
    {
      ReachableStep(compiler, Now(), Save);
      stamp := Some(Stamp(key, failed, if failed then map[] else tree.artifacts));
      pc, torn := Idle, false;
    }

    /** The compiler's run, and the removal of what it left when it failed. */
    method Compile(key: Key, outcome: Outcome)
      requires Valid() && pc == Compiling(key) && tree.artifacts == map[]
      modifies this`tree, this`pc, this`failures
      ensures Valid() && pc == Compiled(key, outcome.Fails?)
      ensures tree == old(tree).(artifacts := if outcome.Fails? then map[] else compiler(key))
    {
      match outcome {
        case Exits =>
          ListingWrites(compiler(key));
          EmitAll(Listing(compiler(key)), key);
          ReachableStep(compiler, Now(), CompileSucceeds);
          pc := Compiled(key, false);
        case Fails(leftovers) =>
          EmitAll(leftovers, key);
          ReachableStep(compiler, Now(), CompileFails);
          pc := Discarding(key);
          UnlinkOutputs();
          ReachableStep(compiler, Now(), Discarded);
          pc, failures := Compiled(key, true), failures + {key};
      }
    }

    /** The rebuild of the runtime as far as the cache is concerned: `retain_dexopt`, the exchange of the
    trees, `runtime.json`, and the stamp of what was carried over. */
    method RebuildRuntime(framework': string, inputs': Inputs, properties: string) returns (carried: bool)
      requires Valid() && pc.Idle?
      modifies this
      ensures Valid() && pc.Idle? && framework == framework' && inputs == inputs'
      ensures tree.properties == properties && tree.profile == old(tree.profile)
      ensures carried <==>
                && framework' == old(framework) && properties == old(tree.properties)
                && Usable(old(stamp), old(framework), inputs', old(tree))
      ensures !carried ==> tree.artifacts == map[] && stamp == old(stamp)
      ensures carried ==>
                && stamp.Some? && KeyFor(stamp.value.key, framework, inputs, tree)
                && stamp.value.failed == old(stamp).value.failed && stamp.value.artifacts == tree.artifacts
      ensures carried && !stamp.value.failed ==> tree.artifacts == old(tree.artifacts) == compiler(stamp.value.key)
      ensures carried && stamp.value.failed ==> tree.artifacts == map[]
    {
      RetainedIff(State(framework, inputs, tree, stamp, Idle, {}, false), framework', inputs', properties);
      var (fresh', retained) :=
        Retained(State(framework, inputs, tree, stamp, Idle, {}, false), framework', inputs', properties);
      ReachableStep(compiler, Now(), Rebuild(framework', inputs', properties));
      inputs, tree, pc, torn := inputs', fresh', Swapped(framework', retained), false;
      ReachableInv(compiler, Now());
      carried := retained.Some?;
      FinishRebuild(framework', retained);
    }

    /** `runtime.json` of the new tree, then the stamp of what was carried over. */
    method FinishRebuild(framework': string, retained: Option<(Key, bool)>)
      requires Valid() && pc == Swapped(framework', retained)
      modifies this`framework, this`stamp, this`pc
      ensures Valid() && pc.Idle? && framework == framework'
      ensures match retained
              case None => stamp == old(stamp)
              case Some((key, failed)) => stamp == Some(Stamp(key, failed, if failed then map[] else tree.artifacts))
    {
      ReachableStep(compiler, Now(), WriteRuntime);
      framework := framework';
      if retained.Some? {
        var (key, failed) := retained.value;
        pc := Carried(key, failed);
        ReachableStep(compiler, Now(), SaveRetained);
        stamp := Some(Stamp(key, failed, if failed then map[] else tree.artifacts));
      }
      pc := Idle;
    }
  }

  lemma NoOutputs(artifacts: Artifacts)
    requires Odex !in artifacts && Vdex !in artifacts && Art !in artifacts
    ensures artifacts == map[]
  {
    forall o: Output ensures o !in artifacts {
      match o case Odex => case Vdex => case Art =>
    }
  }

  function Written(artifacts: Artifacts, outputs: seq<(Output, string)>): Artifacts
    decreases outputs
  {
    if outputs == [] then artifacts else Written(artifacts[outputs[0].0 := outputs[0].1], outputs[1..])
  }

  /** The outputs of a successful compilation, in the order in which they are written here. */
  function Listing(artifacts: Artifacts): seq<(Output, string)> {
    ListingOf(artifacts, Odex) + (ListingOf(artifacts, Vdex) + ListingOf(artifacts, Art))
  }

  function ListingOf(artifacts: Artifacts, o: Output): seq<(Output, string)> {
    if o in artifacts then [(o, artifacts[o])] else []
  }

  lemma WrittenOne(before: Artifacts, artifacts: Artifacts, o: Output, rest: seq<(Output, string)>)
    ensures Written(before, ListingOf(artifacts, o) + rest)
            == Written(if o in artifacts then before[o := artifacts[o]] else before, rest)
  {
    if o in artifacts {
      assert ([(o, artifacts[o])] + rest)[1..] == rest;
    } else {
      assert [] + rest == rest;
    }
  }

  lemma ListingWrites(artifacts: Artifacts)
    ensures Written(map[], Listing(artifacts)) == artifacts
  {
    var none: Artifacts := map[];
    var one := if Odex in artifacts then none[Odex := artifacts[Odex]] else none;
    var two := if Vdex in artifacts then one[Vdex := artifacts[Vdex]] else one;
    var three := if Art in artifacts then two[Art := artifacts[Art]] else two;
    WrittenOne(none, artifacts, Odex, ListingOf(artifacts, Vdex) + ListingOf(artifacts, Art));
    WrittenOne(one, artifacts, Vdex, ListingOf(artifacts, Art));
    WrittenOne(two, artifacts, Art, []);
    assert ListingOf(artifacts, Art) + [] == ListingOf(artifacts, Art);
    forall o: Output ensures (o in three <==> o in artifacts) && (o in three ==> three[o] == artifacts[o]) {
      match o case Odex => case Vdex => case Art =>
    }
  }
}
