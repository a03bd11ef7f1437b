/** The runtime tree of one installed app: `prepare_root` replaces it by renames that a host crash may
cut anywhere, while the app's data must survive. The caller holds the package lock, so one
preparation or session is under way at a time. */
module ManagedRuntime {
  import opened Options

  /** The regions of a runtime tree that `prepare_root` tells apart. */
  datatype Place =
    | UserData | UserDe | Profiles | Keystore | Storage       // copied as directories
    | SystemSettings | AccountStore                           // copied as single files
    | Image | AppCode | LocalTmp | SsaidKey | DebugProperties // recorded and verified
    | CompiledCode                                            // <code>/oat, never recorded
    | Other

  const RETAINED_DIRECTORIES := [UserData, UserDe, Profiles, Keystore, Storage]
  const RETAINED_FILES := [SystemSettings, AccountStore]

  datatype Path = Path(place: Place, name: string)
  type Content = string
  type Files = map<Path, Content>
  type Identity = string

  predicate Retained(p: Path) {
    p.place in RETAINED_DIRECTORIES || p.place in RETAINED_FILES
  }

  predicate Immutable(p: Path) {
    p.place in [Image, AppCode, LocalTmp, SsaidKey, DebugProperties]
  }

  /** Where an app's data is: what the theorems are about, place by place. */
  predicate MayHoldData(p: Path) {
    p.place.UserData? || p.place.UserDe? || p.place.Profiles? || p.place.Keystore? || p.place.Storage?
    || p.place.SystemSettings? || p.place.AccountStore?
  }

  lemma RetainedIsData(p: Path)
    ensures Retained(p) <==> MayHoldData(p)
  {
  }

  /** The app data in a tree. */
  function DataOf(files: Files): Files {
    map p | p in files && Retained(p) :: files[p]
  }

  function Inventory(files: Files): Files {
    map p | p in files && Immutable(p) :: files[p]
  }

  /** Every recorded file is there and unmodified. */
  predicate Verified(files: Files, recorded: Files) {
    forall p | p in recorded :: p in files && files[p] == recorded[p]
  }

  /** A runtime tree, and the identity it was built for; `whole` is false from the moment its removal deletes
  a first file. */
  datatype Dir = Dir(files: Files, whole: bool, identity: Identity)

  /** `runtime.json`. */
  datatype Stamp = Stamp(identity: Identity, immutable: Files)

  datatype Disk = Disk(root: Option<Dir>, backup: Option<Dir>, stamp: Option<Stamp>)

  datatype Pc =
    | Idle
    | Cleaning(want: Identity)                    // the root is reused; an obsolete backup goes
    | Building(want: Identity)
    | Built(want: Identity, tree: Files)
    | Swapping(want: Identity, tree: Files)      // the root was moved aside, if there was one
    | Undoing                                     // publishing the fresh tree failed
    | Stamping(want: Identity)
    | Removing(want: Identity)
    | Session(want: Identity)

  /** `latest` is the app data as the last session left it, with what a newer image brought along. */
  datatype State = State(disk: Disk, pc: Pc, latest: Files)

  const START := State(Disk(None, None, None), Idle, map[])

  datatype Step =
    | Reuse(want: Identity)
    | Rebuild(want: Identity)
    | RestoreBackup
    | Build(image: Files, installed: Option<Files>)
    | MoveAside
    | SkipAside
    | Publish
    | PublishFails
    | PutBack
    | WriteStamp
    | RemoveFile(path: Path)
    | RemoveDone
    | StartSession
    | Write(path: Path, content: Content)
    | Delete(path: Path)
    | Stop           // the session ends, an operation raises, or the host crashes

  predicate Matches(d: Disk, want: Identity) {
    d.root.Some? && d.stamp.Some? && d.stamp.value.identity == want
  }

  /** The fresh tree: the image, over it the app data of the current root or else of the installer's tree. */
  function Fresh(d: Disk, image: Files, installed: Option<Files>): Files {
    if d.root.Some? then image + DataOf(d.root.value.files)
    else if installed.Some? then image + DataOf(installed.value)
    else image
  }

  predicate Enabled(s: State, e: Step) {
    var d := s.disk;
    match e
    case Reuse(want) => s.pc.Idle? && Matches(d, want) && Verified(d.root.value.files, d.stamp.value.immutable)
    case Rebuild(want) => s.pc.Idle? && !Matches(d, want)
    case RestoreBackup => s.pc.Building? && d.backup.Some? && d.root.None?
    case Build(_, _) => s.pc.Building? && !(d.backup.Some? && d.root.None?)
    case MoveAside => s.pc.Built? && d.backup.None? && d.root.Some?
    case SkipAside => s.pc.Built? && d.backup.None? && d.root.None?
    case Publish => s.pc.Swapping?
    case PublishFails => s.pc.Swapping?
    case PutBack => s.pc.Undoing? && d.backup.Some? && d.root.None?
    case WriteStamp => s.pc.Stamping? && d.root.Some?
    case RemoveFile(path) => (s.pc.Cleaning? || s.pc.Removing?) && d.backup.Some? && path in d.backup.value.files
    case RemoveDone => (s.pc.Cleaning? || s.pc.Removing?) && d.backup.Some? && d.backup.value.files == map[]
    case StartSession => (s.pc.Cleaning? || s.pc.Removing?) && d.backup.None?
    case Write(_, _) => s.pc.Session? && d.root.Some?
    case Delete(_) => s.pc.Session? && d.root.Some?
    case Stop => true
  }

  function Apply(s: State, e: Step): State
    requires Enabled(s, e)
  {
    var d := s.disk;
    match e
    case Reuse(want) => s.(pc := Cleaning(want))
    case Rebuild(want) => s.(pc := Building(want))
    case RestoreBackup => s.(disk := d.(root := d.backup, backup := None))
    case Build(image, installed) => s.(pc := Built(s.pc.want, Fresh(d, image, installed)))
    case MoveAside => s.(disk := d.(root := None, backup := d.root), pc := Swapping(s.pc.want, s.pc.tree))
    case SkipAside => s.(pc := Swapping(s.pc.want, s.pc.tree))
    case Publish => State(d.(root := Some(Dir(s.pc.tree, true, s.pc.want))), Stamping(s.pc.want), DataOf(s.pc.tree))
    case PublishFails => s.(pc := Undoing)
    case PutBack => s.(disk := d.(root := d.backup, backup := None), pc := Idle)
    case WriteStamp =>
      s.(disk := d.(stamp := Some(Stamp(s.pc.want, Inventory(d.root.value.files)))), pc := Removing(s.pc.want))
    case RemoveFile(path) =>
      s.(disk := d.(backup := Some(d.backup.value.(files := d.backup.value.files - {path}, whole := false))))
    case RemoveDone => s.(disk := d.(backup := None))
    case StartSession => s.(pc := Session(s.pc.want))
    case Write(path, content) =>
      State(d.(root := Some(d.root.value.(files := d.root.value.files[path := content]))), s.pc,
            if Retained(path) then s.latest[path := content] else s.latest)
    case Delete(path) =>
      State(d.(root := Some(d.root.value.(files := d.root.value.files - {path}))), s.pc, s.latest - {path})
    case Stop => s.(pc := Idle)
  }

  // ------------------------------------------------------------------ the invariant

  /** What the next preparation will find: the root if it exists, otherwise the backup. */
  function Live(d: Disk): Files {
    if d.root.Some? then d.root.value.files else if d.backup.Some? then d.backup.value.files else map[]
  }

  predicate Safe(d: Disk, latest: Files) {
    && DataOf(Live(d)) == latest
    && (d.root.Some? ==> d.root.value.whole)
    && (d.root.None? && d.backup.Some? ==> d.backup.value.whole)
  }

  /** A fresh tree holds the latest data; it may add retained files that only the image has. */
  predicate Carries(tree: Files, latest: Files) {
    forall p | p in latest :: p in tree && tree[p] == latest[p]
  }

  predicate PcFits(s: State) {
    var d := s.disk;
    match s.pc
    case Idle => true
    case Building(_) => true
    case Built(_, tree) => Carries(tree, s.latest) && !(d.root.None? && d.backup.Some?)
    case Swapping(_, tree) => Carries(tree, s.latest) && d.root.None?
    case Undoing => d.root.None?
    case Stamping(_) => d.root.Some?
    case Cleaning(want) => Matches(d, want) && Verified(d.root.value.files, d.stamp.value.immutable)
    case Removing(want) => Matches(d, want) && Verified(d.root.value.files, d.stamp.value.immutable)
    case Session(want) => Matches(d, want) && d.backup.None?
  }

  predicate Inv(s: State) {
    Safe(s.disk, s.latest) && PcFits(s) && forall p | p in s.latest :: Retained(p)
  }

  lemma FreshCarries(d: Disk, image: Files, installed: Option<Files>, latest: Files)
    requires Safe(d, latest) && !(d.backup.Some? && d.root.None?)
    ensures Carries(Fresh(d, image, installed), latest)
  {
    if d.root.None? {
      assert DataOf(map[]) == map[];
    }
  }

  lemma WriteFits(files: Files, path: Path, content: Content)
    ensures DataOf(files[path := content]) == if Retained(path) then DataOf(files)[path := content] else DataOf(files)
    ensures DataOf(files - {path}) == DataOf(files) - {path}
  {
  }

  lemma StepKeepsInv(s: State, e: Step)
    requires Inv(s) && Enabled(s, e)
    ensures Inv(Apply(s, e))
  {
    match e
    case Build(image, installed) => FreshCarries(s.disk, image, installed, s.latest);
    case Write(path, content) => WriteFits(s.disk.root.value.files, path, content);
    case Delete(path) => WriteFits(s.disk.root.value.files, path, "");
    case _ =>
  }

  // ------------------------------------------------------------------ runs

  /** `states[i + 1]` follows from `states[i]` by `steps[i]`, from an app never prepared before. */
  predicate Run(states: seq<State>, steps: seq<Step>) {
    && |states| == |steps| + 1
    && states[0] == START
    && forall i | 0 <= i < |steps| :: Enabled(states[i], steps[i]) && states[i + 1] == Apply(states[i], steps[i])
  }

  ghost predicate Reachable(s: State) {
    exists states, steps :: Run(states, steps) && states[|steps|] == s
  }

  lemma ReachableStep(s: State, e: Step)
    requires Reachable(s) && Enabled(s, e)
    ensures Reachable(Apply(s, e))
  {
    var states, steps :| Run(states, steps) && states[|steps|] == s;
    assert Run(states + [Apply(s, e)], steps + [e]);
  }

  lemma {:induction false} RunKeepsInv(states: seq<State>, steps: seq<Step>, i: nat)
    requires Run(states, steps) && i < |states|
    ensures Inv(states[i])
  {
    if i > 0 {
      RunKeepsInv(states, steps, i - 1);
      StepKeepsInv(states[i - 1], steps[i - 1]);
    }
  }

  lemma ReachableInv(s: State)
    requires Reachable(s)
    ensures Inv(s)
  {
    var states, steps :| Run(states, steps) && states[|steps|] == s;
    RunKeepsInv(states, steps, |steps|);
  }

  /** At every moment of every run, so at every point where the host may crash, the root, or the backup
  while there is no root, is complete and holds exactly the latest app data. */
  lemma NothingLost(states: seq<State>, steps: seq<Step>, i: nat)
    requires Run(states, steps) && i < |states|
    ensures var d := states[i].disk;
            && (d.root.Some? ==> d.root.value.whole && DataOf(d.root.value.files) == states[i].latest)
            && (d.root.None? && d.backup.Some? ==>
                  d.backup.value.whole && DataOf(d.backup.value.files) == states[i].latest)
            && (d.root.None? && d.backup.None? ==> states[i].latest == map[])
            && (forall p | MayHoldData(p) && p in Live(d) :: p in states[i].latest && states[i].latest[p] == Live(d)[p])
  {
    RunKeepsInv(states, steps, i);
    assert DataOf(map[]) == map[];
    forall p | MayHoldData(p) && p in Live(states[i].disk) ensures p in DataOf(Live(states[i].disk)) {
      RetainedIsData(p);
    }
  }

  predicate Touches(e: Step, p: Path) {
    (e.Write? || e.Delete?) && e.path == p
  }

  lemma StepKeepsData(s: State, e: Step, p: Path)
    requires Inv(s) && Enabled(s, e) && p in s.latest && !Touches(e, p)
    ensures p in Apply(s, e).latest && Apply(s, e).latest[p] == s.latest[p]
  {
  }

  lemma WrittenIsLatest(s: State, e: Step)
    requires Enabled(s, e) && e.Write? && Retained(e.path)
    ensures e.path in Apply(s, e).latest && Apply(s, e).latest[e.path] == e.content
  {
  }

  lemma LatestIsLive(s: State, p: Path)
    requires Inv(s) && p in s.latest
    ensures p in Live(s.disk) && Live(s.disk)[p] == s.latest[p]
  {
    assert p in DataOf(Live(s.disk));
  }

  /** A file that an app writes stays readable with that content, through any number of rebuilds, failed
  renames and crashes, until a session writes or deletes it again. */
  lemma {:induction false} WriteSurvives(states: seq<State>, steps: seq<Step>, i: nat, j: nat)
    requires Run(states, steps) && i < j < |states| && steps[i].Write? && MayHoldData(steps[i].path)
    requires forall n | i < n < j :: !Touches(steps[n], steps[i].path)
    ensures steps[i].path in states[j].latest && states[j].latest[steps[i].path] == steps[i].content
    ensures steps[i].path in Live(states[j].disk) && Live(states[j].disk)[steps[i].path] == steps[i].content
  {
    RetainedIsData(steps[i].path);
    RunKeepsInv(states, steps, j - 1);
    if j == i + 1 {
      WrittenIsLatest(states[i], steps[i]);
    } else {
      WriteSurvives(states, steps, i, j - 1);
      StepKeepsData(states[j - 1], steps[j - 1], steps[i].path);
    }
    RunKeepsInv(states, steps, j);
    LatestIsLive(states[j], steps[i].path);
  }

  /** The app has no file at `p`, and no replacement under way brings one. */
  predicate Gone(s: State, p: Path) {
    && p !in s.latest && (s.disk.root.Some? || s.disk.backup.Some?)
    && (s.pc.Built? || s.pc.Swapping? ==> p !in s.pc.tree)
  }

  lemma StepKeepsGone(s: State, e: Step, p: Path)
    requires Inv(s) && Enabled(s, e) && Retained(p) && Gone(s, p)
    requires !Touches(e, p) && (e.Build? ==> p !in e.image)
    ensures Gone(Apply(s, e), p)
  {
    if e.Build? {
      assert p !in DataOf(s.disk.root.value.files);
    }
  }

  lemma DeletedIsGone(s: State, e: Step)
    requires Inv(s) && Enabled(s, e) && e.Delete?
    ensures Gone(Apply(s, e), e.path)
  {
  }

  lemma GoneIsNotLive(s: State, p: Path)
    requires Inv(s) && Gone(s, p) && Retained(p)
    ensures p !in Live(s.disk)
  {
    assert p !in DataOf(Live(s.disk));
  }

  /** A file that an app deletes does not come back, unless the app writes it or a newer image has it. */
  lemma {:induction false} DeletionSurvives(states: seq<State>, steps: seq<Step>, i: nat, j: nat)
    requires Run(states, steps) && i < j < |states| && steps[i].Delete? && MayHoldData(steps[i].path)
    requires forall n | i < n < j :: !Touches(steps[n], steps[i].path)
    requires forall n | i < n < j && steps[n].Build? :: steps[i].path !in steps[n].image
    ensures Gone(states[j], steps[i].path) && steps[i].path !in Live(states[j].disk)
  {
    RetainedIsData(steps[i].path);
    RunKeepsInv(states, steps, j - 1);
    if j == i + 1 {
      DeletedIsGone(states[i], steps[i]);
    } else {
      DeletionSurvives(states, steps, i, j - 1);
      StepKeepsGone(states[j - 1], steps[j - 1], steps[i].path);
    }
    RunKeepsInv(states, steps, j);
    GoneIsNotLive(states[j], steps[i].path);
  }

  /** A tree that is only partly there is never renamed to the root, and no rename replaces data. */
  lemma RestoresWhole(states: seq<State>, steps: seq<Step>, i: nat)
    requires Run(states, steps) && i < |steps| && (steps[i].RestoreBackup? || steps[i].PutBack?)
    ensures states[i + 1].disk.root.value.whole && states[i + 1].disk.backup.None?
    ensures DataOf(states[i + 1].disk.root.value.files) == states[i].latest == states[i + 1].latest
  {
    RunKeepsInv(states, steps, i);
  }

  /** No session runs while a backup remains, and each starts with the identity it asked for on record and
  every recorded file unmodified. SessionTree says which tree it runs on. */
  lemma SessionsStartClean(states: seq<State>, steps: seq<Step>, i: nat)
    requires Run(states, steps) && i < |states| && states[i].pc.Session?
    ensures states[i].disk.backup.None? && Matches(states[i].disk, states[i].pc.want)
    ensures i > 0 && steps[i - 1].StartSession? ==>
              var files, recorded := states[i].disk.root.value.files, states[i].disk.stamp.value.immutable;
              forall p | p in recorded :: p in files && files[p] == recorded[p]
  {
    RunKeepsInv(states, steps, i);
    if i > 0 {
      RunKeepsInv(states, steps, i - 1);
      assert states[i] == Apply(states[i - 1], steps[i - 1]);
    }
  }

  // ------------------------------------------------------------------ the interrupted replacement

  /** Root and backup both exist: a replacement was cut between publishing and the end of the removal. */
  predicate Interrupted(d: Disk) {
    d.root.Some? && d.backup.Some?
  }

  lemma InterruptedStays(s: State, e: Step)
    requires Enabled(s, e) && Interrupted(s.disk) && (s.pc.Idle? || s.pc.Building? || s.pc.Built?) && !e.Reuse?
    ensures Apply(s, e).disk == s.disk
    ensures Apply(s, e).pc.Idle? || Apply(s, e).pc.Building? || Apply(s, e).pc.Built?
  {
  }

  /** From then on nothing but a start that asks for exactly the recorded identity gets further: every
  other preparation leaves the disk as it is and starts no session. */
  lemma {:induction false} InterruptedUntilReuse(states: seq<State>, steps: seq<Step>, i: nat, j: nat)
    requires Run(states, steps) && i <= j < |states| && Interrupted(states[i].disk) && states[i].pc.Idle?
    requires forall n | i <= n < j :: !steps[n].Reuse?
    ensures states[j].disk == states[i].disk && !states[j].pc.Session?
    ensures states[j].pc.Idle? || states[j].pc.Building? || states[j].pc.Built?
  {
    if i < j {
      InterruptedUntilReuse(states, steps, i, j - 1);
      InterruptedStays(states[j - 1], steps[j - 1]);
    }
  }

  lemma Extend(states: seq<State>, steps: seq<Step>, e: Step, next: State)
    returns (states': seq<State>, steps': seq<Step>)
    requires Run(states, steps) && Enabled(states[|steps|], e) && next == Apply(states[|steps|], e)
    ensures Run(states', steps') && states' == states + [next] && steps' == steps + [e]
  {
    states', steps' := states + [next], steps + [e];
  }

  /** A first session on the runtime built from `image` has come and gone. */
  lemma FirstSession(want: Identity, image: Files) returns (states: seq<State>, steps: seq<Step>)
    ensures Run(states, steps) && |steps| == 7
    ensures states[7] == State(Disk(Some(Dir(image, true, want)), None, Some(Stamp(want, Inventory(image)))),
                               Idle, DataOf(image))
  {
    var root := Some(Dir(image, true, want));
    var data, disk := DataOf(image), Disk(root, None, Some(Stamp(want, Inventory(image))));
    steps := [Rebuild(want), Build(image, None), SkipAside, Publish, WriteStamp, StartSession, Stop];
    states := [START, START.(pc := Building(want)), START.(pc := Built(want, image)),
               START.(pc := Swapping(want, image)), State(Disk(root, None, None), Stamping(want), data),
               State(disk, Removing(want), data), State(disk, Session(want), data), State(disk, Idle, data)];
  }

  lemma ImmutableIsNotData(image: Files, data: Files, p: Path)
    requires Immutable(p)
    ensures p in image + DataOf(data) <==> p in image
    ensures p in image ==> (image + DataOf(data))[p] == image[p]
  {
    assert !Retained(p);
  }

  /** App data is never among the recorded files, so it does not matter to their check. */
  lemma DataIsNotRecorded(image: Files, data: Files, recorded: Files)
    requires forall p | p in recorded :: Immutable(p)
    ensures Verified(image + DataOf(data), recorded) <==> Verified(image, recorded)
  {
    forall p | p in recorded
      ensures (p in image + DataOf(data) && (image + DataOf(data))[p] == recorded[p])
              <==> (p in image && image[p] == recorded[p])
    {
      ImmutableIsNotData(image, data, p);
    }
  }

  /** Whatever the two images are: a crash right after the first replacement is published, before its stamp is
  written, leaves such a disk, and its stamp still names the old identity. A start that asks for this one then
  gets past the check of the recorded files exactly when the new image has all of the old one's unmodified. */
  lemma CrashCanInterrupt(old_: Identity, new_: Identity, oldImage: Files, newImage: Files)
    returns (states: seq<State>, steps: seq<Step>)
    requires old_ != new_
    ensures Run(states, steps) && |steps| == 12 && steps[10].Publish? && steps[11].Stop?
    ensures states[12].pc.Idle?
    ensures states[12].disk == Disk(Some(Dir(newImage + DataOf(oldImage), true, new_)),
                                    Some(Dir(oldImage, true, old_)), Some(Stamp(old_, Inventory(oldImage))))
    ensures Enabled(states[12], Reuse(old_)) <==> Verified(newImage, Inventory(oldImage))
  {
    states, steps := FirstSession(old_, oldImage);
    var first, data, tree := states[7].disk, states[7].latest, newImage + DataOf(oldImage);
    states, steps := Extend(states, steps, Rebuild(new_), State(first, Building(new_), data));
    states, steps := Extend(states, steps, Build(newImage, None), State(first, Built(new_, tree), data));
    var aside := first.(root := None, backup := first.root);
    states, steps := Extend(states, steps, MoveAside, State(aside, Swapping(new_, tree), data));
    var published := aside.(root := Some(Dir(tree, true, new_)));
    states, steps := Extend(states, steps, Publish, State(published, Stamping(new_), DataOf(tree)));
    states, steps := Extend(states, steps, Step.Stop, State(published, Idle, DataOf(tree)));
    DataIsNotRecorded(newImage, oldImage, Inventory(oldImage));
  }

  /** The removal of an obsolete backup, file by file. */
  lemma {:induction false} BackupGoes(before: seq<State>, done: seq<Step>)
    returns (states: seq<State>, steps: seq<Step>)
    requires Run(before, done) && before[|done|].pc.Cleaning? && before[|done|].disk.backup.Some?
    ensures Run(states, steps)
    ensures states[|steps|] == before[|done|].(disk := before[|done|].disk.(backup := None))
    decreases before[|done|].disk.backup.value.files.Keys
  {
    var s := before[|done|];
    var backup := s.disk.backup.value;
    if backup.files == map[] {
      states, steps := Extend(before, done, RemoveDone, s.(disk := s.disk.(backup := None)));
    } else {
      var path :| path in backup.files;
      var left := backup.(files := backup.files - {path}, whole := false);
      assert left.files.Keys == backup.files.Keys - {path};
      states, steps := Extend(before, done, RemoveFile(path), s.(disk := s.disk.(backup := Some(left))));
      states, steps := BackupGoes(states, steps);
    }
  }

  /** If it has, that start gets a session, on the tree that was built for the new identity. */
  lemma SessionOnOtherTree(old_: Identity, new_: Identity, oldImage: Files, newImage: Files)
    returns (states: seq<State>, steps: seq<Step>)
    requires old_ != new_ && Verified(newImage, Inventory(oldImage))
    ensures Run(states, steps)
    ensures var s := states[|steps|];
            s.pc == Session(old_)
            && s.disk.root == Some(Dir(newImage + DataOf(oldImage), true, new_)) && s.disk.backup.None?
  {
    states, steps := CrashCanInterrupt(old_, new_, oldImage, newImage);
    states, steps := Extend(states, steps, Reuse(old_), states[12].(pc := Cleaning(old_)));
    states, steps := BackupGoes(states, steps);
    states, steps := Extend(states, steps, StartSession, states[|steps|].(pc := Session(old_)));
  }

  // ------------------------------------------------------------------ which tree a session runs on

  function LiveTree(d: Disk): Option<Dir> {
    if d.root.Some? then d.root else d.backup
  }

  predicate LastPublish(steps: seq<Step>, p: nat, i: nat) {
    p < i <= |steps| && steps[p].Publish? && forall n | p < n < i :: !steps[n].Publish?
  }

  lemma StepKeepsTree(s: State, e: Step)
    requires Inv(s) && Enabled(s, e) && !e.Publish? && LiveTree(Apply(s, e).disk).Some?
    ensures LiveTree(s.disk).Some? && LiveTree(Apply(s, e).disk).value.identity == LiveTree(s.disk).value.identity
  {
  }

  /** Whatever is renamed to and fro, the tree that the next preparation will find was published last. */
  lemma {:induction false} LiveTreeIsLast(states: seq<State>, steps: seq<Step>, i: nat) returns (p: nat)
    requires Run(states, steps) && i <= |steps| && LiveTree(states[i].disk).Some?
    ensures LastPublish(steps, p, i) && states[p].pc.Swapping?
    ensures LiveTree(states[i].disk).value.identity == states[p].pc.want
  {
    var m := i - 1;
    assert Enabled(states[m], steps[m]) && states[i] == Apply(states[m], steps[m]);
    if steps[m].Publish? {
      p := m;
    } else {
      RunKeepsInv(states, steps, m);
      StepKeepsTree(states[m], steps[m]);
      p := LiveTreeIsLast(states, steps, m);
    }
  }

  /** A stamp written for the tree published last stays until the next one is published. */
  lemma {:induction false} StampStays(states: seq<State>, steps: seq<Step>, p: nat, i: nat)
    requires Run(states, steps) && LastPublish(steps, p, i) && p + 1 < i && steps[p + 1].WriteStamp?
    ensures states[p].pc.Swapping? && states[i].disk.stamp.Some?
            && states[i].disk.stamp.value.identity == states[p].pc.want
    ensures !states[i].pc.Stamping?
  {
    var m := i - 1;
    assert Enabled(states[m], steps[m]) && states[i] == Apply(states[m], steps[m]);
    if p + 1 < m {
      StampStays(states, steps, p, m);
    } else {
      assert Enabled(states[p], steps[p]) && states[m] == Apply(states[p], steps[p]);
    }
  }

  /** A publish that was not stamped leaves the stamp that was there, until the next one is published. */
  lemma {:induction false} OldStampStays(states: seq<State>, steps: seq<Step>, p: nat, i: nat)
    requires Run(states, steps) && LastPublish(steps, p, i) && p + 1 < i && !steps[p + 1].WriteStamp?
    ensures states[i].disk.stamp == states[p].disk.stamp && !states[i].pc.Stamping?
  {
    var m := i - 1;
    assert Enabled(states[m], steps[m]) && states[i] == Apply(states[m], steps[m]);
    if p + 1 < m {
      OldStampStays(states, steps, p, m);
    } else {
      assert Enabled(states[p], steps[p]) && states[m] == Apply(states[p], steps[p]);
    }
  }

  /** In every run a session runs on the tree published last, and that tree was built for the identity the
  session asked for exactly when it was stamped or the stamp before it was for the same identity. */
  lemma SessionTree(states: seq<State>, steps: seq<Step>, i: nat) returns (p: nat)
    requires Run(states, steps) && i <= |steps| && states[i].pc.Session?
    ensures LastPublish(steps, p, i) && p + 1 < i && states[p].pc.Swapping? && states[i].disk.root.Some?
    ensures states[i].disk.root.value.identity == states[p].pc.want
    ensures states[i].disk.root.value.identity == states[i].pc.want <==>
            steps[p + 1].WriteStamp?
            || (states[p].disk.stamp.Some? && states[p].disk.stamp.value.identity == states[p].pc.want)
  {
    RunKeepsInv(states, steps, i);
    p := LiveTreeIsLast(states, steps, i);
    assert states[p + 1] == Apply(states[p], steps[p]);
    if steps[p + 1].WriteStamp? {
      StampStays(states, steps, p, i);
    } else {
      OldStampStays(states, steps, p, i);
    }
  }

  // ------------------------------------------------------------------ the operations

  function FilesIn(source: Files, places: seq<Place>): Files {
    map p | p in source && p.place in places :: source[p]
  }

  lemma CopiedOne(image: Files, source: Files, places: seq<Place>, n: nat)
    requires n < |places|
    ensures (image + FilesIn(source, places[..n])) + FilesIn(source, [places[n]])
            == image + FilesIn(source, places[..n + 1])
  {
    assert places[..n + 1] == places[..n] + [places[n]];
    assert forall p: Path :: p.place in places[..n + 1] <==> p.place in places[..n] || p.place in [places[n]];
  }

  lemma AllPlaces(source: Files)
    ensures FilesIn(source, RETAINED_DIRECTORIES + RETAINED_FILES) == DataOf(source)
  {
    assert forall p: Path :: Retained(p) <==> p.place in RETAINED_DIRECTORIES + RETAINED_FILES;
  }

  /** What a fresh tree holds at every path: at a place the app's data may be in, the file of `source`, where it
  has one, and everywhere else what the image holds. */
  ghost predicate Combines(tree: Files, image: Files, source: Files) {
    forall p: Path ::
      if p in source && MayHoldData(p) then p in tree && tree[p] == source[p]
      else (p in tree <==> p in image) && (p in image ==> tree[p] == image[p])
  }

  /** Exactly the files of the verified places are recorded, as they are. */
  ghost predicate Records(immutable: Files, tree: Files) {
    forall p: Path ::
      && (p in immutable <==>
          p in tree && (p.place.Image? || p.place.AppCode? || p.place.LocalTmp? || p.place.SsaidKey?
                        || p.place.DebugProperties?))
      && (p in immutable ==> immutable[p] == tree[p])
  }

  lemma DataCombines(image: Files, source: Files)
    ensures Combines(image + DataOf(source), image, source)
  {
  }

  lemma NothingCombines(image: Files)
    ensures Combines(image, image, map[])
  {
  }

  lemma InventoryRecords(tree: Files)
    ensures Records(Inventory(tree), tree)
  {
  }

  /** The app's data comes from the root, or without one from the backup, or without either from the
  installer's tree. */
  function DataSource(root: Option<Dir>, backup: Option<Dir>, installed: Option<Files>): Files {
    match (root, backup, installed)
    case (Some(dir), _, _) => dir.files
    case (None, Some(dir), _) => dir.files
    case (None, None, Some(files)) => files
    case (None, None, None) => map[]
  }

  /** Which of the three renames raise. */
  datatype Faults = Faults(aside: bool, publish: bool, putBack: bool)

  /** `<app>/managed`. The ghost fields place it in a run of the machine above; every assignment to the
  other fields is one of its steps, so a host crash after any of them is a run too. */
  class ManagedDirectory {
    var root: Option<Dir>
    var backup: Option<Dir>
    var stamp: Option<Stamp>
    ghost var pc: Pc
    ghost var latest: Files

    ghost function Now(): State
      reads this
    {
      State(Disk(root, backup, stamp), pc, latest)
    }

    ghost predicate Valid()
      reads this
    {
      Reachable(Now())
    }

    constructor ()
      ensures Valid() && Now() == START
    {
      root, backup, stamp, pc, latest := None, None, None, Idle, map[];
      new;
      assert Run([START], []);
    }

    /** The copy of the app data into the fresh tree, one directory or file of the list at a time. */
    method BuildTree(image: Files, source: Option<Files>) returns (tree: Files)
      ensures tree == if source.None? then image else image + DataOf(source.value)
      ensures Combines(tree, image, if source.None? then map[] else source.value)
    {
      tree := image;
      NothingCombines(image);
      if source.None? { return; }
      DataCombines(image, source.value);
      var places := RETAINED_DIRECTORIES + RETAINED_FILES;
      for n := 0 to |places|
        invariant tree == image + FilesIn(source.value, places[..n])
      {
        CopiedOne(image, source.value, places, n);
        tree := tree + FilesIn(source.value, [places[n]]);
      }
      AllPlaces(source.value);
      assert places[..|places|] == places;
    }

    /** `remove_runtime`: the files go one by one, then the directory. */
    method RemoveBackup()
      requires Valid() && (pc.Cleaning? || pc.Removing?)
      modifies this`backup
      ensures Valid() && backup.None?
    {
      if backup.None? { return; }
      while backup.value.files != map[]
        invariant Valid() && backup.Some?
        decreases backup.value.files.Keys
      {
        var path :| path in backup.value.files;
        ReachableStep(Now(), RemoveFile(path));
        var left := backup.value.files - {path};
        assert left.Keys == backup.value.files.Keys - {path};
        backup := Some(backup.value.(files := left, whole := false));
      }
      ReachableStep(Now(), RemoveDone);
      backup := None;
    }

    /** The exchange of the two trees. */
    method Exchange(want: Identity, tree: Files, faults: Faults) returns (published: bool)
      requires Valid() && pc == Built(want, tree) && backup.None?
      modifies this
      ensures Valid() && stamp == old(stamp)
      ensures published ==> pc == Stamping(want) && root == Some(Dir(tree, true, want)) && backup == old(root)
      ensures !published ==> pc.Idle? && latest == old(latest)
      ensures !published ==> if old(root).Some? && !faults.aside && faults.putBack
                             then root.None? && backup == old(root)
                             else root == old(root) && backup.None?
      ensures published <==> !faults.publish && (old(root).Some? ==> !faults.aside)
    {
      if root.Some? {
        if faults.aside {
          ReachableStep(Now(), Step.Stop);
          pc := Idle;
          return false;
        }
        ReachableStep(Now(), MoveAside);
        root, backup, pc := None, root, Swapping(want, tree);
      } else {
        ReachableStep(Now(), SkipAside);
        pc := Swapping(want, tree);
      }
      published := !faults.publish;
      if published {
        ReachableStep(Now(), Publish);
        root, pc, latest := Some(Dir(tree, true, want)), Stamping(want), DataOf(tree);
      } else {
        UndoExchange(faults);
      }
    }

    method UndoExchange(faults: Faults)
      requires Valid() && pc.Swapping?
      modifies this
      ensures Valid() && pc.Idle? && stamp == old(stamp) && latest == old(latest)
      ensures backup.Some? <==> old(backup).Some? && faults.putBack
      ensures backup.None? ==> root == old(backup)
      ensures backup.Some? ==> backup == old(backup) && root == old(root)
    {
      ReachableInv(Now());
      ReachableStep(Now(), PublishFails);
      pc := Undoing;
      if backup.Some? && !faults.putBack {
        ReachableStep(Now(), PutBack);
        root, backup, pc := backup, None, Idle;
      } else {
        ReachableStep(Now(), Step.Stop);
        pc := Idle;
      }
    }

    predicate Reusable(want: Identity)
      reads this
    {
      && root.Some? && stamp.Some? && stamp.value.identity == want
      && forall p | p in stamp.value.immutable ::
           p in root.value.files && root.value.files[p] == stamp.value.immutable[p]
    }

    /** `prepare_root`: true when the session may start, false when it raises. */
    method Prepare(want: Identity, image: Files, installed: Option<Files>, faults: Faults) returns (ready: bool)
      requires Valid() && pc.Idle?
      modifies this
      ensures Valid()
      ensures ready ==> pc == Session(want) && backup.None? && root.Some?
                        && stamp.Some? && stamp.value.identity == want && Reusable(want)
      ensures ready && old(Reusable(want)) ==> root == old(root) && stamp == old(stamp) && latest == old(latest)
      ensures ready && !old(Reusable(want)) ==>
                && Combines(root.value.files, image, DataSource(old(root), old(backup), installed))
                && Records(stamp.value.immutable, root.value.files) && root.value.identity == want
      ensures !ready ==> pc.Idle? && latest == old(latest) && stamp == old(stamp)
                         && Live(Now().disk) == old(Live(Now().disk))
      // on the recorded identity: ready, unless a recorded file was modified; otherwise, unless a replacement is
      // interrupted or one of the two renames of the exchange raises
      ensures ready <==>
              if old(root.Some? && stamp.Some? && stamp.value.identity == want) then old(Reusable(want))
              else !(old(root).Some? && old(backup).Some?) && !faults.publish
                   && (old(root).Some? || old(backup).Some? ==> !faults.aside)
    {
      if root.Some? && stamp.Some? && stamp.value.identity == want {
        if !Verified(root.value.files, stamp.value.immutable) { return false; }
        ReachableStep(Now(), Reuse(want));
        pc := Cleaning(want);
      } else {
        ReachableStep(Now(), Rebuild(want));
        pc := Building(want);
        ready := Replace(want, image, installed, faults);
        if !ready { return; }
      }
      RemoveBackup();
      ReachableStep(Now(), StartSession);
      pc := Session(want);
      ready := true;
    }

    /** The rebuild: restore, build, check, exchange, stamp. */
    method Replace(want: Identity, image: Files, installed: Option<Files>, faults: Faults) returns (done: bool)
      requires Valid() && pc == Building(want)
      modifies this
      ensures Valid()
      ensures done ==> pc == Removing(want) && root.Some? && stamp.Some? && stamp.value.identity == want
      ensures done ==>
                && Combines(root.value.files, image, DataSource(old(root), old(backup), installed))
                && Records(stamp.value.immutable, root.value.files) && root.value.identity == want
      ensures !done ==> pc.Idle? && latest == old(latest) && stamp == old(stamp)
                        && Live(Now().disk) == old(Live(Now().disk))
      ensures done <==> !(old(root).Some? && old(backup).Some?) && !faults.publish
                        && (old(root).Some? || old(backup).Some? ==> !faults.aside)
    {
      Restore(want);
      var tree := BuildFresh(want, image, installed);
      if backup.Some? {
        ReachableStep(Now(), Step.Stop);
        pc := Idle;
        return false;
      }
      done := Exchange(want, tree, faults);
      if done {
        StampRuntime(want);
      }
    }

    /** The fresh tree, in a temporary directory. */
    method BuildFresh(want: Identity, image: Files, installed: Option<Files>) returns (tree: Files)
      requires Valid() && pc == Building(want) && !(backup.Some? && root.None?)
      modifies this`pc
      ensures Valid() && pc == Built(want, tree)
      ensures Combines(tree, image, DataSource(root, None, installed))
    {
      tree := BuildTree(image, if root.Some? then Some(root.value.files) else installed);
      ReachableStep(Now(), Build(image, installed));
      pc := Built(want, tree);
    }

    /** A root that is missing beside a backup comes back. */
    method Restore(want: Identity)
      requires Valid() && pc == Building(want)
      modifies this`root, this`backup
      ensures Valid()
      ensures root == if old(root).None? then old(backup) else old(root)
      ensures backup == if old(root).None? then None else old(backup)
    {
      if backup.Some? && root.None? {
        ReachableStep(Now(), RestoreBackup);
        root, backup := backup, None;
      }
    }

    /** `runtime.json` of the published tree. */
    method StampRuntime(want: Identity)
      requires Valid() && pc == Stamping(want) && root.Some?
      modifies this`stamp, this`pc
      ensures Valid() && pc == Removing(want) && stamp.Some? && stamp.value.identity == want
      ensures Records(stamp.value.immutable, root.value.files)
    {
      InventoryRecords(root.value.files);
      ReachableStep(Now(), WriteStamp);
      stamp, pc := Some(Stamp(want, Inventory(root.value.files))), Removing(want);
    }

    /** A guest write during the session. */
    method Write(path: Path, content: Content)
      requires Valid() && pc.Session? && root.Some?
      modifies this`root, this`latest
      ensures Valid() && root == Some(old(root).value.(files := old(root).value.files[path := content]))
    {
      ReachableStep(Now(), Step.Write(path, content));
      root := Some(root.value.(files := root.value.files[path := content]));
      latest := if Retained(path) then latest[path := content] else latest;
    }

    method Delete(path: Path)
      requires Valid() && pc.Session? && root.Some?
      modifies this`root, this`latest
      ensures Valid() && root == Some(old(root).value.(files := old(root).value.files - {path}))
    {
      ReachableStep(Now(), Step.Delete(path));
      root := Some(root.value.(files := root.value.files - {path}));
      latest := latest - {path};
    }

    /** The session ends, or the host crashes, at any moment. */
    ghost method Stop()
      requires Valid()
      modifies this`pc
      ensures Valid() && pc.Idle?
    {
      ReachableStep(Now(), Step.Stop);
      pc := Idle;
    }
  }
}
