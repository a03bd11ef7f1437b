/** The state that several Asgard process supervisors share: the byte locks of the `.uids` file and
the service processes themselves.

One `Step` is one indivisible action of one supervisor (or one process exiting). A supervisor's
operation is several steps, so steps of different supervisors interleave freely; within one
supervisor `pc` says which operation holds its mutex. Byte `uid - 99000` of the lock file is named
by its UID. */
module Realm {
  type HostId = nat
  type Key = string

  const FIRST_UID := 99000
  const END_UID := 100000
  const MAX_CHILDREN := 16

  datatype Child = Child(pid: nat, uid: int, isolated: bool)

  /** A process that some supervisor started. Entries are never removed, so this is every child ever
  spawned; `pid` names one process, not a number the system may use again. */
  datatype Process = Process(host: HostId, key: Key, uid: int, isolated: bool, alive: bool)

  /** Where the operation that holds a supervisor's mutex stands. */
  datatype Pc =
    | Idle
    | Allocating(key: Key, next: int)                  // in the allocate_uid loop, about to try `next`
    | Starting(key: Key, uid: int, isolated: bool)     // UID chosen, log and trace directories, then Popen
    | Unwinding(uid: int)                              // Popen raised: about to give the byte back
    | Registering(key: Key, pid: nat)                  // started, not yet in `children`
    | Stopping(key: Key)
    | Reaping(left: set<Key>)
    | Deleting(key: Key, left: set<Key>)               // byte given back, entry still in `children`
    | Closing(left: set<Key>)

  /** How far `close` came: `Cleared` once `children` was emptied, `Released` once the lock file was closed. */
  datatype Phase = Open | Cleared | Released

  datatype Host = Host(children: map<Key, Child>, stopped: bool, phase: Phase, pc: Pc)

  /** The bytes that one supervisor has locked. */
  function LeasesOf(locks: map<int, HostId>, h: HostId): set<int> {
    set u | u in locks && locks[u] == h
  }

  datatype State = State(hosts: map<HostId, Host>, locks: map<int, HostId>, processes: map<nat, Process>)
  {
    function With(h: HostId, host: Host): State {
      this.(hosts := hosts[h := host])
    }

    predicate Leased(uid: int, h: HostId) {
      uid in locks && locks[uid] == h
    }

    /** POSIX record locks belong to the process: a byte it already holds is granted again. */
    predicate Grantable(uid: int, h: HostId) {
      uid in locks ==> locks[uid] == h
    }
  }

  /** The steps of a run. `Move` is any step in which the supervisor only goes on to another point of
  its operation; the other host steps change the table, the locks or the processes. */
  datatype Step =
    | Join(h: HostId)
    | Exit(pid: nat)
    | Move(h: HostId, to: Pc)
    | TakeUid(h: HostId)
    | Unlock(h: HostId)
    | Launch(h: HostId, pid: nat)
    | Register(h: HostId)
    | ReapUnlock(h: HostId, key: Key)
    | ReapDelete(h: HostId)
    | SetStopped(h: HostId)
    | CloseClear(h: HostId)
    | CloseLeases(h: HostId)

  predicate Used(host: Host, uid: int) {
    exists k | k in host.children :: host.children[k].uid == uid
  }

  predicate MaySpawn(host: Host, key: Key) {
    !host.stopped && |host.children| < MAX_CHILDREN && key !in host.children
  }

  predicate Dead(r: State, pid: nat) {
    pid in r.processes && !r.processes[pid].alive
  }

  /** The control flow of `spawn`, `stop`, `reap` and `close` between two visible actions. */
  predicate Moves(r: State, h: HostId, host: Host, to: Pc) {
    match (host.pc, to)
    // spawn: the checks made under the mutex
    case (Idle, Allocating(key, next)) => MaySpawn(host, key) && next == FIRST_UID
    case (Idle, Starting(key, uid, isolated)) => MaySpawn(host, key) && !isolated && 10000 <= uid <= 19999
    // allocate_uid: the byte is in use here, or another process holds its lock
    case (Allocating(key, uid), Allocating(key', next)) =>
      key == key' && next == uid + 1 && uid < END_UID && (Used(host, uid) || !r.Grantable(uid, h))
    case (Allocating(_, uid), Idle) => uid == END_UID
    // the log, a trace directory or Popen failed; only a failed Popen gives the byte back
    case (Starting(_, _, _), Idle) => true
    case (Starting(_, uid, isolated), Unwinding(uid')) => isolated && uid == uid'
    // stop: SIGKILL, then wait, which may time out
    case (Idle, Stopping(key)) => key in host.children
    case (Stopping(_), Idle) => true
    // reap: skip a running child
    case (Idle, Reaping(left)) => left == host.children.Keys && host.phase.Open?
    case (Reaping(before), Reaping(left)) => left < before
    case (Reaping(left), Idle) => left == {}
    // close: each child is killed and waited for; a wait that times out leaves `close`
    case (Idle, Closing(left)) => left == host.children.Keys && host.stopped && host.phase.Open?
    case (Closing(before), Closing(left)) =>
      left < before && forall k | k in before - left && k in host.children :: Dead(r, host.children[k].pid)
    case (Closing(left), Idle) => left != {}
    case _ => false
  }

  function Without(children: map<Key, Child>, key: Key): (rest: map<Key, Child>)
    ensures rest.Keys == children.Keys - {key}
    ensures |rest| <= |children|
  {
    var rest := map k | k in children && k != key :: children[k];
    assert rest.Keys == children.Keys - {key};
    assert rest.Keys + (children.Keys * {key}) == children.Keys;
    rest
  }

  /** Whether step `s` can happen in state `r`. */
  predicate Enabled(r: State, s: Step) {
    match s
    case Join(h) => h !in r.hosts
    case Exit(pid) => pid in r.processes && r.processes[pid].alive
    case Move(h, to) => h in r.hosts && Moves(r, h, r.hosts[h], to)
    case TakeUid(h) =>
      h in r.hosts && r.hosts[h].pc.Allocating? && r.hosts[h].pc.next < END_UID
      && !Used(r.hosts[h], r.hosts[h].pc.next) && r.Grantable(r.hosts[h].pc.next, h)
    case Unlock(h) => h in r.hosts && r.hosts[h].pc.Unwinding?
    case Launch(h, pid) => h in r.hosts && r.hosts[h].pc.Starting? && pid !in r.processes
    case Register(h) => h in r.hosts && r.hosts[h].pc.Registering? && r.hosts[h].pc.pid in r.processes
    case ReapUnlock(h, key) =>
      h in r.hosts && r.hosts[h].pc.Reaping? && key in r.hosts[h].pc.left && key in r.hosts[h].children
      && Dead(r, r.hosts[h].children[key].pid)
    case ReapDelete(h) => h in r.hosts && r.hosts[h].pc.Deleting?
    case SetStopped(h) => h in r.hosts
    case CloseClear(h) => h in r.hosts && r.hosts[h].pc.Closing? && r.hosts[h].pc.left == {}
    case CloseLeases(h) => h in r.hosts && r.hosts[h].phase.Cleared?
  }

  function Apply(r: State, s: Step): State
    requires Enabled(r, s)
  {
    match s
    case Join(h) => r.With(h, Host(map[], false, Open, Idle))
    case Exit(pid) => r.(processes := r.processes[pid := r.processes[pid].(alive := false)])
    case Move(h, to) => r.With(h, r.hosts[h].(pc := to))
    case TakeUid(h) =>
      var host := r.hosts[h];
      r.(locks := r.locks[host.pc.next := h]).With(h, host.(pc := Starting(host.pc.key, host.pc.next, true)))
    case Unlock(h) =>
      var host := r.hosts[h];
      r.(locks := r.locks - {host.pc.uid}).With(h, host.(pc := Idle))
    case Launch(h, pid) =>
      var host := r.hosts[h];
      r.(processes := r.processes[pid := Process(h, host.pc.key, host.pc.uid, host.pc.isolated, true)])
      .With(h, host.(pc := Registering(host.pc.key, pid)))
    case Register(h) =>
      var host := r.hosts[h];
      var p := r.processes[host.pc.pid];
      r.With(h, host.(pc := Idle, children := host.children[host.pc.key := Child(host.pc.pid, p.uid, p.isolated)]))
    case ReapUnlock(h, key) =>
      var host := r.hosts[h];
      var locks := if host.children[key].isolated then r.locks - {host.children[key].uid} else r.locks;
      r.(locks := locks).With(h, host.(pc := Deleting(key, host.pc.left - {key})))
    case ReapDelete(h) =>
      var host := r.hosts[h];
      r.With(h, host.(pc := Reaping(host.pc.left), children := Without(host.children, host.pc.key)))
    case SetStopped(h) => r.With(h, r.hosts[h].(stopped := true))
    case CloseClear(h) => r.With(h, r.hosts[h].(pc := Idle, children := map[], phase := Cleared))
    case CloseLeases(h) =>
      r.(locks := map u | u in r.locks && r.locks[u] != h :: r.locks[u]).With(h, r.hosts[h].(phase := Released))
  }

  // ------------------------------------------------------------------ the invariant

  /** Each entry of `children` describes the process it names. */
  predicate Describes(r: State, h: HostId, host: Host) {
    forall k | k in host.children ::
      var c := host.children[k];
      c.pid in r.processes && r.processes[c.pid].host == h && r.processes[c.pid].key == k
      && r.processes[c.pid].uid == c.uid && r.processes[c.pid].isolated == c.isolated
  }

  predicate InRange(uid: int) { FIRST_UID <= uid < END_UID }

  /** No two isolated entries of one table carry the same UID, and every entry carries one of its kind. */
  predicate DistinctUids(host: Host) {
    && (forall k | k in host.children ::
          if host.children[k].isolated then InRange(host.children[k].uid) else 10000 <= host.children[k].uid <= 19999)
    && (forall k, l | k in host.children && l in host.children && k != l
                      && host.children[k].isolated && host.children[l].isolated ::
          host.children[k].uid != host.children[l].uid)
  }

  /** Every isolated entry's byte is leased by its own supervisor, except the one `reap` is deleting. */
  predicate LeasesHeld(r: State, h: HostId, host: Host) {
    forall k | k in host.children && host.children[k].isolated && !(host.pc.Deleting? && host.pc.key == k) ::
      r.Leased(host.children[k].uid, h)
  }

  predicate FreshUid(host: Host, uid: int) {
    forall k | k in host.children :: host.children[k].uid != uid
  }

  predicate PcFits(r: State, h: HostId, host: Host) {
    match host.pc
    case Idle => true
    case Allocating(key, next) =>
      key !in host.children && |host.children| < MAX_CHILDREN && FIRST_UID <= next <= END_UID
    case Starting(key, uid, isolated) =>
      key !in host.children && |host.children| < MAX_CHILDREN
      && (if isolated then InRange(uid) && r.Leased(uid, h) && FreshUid(host, uid) else 10000 <= uid <= 19999)
    case Unwinding(uid) => InRange(uid) && r.Leased(uid, h) && FreshUid(host, uid)
    case Registering(key, pid) =>
      key !in host.children && |host.children| < MAX_CHILDREN
      && pid in r.processes && r.processes[pid].host == h && r.processes[pid].key == key
      && (if r.processes[pid].isolated
          then InRange(r.processes[pid].uid) && r.Leased(r.processes[pid].uid, h)
               && FreshUid(host, r.processes[pid].uid)
          else 10000 <= r.processes[pid].uid <= 19999)
    case Stopping(key) => key in host.children
    case Reaping(left) => left <= host.children.Keys
    case Deleting(key, left) =>
      key in host.children && Dead(r, host.children[key].pid) && left <= host.children.Keys - {key}
    case Closing(left) =>
      host.stopped && left <= host.children.Keys
      && forall k | k in host.children && k !in left :: Dead(r, host.children[k].pid)
  }

  predicate PhaseFits(host: Host) {
    !host.phase.Open? ==> host.stopped && host.children == map[] && host.pc.Idle?
  }

  predicate HostInv(r: State, h: HostId, host: Host) {
    && |host.children| <= MAX_CHILDREN
    && Describes(r, h, host)
    && DistinctUids(host)
    && LeasesHeld(r, h, host)
    && PcFits(r, h, host)
    && PhaseFits(host)
  }

  /** A running process is in its supervisor's table, or about to be. */
  predicate Tracked(r: State, pid: nat, p: Process) {
    p.host in r.hosts
    && var host := r.hosts[p.host];
    || (p.key in host.children && host.children[p.key].pid == pid)
    || host.pc == Registering(p.key, pid)
  }

  predicate Inv(r: State) {
    && (forall h | h in r.hosts :: HostInv(r, h, r.hosts[h]))
    && (forall pid | pid in r.processes && r.processes[pid].alive :: Tracked(r, pid, r.processes[pid]))
  }

  // ------------------------------------------------------------------ every step keeps it

  /** What a step taken elsewhere may do to supervisor `h`: its table, mutex and leases stay, its
  processes may only exit. Only `stopped` may be set, by the thread that closes it. */
  predicate Undisturbed(r: State, t: State, h: HostId) {
    && h in r.hosts && h in t.hosts
    && t.hosts[h] == r.hosts[h].(stopped := t.hosts[h].stopped)
    && (r.hosts[h].stopped ==> t.hosts[h].stopped)
    && LeasesOf(r.locks, h) == LeasesOf(t.locks, h)
    && (forall pid | pid in r.processes :: pid in t.processes
          && t.processes[pid] == r.processes[pid].(alive := t.processes[pid].alive)
          && (t.processes[pid].alive ==> r.processes[pid].alive))
    && (forall pid | pid in t.processes && t.processes[pid].host == h :: pid in r.processes)
  }

  lemma UndisturbedKeepsHost(r: State, t: State, h: HostId)
    requires Undisturbed(r, t, h) && HostInv(r, h, r.hosts[h])
    ensures HostInv(t, h, t.hosts[h])
  {
    forall u ensures r.Leased(u, h) ==> t.Leased(u, h) {
      assert r.Leased(u, h) ==> u in LeasesOf(r.locks, h);
    }
  }

  predicate By(s: Step, h: HostId) {
    !s.Exit? && s.h == h
  }

  /** What another supervisor locks or gives back is not among the bytes of `h`. */
  lemma BytesUndisturbed(locks: map<int, HostId>, h: HostId, g: HostId, u: int)
    requires g != h && (u in locks ==> locks[u] == g)
    ensures LeasesOf(locks[u := g], h) == LeasesOf(locks, h)
    ensures LeasesOf(locks - {u}, h) == LeasesOf(locks, h)
  {
  }

  lemma ReleaseUndisturbed(locks: map<int, HostId>, h: HostId, g: HostId)
    requires g != h
    ensures LeasesOf(map v | v in locks && locks[v] != g :: locks[v], h) == LeasesOf(locks, h)
  {
  }

  /** A byte that a supervisor gives back is its own. */
  predicate GivesBackOwn(r: State, s: Step)
    requires Enabled(r, s)
  {
    match s
    case Unlock(g) => r.Leased(r.hosts[g].pc.uid, g)
    case ReapUnlock(g, key) =>
      var c := r.hosts[g].children[key];
      c.isolated ==> r.Leased(c.uid, g)
    case _ => true
  }

  lemma StepGivesBackOwn(r: State, s: Step)
    requires Inv(r) && Enabled(r, s)
    ensures GivesBackOwn(r, s)
  {
    if s.Unlock? || s.ReapUnlock? {
      assert HostInv(r, s.h, r.hosts[s.h]);
    }
  }

  lemma LocksUndisturbed(r: State, s: Step, h: HostId)
    requires Enabled(r, s) && GivesBackOwn(r, s) && h in r.hosts && !By(s, h)
    ensures LeasesOf(r.locks, h) == LeasesOf(Apply(r, s).locks, h)
  {
    match s
    case TakeUid(g) => BytesUndisturbed(r.locks, h, g, r.hosts[g].pc.next);
    case Unlock(g) => BytesUndisturbed(r.locks, h, g, r.hosts[g].pc.uid);
    case ReapUnlock(g, key) =>
      if r.hosts[g].children[key].isolated {
        BytesUndisturbed(r.locks, h, g, r.hosts[g].children[key].uid);
      }
    case CloseLeases(g) => ReleaseUndisturbed(r.locks, h, g);
    case _ => assert Apply(r, s).locks == r.locks;
  }

  lemma RecordsUndisturbed(r: State, s: Step, h: HostId)
    requires Enabled(r, s) && h in r.hosts && !By(s, h)
    requires LeasesOf(r.locks, h) == LeasesOf(Apply(r, s).locks, h)
    ensures Undisturbed(r, Apply(r, s), h)
  {
  }

  /** A step of one supervisor never disturbs another one. */
  lemma OthersUndisturbed(r: State, s: Step, h: HostId)
    requires Inv(r) && Enabled(r, s) && h in r.hosts && !By(s, h)
    ensures Undisturbed(r, Apply(r, s), h)
  {
    StepGivesBackOwn(r, s);
    LocksUndisturbed(r, s, h);
    RecordsUndisturbed(r, s, h);
  }

  lemma StopUndisturbed(r: State, h: HostId)
    requires h in r.hosts
    ensures Undisturbed(r, Apply(r, SetStopped(h)), h)
  {
  }

  // One lemma for each step: it keeps the invariant of the supervisor that takes it.

  lemma JoinKeepsHost(r: State, h: HostId)
    requires Enabled(r, Join(h))
    ensures HostInv(Apply(r, Join(h)), h, Apply(r, Join(h)).hosts[h])
  {
  }

  lemma MoveKeepsHost(r: State, h: HostId, to: Pc)
    requires Enabled(r, Move(h, to)) && HostInv(r, h, r.hosts[h])
    ensures HostInv(Apply(r, Move(h, to)), h, r.hosts[h].(pc := to))
  {
  }

  lemma TakeUidKeepsHost(r: State, h: HostId)
    requires Enabled(r, TakeUid(h)) && HostInv(r, h, r.hosts[h])
    ensures HostInv(Apply(r, TakeUid(h)), h, Apply(r, TakeUid(h)).hosts[h])
  {
  }

  lemma UnlockKeepsHost(r: State, h: HostId)
    requires Enabled(r, Unlock(h)) && HostInv(r, h, r.hosts[h])
    ensures HostInv(Apply(r, Unlock(h)), h, Apply(r, Unlock(h)).hosts[h])
  {
  }

  lemma LaunchKeepsHost(r: State, h: HostId, pid: nat)
    requires Enabled(r, Launch(h, pid)) && HostInv(r, h, r.hosts[h])
    ensures HostInv(Apply(r, Launch(h, pid)), h, Apply(r, Launch(h, pid)).hosts[h])
  {
  }

  lemma AddKeepsTable(r: State, h: HostId, host: Host, next: Host)
    requires host.pc.Registering? && HostInv(r, h, host)
    requires var p := r.processes[host.pc.pid];
             next == host.(pc := Idle, children := host.children[host.pc.key := Child(host.pc.pid, p.uid, p.isolated)])
    ensures Describes(r, h, next) && DistinctUids(next) && LeasesHeld(r, h, next)
  {
  }

  lemma RegisterKeepsHost(r: State, h: HostId)
    requires Enabled(r, Register(h)) && HostInv(r, h, r.hosts[h])
    ensures HostInv(Apply(r, Register(h)), h, Apply(r, Register(h)).hosts[h])
  {
    var host, next := r.hosts[h], Apply(r, Register(h)).hosts[h];
    assert next.children.Keys == host.children.Keys + {host.pc.key};
    assert |next.children.Keys| == |host.children.Keys| + 1;
    AddKeepsTable(r, h, host, next);
    SameRecords(r, Apply(r, Register(h)), h, next);
  }

  lemma ReapUnlockKeepsHost(r: State, h: HostId, key: Key)
    requires Enabled(r, ReapUnlock(h, key)) && HostInv(r, h, r.hosts[h])
    ensures HostInv(Apply(r, ReapUnlock(h, key)), h, Apply(r, ReapUnlock(h, key)).hosts[h])
  {
  }

  lemma DropKeepsTable(r: State, h: HostId, host: Host, next: Host)
    requires host.pc.Deleting? && Describes(r, h, host) && DistinctUids(host) && LeasesHeld(r, h, host)
    requires next == host.(pc := Reaping(host.pc.left), children := Without(host.children, host.pc.key))
    ensures Describes(r, h, next) && DistinctUids(next) && LeasesHeld(r, h, next)
  {
  }

  lemma DropKeepsPlace(r: State, t: State, h: HostId, host: Host, next: Host)
    requires host.pc.Deleting? && PcFits(r, h, host) && PhaseFits(host) && |host.children| <= MAX_CHILDREN
    requires next == host.(pc := Reaping(host.pc.left), children := Without(host.children, host.pc.key))
    ensures PcFits(t, h, next) && PhaseFits(next) && |next.children| <= MAX_CHILDREN
  {
  }

  lemma ReapDeleteKeepsHost(r: State, h: HostId)
    requires Enabled(r, ReapDelete(h)) && HostInv(r, h, r.hosts[h])
    ensures HostInv(Apply(r, ReapDelete(h)), h, Apply(r, ReapDelete(h)).hosts[h])
  {
    var host, t := r.hosts[h], Apply(r, ReapDelete(h));
    var next := host.(pc := Reaping(host.pc.left), children := Without(host.children, host.pc.key));
    assert t == r.With(h, next);
    DropKeepsPlace(r, t, h, host, next);
    DropKeepsTable(r, h, host, next);
    SameRecords(r, t, h, next);
  }

  /** The table's part of the invariant depends on the locks and the processes only. */
  lemma SameRecords(r: State, t: State, h: HostId, host: Host)
    requires t.locks == r.locks && t.processes == r.processes
    requires Describes(r, h, host) && LeasesHeld(r, h, host)
    ensures Describes(t, h, host) && LeasesHeld(t, h, host)
  {
  }

  lemma SetStoppedKeepsHost(r: State, h: HostId)
    requires Enabled(r, SetStopped(h)) && HostInv(r, h, r.hosts[h])
    ensures HostInv(Apply(r, SetStopped(h)), h, Apply(r, SetStopped(h)).hosts[h])
  {
  }

  lemma CloseClearKeepsHost(r: State, h: HostId)
    requires Enabled(r, CloseClear(h)) && HostInv(r, h, r.hosts[h])
    ensures HostInv(Apply(r, CloseClear(h)), h, Apply(r, CloseClear(h)).hosts[h])
  {
  }

  lemma CloseLeasesKeepsHost(r: State, h: HostId)
    requires Enabled(r, CloseLeases(h)) && HostInv(r, h, r.hosts[h])
    ensures HostInv(Apply(r, CloseLeases(h)), h, Apply(r, CloseLeases(h)).hosts[h])
  {
  }

  lemma SpawnStepKeepsHost(r: State, s: Step)
    requires s.TakeUid? || s.Unlock? || s.Launch? || s.Register?
    requires Enabled(r, s) && HostInv(r, s.h, r.hosts[s.h])
    ensures HostInv(Apply(r, s), s.h, Apply(r, s).hosts[s.h])
  {
    match s
    case TakeUid(h) => TakeUidKeepsHost(r, h);
    case Unlock(h) => UnlockKeepsHost(r, h);
    case Launch(h, pid) => LaunchKeepsHost(r, h, pid);
    case Register(h) => RegisterKeepsHost(r, h);
  }

  lemma OtherOwnStepKeepsHost(r: State, s: Step)
    requires s.Move? || s.ReapUnlock? || s.ReapDelete? || s.SetStopped? || s.CloseClear? || s.CloseLeases?
    requires Enabled(r, s) && HostInv(r, s.h, r.hosts[s.h])
    ensures HostInv(Apply(r, s), s.h, Apply(r, s).hosts[s.h])
  {
    match s
    case Move(h, to) => MoveKeepsHost(r, h, to);
    case ReapUnlock(h, key) => ReapUnlockKeepsHost(r, h, key);
    case ReapDelete(h) => ReapDeleteKeepsHost(r, h);
    case SetStopped(h) => SetStoppedKeepsHost(r, h);
    case CloseClear(h) => CloseClearKeepsHost(r, h);
    case CloseLeases(h) => CloseLeasesKeepsHost(r, h);
  }

  lemma OwnStepKeepsHost(r: State, s: Step)
    requires Inv(r) && Enabled(r, s) && !s.Exit?
    ensures HostInv(Apply(r, s), s.h, Apply(r, s).hosts[s.h])
  {
    if s.Join? {
      JoinKeepsHost(r, s.h);
    } else {
      assert HostInv(r, s.h, r.hosts[s.h]);
      if s.TakeUid? || s.Unlock? || s.Launch? || s.Register? {
        SpawnStepKeepsHost(r, s);
      } else {
        OtherOwnStepKeepsHost(r, s);
      }
    }
  }

  /** Only three steps take a process out of its supervisor's table, and each knows that it has exited. */
  lemma StepKeepsTracking(r: State, s: Step, pid: nat)
    requires Inv(r) && Enabled(r, s)
    requires pid in Apply(r, s).processes && Apply(r, s).processes[pid].alive
    ensures Tracked(Apply(r, s), pid, Apply(r, s).processes[pid])
  {
    if pid in r.processes {
      var p := r.processes[pid];
      assert Tracked(r, pid, p);
      assert HostInv(r, p.host, r.hosts[p.host]);
      if By(s, p.host) {
        OwnStepTracks(r, s, pid, p);
      } else {
        OtherStepTracks(r, s, pid, p);
      }
    }
  }

  lemma OtherStepTracks(r: State, s: Step, pid: nat, p: Process)
    requires Enabled(r, s) && !By(s, p.host) && Tracked(r, pid, p)
    ensures Tracked(Apply(r, s), pid, p)
  {
  }

  lemma OwnStepTracks(r: State, s: Step, pid: nat, p: Process)
    requires Enabled(r, s) && By(s, p.host) && p.host in r.hosts && HostInv(r, p.host, r.hosts[p.host])
    requires pid in r.processes && r.processes[pid] == p && p.alive && Tracked(r, pid, p)
    ensures Tracked(Apply(r, s), pid, p)
  {
    var host := r.hosts[p.host];
    assert PcFits(r, p.host, host);
    assert PhaseFits(host);
    assert host.pc.Registering? ==> host.pc.key !in host.children;
  }

  lemma StepKeepsInv(r: State, s: Step)
    requires Inv(r) && Enabled(r, s)
    ensures Inv(Apply(r, s))
  {
    var t := Apply(r, s);
    forall h | h in t.hosts
      ensures HostInv(t, h, t.hosts[h])
    {
      if By(s, h) {
        OwnStepKeepsHost(r, s);
      } else {
        OthersUndisturbed(r, s, h);
        UndisturbedKeepsHost(r, t, h);
      }
    }
    forall pid | pid in t.processes && t.processes[pid].alive
      ensures Tracked(t, pid, t.processes[pid])
    {
      StepKeepsTracking(r, s, pid);
    }
  }
}
