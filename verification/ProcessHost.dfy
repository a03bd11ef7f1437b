/** The supervisor's operations on its children, each a sequence of realm steps between which other
supervisors may take any number of theirs. */
module ProcessSupervisor {
  import opened Options
  import opened Realm
  import opened RealmRuns

  datatype Result<T, E> = Success(value: T) | Failure(error: E)

  datatype SpawnError =
    | InvalidKey | InvalidController | LimitReached | KeyExists | OutOfUids | InvalidUid | StartFailed | LaunchFailed

  /** `uid` is None when the request carries no integer. */
  datatype Request = Request(key: Key, controller: string, isolated: bool, uid: Option<int>)

  /** What the host system does to one `spawn`: the log or trace directory fails, Popen raises, or neither. */
  datatype Fault = NoFault | StartFault | LaunchFault

  predicate ValidKey(key: Key) {
    |key| == 32 && forall i | 0 <= i < |key| :: '0' <= key[i] <= '9' || 'a' <= key[i] <= 'f'
  }

  predicate ValidController(controller: string) {
    "asgard.process." <= controller && |controller| <= 96
  }

  predicate ValidUid(uid: Option<int>) {
    uid.Some? && 10000 <= uid.value <= 19999
  }

  /** Whether UID `uid` can be had in realm `r`: no child of the table carries it, and no other process has
  locked its byte. */
  predicate Free(r: State, children: map<Key, Child>, h: HostId, uid: int) {
    (forall k | k in children :: children[k].uid != uid) && (uid in r.locks ==> r.locks[uid] == h)
  }

  /** `probes[i]` is the moment at which UID 99000 + i was tried, in a history that was `from` moments old before. */
  predicate Probing(history: seq<State>, from: nat, probes: seq<nat>) {
    && (forall i | 0 <= i < |probes| :: from <= probes[i] < |history|)
    && (forall i, j | 0 <= i < j < |probes| :: probes[i] < probes[j])
  }

  /** The first `n` of the UIDs that were tried could not be had. */
  predicate Refused(history: seq<State>, children: map<Key, Child>, h: HostId, probes: seq<nat>, n: nat)
    requires n <= |probes| && Probing(history, 0, probes)
  {
    forall i | 0 <= i < n :: !Free(history[probes[i]], children, h, 99000 + i)
  }

  /** What is decided under the mutex, for a table `children` and a valid key and controller: `stopped` is what
  the first check found, and the probes are made only for an isolated child that passed the other checks. */
  predicate Decided(history: seq<State>, children: map<Key, Child>, h: HostId, request: Request,
                    refusal: Option<SpawnError>, stopped: bool, probes: seq<nat>)
    requires Probing(history, 0, probes)
  {
    var full := stopped || |children| >= 16;
    var enters := !full && request.key !in children;
    && (refusal.Some? ==> refusal.value.LimitReached? || refusal.value.KeyExists? || refusal.value.InvalidUid?
                          || refusal.value.OutOfUids?)
    && (refusal == Some(LimitReached) <==> full)
    && (refusal == Some(KeyExists) <==> !full && request.key in children)
    && (refusal == Some(InvalidUid) <==>
        enters && !request.isolated && !(request.uid.Some? && 10000 <= request.uid.value <= 19999))
    && (refusal == Some(OutOfUids) <==>
        enters && request.isolated && |probes| == 1000 && Refused(history, children, h, probes, 1000))
    && (refusal.None? <==>
        enters && if request.isolated then OneFound(history, children, h, probes)
                  else request.uid.Some? && 10000 <= request.uid.value <= 19999)
  }

  /** The checks made one after the other decide so. */
  lemma InOrderDecided(history: seq<State>, children: map<Key, Child>, h: HostId, request: Request,
                       refusal: Option<SpawnError>, stopped: bool, probes: seq<nat>)
    requires Probing(history, 0, probes)
    requires if stopped || |children| >= 16 then refusal == Some(LimitReached)
             else if request.key in children then refusal == Some(KeyExists)
             else if request.isolated then
               (refusal.None? && OneFound(history, children, h, probes))
               || (refusal == Some(OutOfUids) && |probes| == 1000 && Refused(history, children, h, probes, 1000))
             else if request.uid.Some? && 10000 <= request.uid.value <= 19999 then refusal.None?
             else refusal == Some(InvalidUid)
    ensures Decided(history, children, h, request, refusal, stopped, probes)
  {
  }

  /** Some UID could be had, and every lower one could not. */
  predicate OneFound(history: seq<State>, children: map<Key, Child>, h: HostId, probes: seq<nat>)
    requires Probing(history, 0, probes)
  {
    && 0 < |probes| <= 1000 && Refused(history, children, h, probes, |probes| - 1)
    && Free(history[probes[|probes| - 1]], children, h, 99000 + |probes| - 1)
  }

  function ChosenUid(request: Request, probes: seq<nat>): int {
    if request.isolated then 99000 + |probes| - 1 else if request.uid.Some? then request.uid.value else 0
  }

  /** What was decided before the child was started; a start that failed was not a refusal. */
  function RefusalOf(result: Result<(nat, int), SpawnError>): Option<SpawnError> {
    if result.Failure? && !result.error.StartFailed? && !result.error.LaunchFailed? then Some(result.error) else None
  }

  lemma KeyCharacters(key: Key)
    ensures ValidKey(key) <==> |key| == 32 && forall c | c in key :: c in "0123456789abcdef"
  {
    forall i | 0 <= i < |key| ensures ('0' <= key[i] <= '9' || 'a' <= key[i] <= 'f') <==> key[i] in "0123456789abcdef" {
      HexDigits(key[i]);
    }
    assert (forall c | c in key :: c in "0123456789abcdef") <==>
           forall i | 0 <= i < |key| :: key[i] in "0123456789abcdef";
  }

  lemma HexDigits(c: char)
    ensures ('0' <= c <= '9' || 'a' <= c <= 'f') <==> c in "0123456789abcdef"
  {
    var digits := "0123456789abcdef";
    if '0' <= c <= '9' {
      assert digits[c as int - '0' as int] == c;
    } else if 'a' <= c <= 'f' {
      assert digits[10 + c as int - 'a' as int] == c;
    }
  }

  /** A request with a valid key and controller is not answered OutOfUids while some UID could be had at every
  moment since the first check. */
  lemma NeverOutOfUids(history: seq<State>, children: map<Key, Child>, h: HostId, request: Request,
                       refusal: Option<SpawnError>, stopped: bool, entry: nat, probes: seq<nat>, uid: int)
    requires entry < |history| && Probing(history, entry + 1, probes)
    requires Decided(history, children, h, request, refusal, stopped, probes)
    requires 99000 <= uid < 100000 && forall n | entry < n < |history| :: Free(history[n], children, h, uid)
    ensures refusal != Some(OutOfUids)
    ensures !stopped && |children| < 16 && request.key !in children && request.isolated
            ==> refusal.None? && ChosenUid(request, probes) <= uid
  {
    var k := uid - 99000;
    if k < |probes| {
      assert Free(history[probes[k]], children, h, 99000 + k);
    }
  }

  lemma LaterHistory(before: seq<State>, after: seq<State>, children: map<Key, Child>, h: HostId, probes: seq<nat>)
    requires before <= after && Probing(before, 0, probes)
    ensures Probing(after, 0, probes)
    ensures forall n: nat | n <= |probes| ::
              Refused(after, children, h, probes, n) <==> Refused(before, children, h, probes, n)
    ensures probes != [] ==> after[probes[|probes| - 1]] == before[probes[|probes| - 1]]
  {
    forall i | 0 <= i < |probes| ensures after[probes[i]] == before[probes[i]] {
    }
  }

  lemma LaterDecided(before: seq<State>, after: seq<State>, children: map<Key, Child>, h: HostId, request: Request,
                     refusal: Option<SpawnError>, stopped: bool, from: nat, probes: seq<nat>)
    requires before <= after && Probing(before, from, probes)
    requires Decided(before, children, h, request, refusal, stopped, probes)
    ensures Probing(after, from, probes) && Decided(after, children, h, request, refusal, stopped, probes)
  {
    LaterHistory(before, after, children, h, probes);
  }

  /** What `spawn` decided under the mutex: `entry` is the moment of its first check, and `stopped` says whether
  the supervisor was already stopped before. */
  predicate Admission(history: seq<State>, from: nat, children: map<Key, Child>, h: HostId, stopped: bool,
                      request: Request, refusal: Option<SpawnError>, entry: nat, probes: seq<nat>)
  {
    && from <= entry < |history| && h in history[entry].hosts
    && (stopped ==> history[entry].hosts[h].stopped)
    && Probing(history, entry + 1, probes)
    && Decided(history, children, h, request, refusal, history[entry].hosts[h].stopped, probes)
  }

  lemma LaterAdmission(before: seq<State>, after: seq<State>, from: nat, children: map<Key, Child>, h: HostId,
                       stopped: bool, request: Request, refusal: Option<SpawnError>, entry: nat, probes: seq<nat>)
    requires before <= after
    requires Admission(before, from, children, h, stopped, request, refusal, entry, probes)
    ensures Admission(after, from, children, h, stopped, request, refusal, entry, probes)
  {
    LaterDecided(before, after, children, h, request, refusal, before[entry].hosts[h].stopped, entry + 1, probes);
  }

  lemma AnotherProbe(history: seq<State>, from: nat, seen: nat, probes: seq<nat>, probe: nat,
                     children: map<Key, Child>, h: HostId)
    requires Probing(history, from, probes) && from <= seen <= probe < |history|
    requires forall i | 0 <= i < |probes| :: probes[i] < seen
    ensures Probing(history, from, probes + [probe])
    ensures forall n: nat | n <= |probes| ::
              Refused(history, children, h, probes + [probe], n) <==> Refused(history, children, h, probes, n)
  {
    var more := probes + [probe];
    assert forall i | 0 <= i < |probes| :: more[i] == probes[i];
  }

  function PidsOf(children: map<Key, Child>): set<nat> {
    set k | k in children :: children[k].pid
  }

  predicate Longer(before: seq<State>, after: seq<State>) {
    before <= after && |before| < |after|
  }

  class SharedRealm {
    var r: State
    var nextPid: nat
    ghost var history: seq<State>   // every state that an operation has seen, the latest last
    ghost var killed: set<nat>      // the processes that an operation has killed

    ghost predicate Valid()
      reads this
    {
      && Reachable(r) && (forall pid | pid in r.processes :: pid < nextPid)
      && history != [] && history[|history| - 1] == r
    }

    constructor ()
      ensures Valid() && r == State(map[], map[], map[]) && killed == {}
    {
      r, nextPid, history, killed := State(map[], map[], map[]), 0, [State(map[], map[], map[])], {};
      new;
      assert Run([r], []);
    }

    method Act(s: Step)
      requires Valid() && Enabled(r, s) && (s.Launch? ==> s.pid == nextPid)
      modifies this
      ensures Valid() && r == Apply(old(r), s) && Longer(old(history), history)
      ensures nextPid == old(nextPid) + if s.Launch? then 1 else 0
      ensures killed == old(killed) + if s.Exit? then {s.pid} else {}
    {
      ReachableStep(r, s);
      r := Apply(r, s);
      history := history + [r];
      if s.Launch? {
        nextPid := nextPid + 1;
      }
      if s.Exit? {
        killed := killed + {s.pid};
      }
    }

    /** Any steps of the other supervisors, and exits. The body takes none; callers know only the
    contract, which RealmRuns.InterleavingUndisturbed shows for every interleaving. */
    method Yield(h: HostId)
      requires Valid() && h in r.hosts
      modifies this
      ensures Valid() && Undisturbed(old(r), r, h) && Longer(old(history), history)
      ensures nextPid >= old(nextPid) && killed == old(killed)
    {
      history := history + [r];
    }
  }

  class ProcessHost {
    const h: HostId
    const realm: SharedRealm
    var children: map<Key, Child>

    ghost predicate Valid()
      reads this, realm
    {
      realm.Valid() && h in realm.r.hosts && realm.r.hosts[h].children == children
    }

    /** The bytes this supervisor has locked. */
    function Leases(): set<int>
      reads this, realm
    {
      LeasesOf(realm.r.locks, h)
    }

    ghost function At(): (pc: Pc)
      reads this, realm
      requires h in realm.r.hosts
    {
      realm.r.hosts[h].pc
    }

    constructor (h: HostId, realm: SharedRealm)
      requires realm.Valid() && h !in realm.r.hosts
      modifies realm
      ensures Valid() && this.h == h && this.realm == realm && children == map[] && At().Idle?
      ensures realm.r == Apply(old(realm.r), Join(h))
    {
      this.h, this.realm, this.children := h, realm, map[];
      new;
      realm.Act(Join(h));
    }

    /** What no operation undoes: moments that were seen and PIDs that were given. */
    twostate predicate Onward()
      reads this, realm
    {
      old(realm.history) <= realm.history && realm.nextPid >= old(realm.nextPid)
    }

    /** The supervisor only goes on to another point of its operation. */
    method Go(to: Pc)
      requires Valid() && Moves(realm.r, h, realm.r.hosts[h], to)
      modifies realm
      ensures Valid() && Onward() && realm.killed == old(realm.killed)
      ensures realm.r == old(realm.r).With(h, old(realm.r.hosts[h]).(pc := to))
      ensures At() == to && Leases() == old(Leases())
    {
      realm.Act(Move(h, to));
    }

    /** The others move; this moment is the latest of the history. */
    method Pause()
      requires Valid()
      modifies realm
      ensures Valid() && Undisturbed(old(realm.r), realm.r, h) && realm.killed == old(realm.killed)
      ensures Onward() && |old(realm.history)| < |realm.history|
      ensures At() == old(At()) && Leases() == old(Leases())
    {
      realm.Yield(h);
    }

    /** One turn of the allocation loop, at the moment `probe` after the others have moved. */
    method TryUid(key: Key, next: int) returns (taken: bool, ghost probe: nat)
      requires Valid() && At() == Allocating(key, next) && next < END_UID
      modifies realm
      ensures Valid() && Onward() && realm.killed == old(realm.killed)
      ensures |old(realm.history)| <= probe < |realm.history|
      ensures taken <==> Free(realm.history[probe], children, h, next)
      ensures taken ==> At() == Starting(key, next, true)
      ensures !taken ==> At() == Allocating(key, next + 1)
      ensures Leases() == old(Leases()) + if taken then {next} else {}
    {
      Pause();
      probe := |realm.history| - 1;
      taken := Free(realm.r, children, h, next);
      if taken {
        Take();
      } else {
        Go(Allocating(key, next + 1));
      }
    }

    method Take()
      requires Valid() && At().Allocating? && At().next < END_UID && Free(realm.r, children, h, At().next)
      modifies realm
      ensures Valid() && Onward() && realm.killed == old(realm.killed)
      ensures At() == Starting(old(At().key), old(At().next), true)
      ensures Leases() == old(Leases()) + {old(At().next)}
    {
      realm.Act(TakeUid(h));
    }

    /** The lowest UID that no child carries and whose byte the kernel grants. */
    method AllocateUid(key: Key) returns (uid: Option<int>, ghost probes: seq<nat>)
      requires Valid() && At() == Allocating(key, FIRST_UID)
      modifies realm
      ensures Valid() && Onward() && realm.killed == old(realm.killed)
      ensures Probing(realm.history, |old(realm.history)|, probes)
      ensures uid.None? ==> |probes| == 1000 && Refused(realm.history, children, h, probes, 1000)
      ensures uid.Some? ==>
                && 0 < |probes| <= 1000 && uid.value == 99000 + |probes| - 1
                && Refused(realm.history, children, h, probes, |probes| - 1)
                && Free(realm.history[probes[|probes| - 1]], children, h, uid.value)
      ensures uid.Some? ==> InRange(uid.value) && At() == Starting(key, uid.value, true)
      ensures uid.None? ==> At() == Allocating(key, END_UID)
      ensures Leases() == old(Leases()) + if uid.Some? then {uid.value} else {}
    {
      var next := FIRST_UID;
      probes := [];
      while next < END_UID
        invariant FIRST_UID <= next <= END_UID && |probes| == next - FIRST_UID
        invariant Valid() && Onward() && At() == Allocating(key, next) && realm.killed == old(realm.killed)
        invariant Probing(realm.history, |old(realm.history)|, probes)
        invariant Refused(realm.history, children, h, probes, |probes|)
        invariant Leases() == old(Leases())
      {
        ghost var probe, before := 0, realm.history;
        var taken;
        taken, probe := TryUid(key, next);
        LaterHistory(before, realm.history, children, h, probes);
        AnotherProbe(realm.history, |old(realm.history)|, |before|, probes, probe, children, h);
        probes := probes + [probe];
        if taken {
          return Some(next), probes;
        }
        next := next + 1;
      }
      uid := None;
    }

    /** A failed spawn leaves the table alone; a successful one adds exactly the requested child. */
    ghost predicate Spawned(before: map<Key, Child>, request: Request, result: Result<(nat, int), SpawnError>)
      reads this, realm
    {
      match result
      case Failure(_) => children == before
      case Success((pid, uid)) =>
        && h in realm.r.hosts
        && request.key !in before && |before| < MAX_CHILDREN
        && children == before[request.key := Child(pid, uid, request.isolated)]
        && pid in realm.r.processes
        && (if request.isolated then InRange(uid) && uid in Leases() && (forall k | k in before :: before[k].uid != uid)
            else ValidUid(request.uid) && uid == request.uid.value)
    }

    /** The first half of `spawn`, under the mutex: the checks and the choice of the UID. `entry` is the moment
    of the first check; each refusal is given exactly when its reason holds. */
    method Reserve(request: Request) returns (refusal: Option<SpawnError>, ghost entry: nat, ghost probes: seq<nat>)
      requires Valid() && At().Idle?
      modifies realm
      ensures Valid() && Onward() && realm.killed == old(realm.killed)
      ensures refusal.None? ==> At().Starting? && At().key == request.key && At().isolated == request.isolated
      ensures refusal.Some? ==> At().Idle? && Leases() == old(Leases())
      ensures refusal.None? ==> Leases() == old(Leases()) + if request.isolated then {At().uid} else {}
      ensures Admission(realm.history, |old(realm.history)|, children, h, old(realm.r.hosts[h].stopped),
                        request, refusal, entry, probes)
      ensures refusal.None? ==> At().uid == ChosenUid(request, probes)
    {
      Pause();
      entry := |realm.history| - 1;
      refusal, probes := Choose(request);
    }

    method Choose(request: Request) returns (refusal: Option<SpawnError>, ghost probes: seq<nat>)
      requires Valid() && At().Idle?
      modifies realm
      ensures Valid() && Onward() && realm.killed == old(realm.killed)
      ensures refusal.None? ==> At() == Starting(request.key, ChosenUid(request, probes), request.isolated)
      ensures refusal.Some? ==> At().Idle? && Leases() == old(Leases())
      ensures refusal.None? ==>
                Leases() == old(Leases()) + if request.isolated then {ChosenUid(request, probes)} else {}
      ensures Probing(realm.history, |old(realm.history)|, probes)
      ensures Decided(realm.history, children, h, request, refusal, old(realm.r.hosts[h].stopped), probes)
    {
      probes := [];
      if realm.r.hosts[h].stopped || |children| >= MAX_CHILDREN { return Some(LimitReached), probes; }
      if request.key in children { return Some(KeyExists), probes; }
      refusal, probes := ChooseUid(request);
      InOrderDecided(realm.history, children, h, request, refusal, old(realm.r.hosts[h].stopped), probes);
    }

    /** The UID, once the child may be started: allocated for an isolated one, and checked for a service. */
    method ChooseUid(request: Request) returns (refusal: Option<SpawnError>, ghost probes: seq<nat>)
      requires Valid() && At().Idle? && MaySpawn(realm.r.hosts[h], request.key)
      modifies realm
      ensures Valid() && Onward() && realm.killed == old(realm.killed)
      ensures refusal.None? ==> At() == Starting(request.key, ChosenUid(request, probes), request.isolated)
      ensures refusal.Some? ==> At().Idle? && Leases() == old(Leases())
      ensures refusal.None? ==>
                Leases() == old(Leases()) + if request.isolated then {ChosenUid(request, probes)} else {}
      ensures Probing(realm.history, |old(realm.history)|, probes)
      ensures if request.isolated then
                (refusal.None? && OneFound(realm.history, children, h, probes))
                || (refusal == Some(OutOfUids) && |probes| == 1000
                    && Refused(realm.history, children, h, probes, 1000))
              else if request.uid.Some? && 10000 <= request.uid.value <= 19999 then refusal.None?
              else refusal == Some(InvalidUid)
    {
      if !request.isolated {
        var valid := ReserveService(request.key, request.uid);
        return if valid then None else Some(InvalidUid), [];
      }
      var found;
      found, probes := ReserveIsolated(request.key);
      refusal := if found then None else Some(OutOfUids);
    }

    method ReserveService(key: Key, uid: Option<int>) returns (valid: bool)
      requires Valid() && At().Idle? && MaySpawn(realm.r.hosts[h], key)
      modifies realm
      ensures Valid() && Onward() && realm.killed == old(realm.killed) && Leases() == old(Leases())
      ensures valid <==> uid.Some? && 10000 <= uid.value <= 19999
      ensures if valid then At() == Starting(key, uid.value, false) else At().Idle?
    {
      valid := ValidUid(uid);
      if valid {
        Go(Starting(key, uid.value, false));
      }
    }

    method ReserveIsolated(key: Key) returns (found: bool, ghost probes: seq<nat>)
      requires Valid() && At().Idle? && MaySpawn(realm.r.hosts[h], key)
      modifies realm
      ensures Valid() && Onward() && realm.killed == old(realm.killed)
      ensures Probing(realm.history, |old(realm.history)|, probes)
      ensures if found then OneFound(realm.history, children, h, probes)
              else |probes| == 1000 && Refused(realm.history, children, h, probes, 1000)
      ensures found ==> At() == Starting(key, 99000 + |probes| - 1, true)
      ensures !found ==> At().Idle?
      ensures Leases() == old(Leases()) + if found then {99000 + |probes| - 1} else {}
    {
      Go(Allocating(key, FIRST_UID));
      var uid;
      uid, probes := AllocateUid(key);
      found := uid.Some?;
      if !found {
        ghost var before := realm.history;
        Go(Idle);
        LaterHistory(before, realm.history, children, h, probes);
      }
    }

    /** `spawn`, which finds the mutex free and holds it throughout. Each error is given exactly when its reason
    holds, in the order of the checks, and so the child is started exactly when none does. */
    method Spawn(request: Request, fault: Fault)
      returns (result: Result<(nat, int), SpawnError>, ghost entry: nat, ghost probes: seq<nat>)
      requires Valid() && At().Idle?
      modifies this, realm
      ensures Valid() && At().Idle? && Onward() && realm.killed == old(realm.killed)
      ensures Spawned(old(children), request, result)
      ensures result == Failure(InvalidKey) <==>
              !(|request.key| == 32 && forall c | c in request.key :: c in "0123456789abcdef")
      ensures result == Failure(InvalidController) <==>
              result != Failure(InvalidKey)
              && !("asgard.process." <= request.controller && |request.controller| <= 96)
      ensures result != Failure(InvalidKey) && result != Failure(InvalidController) ==>
                Answered(old(realm.history), old(children), old(realm.r.hosts[h].stopped), request, fault,
                         result, entry, probes)
      ensures result.Success? ==> result.value.0 >= old(realm.nextPid)
      // bytes: only a failed start may keep the one it took
      ensures result.Success? ==> Leases() == old(Leases()) + if request.isolated then {result.value.1} else {}
      ensures result.Failure? && !result.error.StartFailed? ==> Leases() <= old(Leases())
      ensures result.Failure? && !result.error.LaunchFailed? ==> old(Leases()) <= Leases()
    {
      entry, probes := 0, [];
      KeyCharacters(request.key);
      if !ValidKey(request.key) { return Failure(InvalidKey), entry, probes; }
      if !ValidController(request.controller) { return Failure(InvalidController), entry, probes; }
      result, entry, probes := SpawnValid(request, fault);
    }

    /** How a request with a valid key and controller is answered: what was decided at `entry` and by the `probes`,
    for the table as it was before, and then what the host system did. */
    ghost predicate Answered(before: seq<State>, table: map<Key, Child>, stopped: bool, request: Request, fault: Fault,
                             result: Result<(nat, int), SpawnError>, entry: nat, probes: seq<nat>)
      reads this, realm
    {
      && Admission(realm.history, |before|, table, h, stopped, request, RefusalOf(result), entry, probes)
      && (result == Failure(StartFailed) ==> fault.StartFault?)
      && (result == Failure(LaunchFailed) ==> fault.LaunchFault?)
      && (result.Success? ==> fault.NoFault? && result.value.1 == ChosenUid(request, probes))
    }

    method SpawnValid(request: Request, fault: Fault)
      returns (result: Result<(nat, int), SpawnError>, ghost entry: nat, ghost probes: seq<nat>)
      requires Valid() && At().Idle?
      modifies this, realm
      ensures Valid() && At().Idle? && Onward() && realm.killed == old(realm.killed)
      ensures Spawned(old(children), request, result)
      ensures result != Failure(InvalidKey) && result != Failure(InvalidController)
      ensures Answered(old(realm.history), old(children), old(realm.r.hosts[h].stopped), request, fault,
                       result, entry, probes)
      ensures result.Success? ==> result.value.0 >= old(realm.nextPid)
      ensures result.Success? ==> Leases() == old(Leases()) + if request.isolated then {result.value.1} else {}
      ensures result.Failure? && !result.error.StartFailed? ==> Leases() <= old(Leases())
      ensures result.Failure? && !result.error.LaunchFailed? ==> old(Leases()) <= Leases()
    {
      var refusal;
      refusal, entry, probes := Reserve(request);
      if refusal.Some? { return Failure(refusal.value), entry, probes; }
      result := StartAdmitted(request, fault, |old(realm.history)|, old(realm.r.hosts[h].stopped), entry, probes);
    }

    /** The start of a child that was admitted; what was decided before stays as it is in the longer history. */
    method StartAdmitted(request: Request, fault: Fault, ghost from: nat, ghost stopped: bool, ghost entry: nat,
                         ghost probes: seq<nat>)
      returns (result: Result<(nat, int), SpawnError>)
      requires Valid() && At().Starting? && At().key == request.key && At().isolated == request.isolated
      requires At().uid == ChosenUid(request, probes)
      requires Admission(realm.history, from, children, h, stopped, request, None, entry, probes)
      modifies this, realm
      ensures Valid() && At().Idle? && Onward() && realm.killed == old(realm.killed)
      ensures Spawned(old(children), request, result)
      ensures Admission(realm.history, from, old(children), h, stopped, request, None, entry, probes)
      ensures result.Success? ==> result.value.0 >= old(realm.nextPid) && fault.NoFault?
                                  && result.value.1 == ChosenUid(request, probes)
      ensures result.Failure? ==> result.error == (if fault.StartFault? then StartFailed else LaunchFailed)
                                  && !fault.NoFault?
      ensures Leases() == old(Leases()) - if fault.LaunchFault? && request.isolated then {old(At().uid)} else {}
    {
      ghost var before := realm.history;
      result := Start(request, fault);
      LaterAdmission(before, realm.history, from, old(children), h, stopped, request, None, entry, probes);
    }

    /** Popen raised: the byte of an isolated child goes back to the kernel. */
    method Unwind()
      requires Valid() && At().Starting?
      modifies realm
      ensures Valid() && At().Idle? && Onward() && realm.killed == old(realm.killed)
      ensures Leases() == old(Leases()) - if old(At().isolated) then {old(At().uid)} else {}
    {
      if realm.r.hosts[h].pc.isolated {
        Go(Unwinding(realm.r.hosts[h].pc.uid));
        GiveBack();
      } else {
        Go(Idle);
      }
    }

    method GiveBack()
      requires Valid() && At().Unwinding?
      modifies realm
      ensures Valid() && At().Idle? && Onward() && realm.killed == old(realm.killed)
      ensures Leases() == old(Leases()) - {old(At().uid)}
    {
      Pause();
      realm.Act(Unlock(h));
    }

    /** Popen succeeded: the child is started, then entered in the table. */
    method Enter(key: Key) returns (pid: nat)
      requires Valid() && At().Starting? && At().key == key
      modifies this, realm
      ensures Valid() && At().Idle? && Onward() && realm.killed == old(realm.killed)
      ensures pid == old(realm.nextPid) && pid in realm.r.processes
      ensures children == old(children)[key := Child(pid, old(At().uid), old(At().isolated))]
      ensures Leases() == old(Leases())
    {
      pid := realm.nextPid;
      realm.Act(Launch(h, pid));
      Pause();
      realm.Act(Register(h));
      children := realm.r.hosts[h].children;
    }

    /** The second half of `spawn`: log file, trace directories, Popen and registration. */
    method Start(request: Request, fault: Fault) returns (result: Result<(nat, int), SpawnError>)
      requires Valid() && At().Starting? && At().key == request.key && At().isolated == request.isolated
      requires !request.isolated ==> ValidUid(request.uid) && At().uid == request.uid.value
      modifies this, realm
      ensures Valid() && At().Idle? && Onward() && realm.killed == old(realm.killed)
      ensures Spawned(old(children), request, result)
      ensures result.Success? ==> result.value.0 >= old(realm.nextPid) && result.value.1 == old(At().uid)
                                  && fault.NoFault?
      ensures result.Failure? ==> result.error == (if fault.StartFault? then StartFailed else LaunchFailed)
                                  && !fault.NoFault?
      ensures Leases() == old(Leases()) - if fault.LaunchFault? && request.isolated then {old(At().uid)} else {}
    {
      StartingFits(realm.r, h);
      var uid := realm.r.hosts[h].pc.uid;
      Pause();
      match fault {
        case StartFault =>
          Go(Idle);
          result := Failure(StartFailed);
        case LaunchFault =>
          Unwind();
          result := Failure(LaunchFailed);
        case NoFault =>
          var pid := Enter(request.key);
          result := Result.Success((pid, uid));
      }
    }

    /** SIGKILL to the child's group, then a wait of five seconds; `dies` says whether it ends in time. */
    method Terminate(key: Key, dies: bool) returns (waited: bool)
      requires Valid() && key in children && children[key].pid in realm.r.processes
      modifies realm
      ensures Valid() && Undisturbed(old(realm.r), realm.r, h) && realm.nextPid >= old(realm.nextPid)
      ensures realm.killed <= old(realm.killed) + {children[key].pid}
      ensures waited <==> Dead(realm.r, children[key].pid)
      ensures dies || old(Dead(realm.r, children[key].pid)) ==> waited
    {
      Pause();
      var pid := children[key].pid;
      if realm.r.processes[pid].alive && dies {
        realm.Act(Exit(pid));
      }
      waited := !realm.r.processes[pid].alive;
    }

    /** The `stop` request. The entry stays in the table until `reap` finds the process gone. */
    method Stop(key: Key, dies: bool) returns (found: bool, waited: bool)
      requires Valid() && At().Idle?
      modifies realm
      ensures Valid() && At().Idle?
      ensures found <==> key in children
      ensures found ==> (waited <==> Dead(realm.r, children[key].pid))
      ensures realm.killed <= old(realm.killed) + if found then {children[key].pid} else {}
      ensures found && dies ==> waited
      ensures Leases() == old(Leases())
    {
      Pause();
      found, waited := key in children, false;
      if found {
        TableFits(realm.r, h, key);
        Go(Stopping(key));
        waited := Terminate(key, dies);
        Go(Idle);
      }
    }

    /** One entry of the table in `reap`: skipped while its process runs, otherwise its byte is given
    back and then the entry deleted. */
    method ReapOne(key: Key, ghost left: set<Key>)
      requires Valid() && At() == Reaping(left) && key in left && key in children
      modifies this, realm
      ensures Valid() && At() == Reaping(left - {key}) && Aged(old(realm.r), realm.r)
      ensures realm.killed == old(realm.killed)
      ensures key in children ==> children == old(children) && Leases() == old(Leases())
                                  && !old(Dead(realm.r, children[key].pid))
      ensures key !in children ==>
                && children == Without(old(children), key)
                && Dead(realm.r, old(children)[key].pid)
                && Leases() == old(Leases()) - if old(children)[key].isolated then {old(children)[key].uid} else {}
    {
      TableFits(realm.r, h, key);
      Pause();
      if realm.r.processes[children[key].pid].alive {
        Go(Reaping(realm.r.hosts[h].pc.left - {key}));
      } else {
        Collect(key, left);
      }
    }

    /** A dead child's byte is given back first, then its entry is deleted. */
    method Collect(key: Key, ghost left: set<Key>)
      requires Valid() && At() == Reaping(left) && key in left && key in children && Dead(realm.r, children[key].pid)
      modifies this, realm
      ensures Valid() && At() == Reaping(left - {key}) && Aged(old(realm.r), realm.r)
      ensures realm.killed == old(realm.killed)
      ensures children == Without(old(children), key) && Dead(realm.r, old(children)[key].pid)
      ensures Leases() == old(Leases()) - if old(children)[key].isolated then {old(children)[key].uid} else {}
    {
      realm.Act(ReapUnlock(h, key));
      DeleteEntry(key, left - {key});
    }

    method DeleteEntry(key: Key, ghost left: set<Key>)
      requires Valid() && At() == Deleting(key, left)
      modifies this, realm
      ensures Valid() && At() == Reaping(left) && Aged(old(realm.r), realm.r)
      ensures realm.killed == old(realm.killed)
      ensures children == Without(old(children), key) && Leases() == old(Leases())
    {
      Pause();
      DropEntry(key, left);
    }

    method DropEntry(key: Key, ghost left: set<Key>)
      requires Valid() && At() == Deleting(key, left)
      modifies this, realm
      ensures Valid() && At() == Reaping(left) && realm.killed == old(realm.killed)
      ensures realm.r.processes == old(realm.r.processes)
      ensures children == Without(old(children), key) && Leases() == old(Leases())
    {
      realm.Act(ReapDelete(h));
      children := realm.r.hosts[h].children;
    }

    /** `reap`: every child found dead leaves the table and its byte goes back to the kernel. */
    method Reap()
      requires Valid() && At().Idle?
      modifies this, realm
      ensures Valid() && At().Idle? && realm.killed == old(realm.killed)
      ensures forall k | k in children :: k in old(children) && children[k] == old(children)[k]
      ensures forall k | k in children :: !old(Dead(realm.r, children[k].pid))
      ensures forall k | k in old(children) && k !in children ::
                Dead(realm.r, old(children)[k].pid) && (old(children)[k].isolated ==> old(children)[k].uid !in Leases())
      ensures Leases() <= old(Leases())
    {
      if children == map[] { return; }
      NonemptyIsOpen(realm.r, h);
      Go(Reaping(children.Keys));
      var left := children.Keys;
      while left != {}
        invariant Valid() && At() == Reaping(left) && left <= children.Keys && Aged(old(realm.r), realm.r)
        invariant realm.killed == old(realm.killed)
        invariant forall k | k in children :: k in old(children) && children[k] == old(children)[k]
        invariant forall k | k in children && k !in left :: !old(Dead(realm.r, children[k].pid))
        invariant forall k | k in old(children) && k !in children ::
                    Dead(realm.r, old(children)[k].pid)
                    && (old(children)[k].isolated ==> old(children)[k].uid !in Leases())
        invariant Leases() <= old(Leases())
        decreases left
      {
        var key :| key in left;
        ReapOne(key, left);
        left := left - {key};
      }
      Go(Idle);
    }

    /** The loop of `close`: each child is killed and waited for. */
    method TerminateAll(hangs: set<Key>) returns (waited: bool)
      requires Valid() && At() == Closing(children.Keys)
      modifies realm
      ensures Valid() && realm.r.hosts[h] == old(realm.r.hosts[h]).(pc := At(), stopped := realm.r.hosts[h].stopped)
      ensures old(realm.r.hosts[h].stopped) ==> realm.r.hosts[h].stopped
      ensures Leases() == old(Leases())
      ensures if waited then At() == Closing({}) else At().Idle?
      ensures realm.killed <= old(realm.killed) + PidsOf(children)
      ensures !waited ==> exists k | k in hangs && k in children :: children[k].pid in realm.r.processes
                                                                    && !Dead(realm.r, children[k].pid)
    {
      var left := children.Keys;
      while left != {}
        invariant Valid() && At() == Closing(left) && left <= children.Keys
        invariant realm.r.hosts[h] == old(realm.r.hosts[h]).(pc := At(), stopped := realm.r.hosts[h].stopped)
        invariant old(realm.r.hosts[h].stopped) ==> realm.r.hosts[h].stopped
        invariant realm.killed <= old(realm.killed) + PidsOf(children)
        invariant Leases() == old(Leases())
        decreases left
      {
        var key :| key in left;
        TableFits(realm.r, h, key);
        waited := Terminate(key, key !in hangs);
        if !waited {
          Go(Idle);
          return;
        }
        Go(Closing(left - {key}));
        left := left - {key};
      }
      waited := true;
    }

    /** `close`, the first time it is called, once it has the mutex. `hangs` holds the children that
    outlive SIGKILL by more than five seconds: the first of them makes `close` raise. */
    method Close(hangs: set<Key>) returns (closed: bool)
      requires Valid() && At().Idle? && realm.r.hosts[h].phase.Open?
      modifies this, realm
      ensures Valid() && At().Idle? && realm.r.hosts[h].stopped
      ensures realm.killed <= old(realm.killed) + PidsOf(old(children))
      ensures !closed ==> exists k | k in hangs && k in children :: children[k].pid in realm.r.processes
                                                                    && !Dead(realm.r, children[k].pid)
      ensures closed ==> children == map[] && Leases() == {} && realm.r.hosts[h].phase.Released?
      ensures closed ==> forall pid | pid in realm.r.processes && realm.r.processes[pid].host == h :: Dead(realm.r, pid)
      ensures !closed ==> children == old(children) && Leases() == old(Leases()) && realm.r.hosts[h].phase.Open?
    {
      realm.Act(SetStopped(h));
      Pause();
      Go(Closing(children.Keys));
      closed := TerminateAll(hangs);
      if closed {
        Release();
      }
    }

    method Release()
      requires Valid() && At() == Closing({}) && realm.r.hosts[h].stopped
      modifies this, realm
      ensures Valid() && At().Idle? && realm.r.hosts[h].stopped && realm.r.hosts[h].phase.Released?
      ensures children == map[] && Leases() == {} && realm.killed == old(realm.killed)
      ensures forall pid | pid in realm.r.processes && realm.r.processes[pid].host == h :: Dead(realm.r, pid)
    {
      realm.Act(CloseClear(h));
      children := map[];
      Pause();
      realm.Act(CloseLeases(h));
      ReachableInv(realm.r);
      QuietHost(realm.r, h);
    }
  }
}
