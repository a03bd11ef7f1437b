/** One shared copy of the Google account files, and the app roots that import it when a session starts
and publish to it when one ends. Calls do not overlap; sessions of different roots may. */
module SharedAccounts {
  import opened Options

  /** The files that carry accounts, `IDENTITY` in the source. */
  datatype Name = Accounts | CheckIn | Services | AccountCache | SelectedAccount | Contacts

  const IDENTITY := [Accounts, CheckIn, Services, AccountCache, SelectedAccount, Contacts]

  lemma EveryName(n: Name)
    ensures n in IDENTITY
  {
    assert IDENTITY[0] == Accounts && IDENTITY[1] == CheckIn && IDENTITY[2] == Services && IDENTITY[3] == AccountCache
           && IDENTITY[4] == SelectedAccount && IDENTITY[5] == Contacts;
  }

  datatype Account = Account(name: string, kind: string, data: string)

  /** The contents of a file: an account store, or anything else. */
  datatype Content = Store(accounts: seq<Account>, revision: int) | Bytes(text: string)

  /** A content hash without collisions. */
  datatype Digest = Sha256(content: Content)

  type Files = map<Name, Content>
  type Stamp = map<Name, Option<Digest>>

  function StampOf(files: Files): Stamp {
    map n | n in IDENTITY :: if n in files then Some(Sha256(files[n])) else None
  }

  /** Stamps agree exactly when the files do, absent ones included. */
  lemma StampInjective(a: Files, b: Files)
    ensures StampOf(a) == StampOf(b) <==> a == b
  {
    if StampOf(a) == StampOf(b) {
      forall n: Name ensures (n in a <==> n in b) && (n in a ==> a[n] == b[n]) {
        EveryName(n);
        assert StampOf(a)[n] == StampOf(b)[n];
      }
    }
  }

  /** `target` after the first `n` files of the list were copied from `source`. */
  function Copied(source: Files, target: Files, n: nat): Files
    requires n <= |IDENTITY|
  {
    map x: Name | (x in IDENTITY[..n] && x in source) || (x !in IDENTITY[..n] && x in target) ::
      if x in IDENTITY[..n] then source[x] else target[x]
  }

  lemma CopiedAll(source: Files, target: Files)
    ensures Copied(source, target, |IDENTITY|) == source
    ensures Copied(source, target, 0) == target
  {
    assert IDENTITY[..|IDENTITY|] == IDENTITY;
    forall x: Name ensures x in IDENTITY[..|IDENTITY|] {
      EveryName(x);
    }
  }

  predicate SameAt(a: Files, b: Files, x: Name) {
    (x in a <==> x in b) && (x in a ==> a[x] == b[x])
  }

  lemma IdentityDistinct(i: nat, j: nat)
    requires i < |IDENTITY| && j < |IDENTITY| && i != j
    ensures IDENTITY[i] != IDENTITY[j]
  {
  }

  lemma CopiedAt(source: Files, target: Files, good: nat)
    requires good <= |IDENTITY|
    ensures forall n | 0 <= n < |IDENTITY| ::
              SameAt(Copied(source, target, good), if n < good then source else target, IDENTITY[n])
  {
    forall n | 0 <= n < |IDENTITY|
      ensures SameAt(Copied(source, target, good), if n < good then source else target, IDENTITY[n])
    {
      var x := IDENTITY[n];
      if n >= good {
        forall i | 0 <= i < good ensures IDENTITY[i] != x {
          IdentityDistinct(i, n);
        }
      } else {
        assert x == IDENTITY[..good][n];
      }
    }
  }

  /** An app root: its identity files, the stamp it last exchanged, and whether a session runs in it. */
  datatype Root = Root(files: Files, marker: Option<Stamp>, live: bool)

  predicate Synced(root: Root) {
    root.marker == Some(StampOf(root.files))
  }

  predicate ImportSkips(shared: Files, root: Root) {
    Accounts !in shared || root.marker == Some(StampOf(shared))
  }

  predicate PublishSkips(root: Root) {
    Synced(root) || Accounts !in root.files
  }

  function Imported(shared: Files, root: Root): Root {
    if ImportSkips(shared, root) then root else root.(files := shared, marker := Some(StampOf(shared)))
  }

  function PublishedCopy(shared: Files, root: Root): Files {
    if PublishSkips(root) then shared else root.files
  }

  function PublishedRoot(root: Root): Root {
    if PublishSkips(root) then root else root.(marker := Some(StampOf(root.files)))
  }

  /** The shared copy without an account; None when it has no such account or is not an account store. */
  function Removed(shared: Files, name: string, kind: string): Option<Files> {
    if Accounts in shared && shared[Accounts].Store? && HasAccount(shared[Accounts].accounts, name, kind) then
      Some(shared[Accounts := Store(Kept(shared[Accounts].accounts, name, kind), shared[Accounts].revision + 1)])
    else None
  }

  predicate HasAccount(accounts: seq<Account>, name: string, kind: string) {
    exists i | 0 <= i < |accounts| :: accounts[i].name == name && accounts[i].kind == kind
  }

  function Kept(accounts: seq<Account>, name: string, kind: string): seq<Account> {
    if accounts == [] then []
    else (if accounts[0].name == name && accounts[0].kind == kind then [] else [accounts[0]])
         + Kept(accounts[1..], name, kind)
  }

  lemma {:induction false} KeptDrops(accounts: seq<Account>, name: string, kind: string)
    ensures !HasAccount(Kept(accounts, name, kind), name, kind)
    ensures forall a | a in accounts && !(a.name == name && a.kind == kind) :: a in Kept(accounts, name, kind)
    ensures |Kept(accounts, name, kind)| <= |accounts|
    ensures |Kept(accounts, name, kind)| == |accounts| <==> !HasAccount(accounts, name, kind)
  {
    if accounts != [] {
      KeptDrops(accounts[1..], name, kind);
      assert accounts == [accounts[0]] + accounts[1..];
      if HasAccount(accounts[1..], name, kind) {
        var i :| 0 <= i < |accounts[1..]| && accounts[1..][i].name == name && accounts[1..][i].kind == kind;
        assert accounts[i + 1] == accounts[1..][i];
      }
    }
  }

  /** The accounts of `kept` are those of `all` but the ones of this name and kind, in the same order. */
  ghost predicate Without(kept: seq<Account>, all: seq<Account>, name: string, kind: string) {
    exists at: seq<nat> :: Picks(kept, all, at, name, kind)
  }

  /** `at` lists the places of the kept accounts, and only of accounts to keep. */
  predicate Picks(kept: seq<Account>, all: seq<Account>, at: seq<nat>, name: string, kind: string) {
    && |at| == |kept|
    && (forall i | 0 <= i < |at| :: at[i] < |all| && kept[i] == all[at[i]])
    && (forall i, j | 0 <= i < j < |at| :: at[i] < at[j])
    && (forall n | 0 <= n < |all| :: n in at <==> !(all[n].name == name && all[n].kind == kind))
  }

  lemma {:induction false} KeptLast(accounts: seq<Account>, last: Account, name: string, kind: string)
    ensures Kept(accounts + [last], name, kind)
            == Kept(accounts, name, kind) + if last.name == name && last.kind == kind then [] else [last]
  {
    var all := accounts + [last];
    if accounts == [] {
      assert all == [last] && all[1..] == [];
    } else {
      var rest := accounts[1..];
      KeptLast(rest, last, name, kind);
      assert all[0] == accounts[0] && all[1..] == rest + [last];
      var first := if accounts[0].name == name && accounts[0].kind == kind then [] else [accounts[0]];
      Regroup(first, Kept(rest, name, kind), if last.name == name && last.kind == kind then [] else [last]);
    }
  }

  lemma Regroup(a: seq<Account>, b: seq<Account>, c: seq<Account>)
    ensures a + (b + c) == (a + b) + c
  {
  }

  lemma PicksLast(kept: seq<Account>, all: seq<Account>, at: seq<nat>, name: string, kind: string, last: Account)
    requires Picks(kept, all, at, name, kind)
    ensures if last.name == name && last.kind == kind then Picks(kept, all + [last], at, name, kind)
            else Picks(kept + [last], all + [last], at + [|all|], name, kind)
  {
    var more := all + [last];
    assert more[|all|] == last && forall n | 0 <= n < |all| :: more[n] == all[n];
    assert |all| !in at;
  }

  lemma {:induction false} KeptPicks(accounts: seq<Account>, name: string, kind: string) returns (at: seq<nat>)
    ensures Picks(Kept(accounts, name, kind), accounts, at, name, kind)
    decreases |accounts|
  {
    at := [];
    if accounts != [] {
      var all, last := accounts[..|accounts| - 1], accounts[|accounts| - 1];
      assert accounts == all + [last];
      at := KeptPicks(all, name, kind);
      KeptLast(all, last, name, kind);
      PicksLast(Kept(all, name, kind), all, at, name, kind, last);
      assert Kept(all, name, kind) + [] == Kept(all, name, kind);
      at := if last.name == name && last.kind == kind then at else at + [|all|];
    }
  }

  /** Whether a root can see an account. */
  predicate Sees(files: Files, name: string, kind: string) {
    Accounts in files && files[Accounts].Store? && HasAccount(files[Accounts].accounts, name, kind)
  }

  // ------------------------------------------------------------------ interrupted exchanges

  /** An import that raises after some copies does not write the marker. Whatever the shared copy is at the
  next import, that one leaves what it would have left without the raise, exactly when it copies or when
  the raise had changed nothing. */
  lemma InterruptedImport(shared: Files, root: Root, n: nat, later: Files)
    requires !ImportSkips(shared, root) && n <= |IDENTITY|
    ensures var torn := root.(files := Copied(shared, root.files, n));
            Imported(later, torn) == Imported(later, root) <==> !ImportSkips(later, root) || torn == root
  {
  }

  /** A publish that raises part way is made good by publishing again from the unchanged root. */
  lemma InterruptedPublish(shared: Files, root: Root, n: nat)
    requires !PublishSkips(root) && n <= |IDENTITY|
    ensures PublishedCopy(Copied(root.files, shared, n), root) == PublishedCopy(shared, root)
  {
  }

  // ------------------------------------------------------------------ runs

  type RootId = nat

  datatype State = State(shared: Files, roots: map<RootId, Root>)

  /** A launch is `Import` and `Begin`, the end of a session `Publish` and `End`. A session's relay may also
  import while it runs, and one that answers an Activity request publishes before it ends. */
  datatype Step =
    | Install(r: RootId, files: Files)
    | Rebuild(r: RootId)                          // the marker is not among the files a rebuild retains
    | Import(r: RootId)
    | ImportRaises(r: RootId, n: nat)             // after `n` files
    | Begin(r: RootId)
    | Edit(r: RootId, file: Name, content: Option<Content>)
    | Publish(r: RootId)
    | PublishRaises(r: RootId, n: nat)
    | End(r: RootId)
    | Remove(name: string, kind: string)

  predicate Enabled(s: State, e: Step) {
    match e
    case Install(r, _) => r !in s.roots
    case Remove(name, kind) => Removed(s.shared, name, kind).Some?
    case Rebuild(r) => r in s.roots && !s.roots[r].live
    case Import(r) => r in s.roots
    case ImportRaises(r, n) => r in s.roots && !ImportSkips(s.shared, s.roots[r]) && n <= |IDENTITY|
    case Begin(r) => r in s.roots && !s.roots[r].live
    case Edit(r, _, _) => r in s.roots && s.roots[r].live
    case Publish(r) => r in s.roots && s.roots[r].live
    case PublishRaises(r, n) => r in s.roots && s.roots[r].live && !PublishSkips(s.roots[r]) && n <= |IDENTITY|
    case End(r) => r in s.roots && s.roots[r].live
  }

  function Apply(s: State, e: Step): State
    requires Enabled(s, e)
  {
    match e
    case Install(r, files) => s.(roots := s.roots[r := Root(files, None, false)])
    case Remove(name, kind) => s.(shared := Removed(s.shared, name, kind).value)
    case Rebuild(r) => s.(roots := s.roots[r := s.roots[r].(marker := None)])
    case Import(r) => s.(roots := s.roots[r := Imported(s.shared, s.roots[r])])
    case ImportRaises(r, n) =>
      s.(roots := s.roots[r := s.roots[r].(files := Copied(s.shared, s.roots[r].files, n))])
    case Begin(r) => s.(roots := s.roots[r := s.roots[r].(live := true)])
    case Edit(r, file, content) =>
      var files := if content.Some? then s.roots[r].files[file := content.value] else s.roots[r].files - {file};
      s.(roots := s.roots[r := s.roots[r].(files := files)])
    case Publish(r) => State(PublishedCopy(s.shared, s.roots[r]), s.roots[r := PublishedRoot(s.roots[r])])
    case PublishRaises(r, n) => s.(shared := Copied(s.roots[r].files, s.shared, n))
    case End(r) => s.(roots := s.roots[r := s.roots[r].(live := false)])
  }

  predicate Run(states: seq<State>, steps: seq<Step>) {
    && |states| == |steps| + 1
    && states[0] == State(map[], map[])
    && forall i | 0 <= i < |steps| :: Enabled(states[i], steps[i]) && states[i + 1] == Apply(states[i], steps[i])
  }

  // ------------------------------------------------------------------ exchanges

  /** An import that copies or a publish that writes. */
  predicate Exchanges(s: State, e: Step, r: RootId) {
    r in s.roots && ((e == Import(r) && !ImportSkips(s.shared, s.roots[r]))
                    || (e == Publish(r) && !PublishSkips(s.roots[r])))
  }

  /** Step `n` is the exchange that the marker of root `r` is from, in state `j`. */
  predicate LastExchange(states: seq<State>, steps: seq<Step>, r: RootId, n: nat, j: nat)
    requires |states| == |steps| + 1
  {
    n < j <= |steps| && Exchanges(states[n], steps[n], r)
    && forall k | n < k < j :: !Exchanges(states[k], steps[k], r) && steps[k] != Rebuild(r)
  }

  /** Either exchange settles its root. */
  lemma ExchangeSettles(s: State, e: Step, r: RootId)
    requires Enabled(s, e) && Exchanges(s, e, r)
    ensures r in Apply(s, e).roots && Synced(Apply(s, e).roots[r]) && Apply(s, e).roots[r].files == Apply(s, e).shared
  {
  }

  /** Only an exchange and a rebuild change a marker. */
  lemma StepKeepsMarker(s: State, e: Step, r: RootId)
    requires Enabled(s, e) && r in s.roots && !Exchanges(s, e, r) && e != Rebuild(r)
    ensures r in Apply(s, e).roots && Apply(s, e).roots[r].marker == s.roots[r].marker
  {
  }

  /** Over every run, a root's marker is the stamp of the account files, its own and the shared ones, as its
  last exchange left them; without an exchange since its installation or rebuild it has none. */
  lemma {:induction false} MarkerIsLastExchange(states: seq<State>, steps: seq<Step>, r: RootId, j: nat)
    requires Run(states, steps) && j <= |steps| && r in states[j].roots
    ensures states[j].roots[r].marker.Some? <==> exists n: nat :: LastExchange(states, steps, r, n, j)
    ensures forall n: nat | LastExchange(states, steps, r, n, j) ::
              && r in states[n + 1].roots && states[n + 1].roots[r].files == states[n + 1].shared
              && states[j].roots[r].marker == Some(StampOf(states[n + 1].shared))
  {
    if j > 0 {
      var m := j - 1;
      var e := steps[m];
      assert states[j] == Apply(states[m], e) && Enabled(states[m], e);
      if Exchanges(states[m], e, r) {
        ExchangeSettles(states[m], e, r);
        assert LastExchange(states, steps, r, m, j);
      } else if e != Rebuild(r) && r in states[m].roots {
        MarkerIsLastExchange(states, steps, r, m);
        StepKeepsMarker(states[m], e, r);
        SameLastExchange(states, steps, r, m, j);
      } else if r !in states[m].roots {
        NoExchangeYet(states, steps, r, m);
      }
    }
  }

  lemma SameLastExchange(states: seq<State>, steps: seq<Step>, r: RootId, m: nat, j: nat)
    requires |states| == |steps| + 1 && m < |steps| && !Exchanges(states[m], steps[m], r) && steps[m] != Rebuild(r)
    requires j == m + 1
    ensures forall n: nat :: LastExchange(states, steps, r, n, j) <==> LastExchange(states, steps, r, n, m)
  {
  }

  lemma {:induction false} NoExchangeYet(states: seq<State>, steps: seq<Step>, r: RootId, j: nat)
    requires Run(states, steps) && j <= |steps| && r !in states[j].roots
    ensures forall n: nat | n < j :: r !in states[n].roots
  {
    if j > 0 {
      assert states[j] == Apply(states[j - 1], steps[j - 1]);
      NoExchangeYet(states, steps, r, j - 1);
    }
  }

  /** An exchange leaves nothing to exchange: a publish or an import right after it changes nothing. */
  lemma ExchangeTwice(states: seq<State>, steps: seq<Step>, i: nat, r: RootId)
    requires Run(states, steps) && i + 1 < |steps| && Exchanges(states[i], steps[i], r)
    requires steps[i + 1] == Import(r) || steps[i + 1] == Publish(r)
    ensures states[i + 2] == states[i + 1]
  {
    ExchangeSettles(states[i], steps[i], r);
    assert states[i + 2] == Apply(states[i + 1], steps[i + 1]);
  }

  /** The steps after which a root may no longer agree with its marker. */
  predicate Unsettles(e: Step, r: RootId) {
    (e.Edit? || e.Rebuild? || e.ImportRaises?) && e.r == r
  }

  lemma StepKeepsSynced(s: State, e: Step, r: RootId)
    requires Enabled(s, e) && r in s.roots && Synced(s.roots[r]) && !Unsettles(e, r)
    ensures r in Apply(s, e).roots && Synced(Apply(s, e).roots[r])
  {
  }

  lemma {:induction false} SettledStays(states: seq<State>, steps: seq<Step>, i: nat, j: nat, r: RootId)
    requires Run(states, steps) && i <= j < |states|
    requires r in states[i].roots && Synced(states[i].roots[r])
    requires forall n | i <= n < j :: !Unsettles(steps[n], r)
    ensures r in states[j].roots && Synced(states[j].roots[r])
  {
    if i < j {
      SettledStays(states, steps, i, j - 1, r);
      StepKeepsSynced(states[j - 1], steps[j - 1], r);
    }
  }

  /** A root that exchanged at step `i` and whose account files nobody touched since does not alter the
  shared copy when it publishes, whatever other roots published in the meantime. */
  lemma UnchangedNeverPublishes(states: seq<State>, steps: seq<Step>, i: nat, j: nat)
    requires Run(states, steps) && i < j < |steps| && steps[j].Publish? && Exchanges(states[i], steps[i], steps[j].r)
    requires forall n | i < n < j :: !Unsettles(steps[n], steps[j].r)
    ensures states[j + 1].shared == states[j].shared
  {
    ExchangeSettles(states[i], steps[i], steps[j].r);
    SettledStays(states, steps, i + 1, j, steps[j].r);
  }

  // ------------------------------------------------------------------ convergence

  /** Over every run, an import leaves the root with exactly the shared account files, unless the shared copy
  is again what it was at the root's last exchange while the root's files are not. */
  lemma ImportAgreesIff(states: seq<State>, steps: seq<Step>, j: nat, r: RootId)
    requires Run(states, steps) && j < |steps| && steps[j] == Import(r) && Accounts in states[j].shared
    ensures states[j + 1].roots[r].files == states[j].shared <==>
            !exists n: nat :: LastExchange(states, steps, r, n, j) && states[n + 1].shared == states[j].shared
                              && states[j].roots[r].files != states[n + 1].shared
  {
    var root := states[j].roots[r];
    assert states[j + 1] == Apply(states[j], steps[j]);
    MarkerIsLastExchange(states, steps, r, j);
    if root.marker.Some? {
      var n: nat :| LastExchange(states, steps, r, n, j);
      StampInjective(states[n + 1].shared, states[j].shared);
      forall m: nat | LastExchange(states, steps, r, m, j) ensures m == n {
        OneLastExchange(states, steps, r, n, m, j);
      }
    }
  }

  lemma OneLastExchange(states: seq<State>, steps: seq<Step>, r: RootId, n: nat, m: nat, j: nat)
    requires |states| == |steps| + 1
    requires LastExchange(states, steps, r, n, j) && LastExchange(states, steps, r, m, j)
    ensures m == n
  {
  }

  /** Over every run: while the shared copy is as `remove` left it, a root still sees the removed account
  after an import exactly when it saw it before and its last exchange was of this same copy. */
  lemma RemovedUnlessSkipped(states: seq<State>, steps: seq<Step>, i: nat, j: nat, r: RootId)
    requires Run(states, steps) && i < j < |steps| && steps[i].Remove? && steps[j] == Import(r)
    requires states[j].shared == states[i + 1].shared
    ensures Sees(states[j + 1].roots[r].files, steps[i].name, steps[i].kind) <==>
            Sees(states[j].roots[r].files, steps[i].name, steps[i].kind)
            && exists n: nat :: LastExchange(states, steps, r, n, j) && states[n + 1].shared == states[j].shared
  {
    RemoveRemoves(states[i], steps[i]);
    assert states[i + 1] == Apply(states[i], steps[i]) && states[j + 1] == Apply(states[j], steps[j]);
    MarkerIsLastExchange(states, steps, r, j);
    if n: nat :| LastExchange(states, steps, r, n, j) {
      StampInjective(states[n + 1].shared, states[j].shared);
      forall m: nat | LastExchange(states, steps, r, m, j) ensures m == n {
        OneLastExchange(states, steps, r, n, m, j);
      }
    }
  }

  lemma RemoveRemoves(s: State, e: Step)
    requires Enabled(s, e) && e.Remove?
    ensures Accounts in Apply(s, e).shared && !Sees(Apply(s, e).shared, e.name, e.kind)
  {
    KeptDrops(s.shared[Accounts].accounts, e.name, e.kind);
  }

  /** Runs in which no session ends with anything left to publish: each ends with a publish that completes,
  or has published since it last changed its account files. Imports may raise. */
  predicate Orderly(states: seq<State>, steps: seq<Step>)
    requires Run(states, steps)
  {
    forall i | 0 <= i < |steps| && steps[i].End? :: PublishSkips(states[i].roots[steps[i].r])
  }

  /** Step `k`, an import into the idle root `r` that raised, is what the root's account store comes from. */
  predicate Torn(states: seq<State>, steps: seq<Step>, r: RootId, k: nat, j: nat)
    requires |states| == |steps| + 1
  {
    && k < j <= |steps| && r in states[k].roots && !states[k].roots[r].live
    && CopiesStore(steps[k], r)
    && forall l | k < l < j :: steps[l] != Begin(r) && !CopiesStore(steps[l], r) && !Exchanges(states[l], steps[l], r)
  }

  predicate CopiesStore(e: Step, r: RootId) {
    e.ImportRaises? && e.r == r && e.n > 0
  }

  lemma TornExtends(states: seq<State>, steps: seq<Step>, r: RootId, k: nat, m: nat, j: nat)
    requires |states| == |steps| + 1 && Torn(states, steps, r, k, m) && m < |steps| && j == m + 1
    requires steps[m] != Begin(r) && !CopiesStore(steps[m], r) && !Exchanges(states[m], steps[m], r)
    ensures Torn(states, steps, r, k, j)
  {
  }

  lemma TornStoreOne(s: State, e: Step, r: RootId)
    requires Enabled(s, e) && CopiesStore(e, r)
    ensures Accounts in s.shared && Accounts in Apply(s, e).roots[r].files
    ensures Apply(s, e).roots[r].files[Accounts] == s.shared[Accounts]
  {
    assert IDENTITY[..e.n][0] == Accounts;
  }

  lemma IdleKeepsFiles(s: State, e: Step, r: RootId)
    requires Enabled(s, e) && r in s.roots && !s.roots[r].live
    requires e != Begin(r) && !CopiesStore(e, r) && !Exchanges(s, e, r)
    ensures r in Apply(s, e).roots && !Apply(s, e).roots[r].live && Apply(s, e).roots[r].files == s.roots[r].files
  {
    if e.ImportRaises? && e.r == r {
      CopiedAll(s.shared, s.roots[r].files);
    }
  }

  /** So the root's store is the one that this import read. */
  lemma {:induction false} TornStore(states: seq<State>, steps: seq<Step>, r: RootId, k: nat, j: nat)
    requires Run(states, steps) && Torn(states, steps, r, k, j)
    ensures r in states[j].roots && !states[j].roots[r].live && Accounts in states[k].shared
    ensures Accounts in states[j].roots[r].files && states[j].roots[r].files[Accounts] == states[k].shared[Accounts]
  {
    var m := j - 1;
    assert Enabled(states[m], steps[m]) && states[j] == Apply(states[m], steps[m]);
    if k == m {
      TornStoreOne(states[m], steps[m], r);
    } else {
      TornStore(states, steps, r, k, m);
      IdleKeepsFiles(states[m], steps[m], r);
    }
  }

  /** In an orderly run an idle root agrees with its marker, unless it has no account store or its store comes
  from an import that raised. */
  lemma {:induction false} UnsettledIsTorn(states: seq<State>, steps: seq<Step>, j: nat, r: RootId)
    requires Run(states, steps) && Orderly(states, steps) && j <= |steps|
    requires r in states[j].roots && !states[j].roots[r].live && states[j].roots[r].marker.Some?
    requires Accounts in states[j].roots[r].files && !Synced(states[j].roots[r])
    ensures exists k: nat :: Torn(states, steps, r, k, j)
  {
    var m := j - 1;
    var e := steps[m];
    assert Enabled(states[m], e) && states[j] == Apply(states[m], e);
    if CopiesStore(e, r) {
      assert Torn(states, steps, r, m, j);
    } else {
      UnsettledBefore(states[m], e, r);
      UnsettledIsTorn(states, steps, m, r);
      var k: nat :| Torn(states, steps, r, k, m);
      TornExtends(states, steps, r, k, m, j);
    }
  }

  lemma UnsettledBefore(s: State, e: Step, r: RootId)
    requires Enabled(s, e) && !CopiesStore(e, r) && (e.End? ==> PublishSkips(s.roots[e.r]))
    requires var t := Apply(s, e);
             r in t.roots && !t.roots[r].live && t.roots[r].marker.Some?
             && Accounts in t.roots[r].files && !Synced(t.roots[r])
    ensures r in s.roots && s.roots[r] == Apply(s, e).roots[r] && e != Begin(r) && !Exchanges(s, e, r)
  {
    if e.ImportRaises? && e.r == r {
      CopiedAll(s.shared, s.roots[r].files);
    }
  }

  lemma SeenIsTorn(states: seq<State>, steps: seq<Step>, i: nat, j: nat, r: RootId)
    requires Run(states, steps) && Orderly(states, steps) && i < j < |steps| && steps[i].Remove?
    requires r in states[j].roots && !states[j].roots[r].live && states[j].shared == states[i + 1].shared
    requires Sees(states[j].roots[r].files, steps[i].name, steps[i].kind)
    requires exists n: nat :: LastExchange(states, steps, r, n, j) && states[n + 1].shared == states[j].shared
    ensures exists n: nat, k: nat :: LastExchange(states, steps, r, n, j) && states[n + 1].shared == states[j].shared
                                     && n < k && Torn(states, steps, r, k, j)
                                     && Sees(states[k].shared, steps[i].name, steps[i].kind)
  {
    var n: nat :| LastExchange(states, steps, r, n, j) && states[n + 1].shared == states[j].shared;
    RemoveRemoves(states[i], steps[i]);
    MarkerIsLastExchange(states, steps, r, j);
    StampInjective(states[j].roots[r].files, states[j].shared);
    UnsettledIsTorn(states, steps, j, r);
    var k: nat :| Torn(states, steps, r, k, j);
    TornStore(states, steps, r, k, j);
    assert n < k && Sees(states[k].shared, steps[i].name, steps[i].kind);
  }

  /** After `remove` took an account from the shared copy, and while nothing changes that copy, the next import
  into an idle root of an orderly run leaves the root with the account exactly when its last exchange was of
  this same copy and its store then came from an import that raised, of a copy that had the account. */
  lemma RemovedUnlessTorn(states: seq<State>, steps: seq<Step>, i: nat, j: nat, r: RootId)
    requires Run(states, steps) && Orderly(states, steps) && i < j < |steps| && steps[i].Remove?
    requires steps[j] == Import(r) && !states[j].roots[r].live && states[j].shared == states[i + 1].shared
    ensures Sees(states[j + 1].roots[r].files, steps[i].name, steps[i].kind) <==>
            exists n: nat, k: nat :: LastExchange(states, steps, r, n, j) && states[n + 1].shared == states[j].shared
                                     && n < k && Torn(states, steps, r, k, j)
                                     && Sees(states[k].shared, steps[i].name, steps[i].kind)
  {
    RemovedUnlessSkipped(states, steps, i, j, r);
    if Sees(states[j + 1].roots[r].files, steps[i].name, steps[i].kind) {
      SeenIsTorn(states, steps, i, j, r);
    }
    if n: nat, k: nat :| LastExchange(states, steps, r, n, j) && states[n + 1].shared == states[j].shared
                         && n < k && Torn(states, steps, r, k, j)
                         && Sees(states[k].shared, steps[i].name, steps[i].kind) {
      TornStore(states, steps, r, k, j);
    }
  }

  /** No import into `r` raised since its last exchange. */
  predicate Unraised(states: seq<State>, steps: seq<Step>, r: RootId, j: nat)
    requires |states| == |steps| + 1
  {
    forall n: nat, k | LastExchange(states, steps, r, n, j) && n < k < j :: !(steps[k].ImportRaises? && steps[k].r == r)
  }

  /** So a root into which no import raised since its last exchange always drops the account, and, unless
  it has lost its store, has exactly the shared files afterwards. */
  lemma RemovedEverywhere(states: seq<State>, steps: seq<Step>, i: nat, j: nat, r: RootId)
    requires Run(states, steps) && Orderly(states, steps) && i < j < |steps| && steps[i].Remove?
    requires steps[j] == Import(r) && !states[j].roots[r].live && states[j].shared == states[i + 1].shared
    requires Unraised(states, steps, r, j)
    ensures !Sees(states[j + 1].roots[r].files, steps[i].name, steps[i].kind)
    ensures Accounts in states[j].roots[r].files ==> states[j + 1].roots[r].files == states[j].shared
  {
    RemovedUnlessTorn(states, steps, i, j, r);
    RemoveRemoves(states[i], steps[i]);
    assert states[i + 1] == Apply(states[i], steps[i]);
    IdleAgreesIff(states, steps, j, r);
  }

  /** In an orderly run, an import into an idle root into which none raised since its last exchange leaves it
  with the shared files, unless the root had lost its account store since it exchanged that very copy: such
  a root is not given the accounts again. */
  lemma IdleAgreesIff(states: seq<State>, steps: seq<Step>, j: nat, r: RootId)
    requires Run(states, steps) && Orderly(states, steps) && j < |steps|
    requires steps[j] == Import(r) && !states[j].roots[r].live && Accounts in states[j].shared
    requires Unraised(states, steps, r, j)
    ensures states[j + 1].roots[r].files == states[j].shared <==>
            !(Accounts !in states[j].roots[r].files
              && exists n: nat :: LastExchange(states, steps, r, n, j) && states[n + 1].shared == states[j].shared)
  {
    var root := states[j].roots[r];
    ImportAgreesIff(states, steps, j, r);
    MarkerIsLastExchange(states, steps, r, j);
    if n: nat :| LastExchange(states, steps, r, n, j) && states[n + 1].shared == states[j].shared {
      StampInjective(root.files, states[j].shared);
      if Accounts in root.files && !Synced(root) {
        UnsettledIsTorn(states, steps, j, r);
      }
    }
  }

  // ------------------------------------------------------------------ the shared copy

  /** At step `k` some root published exactly this copy. */
  predicate Author(states: seq<State>, steps: seq<Step>, k: nat, copy: Files)
    requires |states| == |steps| + 1
  {
    k < |steps| && steps[k].Publish? && steps[k].r in states[k].roots && copy == states[k].roots[steps[k].r].files
  }

  /** What one publish wrote is the shared copy, but for accounts removed since. */
  predicate Authored(states: seq<State>, steps: seq<Step>, k: nat, i: nat)
    requires |states| == |steps| + 1 && i <= |steps|
  {
    && k < i && Author(states, steps, k, states[k + 1].shared)
    && states[i].shared - {Accounts} == states[k + 1].shared - {Accounts}
    && ((forall n | k < n < i :: !steps[n].Remove?) ==> states[i].shared == states[k + 1].shared)
  }

  /** While no publish raises, and whatever imports do, the shared copy is never a mixture. */
  lemma {:induction false} OneAuthor(states: seq<State>, steps: seq<Step>, i: nat)
    requires Run(states, steps) && i <= |steps|
    requires forall n | 0 <= n < |steps| :: !steps[n].PublishRaises?
    ensures states[i].shared == map[] || exists k: nat :: Authored(states, steps, k, i)
  {
    if i > 0 {
      var m := i - 1;
      OneAuthor(states, steps, m);
      assert Enabled(states[m], steps[m]) && states[i] == Apply(states[m], steps[m]);
      if steps[m].Publish? && !PublishSkips(states[m].roots[steps[m].r]) {
        assert Authored(states, steps, m, i);
      } else if states[m].shared != map[] {
        var k: nat :| Authored(states, steps, k, m);
        assert Authored(states, steps, k, i);
      }
    }
  }

  // ------------------------------------------------------------------ what can go wrong

  /** `e` leads from `s` to `t`, in an orderly way. */
  predicate Leads(s: State, e: Step, t: State) {
    Enabled(s, e) && t == Apply(s, e) && (e.End? ==> PublishSkips(s.roots[e.r]))
  }

  lemma Extend(states: seq<State>, steps: seq<Step>, e: Step, next: State)
    returns (states': seq<State>, steps': seq<Step>)
    requires Run(states, steps) && Orderly(states, steps) && Leads(states[|steps|], e, next)
    ensures Run(states', steps') && Orderly(states', steps') && states' == states + [next] && steps' == steps + [e]
  {
    states', steps' := states + [next], steps + [e];
  }

  /** The state in which the only root, `r`, has written the shared copy. */
  lemma FirstExchange(r: RootId, files: Files) returns (states: seq<State>, steps: seq<Step>)
    requires Accounts in files
    ensures Run(states, steps) && Orderly(states, steps) && steps == [Install(r, files), Begin(r), Publish(r), End(r)]
    ensures states[4] == State(files, map[r := Root(files, Some(StampOf(files)), false)])
  {
    var stamp := Some(StampOf(files));
    states, steps := [State(map[], map[])], [];
    states, steps := Extend(states, steps, Install(r, files), State(map[], map[r := Root(files, None, false)]));
    states, steps := Extend(states, steps, Begin(r), State(map[], map[r := Root(files, None, true)]));
    states, steps := Extend(states, steps, Publish(r), State(files, map[r := Root(files, stamp, true)]));
    states, steps := Extend(states, steps, End(r), State(files, map[r := Root(files, stamp, false)]));
  }

  lemma LosesStore(r: RootId, store: Content)
    ensures var files: Files, none: Files := map[Accounts := store], map[];
            var stamp := Some(StampOf(files));
            var full, lost := State(files, map[r := Root(files, stamp, true)]),
                              State(files, map[r := Root(none, stamp, true)]);
            Leads(full, Edit(r, Accounts, None), lost) && Leads(lost, Publish(r), lost)
  {
    var files: Files, none: Files := map[Accounts := store], map[];
    assert files - {Accounts} == none;
  }

  /** A root whose session deleted its account store keeps the marker of the copy it had taken over, so
  the accounts do not come back at its next launch. */
  lemma LostStoreStaysLost(r: RootId, store: Content) returns (states: seq<State>, steps: seq<Step>)
    ensures Run(states, steps) && Orderly(states, steps) && |steps| == 9
    ensures steps[8] == Import(r) && Accounts in states[8].shared && Accounts !in states[9].roots[r].files
  {
    var files, none: Files := map[Accounts := store], map[];
    var stamp := Some(StampOf(files));
    states, steps := FirstExchange(r, files);
    LosesStore(r, store);
    states, steps := Extend(states, steps, Begin(r), State(files, map[r := Root(files, stamp, true)]));
    states, steps := Extend(states, steps, Edit(r, Accounts, None), State(files, map[r := Root(none, stamp, true)]));
    states, steps := Extend(states, steps, Publish(r), State(files, map[r := Root(none, stamp, true)]));
    states, steps := Extend(states, steps, End(r), State(files, map[r := Root(none, stamp, false)]));
    states, steps := Extend(states, steps, Import(r), State(files, map[r := Root(none, stamp, false)]));
  }

  /** Another root, `q`, takes over the shared copy. */
  lemma SecondImports(r: RootId, q: RootId, x: Files) returns (states: seq<State>, steps: seq<Step>)
    requires r != q && Accounts in x
    ensures Run(states, steps) && Orderly(states, steps) && |steps| == 7
    ensures var root := Root(x, Some(StampOf(x)), false);
            states[7] == State(x, map[r := root, q := root.(live := true)])
  {
    var first := Root(x, Some(StampOf(x)), false);
    states, steps := FirstExchange(r, x);
    states, steps := Extend(states, steps, Install(q, x), State(x, map[r := first, q := Root(x, None, false)]));
    states, steps := Extend(states, steps, Import(q), State(x, map[r := first, q := first]));
    states, steps := Extend(states, steps, Begin(q), State(x, map[r := first, q := first.(live := true)]));
  }

  lemma SessionChanges(q: RootId, x: Files, y: Content, first: Root, r: RootId)
    requires r != q && x.Keys == {Accounts} && x[Accounts] != y
    ensures var fy: Files := map[Accounts := y];
            var edited, second := Root(fy, Some(StampOf(x)), true), Root(fy, Some(StampOf(fy)), true);
            && Leads(State(x, map[r := first, q := Root(x, Some(StampOf(x)), true)]), Edit(q, Accounts, Some(y)),
                     State(x, map[r := first, q := edited]))
            && Leads(State(x, map[r := first, q := edited]), Publish(q), State(fy, map[r := first, q := second]))
  {
    var fy: Files := map[Accounts := y];
    assert x[Accounts := y] == fy;
    StampInjective(x, fy);
  }

  /** Its session replaces the account store by `y` and publishes. */
  lemma SecondPublishes(r: RootId, q: RootId, x: Files, y: Content) returns (states: seq<State>, steps: seq<Step>)
    requires r != q && x.Keys == {Accounts} && x[Accounts] != y
    ensures Run(states, steps) && Orderly(states, steps) && |steps| == 10
    ensures var fy: Files := map[Accounts := y];
            states[10] == State(fy, map[r := Root(x, Some(StampOf(x)), false), q := Root(fy, Some(StampOf(fy)), false)])
  {
    var fy: Files := map[Accounts := y];
    var first, edited := Root(x, Some(StampOf(x)), false), Root(fy, Some(StampOf(x)), true);
    var second := Root(fy, Some(StampOf(fy)), true);
    states, steps := SecondImports(r, q, x);
    SessionChanges(q, x, y, first, r);
    states, steps := Extend(states, steps, Edit(q, Accounts, Some(y)), State(x, map[r := first, q := edited]));
    states, steps := Extend(states, steps, Publish(q), State(fy, map[r := first, q := second]));
    states, steps := Extend(states, steps, End(q), State(fy, map[r := first, q := second.(live := false)]));
  }

  /** The stores of the run below: taking `a` out of the second one gives the first one. */
  lemma RemovalRestores(a: Account, b: Account)
    requires a.name != b.name
    ensures var x: Files := map[Accounts := Store([b], 5)];
            Removed(map[Accounts := Store([a, b], 4)], a.name, a.kind) == Some(x) && !Sees(x, a.name, a.kind)
  {
    assert [a, b][1..] == [b] && [b][1..] == [];
    assert Kept([b], a.name, a.kind) == [b] + Kept([], a.name, a.kind);
    assert [a, b][0] == a && Kept([a, b], a.name, a.kind) == [b];
    var fy: Files := map[Accounts := Store([a, b], 4)];
    assert fy[Accounts := Store([b], 5)] == map[Accounts := Store([b], 5)];
  }

  /** An import that raises after the account store leaves the marker and takes the store. */
  lemma RaiseTakesStore(s: State, r: RootId, x: Files, fy: Files)
    requires x.Keys == fy.Keys == {Accounts} && x != fy && s.shared == fy
    requires r in s.roots && s.roots[r] == Root(x, Some(StampOf(x)), false)
    ensures Leads(s, ImportRaises(r, 1), s.(roots := s.roots[r := Root(fy, Some(StampOf(x)), false)]))
  {
    CopyOne(fy, x, 0);
    CopiedAll(fy, x);
    StampInjective(x, fy);
    assert x[Accounts := fy[Accounts]] == fy;
  }

  /** An import that raised can bring an account in that a later removal does not take out: the removal makes
  the shared copy what it was at the root's last exchange, so the root's next import is skipped. */
  lemma RemovedButSeen(r: RootId, q: RootId, a: Account, b: Account) returns (states: seq<State>, steps: seq<Step>)
    requires r != q && a.name != b.name
    ensures Run(states, steps) && Orderly(states, steps) && |steps| == 13
    ensures steps[10] == ImportRaises(r, 1) && steps[11] == Remove(a.name, a.kind) && steps[12] == Import(r)
    ensures Sees(states[13].roots[r].files, a.name, a.kind) && !Sees(states[13].shared, a.name, a.kind)
  {
    var x: Files, fy: Files := map[Accounts := Store([b], 5)], map[Accounts := Store([a, b], 4)];
    states, steps := SecondPublishes(r, q, x, fy[Accounts]);
    var torn := states[10].(roots := states[10].roots[r := Root(fy, Some(StampOf(x)), false)]);
    RaiseTakesStore(states[10], r, x, fy);
    states, steps := Extend(states, steps, ImportRaises(r, 1), torn);
    RemovalRestores(a, b);
    states, steps := Extend(states, steps, Remove(a.name, a.kind), torn.(shared := x));
    assert ImportSkips(x, torn.roots[r]);
    states, steps := Extend(states, steps, Import(r), torn.(shared := x));
    assert fy[Accounts].accounts[0] == a;
  }

  // ------------------------------------------------------------------ the operations

  datatype Outcome = Exchanged | Skipped | Raised

  class Directory {
    var files: Files
    var marker: Option<Stamp>

    constructor (files: Files)
      ensures this.files == files && marker == None
    {
      this.files, marker := files, None;
    }

    function AsRoot(live: bool): Root
      reads this
    {
      Root(files, marker, live)
    }

    /** The loop that both exchanges share: each file is copied, or unlinked where the source has none.
    `good` files succeed before an OSError. */
    method CopyFrom(source: Directory, good: nat) returns (done: bool)
      requires source != this
      modifies this`files
      ensures done <==> good >= |IDENTITY|
      ensures files == Copied(source.files, old(files), if done then |IDENTITY| else good)
      // file by file: the first ones of the list as in the source, absent where they are absent there
      ensures forall n | 0 <= n < |IDENTITY| ::
                SameAt(files, if n < good then source.files else old(files), IDENTITY[n])
    {
      CopiedAll(source.files, files);
      CopiedAt(source.files, files, if good < |IDENTITY| then good else |IDENTITY|);
      for n := 0 to |IDENTITY|
        invariant n <= good && files == Copied(source.files, old(files), n)
      {
        if n == good { return false; }
        CopyOne(source.files, old(files), n);
        var name := IDENTITY[n];
        if name in source.files {
          files := files[name := source.files[name]];
        } else {
          files := files - {name};
        }
      }
      done := true;
    }
  }

  lemma CopyOne(source: Files, target: Files, n: nat)
    requires n < |IDENTITY|
    ensures var before, name := Copied(source, target, n), IDENTITY[n];
            Copied(source, target, n + 1) == if name in source then before[name := source[name]] else before - {name}
  {
    assert IDENTITY[..n + 1] == IDENTITY[..n] + [IDENTITY[n]];
  }

  // `good` of the writes of an exchange succeed before an OSError; the marker is written after all files.

  method ImportShared(shared: Directory, root: Directory, good: nat) returns (outcome: Outcome)
    requires shared != root
    modifies root
    ensures outcome.Skipped? <==>
            Accounts !in shared.files || old(root.marker) == Some(StampOf(shared.files))
    ensures outcome.Skipped? ==> root.files == old(root.files) && root.marker == old(root.marker)
    ensures !outcome.Raised? ==> root.AsRoot(false) == Imported(shared.files, old(root.AsRoot(false)))
    ensures outcome.Exchanged? ==> good > |IDENTITY|
    ensures outcome.Raised? ==> good <= |IDENTITY| && root.marker == old(root.marker)
                                && root.files == Copied(shared.files, old(root.files), good)
    // an import that copied leaves both sides equal and nothing for a publish to do
    ensures outcome.Exchanged? ==> root.files == shared.files && root.marker == Some(StampOf(root.files))
                                   && PublishSkips(root.AsRoot(true))
  {
    if Accounts !in shared.files { return Skipped; }
    var current := StampOf(shared.files);
    if root.marker == Some(current) { return Skipped; }
    var done := root.CopyFrom(shared, good);
    if !done || good == |IDENTITY| { return Raised; }
    CopiedAll(shared.files, old(root.files));
    root.marker := Some(current);
    outcome := Exchanged;
  }

  method PublishShared(shared: Directory, root: Directory, good: nat) returns (outcome: Outcome)
    requires shared != root
    modifies shared`files, root`marker
    ensures outcome.Skipped? <==>
            old(root.marker) == Some(StampOf(root.files)) || Accounts !in root.files
    ensures outcome.Skipped? ==> shared.files == old(shared.files) && root.marker == old(root.marker)
    ensures !outcome.Raised? ==> shared.files == PublishedCopy(old(shared.files), old(root.AsRoot(false)))
                                 && root.AsRoot(false) == PublishedRoot(old(root.AsRoot(false)))
    ensures outcome.Exchanged? ==> good > |IDENTITY|
    ensures outcome.Raised? ==> good <= |IDENTITY| && root.marker == old(root.marker)
                                && shared.files == Copied(root.files, old(shared.files), good)
    // a publish that wrote leaves both sides equal and nothing for an import to do
    ensures outcome.Exchanged? ==> shared.files == root.files && root.marker == Some(StampOf(root.files))
                                   && ImportSkips(shared.files, root.AsRoot(false))
  {
    var current := StampOf(root.files);
    if root.marker == Some(current) { return Skipped; }
    if Accounts !in root.files { return Skipped; }
    var done := shared.CopyFrom(root, good);
    if !done || good == |IDENTITY| { return Raised; }
    CopiedAll(root.files, old(shared.files));
    root.marker := Some(StampOf(shared.files));
    outcome := Exchanged;
  }

  lemma KeptOne(accounts: seq<Account>, n: nat, kept: seq<Account>, name: string, kind: string)
    requires n < |accounts|
    ensures var more := if accounts[n].name == name && accounts[n].kind == kind then kept else kept + [accounts[n]];
            more + Kept(accounts[n + 1..], name, kind) == kept + Kept(accounts[n..], name, kind)
  {
    assert accounts[n..][1..] == accounts[n + 1..];
  }

  /** The loop that keeps the other accounts. */
  method KeepOthers(accounts: seq<Account>, name: string, kind: string) returns (kept: seq<Account>)
    ensures kept == Kept(accounts, name, kind) && Without(kept, accounts, name, kind)
    ensures !HasAccount(kept, name, kind) && (|kept| == |accounts| <==> !HasAccount(accounts, name, kind))
  {
    kept := [];
    for n := 0 to |accounts|
      invariant kept + Kept(accounts[n..], name, kind) == Kept(accounts, name, kind)
    {
      KeptOne(accounts, n, kept, name, kind);
      if !(accounts[n].name == name && accounts[n].kind == kind) {
        kept := kept + [accounts[n]];
      }
    }
    assert accounts[|accounts|..] == [] && kept + [] == kept;
    KeptDrops(accounts, name, kind);
    ghost var at := KeptPicks(accounts, name, kind);
  }

  lemma HasAccountIff(accounts: seq<Account>, name: string, kind: string)
    ensures HasAccount(accounts, name, kind) <==> exists a | a in accounts :: a.name == name && a.kind == kind
  {
    assert forall i | 0 <= i < |accounts| :: accounts[i] in accounts;
  }

  /** A removal is an error exactly when there is no such account. */
  lemma RemovedIff(before: Files, name: string, kind: string)
    ensures Removed(before, name, kind).Some? <==>
            Accounts in before && before[Accounts].Store?
            && exists a | a in before[Accounts].accounts :: a.name == name && a.kind == kind
  {
    if Accounts in before && before[Accounts].Store? {
      HasAccountIff(before[Accounts].accounts, name, kind);
    }
  }

  /** Otherwise it leaves all other accounts in their order, at the next revision, and every other file as it was. */
  lemma RemovedIs(before: Files, name: string, kind: string)
    requires Removed(before, name, kind).Some?
    ensures var after := Removed(before, name, kind).value;
            && Accounts in after && after[Accounts].Store?
            && after[Accounts].revision == before[Accounts].revision + 1
            && after - {Accounts} == before - {Accounts}
            && Without(after[Accounts].accounts, before[Accounts].accounts, name, kind)
  {
    var after := Removed(before, name, kind).value;
    var accounts := before[Accounts].accounts;
    var at := KeptPicks(accounts, name, kind);
    assert after[Accounts].accounts == Kept(accounts, name, kind);
    assert Picks(after[Accounts].accounts, accounts, at, name, kind);
  }

  /** `remove`, and the error when nothing would be removed; RemovedIff and RemovedIs say what either means. */
  method RemoveAccount(shared: Directory, name: string, kind: string) returns (removed: bool)
    modifies shared`files
    ensures removed <==> Removed(old(shared.files), name, kind).Some?
    ensures shared.files == if removed then Removed(old(shared.files), name, kind).value else old(shared.files)
    ensures !Sees(shared.files, name, kind)
  {
    if Accounts !in shared.files || !shared.files[Accounts].Store? { return false; }
    var kept := KeepOthers(shared.files[Accounts].accounts, name, kind);
    if |kept| == |shared.files[Accounts].accounts| { return false; }
    shared.files := shared.files[Accounts := Store(kept, shared.files[Accounts].revision + 1)];
    removed := true;
  }
}
