/** What each field of the report says about the trace, told line by line: how many lines there are of a kind,
which came first or last, and which calls no later line answers. */
module ReportMeaning {
  import opened Options
  import opened ActivityReport

  /** A record of one of the three services that belongs to entry `k`. */
  predicate Concerns(op: Operation, k: ApiKey) {
    && (k.service == "activity" || k.service == "activity_task" || k.service == "bifrost.activity_client")
    && op.service == k.service && k.name == if op.signature == "" then op.method_ else op.signature
  }

  predicate IsCall(line: Line, k: ApiKey) { line.Call? && Concerns(line.op, k) }

  predicate IsReturn(line: Line, k: ApiKey) { line.Return? && Concerns(line.op, k) }

  predicate IsThrow(line: Line, k: ApiKey) { line.Throw? && Concerns(line.op, k) }

  predicate IsThrowOf(line: Line, k: ApiKey, e: string) { IsThrow(line, k) && line.exception == e }

  predicate Declares(line: Line, j: nat, k: ApiKey) {
    && line.Catalog? && j < |line.methods| && line.service == k.service
    && k.name == if line.methods[j].signature == "" then line.methods[j].method_ else line.methods[j].signature
  }

  /** The number of lines of a kind. */
  ghost function Tally(lines: seq<Line>, p: Line -> bool): nat {
    |set i: nat | i < |lines| && p(lines[i])|
  }

  lemma TallyLast(before: seq<Line>, last: Line, p: Line -> bool)
    ensures Tally(before + [last], p) == Tally(before, p) + if p(last) then 1 else 0
  {
    var lines := before + [last];
    var some := set i: nat | i < |before| && p(before[i]);
    var all := set i: nat | i < |lines| && p(lines[i]);
    assert forall i: nat | i < |before| :: lines[i] == before[i];
    if p(last) {
      assert all == some + {|before|};
    } else {
      assert all == some;
    }
  }

  lemma SplitLast(lines: seq<Line>) returns (before: seq<Line>, last: Line)
    requires lines != []
    ensures lines == before + [last] && |before| == |lines| - 1 && After(lines) == Apply(After(before), last)
  {
    before, last := lines[..|lines| - 1], lines[|lines| - 1];
  }

  // ------------------------------------------------------------------ counts

  lemma ConcernsIsKey(op: Operation, k: ApiKey)
    ensures Concerns(op, k) <==> op.service in SERVICES && KeyOf(op) == k
  {
  }

  /** What one line does to the counts of an entry. */
  predicate Counts(before: Api, line: Line, k: ApiKey, after: Api) {
    && after.calls == before.calls + (if IsCall(line, k) then 1 else 0)
    && after.returned == before.returned + (if IsReturn(line, k) then 1 else 0)
    && after.thrown == before.thrown + (if IsThrow(line, k) then 1 else 0)
    && after.firstCaller == (if before.firstCaller.None? && IsCall(line, k) then Some(line.caller)
                             else before.firstCaller)
    && after.lastFailure == (if IsThrow(line, k) then Some(line.exception) else before.lastFailure)
    && after.exceptions == if IsThrow(line, k)
                           then before.exceptions[line.exception := Count(before.exceptions, line.exception) + 1]
                           else before.exceptions
  }

  lemma RecordCounts(s: State, line: Line, k: ApiKey)
    requires (line.Call? || line.Return? || line.Throw?) && Concerns(line.op, k)
    ensures Counts(Entry(s.apis, k), line, k, Entry(Apply(s, line).apis, k))
  {
    ConcernsIsKey(line.op, k);
  }

  lemma OtherCounts(s: State, line: Line, k: ApiKey)
    requires line.Call? || line.Return? || line.Throw? ==> !Concerns(line.op, k)
    ensures Counts(Entry(s.apis, k), line, k, Entry(Apply(s, line).apis, k))
  {
    if line.Catalog? {
      DeclareKeepsCounts(s.apis, line.service, line.methods, k);
    } else if line.Call? || line.Return? || line.Throw? {
      ConcernsIsKey(line.op, k);
    }
  }

  lemma StepCounts(s: State, line: Line, k: ApiKey)
    ensures Counts(Entry(s.apis, k), line, k, Entry(Apply(s, line).apis, k))
  {
    if (line.Call? || line.Return? || line.Throw?) && Concerns(line.op, k) {
      RecordCounts(s, line, k);
    } else {
      OtherCounts(s, line, k);
    }
  }

  /** The counts of an entry are the numbers of its lines. */
  ghost predicate Counted(lines: seq<Line>, k: ApiKey, api: Api) {
    && api.calls == Tally(lines, l => IsCall(l, k))
    && api.returned == Tally(lines, l => IsReturn(l, k))
    && api.thrown == Tally(lines, l => IsThrow(l, k))
  }

  lemma NoLines(p: Line -> bool)
    ensures Tally([], p) == 0
  {
    var none: seq<Line> := [];
    assert (set i: nat | i < |none| && p(none[i])) == {};
  }

  lemma {:induction false} EntryCounted(lines: seq<Line>, k: ApiKey)
    ensures Counted(lines, k, Entry(After(lines).apis, k))
    decreases |lines|
  {
    if lines == [] {
      NoLines(l => IsCall(l, k));
      NoLines(l => IsReturn(l, k));
      NoLines(l => IsThrow(l, k));
    } else {
      var before, last := SplitLast(lines);
      EntryCounted(before, k);
      StepCounts(After(before), last, k);
      TallyLast(before, last, l => IsCall(l, k));
      TallyLast(before, last, l => IsReturn(l, k));
      TallyLast(before, last, l => IsThrow(l, k));
    }
  }

  /** Each exception is filed as often as it was thrown, and only those that were. */
  ghost predicate ThrowsCounted(lines: seq<Line>, k: ApiKey, api: Api, e: string) {
    && Count(api.exceptions, e) == Tally(lines, l => IsThrowOf(l, k, e))
    && (e in api.exceptions <==> exists i | 0 <= i < |lines| :: IsThrowOf(lines[i], k, e))
  }

  lemma {:induction false} EntryFiled(lines: seq<Line>, k: ApiKey, e: string)
    ensures ThrowsCounted(lines, k, Entry(After(lines).apis, k), e)
    decreases |lines|
  {
    if lines == [] {
      NoLines(l => IsThrowOf(l, k, e));
    } else {
      var before, last := SplitLast(lines);
      EntryFiled(before, k, e);
      StepCounts(After(before), last, k);
      TallyLast(before, last, l => IsThrowOf(l, k, e));
      OneMore(before, last, (l: Line) => IsThrowOf(l, k, e));
    }
  }

  lemma OneMore(before: seq<Line>, last: Line, p: Line -> bool)
    ensures (exists i | 0 <= i < |before + [last]| :: p((before + [last])[i])) <==>
            (exists i | 0 <= i < |before| :: p(before[i])) || p(last)
  {
    var lines := before + [last];
    assert lines[|before|] == last;
    if i :| 0 <= i < |before| && p(before[i]) {
      assert p(lines[i]);
    }
  }

  // ------------------------------------------------------------------ first and last

  predicate FirstCall(lines: seq<Line>, i: nat, k: ApiKey) {
    i < |lines| && IsCall(lines[i], k) && forall j | 0 <= j < i :: !IsCall(lines[j], k)
  }

  predicate LastThrow(lines: seq<Line>, i: nat, k: ApiKey) {
    i < |lines| && IsThrow(lines[i], k) && forall j | i < j < |lines| :: !IsThrow(lines[j], k)
  }

  /** The first caller is that of the entry's first call, the last failure that of its last throw. */
  ghost predicate Ends(lines: seq<Line>, k: ApiKey, api: Api) {
    && (api.firstCaller.None? <==> forall i | 0 <= i < |lines| :: !IsCall(lines[i], k))
    && (forall i: nat | FirstCall(lines, i, k) :: api.firstCaller == Some(lines[i].caller))
    && (forall i: nat | LastThrow(lines, i, k) :: api.lastFailure == Some(lines[i].exception))
    && (api.lastFailure.None? <==> forall i | 0 <= i < |lines| :: !IsThrow(lines[i], k))
  }

  lemma {:induction false} EntryEnds(lines: seq<Line>, k: ApiKey)
    ensures Ends(lines, k, Entry(After(lines).apis, k))
    decreases |lines|
  {
    if lines != [] {
      var before, last := SplitLast(lines);
      EntryEnds(before, k);
      StepCounts(After(before), last, k);
      EndsOne(before, last, k, Entry(After(before).apis, k), Entry(After(lines).apis, k));
    }
  }

  lemma EndsOne(before: seq<Line>, last: Line, k: ApiKey, api: Api, next: Api)
    requires Ends(before, k, api)
    requires next.firstCaller == if api.firstCaller.None? && IsCall(last, k) then Some(last.caller) else api.firstCaller
    requires next.lastFailure == if IsThrow(last, k) then Some(last.exception) else api.lastFailure
    ensures Ends(before + [last], k, next)
  {
    var lines := before + [last];
    assert lines[|before|] == last && forall i | 0 <= i < |before| :: lines[i] == before[i];
    forall i: nat | FirstCall(lines, i, k) ensures next.firstCaller == Some(lines[i].caller) {
      assert i < |before| ==> FirstCall(before, i, k);
    }
    forall i: nat | LastThrow(lines, i, k) ensures next.lastFailure == Some(lines[i].exception) {
      assert i < |before| ==> LastThrow(before, i, k);
    }
  }

  // ------------------------------------------------------------------ catalogs

  /** Line `i` has, at place `j`, the last declaration of entry `k` in the trace. */
  ghost predicate LastDeclaration(lines: seq<Line>, i: nat, j: nat, k: ApiKey) {
    && i < |lines| && Declares(lines[i], j, k)
    && (forall n: nat | j < n :: !Declares(lines[i], n, k))
    && (forall m: nat, n: nat | i < m < |lines| :: !Declares(lines[m], n, k))
  }

  ghost predicate Declared(lines: seq<Line>, k: ApiKey) {
    exists i: nat, j: nat :: i < |lines| && Declares(lines[i], j, k)
  }

  /** An entry is there when a catalog declares it or a record concerns it. */
  ghost predicate Known(lines: seq<Line>, k: ApiKey) {
    Declared(lines, k)
    || exists i: nat :: i < |lines| && (IsCall(lines[i], k) || IsReturn(lines[i], k) || IsThrow(lines[i], k))
  }

  ghost predicate Covers(lines: seq<Line>, k: ApiKey, coverage: string) {
    && (forall i: nat, j: nat | LastDeclaration(lines, i, j, k) :: coverage == lines[i].methods[j].coverage)
    && (!Declared(lines, k) ==> coverage == "unclassified")
  }

  lemma StepCoverage(s: State, line: Line, k: ApiKey)
    requires !line.Catalog?
    ensures Entry(Apply(s, line).apis, k).coverage == Entry(s.apis, k).coverage
    ensures k in Apply(s, line).apis <==> k in s.apis || IsCall(line, k) || IsReturn(line, k) || IsThrow(line, k)
  {
    if line.Call? || line.Return? || line.Throw? {
      ConcernsIsKey(line.op, k);
    }
  }

  lemma DeclaresIsKey(line: Line, j: nat, k: ApiKey)
    requires line.Catalog?
    ensures Declares(line, j, k) <==> j < |line.methods| && DeclaredKey(line.service, line.methods[j]) == k
  {
  }

  lemma LastDeclaresCovers(apis: map<ApiKey, Api>, line: Line, j: nat, k: ApiKey)
    requires line.Catalog? && Declares(line, j, k) && forall n: nat | j < n :: !Declares(line, n, k)
    ensures Entry(Declare(apis, line.service, line.methods), k).coverage == line.methods[j].coverage
  {
    DeclaresIsKey(line, j, k);
    forall n | j < n < |line.methods| ensures DeclaredKey(line.service, line.methods[n]) != k {
      DeclaresIsKey(line, n, k);
    }
    assert LastDeclared(line.service, line.methods, j, k);
    DeclareCovers(apis, line.service, line.methods, k);
  }

  lemma UndeclaredStays(apis: map<ApiKey, Api>, line: Line, k: ApiKey)
    requires line.Catalog? && forall j: nat :: !Declares(line, j, k)
    ensures Entry(Declare(apis, line.service, line.methods), k) == Entry(apis, k)
    ensures k in Declare(apis, line.service, line.methods) <==> k in apis
  {
    forall j: nat ensures !LastDeclared(line.service, line.methods, j, k) {
      DeclaresIsKey(line, j, k);
    }
    DeclareCovers(apis, line.service, line.methods, k);
  }

  lemma CatalogCoverage(s: State, line: Line, k: ApiKey)
    requires line.Catalog?
    ensures forall j: nat | Declares(line, j, k) && (forall n: nat | j < n :: !Declares(line, n, k)) ::
              Entry(Apply(s, line).apis, k).coverage == line.methods[j].coverage
    ensures (forall j: nat :: !Declares(line, j, k)) ==>
              Entry(Apply(s, line).apis, k).coverage == Entry(s.apis, k).coverage
    ensures k in Apply(s, line).apis <==> k in s.apis || exists j: nat :: Declares(line, j, k)
  {
    var all := Declare(s.apis, line.service, line.methods);
    assert Apply(s, line).apis == all;
    forall j: nat | Declares(line, j, k) && (forall n: nat | j < n :: !Declares(line, n, k))
      ensures Entry(all, k).coverage == line.methods[j].coverage
    {
      LastDeclaresCovers(s.apis, line, j, k);
    }
    DeclareKeepsKeys(s.apis, line.service, line.methods);
    if j: nat :| Declares(line, j, k) {
      DeclaresIsKey(line, j, k);
      DeclaredIsKnown(s.apis, line.service, line.methods, j);
    } else {
      UndeclaredStays(s.apis, line, k);
    }
  }

  lemma {:induction false} DeclareKeepsKeys(apis: map<ApiKey, Api>, service: string,
                                            methods: seq<ActivityReport.Declared>)
    ensures apis.Keys <= Declare(apis, service, methods).Keys
    decreases methods
  {
    if methods != [] {
      var k := DeclaredKey(service, methods[0]);
      DeclareKeepsKeys(apis[k := Entry(apis, k).(coverage := methods[0].coverage)], service, methods[1..]);
    }
  }

  lemma {:induction false} DeclaredIsKnown(apis: map<ApiKey, Api>, service: string,
                                           methods: seq<ActivityReport.Declared>, j: nat)
    requires j < |methods|
    ensures DeclaredKey(service, methods[j]) in Declare(apis, service, methods)
    decreases methods
  {
    var k := DeclaredKey(service, methods[0]);
    var next := apis[k := Entry(apis, k).(coverage := methods[0].coverage)];
    if j == 0 {
      DeclareKeepsKeys(next, service, methods[1..]);
    } else {
      DeclaredIsKnown(next, service, methods[1..], j - 1);
    }
  }

  lemma {:induction false} EntryCovers(lines: seq<Line>, k: ApiKey)
    ensures Covers(lines, k, Entry(After(lines).apis, k).coverage)
    ensures k in After(lines).apis <==> Known(lines, k)
    decreases |lines|
  {
    if lines != [] {
      var before, last := SplitLast(lines);
      EntryCovers(before, k);
      if last.Catalog? {
        CatalogCoverage(After(before), last, k);
      } else {
        StepCoverage(After(before), last, k);
      }
      CoversOne(before, last, k, Entry(After(before).apis, k).coverage, Entry(After(lines).apis, k).coverage);
      KnownOne(before, last, k);
    }
  }

  lemma KnownOne(before: seq<Line>, last: Line, k: ApiKey)
    ensures Known(before + [last], k) <==>
              Known(before, k) || IsCall(last, k) || IsReturn(last, k) || IsThrow(last, k)
              || exists j: nat :: Declares(last, j, k)
    ensures Declared(before + [last], k) <==> Declared(before, k) || exists j: nat :: Declares(last, j, k)
  {
    var lines := before + [last];
    assert lines[|before|] == last && forall i | 0 <= i < |before| :: lines[i] == before[i];
    if i: nat, j: nat :| i < |before| && Declares(before[i], j, k) {
      assert Declares(lines[i], j, k);
    }
    if j: nat :| Declares(last, j, k) {
      assert Declares(lines[|before|], j, k);
    }
    if i: nat :| i < |before| && (IsCall(before[i], k) || IsReturn(before[i], k) || IsThrow(before[i], k)) {
      assert IsCall(lines[i], k) || IsReturn(lines[i], k) || IsThrow(lines[i], k);
    }
  }

  lemma CoversOne(before: seq<Line>, last: Line, k: ApiKey, coverage: string, next: string)
    requires Covers(before, k, coverage)
    requires forall j: nat | Declares(last, j, k) && (forall n: nat | j < n :: !Declares(last, n, k)) ::
               next == last.methods[j].coverage
    requires (forall j: nat :: !Declares(last, j, k)) ==> next == coverage
    ensures Covers(before + [last], k, next)
  {
    var lines := before + [last];
    assert lines[|before|] == last && forall i | 0 <= i < |before| :: lines[i] == before[i];
    KnownOne(before, last, k);
    forall i: nat, j: nat | LastDeclaration(lines, i, j, k) ensures next == lines[i].methods[j].coverage {
      if i < |before| {
        assert forall n: nat :: !Declares(lines[|before|], n, k);
        assert LastDeclaration(before, i, j, k);
      }
    }
  }

  // ------------------------------------------------------------------ matching

  predicate Observes(line: Line) {
    && (line.Call? || line.Return? || line.Throw?)
    && (line.op.service == "activity" || line.op.service == "activity_task"
        || line.op.service == "bifrost.activity_client")
  }

  /** Line `j` is a call with this id, and no later call or completion has the same one. */
  predicate Unanswered(lines: seq<Line>, j: nat, id: CallId) {
    && j < |lines| && lines[j].Call? && Observes(lines[j]) && lines[j].id == id
    && forall n | j < n < |lines| :: !(Observes(lines[n]) && lines[n].id == id)
  }

  ghost predicate PendingMeans(lines: seq<Line>, pending: map<CallId, ApiKey>, id: CallId) {
    && (id in pending <==> exists j: nat :: Unanswered(lines, j, id))
    && (forall j: nat | Unanswered(lines, j, id) :: id in pending && pending[id] == KeyOf(lines[j].op))
  }

  lemma UnansweredLast(before: seq<Line>, last: Line, j: nat, id: CallId)
    ensures Unanswered(before + [last], j, id) <==>
              if j < |before| then Unanswered(before, j, id) && !(Observes(last) && last.id == id)
              else j == |before| && last.Call? && Observes(last) && last.id == id
  {
    var lines := before + [last];
    assert lines[|before|] == last && forall i | 0 <= i < |before| :: lines[i] == before[i];
  }

  lemma {:induction false} PendingIs(lines: seq<Line>, id: CallId)
    ensures PendingMeans(lines, After(lines).pending, id)
    decreases |lines|
  {
    if lines != [] {
      var before, last := SplitLast(lines);
      PendingIs(before, id);
      PendingOne(before, last, After(before), id);
    }
  }

  lemma PendingOne(before: seq<Line>, last: Line, s: State, id: CallId)
    requires PendingMeans(before, s.pending, id)
    ensures PendingMeans(before + [last], Apply(s, last).pending, id)
  {
    var lines, pending := before + [last], Apply(s, last).pending;
    forall j: nat
      ensures Unanswered(lines, j, id) <==>
                if j < |before| then Unanswered(before, j, id) && !(Observes(last) && last.id == id)
                else j == |before| && last.Call? && Observes(last) && last.id == id
    {
      UnansweredLast(before, last, j, id);
    }
    assert forall i | 0 <= i < |before| :: lines[i] == before[i];
    assert lines[|before|] == last;
    if Observes(last) && last.id == id {
      assert last.Call? ==> Unanswered(lines, |before|, id);
    } else {
      OtherPending(s, last, id);
      if j: nat :| Unanswered(before, j, id) {
        assert Unanswered(lines, j, id);
      }
    }
  }

  lemma OtherPending(s: State, line: Line, id: CallId)
    requires !(Observes(line) && line.id == id)
    ensures id in Apply(s, line).pending <==> id in s.pending
    ensures id in s.pending ==> Apply(s, line).pending[id] == s.pending[id]
  {
  }

  /** A call of the entry that nothing answers. */
  predicate Unfinished(lines: seq<Line>, j: nat, k: ApiKey) {
    j < |lines| && IsCall(lines[j], k) && Unanswered(lines, j, lines[j].id)
  }

  /** A completion that answers no call. */
  ghost predicate Orphan(lines: seq<Line>, i: nat) {
    && i < |lines| && Observes(lines[i]) && !lines[i].Call?
    && !exists j: nat :: Unanswered(lines[..i], j, lines[i].id)
  }

  /** Lines and ids that belong together one by one are equally many. */
  lemma {:induction false} OneToOne(lines: seq<Line>, js: set<nat>, ids: set<CallId>)
    requires forall j | j in js :: j < |lines| && lines[j].Call? && lines[j].id in ids
    requires forall i, j | i in js && j in js && lines[i].id == lines[j].id :: i == j
    requires forall id | id in ids :: exists j :: j in js && lines[j].id == id
    ensures |js| == |ids|
    decreases |js|
  {
    if js == {} {
      assert ids == {};
    } else {
      var j :| j in js;
      OneToOne(lines, js - {j}, ids - {lines[j].id});
    }
  }

  lemma UnfinishedIsPending(lines: seq<Line>, j: nat, k: ApiKey)
    requires Unfinished(lines, j, k)
    ensures lines[j].id in PendingOf(After(lines).pending, k)
  {
    PendingIs(lines, lines[j].id);
    ConcernsIsKey(lines[j].op, k);
  }

  lemma PendingIsUnfinished(lines: seq<Line>, id: CallId, k: ApiKey) returns (j: nat)
    requires id in PendingOf(After(lines).pending, k)
    ensures Unfinished(lines, j, k) && lines[j].id == id
  {
    PendingIs(lines, id);
    j :| Unanswered(lines, j, id);
    ConcernsIsKey(lines[j].op, k);
  }

  lemma UnfinishedOnce(lines: seq<Line>, i: nat, j: nat, k: ApiKey)
    requires Unfinished(lines, i, k) && Unfinished(lines, j, k) && lines[i].id == lines[j].id
    ensures i == j
  {
  }

  lemma {:induction false} UnfinishedAre(lines: seq<Line>, k: ApiKey)
    ensures |PendingOf(After(lines).pending, k)| == |set j: nat | j < |lines| && Unfinished(lines, j, k)|
  {
    var js := set j: nat | j < |lines| && Unfinished(lines, j, k);
    var ids := PendingOf(After(lines).pending, k);
    forall j | j in js ensures lines[j].id in ids {
      UnfinishedIsPending(lines, j, k);
    }
    forall id | id in ids ensures exists j :: j in js && lines[j].id == id {
      var j := PendingIsUnfinished(lines, id, k);
      assert j in js;
    }
    forall i, j | i in js && j in js && lines[i].id == lines[j].id ensures i == j {
      UnfinishedOnce(lines, i, j, k);
    }
    OneToOne(lines, js, ids);
  }

  lemma OrphanBefore(before: seq<Line>, last: Line, i: nat)
    ensures Orphan(before + [last], i) <==>
              if i < |before| then Orphan(before, i) else i == |before| && OrphanAfter(before, last)
  {
    var lines := before + [last];
    if i < |before| {
      assert lines[..i] == before[..i] && lines[i] == before[i];
    } else if i == |before| {
      assert lines[..i] == before && lines[i] == last;
    }
  }

  ghost predicate OrphanAfter(before: seq<Line>, last: Line) {
    Observes(last) && !last.Call? && !exists j: nat :: Unanswered(before, j, last.id)
  }

  lemma StepOrphans(before: seq<Line>, last: Line)
    ensures Apply(After(before), last).orphans == After(before).orphans + if OrphanAfter(before, last) then 1 else 0
  {
    if Observes(last) && !last.Call? {
      PendingIs(before, last.id);
    }
  }

  ghost function Orphans(lines: seq<Line>): set<nat> {
    set i: nat | i < |lines| && Orphan(lines, i)
  }

  lemma {:induction false} OrphansAre(lines: seq<Line>)
    ensures After(lines).orphans == |Orphans(lines)|
    decreases |lines|
  {
    if lines == [] {
      assert Orphans(lines) == {};
    } else {
      var before, last := SplitLast(lines);
      OrphansAre(before);
      StepOrphans(before, last);
      forall i: nat
        ensures Orphan(lines, i) <==>
                  if i < |before| then Orphan(before, i) else i == |before| && OrphanAfter(before, last)
      {
        OrphanBefore(before, last, i);
      }
      if OrphanAfter(before, last) {
        assert Orphans(lines) == Orphans(before) + {|before|};
      } else {
        assert Orphans(lines) == Orphans(before);
      }
    }
  }

  // ------------------------------------------------------------------ the rest of the report

  ghost predicate LastCatalog(lines: seq<Line>, i: nat, service: string) {
    && i < |lines| && lines[i].Catalog? && lines[i].service == service
    && forall j | i < j < |lines| :: !(lines[j].Catalog? && lines[j].service == service)
  }

  /** The interface of a service is that of its last catalog. */
  ghost predicate InterfaceOf(lines: seq<Line>, interfaces: map<string, string>, service: string) {
    && (service in interfaces <==> exists i | 0 <= i < |lines| :: lines[i].Catalog? && lines[i].service == service)
    && (forall i: nat | LastCatalog(lines, i, service) ::
          service in interfaces && interfaces[service] == lines[i].interface)
  }

  ghost predicate Flags(lines: seq<Line>, invalid: nat, truncated: bool, stopped: bool) {
    && invalid == Tally(lines, (l: Line) => l.Invalid?)
    && (truncated <==> exists i | 0 <= i < |lines| :: lines[i].Truncated?)
    && (stopped <==> exists i | 0 <= i < |lines| :: lines[i].Stopped?)
  }

  lemma {:induction false} FlagsAre(lines: seq<Line>)
    ensures Flags(lines, After(lines).invalid, After(lines).truncated, After(lines).stopped)
    decreases |lines|
  {
    if lines == [] {
      NoLines((l: Line) => l.Invalid?);
    } else {
      var before, last := SplitLast(lines);
      FlagsAre(before);
      TallyLast(before, last, (l: Line) => l.Invalid?);
      OneMore(before, last, (l: Line) => l.Truncated?);
      OneMore(before, last, (l: Line) => l.Stopped?);
    }
  }

  lemma InterfacesOne(before: seq<Line>, last: Line, interfaces: map<string, string>, service: string)
    requires InterfaceOf(before, interfaces, service)
    ensures var next := if last.Catalog? then interfaces[last.service := last.interface] else interfaces;
            InterfaceOf(before + [last], next, service)
  {
    var lines := before + [last];
    OneMore(before, last, (l: Line) => l.Catalog? && l.service == service);
    assert lines[|before|] == last && forall i | 0 <= i < |before| :: lines[i] == before[i];
    forall i: nat | LastCatalog(lines, i, service) && i < |before| ensures LastCatalog(before, i, service) {
    }
  }

  lemma StepInterfaces(s: State, line: Line)
    ensures Apply(s, line).interfaces
            == if line.Catalog? then s.interfaces[line.service := line.interface] else s.interfaces
  {
  }

  lemma {:induction false} InterfacesAre(lines: seq<Line>, service: string)
    ensures InterfaceOf(lines, After(lines).interfaces, service)
    decreases |lines|
  {
    if lines != [] {
      var before, last := SplitLast(lines);
      InterfacesAre(before, service);
      StepInterfaces(After(before), last);
      InterfacesOne(before, last, After(before).interfaces, service);
    }
  }

  /** What one entry of the report must be, from the lines of the trace alone. */
  ghost predicate EntryMeans(lines: seq<Line>, k: ApiKey, api: Api) {
    && Counted(lines, k, api) && Ends(lines, k, api) && Covers(lines, k, api.coverage)
    && (forall e :: ThrowsCounted(lines, k, api, e))
    && api.unfinished == |set j: nat | j < |lines| && Unfinished(lines, j, k)|
  }

  lemma FoldMeans(lines: seq<Line>, k: ApiKey, unfinished: nat)
    ensures var api := Entry(After(lines).apis, k).(unfinished := unfinished);
            && Counted(lines, k, api) && Ends(lines, k, api) && Covers(lines, k, api.coverage)
            && forall e :: ThrowsCounted(lines, k, api, e)
  {
    EntryCounted(lines, k);
    EntryEnds(lines, k);
    EntryCovers(lines, k);
    forall e ensures ThrowsCounted(lines, k, Entry(After(lines).apis, k).(unfinished := unfinished), e) {
      EntryFiled(lines, k, e);
    }
  }

  lemma FinishedEntry(lines: seq<Line>, k: ApiKey)
    ensures var apis := Finish(After(lines).apis, After(lines).pending);
            && (k in apis <==> k in After(lines).apis)
            && (k in apis ==>
                  apis[k] == Entry(After(lines).apis, k).(unfinished := |PendingOf(After(lines).pending, k)|))
  {
    TraceOpen(lines);
  }

  /** The fold and its final pass give exactly these entries. */
  lemma {:induction false} EntriesMean(lines: seq<Line>, k: ApiKey)
    ensures var apis := Finish(After(lines).apis, After(lines).pending);
            && (k in apis <==> Known(lines, k))
            && (k in apis ==> EntryMeans(lines, k, apis[k]))
  {
    FinishedEntry(lines, k);
    EntryCovers(lines, k);
    FoldMeans(lines, k, |PendingOf(After(lines).pending, k)|);
    UnfinishedAre(lines, k);
  }
}
