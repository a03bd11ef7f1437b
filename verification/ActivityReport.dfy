/** The report on Activity Binder calls: one pass over a trace that matches completions to calls. */
module ActivityReport {
  import opened Options

  // ------------------------------------------------------------------ sums over maps

  ghost function Total<K, V>(m: map<K, V>, f: V -> int): int
    decreases |m|
  {
    if m == map[] then 0
    else
      var k :| k in m;
      var rest := m - {k};
      assert rest.Keys == m.Keys - {k};
      f(m[k]) + Total(rest, f)
  }

  lemma {:induction false} TotalTakesOut<K, V>(m: map<K, V>, f: V -> int, k: K)
    requires k in m
    ensures Total(m, f) == f(m[k]) + Total(m - {k}, f)
    decreases |m|
  {
    var j :| j in m && Total(m, f) == f(m[j]) + Total(m - {j}, f);
    if j != k {
      assert (m - {j}).Keys == m.Keys - {j} && (m - {k}).Keys == m.Keys - {k};
      TotalTakesOut(m - {j}, f, k);
      TotalTakesOut(m - {k}, f, j);
      assert m - {j} - {k} == m - {k} - {j};
    }
  }

  lemma TotalUpdate<K, V>(m: map<K, V>, f: V -> int, k: K, v: V)
    ensures Total(m[k := v], f) == Total(m, f) + f(v) - if k in m then f(m[k]) else 0
  {
    TotalTakesOut(m[k := v], f, k);
    assert m[k := v] - {k} == m - {k};
    if k in m {
      TotalTakesOut(m, f, k);
    } else {
      assert m - {k} == m;
    }
  }

  // ------------------------------------------------------------------ the trace and the report

  /** A Binder call as a record names it: the operation split at its last dot, and the signature. */
  datatype Operation = Operation(service: string, method_: string, signature: string)

  /** The entry a record belongs to: the signature, or the method where there is none. */
  datatype ApiKey = ApiKey(service: string, name: string)

  datatype CallId = CallId(pid: int, id: int)

  datatype Declared = Declared(method_: string, signature: string, coverage: string)

  datatype Line =
    | Invalid
    | Catalog(service: string, interface: string, methods: seq<Declared>)
    | Call(op: Operation, id: CallId, caller: string)
    | Return(op: Operation, id: CallId)
    | Throw(op: Operation, id: CallId, exception: string)
    | Truncated
    | Stopped
    | Other

  datatype Api = Api(coverage: string, calls: nat, returned: nat, thrown: nat, unfinished: nat,
                     exceptions: map<string, nat>, firstCaller: Option<string>, lastFailure: Option<string>)

  const NEW_API := Api("unclassified", 0, 0, 0, 0, map[], None, None)

  const SERVICES := ["activity", "activity_task", "bifrost.activity_client"]

  datatype State = State(apis: map<ApiKey, Api>, pending: map<CallId, ApiKey>, interfaces: map<string, string>,
                         invalid: nat, orphans: nat, truncated: bool, stopped: bool)

  const START := State(map[], map[], map[], 0, 0, false, false)

  function KeyOf(op: Operation): ApiKey {
    ApiKey(op.service, if op.signature == "" then op.method_ else op.signature)
  }

  function Entry(apis: map<ApiKey, Api>, k: ApiKey): Api {
    if k in apis then apis[k] else NEW_API
  }

  function DeclaredKey(service: string, d: Declared): ApiKey {
    KeyOf(Operation(service, d.method_, d.signature))
  }

  function Declare(apis: map<ApiKey, Api>, service: string, methods: seq<Declared>): map<ApiKey, Api>
    decreases methods
  {
    if methods == [] then apis
    else
      var k := DeclaredKey(service, methods[0]);
      Declare(apis[k := Entry(apis, k).(coverage := methods[0].coverage)], service, methods[1..])
  }

  function Count(exceptions: map<string, nat>, e: string): nat {
    if e in exceptions then exceptions[e] else 0
  }

  /** The entry of a completed call. */
  function Completed(api: Api, line: Line): Api
    requires line.Return? || line.Throw?
  {
    if line.Return? then api.(returned := api.returned + 1)
    else api.(thrown := api.thrown + 1, lastFailure := Some(line.exception),
              exceptions := api.exceptions[line.exception := Count(api.exceptions, line.exception) + 1])
  }

  function Apply(s: State, line: Line): State {
    match line
    case Invalid => s.(invalid := s.invalid + 1)
    case Catalog(service, interface, methods) =>
      s.(interfaces := s.interfaces[service := interface], apis := Declare(s.apis, service, methods))
    case Call(op, id, caller) =>
      if op.service !in SERVICES then s
      else
        var k := KeyOf(op);
        var api := Entry(s.apis, k);
        s.(apis := s.apis[k := api.(calls := api.calls + 1,
                                    firstCaller := if api.firstCaller.None? then Some(caller) else api.firstCaller)],
           pending := s.pending[id := k])
    case Truncated => s.(truncated := true)
    case Stopped => s.(stopped := true)
    case Other => s
    case _ =>
      if line.op.service !in SERVICES then s
      else
        var k := KeyOf(line.op);
        s.(apis := s.apis[k := Completed(Entry(s.apis, k), line)],
           orphans := s.orphans + if line.id in s.pending then 0 else 1,
           pending := s.pending - {line.id})
  }

  function After(lines: seq<Line>): State {
    if lines == [] then START else Apply(After(lines[..|lines| - 1]), lines[|lines| - 1])
  }

  predicate Observed(line: Line) {
    (line.Call? || line.Return? || line.Throw?) && line.op.service in SERVICES
  }

  /** The calls of one entry that are still pending. */
  function PendingOf(pending: map<CallId, ApiKey>, k: ApiKey): set<CallId> {
    set id | id in pending && pending[id] == k
  }

  /** The final pass: each pending call is unfinished. */
  function Finish(apis: map<ApiKey, Api>, pending: map<CallId, ApiKey>): map<ApiKey, Api> {
    map k | k in apis :: apis[k].(unfinished := apis[k].unfinished + |PendingOf(pending, k)|)
  }

  lemma PendingTakesOut(pending: map<CallId, ApiKey>, id: CallId, k: ApiKey)
    requires id in pending
    ensures |PendingOf(pending, k)| == |PendingOf(pending - {id}, k)| + if pending[id] == k then 1 else 0
  {
    var fewer := pending - {id};
    if pending[id] == k {
      assert PendingOf(pending, k) == PendingOf(fewer, k) + {id} && id !in PendingOf(fewer, k);
    } else {
      assert PendingOf(pending, k) == PendingOf(fewer, k);
    }
  }

  /** The pass may take the pending calls in any order. */
  lemma FinishTakesOut(apis: map<ApiKey, Api>, pending: map<CallId, ApiKey>, id: CallId)
    requires id in pending && pending[id] in apis
    ensures var fewer, k := Finish(apis, pending - {id}), pending[id];
            Finish(apis, pending) == fewer[k := fewer[k].(unfinished := fewer[k].unfinished + 1)]
  {
    forall k | k in apis
      ensures |PendingOf(pending, k)| == |PendingOf(pending - {id}, k)| + if pending[id] == k then 1 else 0 {
      PendingTakesOut(pending, id, k);
    }
  }

  // ------------------------------------------------------------------ conservation over all entries

  const CALLS := (a: Api) => a.calls as int
  const RETURNS := (a: Api) => a.returned as int
  const THROWS := (a: Api) => a.thrown as int
  const UNFINISHED := (a: Api) => a.unfinished as int

  /** A call whose (pid, id) is still pending: it displaces the earlier one. */
  predicate Reuses(s: State, line: Line) {
    line.Call? && Observed(line) && line.id in s.pending
  }

  function Displaced(lines: seq<Line>): nat {
    if lines == [] then 0
    else
      var before := lines[..|lines| - 1];
      Displaced(before) + if Reuses(After(before), lines[|lines| - 1]) then 1 else 0
  }

  ghost predicate Balanced(s: State, displaced: nat) {
    Total(s.apis, CALLS) + s.orphans == Total(s.apis, RETURNS) + Total(s.apis, THROWS) + |s.pending| + displaced
  }

  /** Pending calls are of known entries, and nothing is marked unfinished before the final pass. */
  predicate Open(s: State) {
    && (forall id | id in s.pending :: s.pending[id] in s.apis)
    && (forall k | k in s.apis :: s.apis[k].unfinished == 0)
  }

  lemma {:induction false} DeclareKeepsTotals(apis: map<ApiKey, Api>, service: string, methods: seq<Declared>,
                                              f: Api -> int)
    requires f(NEW_API) == 0 && forall a: Api, coverage: string :: f(a.(coverage := coverage)) == f(a)
    ensures Total(Declare(apis, service, methods), f) == Total(apis, f)
    ensures apis.Keys <= Declare(apis, service, methods).Keys
    decreases methods
  {
    if methods != [] {
      var k := DeclaredKey(service, methods[0]);
      var api := Entry(apis, k).(coverage := methods[0].coverage);
      TotalUpdate(apis, f, k, api);
      DeclareKeepsTotals(apis[k := api], service, methods[1..], f);
    }
  }

  lemma {:induction false} DeclareKeepsOpen(apis: map<ApiKey, Api>, service: string, methods: seq<Declared>)
    requires forall k | k in apis :: apis[k].unfinished == 0
    ensures apis.Keys <= Declare(apis, service, methods).Keys
    ensures forall k | k in Declare(apis, service, methods) :: Declare(apis, service, methods)[k].unfinished == 0
    decreases methods
  {
    if methods != [] {
      var k := DeclaredKey(service, methods[0]);
      DeclareKeepsOpen(apis[k := Entry(apis, k).(coverage := methods[0].coverage)], service, methods[1..]);
    }
  }

  /** One entry changed: each total changes by the difference of its field. */
  lemma TotalsUpdate(apis: map<ApiKey, Api>, k: ApiKey, api: Api)
    ensures var before := Entry(apis, k);
            && Total(apis[k := api], CALLS) == Total(apis, CALLS) + api.calls - before.calls
            && Total(apis[k := api], RETURNS) == Total(apis, RETURNS) + api.returned - before.returned
            && Total(apis[k := api], THROWS) == Total(apis, THROWS) + api.thrown - before.thrown
  {
    TotalUpdate(apis, CALLS, k, api);
    TotalUpdate(apis, RETURNS, k, api);
    TotalUpdate(apis, THROWS, k, api);
  }

  lemma PendingCount(pending: map<CallId, ApiKey>, id: CallId, k: ApiKey)
    ensures |pending[id := k]| == |pending| + if id in pending then 0 else 1
    ensures |pending - {id}| == |pending| - if id in pending then 1 else 0
  {
    assert pending[id := k].Keys == pending.Keys + {id} && (pending - {id}).Keys == pending.Keys - {id};
    assert |pending[id := k]| == |pending[id := k].Keys| && |pending - {id}| == |(pending - {id}).Keys|;
    assert |pending| == |pending.Keys|;
  }

  lemma {:induction false} CallBalances(s: State, line: Line, displaced: nat)
    requires Balanced(s, displaced) && line.Call? && Observed(line)
    ensures Balanced(Apply(s, line), displaced + if Reuses(s, line) then 1 else 0)
  {
    var k, t := KeyOf(line.op), Apply(s, line);
    TotalsUpdate(s.apis, k, t.apis[k]);
    PendingCount(s.pending, line.id, k);
  }

  lemma {:induction false} CompletionBalances(s: State, line: Line, displaced: nat)
    requires Balanced(s, displaced) && (line.Return? || line.Throw?) && Observed(line)
    ensures Balanced(Apply(s, line), displaced)
  {
    var k, t := KeyOf(line.op), Apply(s, line);
    TotalsUpdate(s.apis, k, t.apis[k]);
    PendingCount(s.pending, line.id, k);
  }

  lemma {:induction false} CatalogBalances(s: State, line: Line, displaced: nat)
    requires Balanced(s, displaced) && line.Catalog?
    ensures Balanced(Apply(s, line), displaced)
  {
    DeclareKeepsTotals(s.apis, line.service, line.methods, CALLS);
    DeclareKeepsTotals(s.apis, line.service, line.methods, RETURNS);
    DeclareKeepsTotals(s.apis, line.service, line.methods, THROWS);
  }

  lemma StepBalances(s: State, line: Line, displaced: nat)
    requires Balanced(s, displaced)
    ensures Balanced(Apply(s, line), displaced + if Reuses(s, line) then 1 else 0)
  {
    if line.Catalog? {
      CatalogBalances(s, line, displaced);
    } else if Observed(line) {
      if line.Call? {
        CallBalances(s, line, displaced);
      } else {
        CompletionBalances(s, line, displaced);
      }
    }
  }

  lemma {:induction false} TraceBalances(lines: seq<Line>)
    ensures Balanced(After(lines), Displaced(lines))
  {
    if lines != [] {
      TraceBalances(lines[..|lines| - 1]);
      StepBalances(After(lines[..|lines| - 1]), lines[|lines| - 1], Displaced(lines[..|lines| - 1]));
    }
  }

  lemma StepKeepsOpen(s: State, line: Line)
    requires Open(s)
    ensures Open(Apply(s, line))
  {
    if line.Catalog? {
      DeclareKeepsOpen(s.apis, line.service, line.methods);
    }
  }

  lemma {:induction false} TraceOpen(lines: seq<Line>)
    ensures Open(After(lines))
  {
    if lines != [] {
      TraceOpen(lines[..|lines| - 1]);
      StepKeepsOpen(After(lines[..|lines| - 1]), lines[|lines| - 1]);
    }
  }

  function Unit(counted: bool): int { if counted then 1 else 0 }

  /** A field that counts the unfinished calls grows by one for each pending call, any other stays. */
  lemma {:induction false} FinishTotals(apis: map<ApiKey, Api>, pending: map<CallId, ApiKey>,
                                        f: Api -> int, counted: bool)
    requires forall id | id in pending :: pending[id] in apis
    requires forall a: Api :: f(a.(unfinished := a.unfinished + 1)) == f(a) + Unit(counted)
    ensures Total(Finish(apis, pending), f) == Total(apis, f) + if counted then |pending| else 0
    decreases |pending|
  {
    if pending == map[] {
      NothingPending(apis);
    } else {
      var id :| id in pending;
      var fewer := pending - {id};
      assert fewer.Keys == pending.Keys - {id};
      FinishTotals(apis, fewer, f, counted);
      FinishOneMore(apis, pending, id, f, counted);
      assert |pending| == |fewer| + 1;
    }
  }

  lemma NothingPending(apis: map<ApiKey, Api>)
    ensures Finish(apis, map[]) == apis
  {
    assert forall k :: PendingOf(map[], k) == {};
  }

  lemma {:induction false} FinishOneMore(apis: map<ApiKey, Api>, pending: map<CallId, ApiKey>,
                                         id: CallId, f: Api -> int, counted: bool)
    requires id in pending && pending[id] in apis
    requires forall a: Api :: f(a.(unfinished := a.unfinished + 1)) == f(a) + Unit(counted)
    ensures Total(Finish(apis, pending), f) == Total(Finish(apis, pending - {id}), f) + Unit(counted)
  {
    FinishTakesOut(apis, pending, id);
    var m, k := Finish(apis, pending - {id}), pending[id];
    TotalUpdate(m, f, k, m[k].(unfinished := m[k].unfinished + 1));
  }

  lemma {:induction false} TotalZero(apis: map<ApiKey, Api>, f: Api -> int)
    requires forall k | k in apis :: f(apis[k]) == 0
    ensures Total(apis, f) == 0
    decreases |apis|
  {
    if apis != map[] {
      var k :| k in apis;
      TotalTakesOut(apis, f, k);
      assert (apis - {k}).Keys == apis.Keys - {k};
      TotalZero(apis - {k}, f);
    }
  }

  /** Over every trace, summed over all entries of the report: calls and orphan completions are the
  returns, the throws, the unfinished calls, and the calls displaced by another with the same
  (pid, id) while they were pending. */
  lemma {:induction false} Conservation(lines: seq<Line>)
    ensures var s := After(lines);
            var apis := Finish(s.apis, s.pending);
            Total(apis, CALLS) + s.orphans
            == Total(apis, RETURNS) + Total(apis, THROWS) + Total(apis, UNFINISHED) + Displaced(lines)
  {
    var s := After(lines);
    TraceBalances(lines);
    TraceOpen(lines);
    FinishTotals(s.apis, s.pending, CALLS, false);
    FinishTotals(s.apis, s.pending, RETURNS, false);
    FinishTotals(s.apis, s.pending, THROWS, false);
    FinishTotals(s.apis, s.pending, UNFINISHED, true);
    TotalZero(s.apis, UNFINISHED);
  }

  predicate ReuseAt(lines: seq<Line>, i: nat)
    requires i < |lines|
  {
    Reuses(After(lines[..i]), lines[i])
  }

  lemma ReuseAtPrefix(lines: seq<Line>, i: nat, n: nat)
    requires i < n <= |lines|
    ensures ReuseAt(lines[..n], i) == ReuseAt(lines, i)
  {
    assert lines[..n][..i] == lines[..i];
  }

  lemma {:induction false} DisplacedZero(lines: seq<Line>)
    ensures Displaced(lines) == 0 <==> forall i: nat | i < |lines| :: !ReuseAt(lines, i)
  {
    if lines != [] {
      var last := |lines| - 1;
      DisplacedZero(lines[..last]);
      forall i: nat | i < last ensures ReuseAt(lines[..last], i) == ReuseAt(lines, i) {
        ReuseAtPrefix(lines, i, last);
      }
      assert ReuseAt(lines, last) <==> Displaced(lines) == Displaced(lines[..last]) + 1;
    }
  }

  /** So the report's books balance exactly when no (pid, id) is reused while it is pending. */
  lemma {:induction false} BalancedIffNoReuse(lines: seq<Line>)
    ensures var s := After(lines);
            var apis := Finish(s.apis, s.pending);
            Total(apis, CALLS) + s.orphans == Total(apis, RETURNS) + Total(apis, THROWS) + Total(apis, UNFINISHED)
            <==> forall i: nat | i < |lines| :: !ReuseAt(lines, i)
  {
    Conservation(lines);
    DisplacedZero(lines);
  }

  /** Two calls with the same (pid, id) and one return: two calls, but one return and nothing unfinished. */
  lemma ReusedCall(op: Operation, id: CallId, caller: string)
    requires op.service in SERVICES
    ensures var lines := [Call(op, id, caller), Call(op, id, caller), Return(op, id)];
            var s := After(lines);
            && Displaced(lines) == 1 && s.orphans == 0 && s.pending == map[] && s.apis.Keys == {KeyOf(op)}
            && Finish(s.apis, s.pending)[KeyOf(op)].(coverage := "", firstCaller := None)
               == Api("", 2, 1, 0, 0, map[], None, None)
  {
    var call, done, k := Call(op, id, caller), Return(op, id), KeyOf(op);
    var one, two, three := [call], [call, call], [call, call, done];
    assert one[..0] == [] && two[..1] == one && three[..2] == two;
    assert After([]) == START && After(one) == Apply(START, call);
    assert After(two) == Apply(After(one), call) && After(three) == Apply(After(two), done);
    assert Displaced([]) == 0 && Displaced(one) == 0 && Displaced(two) == 1;
    assert After(three).pending == map[];
    NothingPending(After(three).apis);
  }

  // ------------------------------------------------------------------ conservation for each entry

  /** A completion that finds its call, under the same entry. */
  predicate Matched(s: State, line: Line) {
    (line.Return? || line.Throw?) && Observed(line) ==> line.id in s.pending && s.pending[line.id] == KeyOf(line.op)
  }

  /** No reuse, no orphan, and every completion carries its call's service and signature. */
  predicate Clean(lines: seq<Line>) {
    forall i | 0 <= i < |lines| :: !Reuses(After(lines[..i]), lines[i]) && Matched(After(lines[..i]), lines[i])
  }

  predicate EntryBalanced(s: State, k: ApiKey) {
    var api := Entry(s.apis, k);
    api.calls == api.returned + api.thrown + |PendingOf(s.pending, k)|
  }

  lemma {:induction false} DeclareKeepsCounts(apis: map<ApiKey, Api>, service: string, methods: seq<Declared>,
                                              k: ApiKey)
    ensures var before, after := Entry(apis, k), Entry(Declare(apis, service, methods), k);
            after == before.(coverage := after.coverage)
    decreases methods
  {
    if methods != [] {
      var j := DeclaredKey(service, methods[0]);
      DeclareKeepsCounts(apis[j := Entry(apis, j).(coverage := methods[0].coverage)], service, methods[1..], k);
    }
  }

  /** The last declaration in the catalog of what belongs to entry `k`, if there is one. */
  predicate LastDeclared(service: string, methods: seq<Declared>, i: nat, k: ApiKey) {
    && i < |methods| && DeclaredKey(service, methods[i]) == k
    && forall j | i < j < |methods| :: DeclaredKey(service, methods[j]) != k
  }

  /** After a catalog a declared entry is there with the coverage that was declared for it last, and an entry
  that is not declared is as it was. */
  ghost predicate CoveredAt(before: map<ApiKey, Api>, service: string, methods: seq<Declared>,
                            after: map<ApiKey, Api>, k: ApiKey) {
    && (forall i: nat | LastDeclared(service, methods, i, k) :: k in after && after[k].coverage == methods[i].coverage)
    && ((forall i: nat :: !LastDeclared(service, methods, i, k)) ==>
          (k in after <==> k in before) && (k in after ==> after[k] == before[k]))
  }

  lemma {:induction false} DeclareLast(apis: map<ApiKey, Api>, service: string, methods: seq<Declared>)
    requires methods != []
    ensures var last := |methods| - 1;
            var before, k := Declare(apis, service, methods[..last]), DeclaredKey(service, methods[last]);
            Declare(apis, service, methods) == before[k := Entry(before, k).(coverage := methods[last].coverage)]
    decreases methods
  {
    if |methods| > 1 {
      var k := DeclaredKey(service, methods[0]);
      DeclareLast(apis[k := Entry(apis, k).(coverage := methods[0].coverage)], service, methods[1..]);
      assert methods[1..][..|methods| - 2] == methods[..|methods| - 1][1..];
    }
  }

  lemma LastDeclaredBefore(service: string, fewer: seq<Declared>, d: Declared, k: ApiKey)
    requires DeclaredKey(service, d) != k
    ensures forall i: nat :: LastDeclared(service, fewer + [d], i, k) <==> LastDeclared(service, fewer, i, k)
  {
    var methods := fewer + [d];
    assert methods[|fewer|] == d && forall j | 0 <= j < |fewer| :: methods[j] == fewer[j];
    forall i: nat ensures LastDeclared(service, methods, i, k) <==> LastDeclared(service, fewer, i, k) {
      if LastDeclared(service, methods, i, k) {
        assert i < |fewer|;
        assert forall j | i < j < |fewer| :: DeclaredKey(service, methods[j]) == DeclaredKey(service, fewer[j]);
      }
    }
  }

  lemma {:induction false} DeclareCovers(apis: map<ApiKey, Api>, service: string, methods: seq<Declared>, k: ApiKey)
    ensures CoveredAt(apis, service, methods, Declare(apis, service, methods), k)
    decreases |methods|
  {
    if methods != [] {
      var last := |methods| - 1;
      var fewer, d := methods[..last], methods[last];
      assert methods == fewer + [d];
      DeclareLast(apis, service, methods);
      DeclareCovers(apis, service, fewer, k);
      if DeclaredKey(service, d) == k {
        assert LastDeclared(service, methods, last, k);
      } else {
        LastDeclaredBefore(service, fewer, d, k);
      }
    }
  }

  lemma StepKeepsEntry(s: State, line: Line, k: ApiKey)
    requires EntryBalanced(s, k) && !Reuses(s, line) && Matched(s, line)
    ensures EntryBalanced(Apply(s, line), k)
  {
    var t := Apply(s, line);
    if line.Catalog? {
      DeclareKeepsCounts(s.apis, line.service, line.methods, k);
    } else if Observed(line) {
      if line.Call? {
        PendingTakesOut(t.pending, line.id, k);
        assert t.pending - {line.id} == s.pending;
      } else {
        PendingTakesOut(s.pending, line.id, k);
      }
    }
  }

  lemma {:induction false} CleanKeepsEntry(lines: seq<Line>, k: ApiKey)
    requires Clean(lines)
    ensures EntryBalanced(After(lines), k)
  {
    if lines == [] {
      assert PendingOf(START.pending, k) == {};
    } else {
      var last := |lines| - 1;
      var before := lines[..last];
      assert forall i | 0 <= i < last :: before[..i] == lines[..i] && before[i] == lines[i];
      CleanKeepsEntry(before, k);
      StepKeepsEntry(After(before), lines[last], k);
    }
  }

  /** In a clean trace the books balance for each entry of the report by itself. */
  lemma {:induction false} EntryConservation(lines: seq<Line>, k: ApiKey)
    requires Clean(lines) && k in After(lines).apis
    ensures var api := Finish(After(lines).apis, After(lines).pending)[k];
            api.calls == api.returned + api.thrown + api.unfinished
  {
    CleanKeepsEntry(lines, k);
    TraceOpen(lines);
  }

  // ------------------------------------------------------------------ exceptions

  const AMOUNT := (n: nat) => n as int

  ghost predicate Filed(s: State, k: ApiKey) {
    Total(Entry(s.apis, k).exceptions, AMOUNT) == Entry(s.apis, k).thrown
  }

  lemma CompletedFiled(api: Api, line: Line)
    requires line.Return? || line.Throw?
    requires Total(api.exceptions, AMOUNT) == api.thrown
    ensures Total(Completed(api, line).exceptions, AMOUNT) == Completed(api, line).thrown
  {
    if line.Throw? {
      TotalUpdate<string, nat>(api.exceptions, AMOUNT, line.exception, Count(api.exceptions, line.exception) + 1);
    }
  }

  lemma StepKeepsFiled(s: State, line: Line, k: ApiKey)
    requires Filed(s, k)
    ensures Filed(Apply(s, line), k)
  {
    if line.Catalog? {
      DeclareKeepsCounts(s.apis, line.service, line.methods, k);
    } else if Observed(line) && !line.Call? && KeyOf(line.op) == k {
      CompletedFiled(Entry(s.apis, k), line);
    }
  }

  /** Each throw of an entry is filed under one exception. */
  lemma {:induction false} ThrowsFiled(lines: seq<Line>, k: ApiKey)
    ensures Total(Entry(After(lines).apis, k).exceptions, AMOUNT) == Entry(After(lines).apis, k).thrown
  {
    if lines != [] {
      ThrowsFiled(lines[..|lines| - 1], k);
      StepKeepsFiled(After(lines[..|lines| - 1]), lines[|lines| - 1], k);
    }
  }
}
