/** The pass itself: one loop over the lines of the trace, with the loops over a catalog and over the calls that
are left. */
module ReportPass {
  import opened Options
  import opened ActivityReport
  import opened ReportMeaning

  /** The part of the report that is counted; the source also sorts the entries. */
  datatype Report = Report(interfaces: map<string, string>, apis: map<ApiKey, Api>, truncated: bool, invalid: nat,
                           stopped: bool, orphans: nat)

  lemma EntriesSay(lines: seq<Line>, apis: map<ApiKey, Api>)
    requires apis == Finish(After(lines).apis, After(lines).pending)
    ensures forall k :: k in apis <==> Known(lines, k)
    ensures forall k | k in apis :: EntryMeans(lines, k, apis[k])
  {
    forall k ensures (k in apis <==> Known(lines, k)) && (k in apis ==> EntryMeans(lines, k, apis[k])) {
      EntriesMean(lines, k);
    }
  }

  lemma EmptyIffNoCatalog(lines: seq<Line>, interfaces: map<string, string>)
    requires forall service :: InterfaceOf(lines, interfaces, service)
    ensures interfaces == map[] <==> forall i | 0 <= i < |lines| :: !lines[i].Catalog?
  {
    if i :| 0 <= i < |lines| && lines[i].Catalog? {
      assert InterfaceOf(lines, interfaces, lines[i].service);
    }
    if service :| service in interfaces {
      assert InterfaceOf(lines, interfaces, service);
    }
  }

  lemma CatalogsSay(lines: seq<Line>)
    ensures forall service :: InterfaceOf(lines, After(lines).interfaces, service)
  {
    forall service ensures InterfaceOf(lines, After(lines).interfaces, service) {
      InterfacesAre(lines, service);
    }
  }

  /** What the report must be, from the lines of the trace alone. */
  ghost predicate Says(lines: seq<Line>, report: Report) {
    && (forall k :: k in report.apis <==> Known(lines, k))
    && (forall k | k in report.apis :: EntryMeans(lines, k, report.apis[k]))
    && (forall service :: InterfaceOf(lines, report.interfaces, service))
    && report.orphans == |Orphans(lines)|
    && Flags(lines, report.invalid, report.truncated, report.stopped)
  }

  lemma FoldSays(lines: seq<Line>)
    ensures var s := After(lines);
            && Says(lines, Report(s.interfaces, Finish(s.apis, s.pending),
                                  s.truncated, s.invalid, s.stopped, s.orphans))
            && (s.interfaces == map[] <==> forall i | 0 <= i < |lines| :: !lines[i].Catalog?)
  {
    var s := After(lines);
    EntriesSay(lines, Finish(s.apis, s.pending));
    CatalogsSay(lines);
    EmptyIffNoCatalog(lines, s.interfaces);
    OrphansAre(lines);
    FlagsAre(lines);
  }

  /** `activity_api_report` on the parsed lines of the trace: None when no catalog was seen. */
  method ActivityApiReport(lines: seq<Line>) returns (report: Option<Report>)
    ensures var s := After(lines);
            report == if s.interfaces == map[] then None
                      else Some(Report(s.interfaces, Finish(s.apis, s.pending),
                                       s.truncated, s.invalid, s.stopped, s.orphans))
    // what it says, line by line
    ensures report.None? <==> forall i | 0 <= i < |lines| :: !lines[i].Catalog?
    ensures report.Some? ==> Says(lines, report.value)
  {
    var s := ReadLines(lines);
    TraceOpen(lines);
    FoldSays(lines);
    var apis := MarkUnfinished(s.apis, s.pending);
    report := if s.interfaces == map[] then None
              else Some(Report(s.interfaces, apis, s.truncated, s.invalid, s.stopped, s.orphans));
  }

  /** The loop over the lines. */
  method ReadLines(lines: seq<Line>) returns (s: State)
    ensures s == After(lines)
  {
    var apis, pending, interfaces := START.apis, START.pending, START.interfaces;
    var invalid: nat, orphans: nat, truncated, stopped := 0, 0, false, false;
    for n := 0 to |lines|
      invariant State(apis, pending, interfaces, invalid, orphans, truncated, stopped) == After(lines[..n])
    {
      assert lines[..n + 1][..n] == lines[..n];
      match lines[n] {
        case Invalid => invalid := invalid + 1;
        case Catalog(service, interface, methods) =>
          interfaces := interfaces[service := interface];
          apis := DeclareAll(apis, service, methods);
        case Call(op, id, caller) =>
          apis, pending := ReadCall(apis, pending, op, id, caller);
        case Truncated => truncated := true;
        case Stopped => stopped := true;
        case Other =>
        case _ =>
          apis, pending, orphans := ReadCompletion(apis, pending, orphans, lines[n]);
      }
    }
    assert lines[..|lines|] == lines;
    s := State(apis, pending, interfaces, invalid, orphans, truncated, stopped);
  }

  method ReadCall(apis: map<ApiKey, Api>, pending: map<CallId, ApiKey>, op: Operation, id: CallId, caller: string)
    returns (apis': map<ApiKey, Api>, pending': map<CallId, ApiKey>)
    ensures forall s: State | s.apis == apis && s.pending == pending ::
              Apply(s, Call(op, id, caller)) == s.(apis := apis', pending := pending')
  {
    apis', pending' := apis, pending;
    if op.service in SERVICES {
      var k := KeyOf(op);
      var api := Entry(apis, k);
      api := api.(calls := api.calls + 1);
      pending' := pending'[id := k];
      if api.firstCaller.None? {
        api := api.(firstCaller := Some(caller));
      }
      apis' := apis'[k := api];
    }
  }

  method ReadCompletion(apis: map<ApiKey, Api>, pending: map<CallId, ApiKey>, orphans: nat, line: Line)
    returns (apis': map<ApiKey, Api>, pending': map<CallId, ApiKey>, orphans': nat)
    requires line.Return? || line.Throw?
    ensures forall s: State | s.apis == apis && s.pending == pending && s.orphans == orphans ::
              Apply(s, line) == s.(apis := apis', pending := pending', orphans := orphans')
  {
    apis', pending', orphans' := apis, pending, orphans;
    if line.op.service in SERVICES {
      if line.id !in pending {
        orphans' := orphans' + 1;
      }
      pending' := pending' - {line.id};
      var k := KeyOf(line.op);
      apis' := apis'[k := Completed(Entry(apis, k), line)];
    }
  }

  method DeclareAll(apis: map<ApiKey, Api>, service: string, methods: seq<Declared>) returns (all: map<ApiKey, Api>)
    ensures all == Declare(apis, service, methods)
    ensures forall k :: CoveredAt(apis, service, methods, all, k)
  {
    all := apis;
    for n := 0 to |methods|
      invariant Declare(all, service, methods[n..]) == Declare(apis, service, methods)
    {
      var k := DeclaredKey(service, methods[n]);
      all := all[k := Entry(all, k).(coverage := methods[n].coverage)];
      assert methods[n..][1..] == methods[n + 1..];
    }
    forall k ensures CoveredAt(apis, service, methods, all, k) {
      DeclareCovers(apis, service, methods, k);
    }
  }

  lemma FinishAddsOne(apis: map<ApiKey, Api>, seen: map<CallId, ApiKey>, id: CallId, k: ApiKey)
    requires id !in seen && k in apis
    ensures var before := Finish(apis, seen);
            Finish(apis, seen[id := k]) == before[k := before[k].(unfinished := before[k].unfinished + 1)]
  {
    assert seen[id := k] - {id} == seen;
    FinishTakesOut(apis, seen[id := k], id);
  }

  /** The pending calls that are not among `left`. */
  function Outside(pending: map<CallId, ApiKey>, left: set<CallId>): map<CallId, ApiKey> {
    map id | id in pending && id !in left :: pending[id]
  }

  lemma MarkOne(apis: map<ApiKey, Api>, pending: map<CallId, ApiKey>, left: set<CallId>, id: CallId)
    requires id in left && id in pending && pending[id] in apis
    ensures var before, k := Finish(apis, Outside(pending, left)), pending[id];
            k in before
            && Finish(apis, Outside(pending, left - {id}))
               == before[k := before[k].(unfinished := before[k].unfinished + 1)]
  {
    assert Outside(pending, left - {id}) == Outside(pending, left)[id := pending[id]];
    FinishAddsOne(apis, Outside(pending, left), id, pending[id]);
  }

  method MarkUnfinished(apis: map<ApiKey, Api>, pending: map<CallId, ApiKey>) returns (marked: map<ApiKey, Api>)
    requires forall id | id in pending :: pending[id] in apis
    ensures marked == Finish(apis, pending)
  {
    marked := apis;
    var left := pending.Keys;
    assert Outside(pending, left) == map[] && Outside(pending, {}) == pending;
    NothingPending(apis);
    while left != {}
      invariant left <= pending.Keys && marked == Finish(apis, Outside(pending, left))
      decreases left
    {
      var id :| id in left;
      var k := pending[id];
      MarkOne(apis, pending, left, id);
      marked := marked[k := marked[k].(unfinished := marked[k].unfinished + 1)];
      left := left - {id};
    }
  }
}
