/** The answer to a remote Activity request: the account publish, the result files and, last of all, the
`done` file. Calls are serialised by the lock of the completion, so they happen one after the other. */
module ActivityCompletion {
  import opened Options
  import opened SharedAccounts

  /** `RESULT_FILES` in the source. */
  datatype ResultName = Nested | Result | Response

  const RESULTS := [Nested, Result, Response]

  type Results = map<ResultName, string>

  function Index(r: ResultName): (k: nat)
    ensures k < |RESULTS| && RESULTS[k] == r
  {
    match r case Nested => 0 case Result => 1 case Response => 2
  }

  datatype Effect = Published | ResultCopied(name: ResultName, data: string) | StagedCleared | DoneWritten

  /** The copies one attempt makes, for the first `n` names. */
  function Copies(staged: Results, n: nat): seq<Effect>
    requires n <= |RESULTS|
  {
    if n == 0 then []
    else
      var name := RESULTS[n - 1];
      Copies(staged, n - 1) + if name in staged then [ResultCopied(name, staged[name])] else []
  }

  function AllCopies(staged: Results): seq<Effect> {
    Copies(staged, |RESULTS|)
  }

  /** What `finish_request` does, in order. */
  function Finishing(staged: Results): seq<Effect> {
    AllCopies(staged) + [StagedCleared, DoneWritten]
  }

  /** Everything a complete attempt does, in order. */
  function Complete(staged: Results): seq<Effect> {
    [Published] + Finishing(staged)
  }

  /** The copies are those of the staged results, each once and in the order of the list. */
  lemma {:induction false} CopiesAreResults(staged: Results, n: nat)
    requires n <= |RESULTS|
    ensures forall e | e in Copies(staged, n) ::
              e.ResultCopied? && e.name in staged && e.data == staged[e.name] && Index(e.name) < n
    ensures forall r | r in staged && Index(r) < n :: ResultCopied(r, staged[r]) in Copies(staged, n)
    ensures forall i, j | 0 <= i < j < |Copies(staged, n)| ::
              Index(Copies(staged, n)[i].name) < Index(Copies(staged, n)[j].name)
  {
    if n > 0 {
      var m := n - 1;
      CopiesAreResults(staged, m);
      IndexOf(m);
      assert forall i | 0 <= i < |Copies(staged, m)| :: Copies(staged, m)[i] in Copies(staged, m);
    }
  }

  lemma IndexOf(n: nat)
    requires n < |RESULTS|
    ensures Index(RESULTS[n]) == n
  {
  }

  predicate DoneOnlyLast(log: seq<Effect>) {
    forall i | 0 <= i < |log| && log[i].DoneWritten? :: i == |log| - 1
  }

  predicate EndsDone(log: seq<Effect>) {
    log != [] && log[|log| - 1].DoneWritten?
  }

  lemma CompleteEndsDone(staged: Results)
    ensures EndsDone(Complete(staged)) && DoneOnlyLast(Complete(staged))
    ensures forall r | r in staged :: ResultCopied(r, staged[r]) in Complete(staged)[..|Complete(staged)| - 1]
  {
    CopiesAreResults(staged, |RESULTS|);
    var full, copies := Complete(staged), AllCopies(staged);
    assert full == [Published] + copies + [StagedCleared] + [DoneWritten];
    assert full[..|full| - 1] == [Published] + copies + [StagedCleared];
    forall i | 0 <= i < |full| - 1 ensures !full[i].DoneWritten? {
      assert 0 < i < |full| - 2 ==> full[i] == copies[i - 1] && copies[i - 1] in copies;
    }
  }

  /** A prefix of a complete attempt writes `done` exactly when it is the whole of it, and then last, after
  the account publish and the copies of all staged results. */
  lemma PrefixOfComplete(staged: Results, effects: seq<Effect>)
    requires effects <= Complete(staged)
    ensures DoneOnlyLast(effects)
    ensures (exists i :: 0 <= i < |effects| && effects[i].DoneWritten?) <==> effects == Complete(staged)
    ensures effects == Complete(staged) ==>
              effects[0].Published? && forall r | r in staged :: ResultCopied(r, staged[r]) in effects[..|effects| - 1]
  {
    CompleteEndsDone(staged);
    var full := Complete(staged);
    assert full[|full| - 1].DoneWritten?;
    assert |effects| == |full| ==> effects == full;
  }

  /** What one attempt adds to the log of unfinished ones. */
  lemma LogGrows(log: seq<Effect>, staged: Results, effects: seq<Effect>)
    requires DoneOnlyLast(log) && !EndsDone(log) && [Published] <= effects <= Complete(staged)
    ensures DoneOnlyLast(log + effects) && Published in log + effects
    ensures EndsDone(log + effects) <==> effects == Complete(staged)
  {
    PrefixOfComplete(staged, effects);
    CompleteEndsDone(staged);
    assert (log + effects)[|log|].Published?;
  }

  /** The copies made so far are the first ones of all, and not yet all while another one is due. */
  lemma {:induction false} CopiesGrow(staged: Results, n: nat, m: nat)
    requires n <= m <= |RESULTS|
    ensures Copies(staged, n) <= Copies(staged, m)
    ensures (exists k | n <= k < m :: RESULTS[k] in staged) ==> |Copies(staged, n)| < |Copies(staged, m)|
  {
    if n < m {
      CopiesGrow(staged, n, m - 1);
    }
  }

  /** Only staged results, as staged, replaced or joined what was in the request directory. */
  predicate OnlyStaged(before: Results, after: Results, staged: Results) {
    before.Keys <= after.Keys
    && forall r | r in after && (r !in before || after[r] != before[r]) :: r in staged && after[r] == staged[r]
  }

  /** Every staged result is in the request directory. */
  predicate AllAnswered(staged: Results, answer: Results) {
    forall r | r in staged :: r in answer && answer[r] == staged[r]
  }

  predicate Answered(staged: Results, answer: Results, n: nat)
    requires n <= |RESULTS|
  {
    forall k | 0 <= k < n && RESULTS[k] in staged :: RESULTS[k] in answer && answer[RESULTS[k]] == staged[RESULTS[k]]
  }

  lemma AnswerOne(before: Results, after: Results, staged: Results, n: nat)
    requires n < |RESULTS| && OnlyStaged(before, after, staged) && Answered(staged, after, n)
    ensures var next := if RESULTS[n] in staged then after[RESULTS[n] := staged[RESULTS[n]]] else after;
            OnlyStaged(before, next, staged) && Answered(staged, next, n + 1)
  {
  }

  lemma AnsweredAll(staged: Results, answer: Results)
    requires Answered(staged, answer, |RESULTS|)
    ensures AllAnswered(staged, answer)
  {
    forall r | r in staged ensures r in answer && answer[r] == staged[r] {
      assert RESULTS[Index(r)] in staged;
    }
  }

  // ------------------------------------------------------------------ the guest, meanwhile

  /** What is staged when each result has its turn to be copied, and, last, when the staged answer is removed:
  the guest may stage results, and take them back, while it is being answered. */
  type Stages = s: seq<Results> | |s| == |RESULTS| + 1
    witness [map[], map[], map[], map[]]

  function Removal(stages: Stages): Results {
    stages[|RESULTS|]
  }

  /** Each result as it is staged at its own turn: what the copies hand over. */
  function Turns(stages: Stages): Results {
    map r: ResultName | r in stages[Index(r)] :: stages[Index(r)][r]
  }

  /** The results staged after their turn, and so removed without having been copied. */
  function Late(stages: Stages): set<ResultName> {
    set r | r in Removal(stages) && !(r in Turns(stages) && Turns(stages)[r] == Removal(stages)[r])
  }

  predicate Quiet(stages: Stages) {
    forall n | 0 <= n < |RESULTS| :: stages[n] == Removal(stages)
  }

  lemma QuietIsNeverLate(stages: Stages)
    requires Quiet(stages)
    ensures Late(stages) == {} && Turns(stages) == Removal(stages)
  {
    assert forall r: ResultName :: stages[Index(r)] == Removal(stages);
  }

  /** What the guest has given, `staged` having become `next`: a result taken back is not given any more. */
  function Given(given: Results, staged: Results, next: Results): Results {
    map r | r in given.Keys + next.Keys && (r in next || r !in staged) :: if r in next then next[r] else given[r]
  }

  /** Of what the guest gave, everything is still staged, was handed over, or was late. */
  predicate Accounted(given: Results, staged: Results, answer: Results, late: set<ResultName>) {
    && (forall r | r in staged :: r in given && given[r] == staged[r])
    && (forall r | r in given && r !in staged && r !in late :: r in answer && answer[r] == given[r])
  }

  lemma StagingAccounted(given: Results, staged: Results, next: Results, answer: Results, late: set<ResultName>)
    requires Accounted(given, staged, answer, late)
    ensures Accounted(Given(given, staged, next), next, answer, late - next.Keys)
    ensures next == staged ==> Given(given, staged, next) == given
  {
  }

  /** The removal of the staged answer loses nothing exactly when whatever the guest staged anew after its
  turn is in the request directory all the same. */
  lemma NothingLostIff(given: Results, stages: Stages, before: Results, late: set<ResultName>)
    requires Accounted(given, Removal(stages), before + Turns(stages), late) && late !! Removal(stages).Keys
    ensures Accounted(given, map[], before + Turns(stages), late) <==>
            forall r | r in Late(stages) :: r !in Turns(stages) && r in before && before[r] == Removal(stages)[r]
  {
    var answer := before + Turns(stages);
    forall r | r in Removal(stages)
      ensures (r in answer && answer[r] == Removal(stages)[r])
              <==> (r in Late(stages) ==> r !in Turns(stages) && r in before && before[r] == Removal(stages)[r])
    {
    }
    assert forall r | r in Removal(stages) :: r in given && given[r] == Removal(stages)[r];
  }

  /** A result staged between its turn and the removal is deleted, and nobody has it. */
  lemma LateResult(r: ResultName, data: string)
    ensures var late: Stages := [map[], map[], map[], map[r := data]];
            Turns(late) == map[] && Late(late) == {r} && !Accounted(map[r := data], map[], map[], {})
  {
    var late: Stages := [map[], map[], map[], map[r := data]];
    assert forall q: ResultName :: late[Index(q)] == map[];
    assert Turns(late) == map[];
  }

  // ------------------------------------------------------------------ the operations

  /** Where one call fails: in the publish after `published` writes, in the copies after `copied` results,
  or when `done` is created. */
  datatype Fault = Fault(published: nat, copied: nat, create: bool)

  /** Whether the account publish of an attempt raises: there is something to write, and a write fails. */
  predicate PublishFails(root: Root, fault: Fault) {
    root.marker != Some(StampOf(root.files)) && Accounts in root.files && fault.published <= 6
  }

  class Completion {
    const shared: Directory
    const root: Directory
    var staged: Results       // the guest's answer, in the root
    var answer: Results       // the request directory
    var done: bool
    var finished: bool
    ghost var log: seq<Effect>
    ghost var given: Results  // what the guest staged before the answer was complete
    ghost var late: set<ResultName>
    ghost const planted: bool // whether the app had put something at `done` before

    /** Also between the creation of `done` and the end of the call. */
    ghost predicate Consistent()
      reads this
    {
      && shared != root
      && DoneOnlyLast(log) && (finished <==> EndsDone(log))
      && (finished ==> done && Published in log && Accounted(given, map[], answer, late))
      && (!finished ==> Accounted(given, staged, answer, late))
    }

    ghost predicate Valid()
      reads this
    {
      Consistent() && (done ==> finished || planted)
    }

    constructor (shared: Directory, root: Directory, answer: Results, done: bool)
      requires shared != root
      ensures Valid() && !finished && this.shared == shared && this.root == root
      ensures log == [] && given == map[] && late == {} && this.done == planted == done && this.answer == answer
    {
      planted := done;
      this.shared, this.root, this.answer, this.done := shared, root, answer, done;
      staged, given, late, finished, log := map[], map[], {}, false, [];
    }

    /** The guest stages results, again perhaps, or takes some back. */
    method Stage(next: Results)
      requires Valid()
      modifies this`staged, this`given, this`late
      ensures Valid() && staged == next
      ensures !finished ==> given == Given(old(given), old(staged), next) && late == old(late) - next.Keys
      ensures finished || next == old(staged) ==> given == old(given)
      ensures finished ==> late == old(late)
    {
      if !finished {
        StagingAccounted(given, staged, next, answer, late);
        given, late := Given(given, staged, next), late - next.Keys;
      }
      staged := next;
    }

    method HandOver(name: ResultName)
      requires Valid() && !finished && name in staged
      modifies this`answer
      ensures Valid() && answer == old(answer)[name := staged[name]]
    {
      answer := answer[name := staged[name]];
    }

    /** The copies of `finish_request`; `good` of them succeed. */
    method CopyResults(good: nat, stages: Stages) returns (copied: bool, ghost effects: seq<Effect>)
      requires Valid() && !finished
      modifies this`answer, this`staged, this`given, this`late
      ensures Valid()
      ensures effects <= AllCopies(Turns(stages)) && (copied <==> effects == AllCopies(Turns(stages)))
      ensures copied <==> good >= |AllCopies(Turns(stages))|
      ensures OnlyStaged(old(answer), answer, Turns(stages))
      ensures copied ==> AllAnswered(Turns(stages), answer)
      ensures late <= old(late)
      ensures Quiet(stages) && old(staged) == Removal(stages) ==> staged == old(staged) && given == old(given)
    {
      effects := [];
      var count := 0;
      ghost var turns := Turns(stages);
      for n := 0 to |RESULTS|
        invariant Valid() && count == |effects| <= good && effects == Copies(turns, n)
        invariant OnlyStaged(old(answer), answer, turns) && Answered(turns, answer, n)
        invariant late <= old(late)
        invariant Quiet(stages) && old(staged) == Removal(stages) ==> staged == old(staged) && given == old(given)
      {
        var name := RESULTS[n];
        CopiesGrow(turns, n, |RESULTS|);
        AnswerOne(old(answer), answer, turns, n);
        IndexOf(n);
        Stage(stages[n]);
        if name in staged {
          if count == good {
            return false, effects;
          }
          HandOver(name);
          effects := effects + [ResultCopied(name, staged[name])];
          count := count + 1;
        }
      }
      AnsweredAll(turns, answer);
      copied := true;
    }

    /** The removal of the staged answer, which loses what was late. */
    method ClearStaged(stages: Stages)
      requires Valid() && !finished && AllAnswered(Turns(stages), answer)
      modifies this`staged, this`given, this`late
      ensures Valid() && staged == map[]
      ensures given == Given(old(given), old(staged), Removal(stages))
      ensures Removal(stages) == old(staged) ==> given == old(given)
      ensures late <= old(late) + Late(stages)
    {
      Stage(Removal(stages));
      late := late + Late(stages);
      staged := map[];
    }

    /** `finish_request`: the copies, the removal of the staged answer, and `done` last. */
    method FinishRequest(fault: Fault, stages: Stages) returns (ok: bool, ghost effects: seq<Effect>)
      requires Valid() && !finished
      modifies this`answer, this`staged, this`done, this`given, this`late
      ensures Consistent() && (!ok ==> Valid())
      ensures effects <= Finishing(Turns(stages)) && (ok <==> effects == Finishing(Turns(stages)))
      ensures OnlyStaged(old(answer), answer, Turns(stages))
      // `done` is touched only after all copies, and written only when they and its creation succeed
      ensures done == if fault.copied < |AllCopies(Turns(stages))| then old(done) else !fault.create
      ensures ok <==> fault.copied >= |AllCopies(Turns(stages))| && !fault.create
      ensures done && !old(done) ==> ok
      ensures ok ==> staged == map[] && AllAnswered(Turns(stages), answer)
      ensures late <= old(late) + Late(stages)
      ensures Quiet(stages) && old(staged) == Removal(stages) ==> given == old(given)
    {
      var copied;
      copied, effects := CopyResults(fault.copied, stages);
      ok := copied && !fault.create;
      if !copied { return; }
      effects := effects + [StagedCleared];
      ClearStaged(stages);
      done := ok;
      if ok {
        effects := effects + [DoneWritten];
      }
    }

    /** One call, while the guest goes on. What it does is a prefix of a complete attempt; it returns normally
    exactly when the attempt is complete or an earlier call was. Whatever the guest gave is staged or handed
    over after each call, and all of it is handed over, and stays so, once `done` was written, but for what
    was staged after its turn. */
    method Call(fault: Fault, stages: Stages) returns (ok: bool)
      requires Valid()
      modifies this, shared`files, root`marker
      ensures Valid() && (ok <==> finished)
      ensures old(finished) ==>
                && ok && log == old(log) && answer == old(answer) && done == old(done) && staged == old(staged)
                && given == old(given) && late == old(late)
                && shared.files == old(shared.files) && root.marker == old(root.marker)
      ensures !old(finished) ==>
                exists effects :: effects <= Complete(Turns(stages)) && log == old(log) + effects
                                  && (ok <==> effects == Complete(Turns(stages)))
      ensures OnlyStaged(old(answer), answer, Turns(stages))
      // the outcome of every step, and `done`, which appears only after the publish and all copies
      ensures ok <==> old(finished) || (!PublishFails(old(root.AsRoot(false)), fault)
                                        && fault.copied >= |AllCopies(Turns(stages))| && !fault.create)
      ensures done == if old(finished) || PublishFails(old(root.AsRoot(false)), fault)
                         || fault.copied < |AllCopies(Turns(stages))| then old(done) else !fault.create
      ensures done && !old(done) ==> ok
      ensures !old(finished) && ok ==>
                && done && AllAnswered(Turns(stages), answer) && root.files == old(root.files)
                && shared.files == if old(root.marker == Some(StampOf(root.files)) || Accounts !in root.files)
                                   then old(shared.files) else root.files
      // nothing is lost but what is staged anew after its turn; with a quiet guest, nothing at all
      ensures late <= old(late) + Late(stages)
      ensures Quiet(stages) && old(staged) == Removal(stages) ==> given == old(given) && late <= old(late)
    {
      if finished { return true; }
      if Quiet(stages) { QuietIsNeverLate(stages); }
      var outcome := PublishShared(shared, root, fault.published);
      if outcome.Raised? {
        assert [] <= Complete(Turns(stages)) && log == log + [];
        return false;
      }
      ok := Answer(fault, stages);
    }

    /** The rest of a call, once the accounts were published. */
    method Answer(fault: Fault, stages: Stages) returns (ok: bool)
      requires Valid() && !finished
      modifies this
      ensures Valid() && (ok <==> finished)
      ensures exists effects :: effects <= Complete(Turns(stages)) && log == old(log) + effects
                                && (ok <==> effects == Complete(Turns(stages)))
      ensures OnlyStaged(old(answer), answer, Turns(stages))
      ensures ok ==> AllAnswered(Turns(stages), answer)
      ensures ok <==> fault.copied >= |AllCopies(Turns(stages))| && !fault.create
      ensures done == if fault.copied < |AllCopies(Turns(stages))| then old(done) else !fault.create
      ensures late <= old(late) + Late(stages)
      ensures Quiet(stages) && old(staged) == Removal(stages) ==> given == old(given)
    {
      ghost var effects;
      ok, effects := FinishRequest(fault, stages);
      effects := [Published] + effects;
      LogGrows(log, Turns(stages), effects);
      finished := ok;
      log := log + effects;
    }
  }
}
