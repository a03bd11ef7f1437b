/** What holds over every sequence of polls, resets and clock values. */
module GamepadRuns {
  import opened Options
  import opened Gamepad

  predicate Run(readers: seq<Reader>, events: seq<Event>) {
    && |readers| == |events| + 1
    && readers[0] == INITIAL
    && forall i | 0 <= i < |events| :: readers[i + 1] == Next(readers[i], events[i])
  }

  // ------------------------------------------------------------------ repeats

  /** The held actions are among those seen down and repeatable. */
  predicate HeldFits(r: Reader) {
    forall a | a in r.held :: a in r.seen && Repeating(a)
  }

  lemma {:induction false} RunHeldFits(readers: seq<Reader>, events: seq<Event>, i: nat)
    requires Run(readers, events) && i < |readers|
    ensures HeldFits(readers[i]) && (readers[i].baseline ==> readers[i].held == map[])
  {
    if i > 0 {
      RunHeldFits(readers, events, i - 1);
      assert readers[i] == Next(readers[i - 1], events[i - 1]);
    }
  }

  predicate Monotone(events: seq<Event>) {
    forall i, j | 0 <= i < j < |events| && events[i].Poll? && events[j].Poll? :: events[i].now <= events[j].now
  }

  /** With a monotone clock, after every poll each held action repeats after now, at the latest 0.4 s from now. */
  lemma {:induction false} HeldTimes(readers: seq<Reader>, events: seq<Event>, i: nat, a: Action)
    requires Run(readers, events) && Monotone(events) && i < |events| && events[i].Poll?
    requires a in readers[i + 1].held
    ensures a in events[i].down && Repeating(a)
    ensures events[i].now < readers[i + 1].held[a] <= events[i].now + 400
  {
    RunHeldFits(readers, events, i);
    RunHeldFits(readers, events, i + 1);
    assert readers[i + 1] == Next(readers[i], events[i]);
    if a in readers[i].held && a !in Pressed(readers[i], events[i].down)
       && a !in Repeated(readers[i], events[i].down, events[i].now) {
      assert i > 0 && readers[i] == Next(readers[i - 1], events[i - 1]);
      HeldTimes(readers, events, i - 1, a);
    }
  }

  /** Action `a` is down at every one of the polls `i` to `j - 1`. */
  predicate Holding(events: seq<Event>, i: nat, j: nat, a: Action)
    requires j <= |events|
  {
    forall n | i <= n < j :: events[n].Poll? && a in events[n].down
  }

  /** How often `a` fires in events `i` to `j - 1`. */
  function Fires(readers: seq<Reader>, events: seq<Event>, i: nat, j: nat, a: Action): nat
    requires |readers| == |events| + 1 && i <= j <= |events|
  {
    if i == j then 0
    else Fires(readers, events, i, j - 1, a) + if a in Fired(readers[j - 1], events[j - 1]) then 1 else 0
  }

  lemma PressHolds(r: Reader, e: Event, a: Action)
    requires e.Poll? && !r.baseline && a in Pressed(r, e.down) && Repeating(a)
    ensures a in Next(r, e).held && Next(r, e).held[a] == e.now + REPEAT_DELAY
            && a in Next(r, e).seen && !Next(r, e).baseline
  {
  }

  lemma HoldContinues(r: Reader, e: Event, a: Action, earliest: int)
    requires e.Poll? && !r.baseline && a in r.held && a in r.seen && a in e.down && r.held[a] >= earliest
    ensures a in Next(r, e).held && a in Next(r, e).seen && !Next(r, e).baseline
    ensures a in Fired(r, e) ==> e.now >= earliest
    ensures Next(r, e).held[a] >= if a in Fired(r, e) then earliest + REPEAT_INTERVAL else earliest
  {
  }

  /** When the next repeat of a hold that began at `start` is due at the earliest, after `k` repeats. */
  function Due(start: int, k: nat): int {
    start + REPEAT_DELAY + REPEAT_INTERVAL * k
  }

  lemma {:induction false} HoldSchedule(readers: seq<Reader>, events: seq<Event>, i: nat, j: nat, a: Action)
    requires Run(readers, events) && i < j <= |events| && Holding(events, i, j, a) && Repeating(a)
    requires !readers[i].baseline && a !in readers[i].seen
    ensures a in readers[j].held && a in readers[j].seen && !readers[j].baseline
    ensures readers[j].held[a] >= Due(events[i].now, Fires(readers, events, i + 1, j, a))
  {
    var m := j - 1;
    assert readers[j] == Next(readers[m], events[m]);
    if j == i + 1 {
      PressHolds(readers[i], events[i], a);
    } else {
      HoldSchedule(readers, events, i, m, a);
      var k := Fires(readers, events, i + 1, m, a);
      HoldContinues(readers[m], events[m], a, Due(events[i].now, k));
      assert Fires(readers, events, i + 1, j, a) == k + if a in Fired(readers[m], events[m]) then 1 else 0;
    }
  }

  /** While an action is held that first fired at poll `i`, its k-th repeat comes no earlier than 0.4 s
  and (k - 1) times 0.11 s later, whatever the clock does. */
  lemma {:induction false} RepeatRate(readers: seq<Reader>, events: seq<Event>, i: nat, j: nat, a: Action)
    requires Run(readers, events) && i < j < |events| && Holding(events, i, j + 1, a) && Repeating(a)
    requires a in Fired(readers[i], events[i]) && a !in readers[i].seen
    requires a in Fired(readers[j], events[j])
    ensures var k := Fires(readers, events, i + 1, j + 1, a);
            k >= 1 && events[j].now >= events[i].now + 400 + 110 * (k - 1)
  {
    HoldSchedule(readers, events, i, j, a);
    HoldContinues(readers[j], events[j], a, Due(events[i].now, Fires(readers, events, i + 1, j, a)));
  }

  /** Poll `f` is the last one from poll `i` on, before poll `j`, at which `a` fired. */
  predicate LastFire(readers: seq<Reader>, events: seq<Event>, i: nat, j: nat, a: Action, f: nat)
    requires |readers| == |events| + 1 && j <= |events|
  {
    && i <= f < j && a in Fired(readers[f], events[f])
    && forall n | f < n < j :: a !in Fired(readers[n], events[n])
  }

  lemma HeldSinceFire(r: Reader, e: Event, a: Action)
    requires e.Poll? && !r.baseline && a in r.held && a in r.seen && a in e.down
    ensures a in Next(r, e).held && a in Next(r, e).seen && !Next(r, e).baseline
    ensures a in Fired(r, e) <==> e.now >= r.held[a]
    ensures Next(r, e).held[a] == if a in Fired(r, e) then e.now + 110 else r.held[a]
  {
  }

  lemma PressAtOnce(r: Reader, e: Event, a: Action)
    requires e.Poll? && !r.baseline && a !in r.seen && a in e.down && Repeating(a)
    ensures a in Fired(r, e) && a in Next(r, e).held && a in Next(r, e).seen && !Next(r, e).baseline
    ensures Next(r, e).held[a] == e.now + 400
  {
  }

  lemma {:induction false} HoldExact(readers: seq<Reader>, events: seq<Event>, i: nat, j: nat, a: Action)
    returns (f: nat)
    requires Run(readers, events) && i < j <= |events| && Holding(events, i, j, a) && Repeating(a)
    requires !readers[i].baseline && a !in readers[i].seen
    ensures LastFire(readers, events, i, j, a, f)
    ensures a in readers[j].held && a in readers[j].seen && !readers[j].baseline
    ensures readers[j].held[a] == events[f].now + if f == i then 400 else 110
  {
    var m := j - 1;
    assert readers[j] == Next(readers[m], events[m]);
    if m == i {
      PressAtOnce(readers[i], events[i], a);
      f := i;
    } else {
      f := HoldExact(readers, events, i, m, a);
      HeldSinceFire(readers[m], events[m], a);
      if a in Fired(readers[m], events[m]) {
        f := m;
      }
    }
  }

  /** While an action is held that was pressed at poll `i`, it fires again exactly at the polls that come at least
  0.4 s after the press, if it has not repeated yet, or else at least 0.11 s after the latest repeat. */
  lemma RepeatsIff(readers: seq<Reader>, events: seq<Event>, i: nat, j: nat, a: Action, f: nat)
    requires Run(readers, events) && i < j < |events| && Holding(events, i, j + 1, a) && Repeating(a)
    requires !readers[i].baseline && a !in readers[i].seen && LastFire(readers, events, i, j, a, f)
    ensures a in Fired(readers[j], events[j]) <==> events[j].now >= events[f].now + if f == i then 400 else 110
  {
    var last := HoldExact(readers, events, i, j, a);
    assert last == f;
    HeldSinceFire(readers[j], events[j], a);
  }

  /** At the second of two polls in a row, every action fires that is down at it and was not at the first; one
  that is not down never does, and one that does not repeat fires only then. */
  lemma FiresAtEdge(readers: seq<Reader>, events: seq<Event>, j: nat, a: Action)
    requires Run(readers, events) && 0 < j < |events| && events[j - 1].Poll? && events[j].Poll?
    ensures a in events[j].down && a !in events[j - 1].down ==> a in Fired(readers[j], events[j])
    ensures a in Fired(readers[j], events[j]) ==> a in events[j].down
    ensures a in Fired(readers[j], events[j]) && a in events[j - 1].down ==>
              a in {Up, Down, Left, Right, PageUp, PageDown}
  {
    var m := j - 1;
    assert readers[j] == Next(readers[m], events[m]);
    RunHeldFits(readers, events, j);
  }

  // ------------------------------------------------------------------ holding back

  lemma StaysHeldBack(r: Reader, e: Event, a: Action)
    requires e.Poll? && a in e.down && a !in r.held && (r.baseline || a in r.seen)
    ensures a !in Fired(r, e)
    ensures a in Next(r, e).seen && a !in Next(r, e).held && !Next(r, e).baseline
  {
  }

  /** An action that was down at the baseline poll `b` and at every poll since never fires, not even as a
  repeat, until it has been seen released. */
  lemma {:induction false} HeldBack(readers: seq<Reader>, events: seq<Event>, b: nat, j: nat, a: Action)
    requires Run(readers, events) && b < j <= |events| && readers[b].baseline && Holding(events, b, j, a)
    ensures Fires(readers, events, b, j, a) == 0
    ensures a in readers[j].seen && a !in readers[j].held && !readers[j].baseline
  {
    var m := j - 1;
    assert readers[j] == Next(readers[m], events[m]);
    if m == b {
      RunHeldFits(readers, events, b);
      assert Fires(readers, events, b, b, a) == 0;
    } else {
      HeldBack(readers, events, b, m, a);
    }
    StaysHeldBack(readers[m], events[m], a);
  }

  /** A reset fires nothing, and neither does the first poll after it. */
  lemma NothingAfterReset(readers: seq<Reader>, events: seq<Event>, i: nat)
    requires Run(readers, events) && i < |events| && events[i].Reset?
    ensures readers[i + 1].baseline && Fired(readers[i], events[i]) == {}
    ensures i + 1 < |events| ==> Fired(readers[i + 1], events[i + 1]) == {}
  {
  }

  /** Losing the focus is such a reset. */
  lemma FocusLossResets(padEvents: seq<PadEvent>, i: nat, pads: seq<Pad>, now: int)
    requires i < |padEvents| && padEvents[i] == Tick(false, pads, now)
    ensures Translated(padEvents)[i].Reset? && StickOf(padEvents[..i + 1]).None?
  {
    TranslatedAt(padEvents, i);
    StickStep(padEvents, i);
  }

  lemma StickStep(events: seq<PadEvent>, i: nat)
    requires i < |events|
    ensures StickOf(events[..i + 1]) == StickNext(StickOf(events[..i]), events[i])
  {
    assert events[..i + 1][..i] == events[..i];
  }

  lemma {:induction false} TranslatedAt(padEvents: seq<PadEvent>, i: nat)
    requires i < |padEvents|
    ensures Translated(padEvents)[i] == EventOf(StickOf(padEvents[..i]), padEvents[i])
  {
    var before := padEvents[..|padEvents| - 1];
    if i < |before| {
      TranslatedAt(before, i);
      assert before[..i] == padEvents[..i];
    }
  }

  // ------------------------------------------------------------------ edges

  /** How often `a` goes from not down to down between consecutive polls, from poll `i` to poll `j - 1`. */
  function Edges(events: seq<Event>, i: nat, j: nat, a: Action): nat
    requires i < j <= |events|
    requires forall n | i <= n < j :: events[n].Poll?
  {
    if j == i + 1 then 0
    else
      Edges(events, i, j - 1, a)
      + if a in events[j - 1].down && a !in events[j - 2].down then 1 else 0
  }

  /** After a baseline poll, an action that does not repeat fires exactly at those edges, whichever pads
  and buttons produce it. */
  lemma {:induction false} EdgesExact(readers: seq<Reader>, events: seq<Event>, b: nat, j: nat, a: Action)
    requires Run(readers, events) && b < j <= |events| && readers[b].baseline
    requires forall n | b <= n < j :: events[n].Poll?
    requires !Repeating(a)
    ensures Fires(readers, events, b, j, a) == Edges(events, b, j, a)
    ensures !readers[j].baseline
  {
    if j > b + 1 {
      EdgesExact(readers, events, b, j - 1, a);
      RunHeldFits(readers, events, j - 1);
      assert readers[j - 1] == Next(readers[j - 2], events[j - 2]);
    }
    assert readers[j] == Next(readers[j - 1], events[j - 1]);
  }

  // ------------------------------------------------------------------ the stick

  /** Reading `k` took hold of the stick and none since let it go. */
  predicate LeaningFrom(readings: seq<Pad>, k: nat) {
    k < |readings| && readings[k].Lean() >= 550 && forall n | k <= n < |readings| :: readings[n].Lean() >= 350
  }

  /** Some reading did. */
  ghost predicate Leaning(readings: seq<Pad>) {
    exists k: nat :: LeaningFrom(readings, k)
  }

  lemma LeaningSnoc(before: seq<Pad>, pad: Pad, k: nat)
    ensures LeaningFrom(before + [pad], k) <==>
              (LeaningFrom(before, k) && pad.Lean() >= STICK_RELEASE) || (k == |before| && pad.Lean() >= STICK_PRESS)
  {
    var readings := before + [pad];
    assert readings[|before|] == pad;
    assert forall n | 0 <= n < |before| :: readings[n] == before[n];
  }

  lemma {:induction false} StickIffLeaning(readings: seq<Pad>)
    ensures StickAfter(None, readings).Some? <==> exists k: nat :: LeaningFrom(readings, k)
    ensures StickAfter(None, readings).Some? ==>
              readings != [] && StickAfter(None, readings).value == readings[|readings| - 1].Direction()
  {
    if readings != [] {
      var before, pad := readings[..|readings| - 1], readings[|readings| - 1];
      assert readings == before + [pad];
      StickIffLeaning(before);
      forall k: nat
        ensures LeaningFrom(readings, k) <==>
                  (LeaningFrom(before, k) && pad.Lean() >= STICK_RELEASE)
                  || (k == |before| && pad.Lean() >= STICK_PRESS)
      {
        LeaningSnoc(before, pad, k);
      }
      if pad.Lean() >= STICK_PRESS {
        assert LeaningFrom(readings, |before|);
      }
    }
  }

  lemma {:induction false} StickJoins(stick: Option<Action>, first: seq<Pad>, second: seq<Pad>)
    ensures StickAfter(stick, first + second) == StickAfter(StickAfter(stick, first), second)
  {
    if second == [] {
      assert first + [] == first;
    } else {
      var last := |second| - 1;
      assert (first + second)[..|first + second| - 1] == first + second[..last];
      StickJoins(stick, first, second[..last]);
    }
  }

  /** All pad readings of events `i` to `j - 1`, one after the other. */
  function Readings(events: seq<PadEvent>, i: nat, j: nat): seq<Pad>
    requires i <= j <= |events|
  {
    if i == j then [] else Readings(events, i, j - 1) + if events[j - 1].Read? then events[j - 1].pads else []
  }

  lemma StickFollowsOne(events: seq<PadEvent>, i: nat, m: nat)
    requires i <= m < |events| && events[m].Read?
    requires StickOf(events[..m]) == StickAfter(None, Readings(events, i, m))
    ensures StickOf(events[..m + 1]) == StickAfter(None, Readings(events, i, m + 1))
  {
    StickStep(events, m);
    StickJoins(None, Readings(events, i, m), events[m].pads);
  }

  lemma {:induction false} StickFollows(events: seq<PadEvent>, i: nat, j: nat)
    requires i <= j <= |events| && StickOf(events[..i]).None?
    requires forall n | i <= n < j :: events[n].Read?
    ensures StickOf(events[..j]) == StickAfter(None, Readings(events, i, j))
  {
    if i == j {
      assert StickAfter(None, []) == None;
    } else {
      var m := j - 1;
      StickFollows(events, i, m);
      assert events[m].Read?;
      StickFollowsOne(events, i, m);
      assert m + 1 == j;
    }
  }

  /** Over every run, with any number of pads: since the last reset the stick points somewhere exactly
  when some reading leaned at least 0.55 and every reading from it to the latest at least 0.35, and then
  along the dominant axis of the latest reading. */
  lemma StickHysteresis(events: seq<PadEvent>, i: nat, j: nat)
    requires i <= j <= |events| && (i == 0 || events[i - 1].Lose?)
    requires forall n | i <= n < j :: events[n].Read?
    ensures var stick, readings := StickOf(events[..j]), Readings(events, i, j);
            && (stick.Some? <==> Leaning(readings))
            && (stick.Some? ==> readings != [] && stick.value == readings[|readings| - 1].Direction())
  {
    if i > 0 {
      StickStep(events, i - 1);
    }
    StickFollows(events, i, j);
    StickIffLeaning(Readings(events, i, j));
  }

  /** Which axis leans further, and to which side, decides the direction; a pad leans as far as that axis. */
  lemma DirectionOf(pad: Pad)
    ensures var x, y := if 0 in pad.axes then pad.axes[0] else 0, if 1 in pad.axes then pad.axes[1] else 0;
            && pad.Lean() >= x && pad.Lean() >= -x && pad.Lean() >= y && pad.Lean() >= -y
            && pad.Lean() in {x, -x, y, -y}
            && (pad.Direction() == Right <==> x > 0 && -x <= y <= x)
            && (pad.Direction() == Left <==> x <= 0 && x <= y <= -x)
            && (pad.Direction() == Down <==> y > 0 && -y < x < y)
            && (pad.Direction() == Up <==> y < 0 && y < x < -y)
  {
  }

  /** The SDL number of the button for each action. */
  function ButtonOf(a: Action): int {
    match a
    case Accept => 0 case Back => 1 case Sort => 2 case Menu => 3 case Details => 4 case Options => 6
    case PageUp => 9 case PageDown => 10 case Up => 11 case Down => 12 case Left => 13 case Right => 14
  }

  lemma OneButton(b: int, a: Action)
    ensures b in BUTTON_ACTIONS && BUTTON_ACTIONS[b] == a <==> b == ButtonOf(a)
  {
  }

  /** An action is down on a pad exactly when its one button is. */
  lemma ButtonTable(buttons: set<int>, a: Action)
    ensures a in ButtonActions(buttons) <==> ButtonOf(a) in buttons
  {
    forall b: int ensures b in BUTTON_ACTIONS && BUTTON_ACTIONS[b] == a <==> b == ButtonOf(a) {
      OneButton(b, a);
    }
    if ButtonOf(a) in buttons {
      assert BUTTON_ACTIONS[ButtonOf(a)] in ButtonActions(buttons);
    }
  }

  lemma RepeatingActions(a: Action)
    ensures Repeating(a) <==> a == Up || a == Down || a == Left || a == Right || a == PageUp || a == PageDown
  {
  }

  /** A button of pad `n` gives the action, or the stick points to it after that pad's reading. */
  predicate DownAt(stick: Option<Action>, pads: seq<Pad>, n: nat, a: Action) {
    n < |pads| && (a in ButtonActions(pads[n].buttons) || StickAfter(stick, pads[..n + 1]) == Some(a))
  }

  lemma DownBefore(stick: Option<Action>, pads: seq<Pad>, last: nat, n: nat, a: Action)
    requires n < last <= |pads|
    ensures DownAt(stick, pads[..last], n, a) <==> DownAt(stick, pads, n, a)
  {
    assert pads[..last][..n + 1] == pads[..n + 1];
  }

  lemma DownLast(stick: Option<Action>, pads: seq<Pad>, a: Action)
    requires pads != []
    ensures a in ActionsDown(stick, pads) <==>
            a in ActionsDown(stick, pads[..|pads| - 1]) || DownAt(stick, pads, |pads| - 1, a)
  {
  }

  ghost predicate SomePad(stick: Option<Action>, pads: seq<Pad>, a: Action) {
    exists n: nat :: DownAt(stick, pads, n, a)
  }

  lemma SomePadLast(stick: Option<Action>, pads: seq<Pad>, last: nat, a: Action)
    requires last + 1 == |pads|
    ensures SomePad(stick, pads, a) <==> SomePad(stick, pads[..last], a) || DownAt(stick, pads, last, a)
  {
    if n: nat :| DownAt(stick, pads[..last], n, a) {
      DownBefore(stick, pads, last, n, a);
    }
    if n: nat :| DownAt(stick, pads, n, a) {
      if n < last {
        DownBefore(stick, pads, last, n, a);
      }
    }
  }

  /** An action is down exactly when some pad has it down. */
  lemma {:induction false} DownIff(stick: Option<Action>, pads: seq<Pad>, a: Action)
    ensures a in ActionsDown(stick, pads) <==> SomePad(stick, pads, a)
  {
    if pads != [] {
      DownIff(stick, pads[..|pads| - 1], a);
      DownLast(stick, pads, a);
      SomePadLast(stick, pads, |pads| - 1, a);
    }
  }

  /** With a single pad the stick contributes at most one direction, the one it now points to. */
  lemma OnePadOneDirection(stick: Option<Action>, pad: Pad)
    ensures ActionsDown(stick, [pad]) == ButtonActions(pad.buttons) + Steered(StickAfter(stick, [pad]))
  {
    assert [pad][..0] == [] && [pad][..1] == [pad];
    assert ActionsDown(stick, []) == {};
  }
}
