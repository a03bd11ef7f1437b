/** The reader itself. A dictionary keeps its entries in the order in which they were added: `held` is its
mapping and `order` its key order. */
module PadReading {
  import opened Options
  import opened Gamepad
  import opened GamepadRuns

  /** The members of a set in the order of their names. */
  function InOrder(actions: set<Action>, n: nat): seq<Action>
    requires n <= |SORTED|
  {
    if n == 0 then [] else InOrder(actions, n - 1) + if SORTED[n - 1] in actions then [SORTED[n - 1]] else []
  }

  function Rank(a: Action): (n: nat)
    ensures n < |SORTED| && SORTED[n] == a
  {
    match a
    case Accept => 0 case Back => 1 case Details => 2 case Down => 3 case Left => 4 case Menu => 5
    case Options => 6 case PageDown => 7 case PageUp => 8 case Right => 9 case Sort => 10 case Up => 11
  }

  lemma {:induction false} InOrderSorts(actions: set<Action>, n: nat)
    requires n <= |SORTED|
    ensures forall i, j | 0 <= i < j < |InOrder(actions, n)| ::
              Rank(InOrder(actions, n)[i]) < Rank(InOrder(actions, n)[j])
    ensures forall a :: a in InOrder(actions, n) <==> a in actions && Rank(a) < n
  {
    if n > 0 {
      InOrderSorts(actions, n - 1);
      assert Rank(SORTED[n - 1]) == n - 1 by {
        RankOfSorted(n - 1);
      }
      forall a ensures a in InOrder(actions, n) <==> a in actions && Rank(a) < n {
        if Rank(a) == n - 1 {
          assert SORTED[n - 1] == a;
        }
      }
    }
  }

  lemma RankOfSorted(n: nat)
    requires n < |SORTED|
    ensures Rank(SORTED[n]) == n
  {
  }

  // ------------------------------------------------------------------ the two loops of a poll

  predicate Distinct(order: seq<Action>) {
    forall i, j | 0 <= i < j < |order| :: order[i] != order[j]
  }

  lemma DistinctAdd(xs: seq<Action>, a: Action)
    requires Distinct(xs) && a !in xs
    ensures Distinct(xs + [a])
  {
  }

  lemma SortedDistinct(xs: seq<Action>)
    requires forall i, j | 0 <= i < j < |xs| :: Rank(xs[i]) < Rank(xs[j])
    ensures Distinct(xs)
  {
  }

  predicate Lists(order: seq<Action>, held: map<Action, int>) {
    Distinct(order) && forall a :: a in order <==> a in held
  }

  /** `held` once the new presses are entered. */
  function Entered(held: map<Action, int>, fired: seq<Action>, now: int): map<Action, int> {
    map a | a in held.Keys + (set x | x in fired) && (a in held || Repeating(a)) ::
      if a in fired && Repeating(a) then now + REPEAT_DELAY else held[a]
  }

  /** Whether the entry of `a` fires again; a press of this poll does not. */
  predicate IsDue(held: map<Action, int>, pressed: seq<Action>, down: set<Action>, now: int, a: Action) {
    a in held && a in down && a !in pressed && now >= held[a]
  }

  /** `held` once the entries in `done` were worked through. */
  function Worked(held: map<Action, int>, pressed: seq<Action>, down: set<Action>, now: int,
                  done: seq<Action>): map<Action, int> {
    map a | a in held && (a in done ==> a in down) ::
      if a in done && IsDue(held, pressed, down, now, a) then now + REPEAT_INTERVAL else held[a]
  }

  /** Both loops together leave what the specification of a poll says. */
  lemma LoopsMeetSpec(r: Reader, pressed: seq<Action>, order: seq<Action>, down: set<Action>, now: int)
    requires forall a :: a in pressed <==> a in Pressed(r, down)
    requires Lists(order, Entered(r.held, pressed, now))
    ensures Worked(Entered(r.held, pressed, now), pressed, down, now, order) == HeldAfter(r, down, now)
    ensures forall a :: IsDue(Entered(r.held, pressed, now), pressed, down, now, a) <==> a in Repeated(r, down, now)
  {
  }

  lemma EnterOne(held: map<Action, int>, fired: seq<Action>, a: Action, now: int)
    ensures Entered(held, fired + [a], now)
            == if Repeating(a) then Entered(held, fired, now)[a := now + REPEAT_DELAY] else Entered(held, fired, now)
  {
  }

  lemma WorkOne(held: map<Action, int>, pressed: seq<Action>, down: set<Action>, now: int, done: seq<Action>, a: Action)
    requires a in held && a !in done
    ensures var before := Worked(held, pressed, down, now, done);
            Worked(held, pressed, down, now, done + [a])
            == if a !in down then before - {a}
               else if IsDue(held, pressed, down, now, a) then before[a := now + REPEAT_INTERVAL]
               else before
  {
  }

  /** The reader is in the state that its history of ticks leads to. */
  ghost predicate Reaches(history: seq<PadEvent>, r: Reader, stick: Option<Action>) {
    && stick == StickOf(history)
    && exists readers :: Run(readers, Translated(history)) && readers[|history|] == r
  }

  lemma ReachesStep(history: seq<PadEvent>, r: Reader, stick: Option<Action>, e: PadEvent)
    requires Reaches(history, r, stick)
    ensures Reaches(history + [e], Next(r, EventOf(stick, e)), StickNext(stick, e))
  {
    var readers :| Run(readers, Translated(history)) && readers[|history|] == r;
    var longer := history + [e];
    assert longer[..|history|] == history;
    var event := EventOf(stick, e);
    assert Translated(longer) == Translated(history) + [event];
    assert Run(readers + [Next(r, event)], Translated(longer));
  }

  class PadReader {
    var held: map<Action, int>
    var order: seq<Action>
    var seen: set<Action>
    var stick: Option<Action>
    var baseline: bool
    ghost var history: seq<PadEvent>

    ghost function View(): Reader
      reads this
    {
      Reader(held, seen, baseline)
    }

    ghost predicate Valid()
      reads this
    {
      Lists(order, held) && Reaches(history, View(), stick)
    }

    constructor ()
      ensures Valid() && history == []
    {
      held, order, seen, stick, baseline, history := map[], [], {}, None, true, [];
      new;
      assert Run([INITIAL], Translated([]));
    }

    method ResetReader()
      requires Valid()
      modifies this
      ensures Valid() && history == old(history) + [Lose] && View() == INITIAL
    {
      ReachesStep(history, View(), stick, Lose);
      held, order, seen, stick, baseline := map[], [], {}, None, true;
      history := history + [Lose];
    }

    /** `down`: the actions held across every pad, moving the stick along. */
    method ReadDown(pads: seq<Pad>) returns (actions: set<Action>)
      modifies this`stick
      ensures actions == ActionsDown(old(stick), pads) && stick == StickAfter(old(stick), pads)
    {
      actions := {};
      for n := 0 to |pads|
        invariant actions == ActionsDown(old(stick), pads[..n]) && stick == StickAfter(old(stick), pads[..n])
      {
        var pad := pads[n];
        actions := actions + ButtonActions(pad.buttons);
        var lean := pad.Lean();
        if lean >= STICK_PRESS || (stick.Some? && lean >= STICK_RELEASE) {
          stick := Some(pad.Direction());
          actions := actions + {stick.value};
        } else {
          stick := None;
        }
        assert pads[..n + 1][..n] == pads[..n] && pads[..n + 1][..n + 1] == pads[..n + 1];
      }
      assert pads[..|pads|] == pads;
    }

    /** The first loop: repeating presses enter the dictionary, new ones at its end. */
    method Enter(pressed: seq<Action>, now: int)
      requires Lists(order, held)
      modifies this`held, this`order
      ensures Lists(order, held) && held == Entered(old(held), pressed, now) && old(order) <= order
    {
      assert Entered(held, [], now) == held;
      for n := 0 to |pressed|
        invariant Lists(order, held) && held == Entered(old(held), pressed[..n], now) && old(order) <= order
      {
        var a := pressed[n];
        EnterOne(old(held), pressed[..n], a, now);
        assert pressed[..n + 1] == pressed[..n] + [a];
        if Repeating(a) {
          if a !in held {
            order := order + [a];
          }
          held := held[a := now + REPEAT_DELAY];
        }
      }
      assert pressed[..|pressed|] == pressed;
    }

    /** The second loop: released entries go, due ones fire again, after the presses of this poll. */
    method Work(down: set<Action>, pressed: seq<Action>, now: int) returns (fired: seq<Action>)
      requires Lists(order, held) && Distinct(pressed)
      modifies this`held, this`order
      ensures Lists(order, held) && held == Worked(old(held), pressed, down, now, old(order))
      ensures pressed <= fired && Distinct(fired)
      ensures forall a :: a in fired <==> a in pressed || IsDue(old(held), pressed, down, now, a)
    {
      var entries := order;
      var kept: seq<Action> := [];
      fired := pressed;
      for n := 0 to |entries|
        invariant held == Worked(old(held), pressed, down, now, entries[..n])
        invariant Distinct(kept) && forall a :: a in kept <==> a in entries[..n] && a in down
        invariant pressed <= fired && Distinct(fired)
        invariant forall a :: a in fired <==>
                            a in pressed || (a in entries[..n] && IsDue(old(held), pressed, down, now, a))
      {
        var a := entries[n];
        assert a !in entries[..n];
        WorkOne(old(held), pressed, down, now, entries[..n], a);
        assert entries[..n + 1] == entries[..n] + [a];
        if a !in down {
          held := held - {a};
        } else {
          DistinctAdd(kept, a);
          kept := kept + [a];
          if a !in fired && now >= held[a] {
            DistinctAdd(fired, a);
            fired := fired + [a];
            held := held[a := now + REPEAT_INTERVAL];
          }
        }
      }
      assert entries[..|entries|] == entries;
      order := kept;
    }

    /** A poll once it is known what is down. */
    method PollActions(down: set<Action>, now: int) returns (fired: seq<Action>)
      requires Lists(order, held)
      modifies this`held, this`order, this`seen, this`baseline
      ensures Lists(order, held) && View() == Next(old(View()), Poll(down, now))
      ensures forall a :: a in fired <==> a in Fired(old(View()), Poll(down, now))
      ensures Distinct(fired) && (!old(baseline) ==> InOrder(down - old(seen), |SORTED|) <= fired)
    {
      if baseline {
        baseline, seen := false, down;
        return [];
      }
      var pressed := InOrder(down - seen, |SORTED|);
      InOrderSorts(down - seen, |SORTED|);
      SortedDistinct(pressed);
      Enter(pressed, now);
      LoopsMeetSpec(old(View()), pressed, order, down, now);
      fired := Work(down, pressed, now);
      seen := down;
    }

    /** `poll`: each action fires at most once; the new presses come first, sorted. */
    method PollPads(pads: seq<Pad>, now: int) returns (fired: seq<Action>)
      requires Valid()
      modifies this
      ensures Valid() && history == old(history) + [Read(pads, now)]
      ensures View() == Next(old(View()), EventOf(old(stick), Read(pads, now)))
      ensures forall a :: a in fired <==> a in Fired(old(View()), EventOf(old(stick), Read(pads, now)))
      ensures Distinct(fired)
      ensures !old(baseline) ==> InOrder(ActionsDown(old(stick), pads) - old(seen), |SORTED|) <= fired
    {
      ReachesStep(history, View(), stick, Read(pads, now));
      history := history + [Read(pads, now)];
      var down := ReadDown(pads);
      fired := PollActions(down, now);
    }
  }
}
