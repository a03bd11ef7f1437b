/** The gamepad reader of the launcher: pad states become menu actions. Times are milliseconds, axes
thousandths. */
module Gamepad {
  import opened Options

  /** The actions, in the order in which their names sort. */
  datatype Action =
    | Accept | Back | Details | Down | Left | Menu | Options | PageDown | PageUp | Right | Sort | Up

  const SORTED := [Accept, Back, Details, Down, Left, Menu, Options, PageDown, PageUp, Right, Sort, Up]

  const BUTTON_ACTIONS: map<int, Action> :=
    map[0 := Accept, 1 := Back, 2 := Sort, 3 := Menu, 6 := Options, 4 := Details, 9 := PageUp, 10 := PageDown,
        11 := Up, 12 := Down, 13 := Left, 14 := Right]

  predicate Repeating(a: Action) {
    a in {Up, Down, Left, Right, PageUp, PageDown}
  }

  const STICK_PRESS := 550
  const STICK_RELEASE := 350
  const REPEAT_DELAY := 400
  const REPEAT_INTERVAL := 110

  /** One pad as the backend reads it; an axis it does not report is centred. */
  datatype Pad = Pad(buttons: set<int>, axes: map<int, int>)
  {
    function X(): int { if 0 in axes then axes[0] else 0 }
    function Y(): int { if 1 in axes then axes[1] else 0 }
    function Lean(): int { if Abs(X()) >= Abs(Y()) then Abs(X()) else Abs(Y()) }

    /** The direction of the axis that leans further. */
    function Direction(): Action {
      if Abs(X()) >= Abs(Y()) then (if X() > 0 then Right else Left) else (if Y() > 0 then Down else Up)
    }
  }

  function Abs(v: int): nat { if v < 0 then -v else v }

  // ------------------------------------------------------------------ what is held down

  function ButtonActions(buttons: set<int>): set<Action> {
    set b | b in buttons && b in BUTTON_ACTIONS :: BUTTON_ACTIONS[b]
  }

  /** The stick after one more reading: it takes hold at the first threshold and lets go below the second. */
  function Steer(stick: Option<Action>, pad: Pad): Option<Action> {
    if pad.Lean() >= STICK_PRESS || (stick.Some? && pad.Lean() >= STICK_RELEASE) then Some(pad.Direction()) else None
  }

  function StickAfter(stick: Option<Action>, pads: seq<Pad>): Option<Action> {
    if pads == [] then stick else Steer(StickAfter(stick, pads[..|pads| - 1]), pads[|pads| - 1])
  }

  function Steered(stick: Option<Action>): set<Action> {
    if stick.Some? then {stick.value} else {}
  }

  function ActionsDown(stick: Option<Action>, pads: seq<Pad>): set<Action> {
    if pads == [] then {}
    else
      var last := |pads| - 1;
      ActionsDown(stick, pads[..last]) + ButtonActions(pads[last].buttons)
      + Steered(StickAfter(stick, pads[..last + 1]))
  }

  // ------------------------------------------------------------------ one poll

  /** What the reader remembers of the actions; the stick is a second, separate memory. */
  datatype Reader = Reader(held: map<Action, int>, seen: set<Action>, baseline: bool)

  const INITIAL := Reader(map[], {}, true)

  /** A poll that finds the actions `down`, or a reset. */
  datatype Event = Poll(down: set<Action>, now: int) | Reset

  function Pressed(r: Reader, down: set<Action>): set<Action> {
    down - r.seen
  }

  function Repeated(r: Reader, down: set<Action>, now: int): set<Action> {
    set a | a in r.held && a in down && a in r.seen && now >= r.held[a]
  }

  /** The actions that an event makes happen. */
  function Fired(r: Reader, e: Event): set<Action> {
    if e.Reset? || r.baseline then {} else Pressed(r, e.down) + Repeated(r, e.down, e.now)
  }

  /** When each held action repeats next. */
  function HeldAfter(r: Reader, down: set<Action>, now: int): map<Action, int> {
    map a | a in r.held.Keys + Pressed(r, down) && a in down && (a in r.held || Repeating(a)) ::
      if a !in r.seen && Repeating(a) then now + REPEAT_DELAY
      else if a in Repeated(r, down, now) then now + REPEAT_INTERVAL
      else r.held[a]
  }

  function Next(r: Reader, e: Event): Reader {
    match e
    case Reset => INITIAL
    case Poll(down, now) => Reader(if r.baseline then r.held else HeldAfter(r, down, now), down, false)
  }

  // ------------------------------------------------------------------ polls of pads

  datatype PadEvent = Read(pads: seq<Pad>, now: int) | Lose

  /** One tick of the launcher's timer: the pad is read only while one of its windows is in front. */
  function Tick(front: bool, pads: seq<Pad>, now: int): PadEvent {
    if front then Read(pads, now) else Lose
  }

  /** The stick after an event, and the event as the actions see it. */
  function StickNext(stick: Option<Action>, e: PadEvent): Option<Action> {
    match e
    case Lose => None
    case Read(pads, _) => StickAfter(stick, pads)
  }

  function EventOf(stick: Option<Action>, e: PadEvent): Event {
    match e
    case Lose => Reset
    case Read(pads, now) => Poll(ActionsDown(stick, pads), now)
  }

  function StickOf(events: seq<PadEvent>): Option<Action> {
    if events == [] then None else StickNext(StickOf(events[..|events| - 1]), events[|events| - 1])
  }

  /** The same events with the actions that each poll finds down. */
  function Translated(events: seq<PadEvent>): (es: seq<Event>)
    ensures |es| == |events|
  {
    if events == [] then []
    else
      var before := events[..|events| - 1];
      Translated(before) + [EventOf(StickOf(before), events[|events| - 1])]
  }
}
