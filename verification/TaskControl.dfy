/** The one-slot task mailbox and the HOME request of a process supervisor. `task` and `poll_task` run
under the mutex; `home` reads and writes `home_active` outside it, so its steps interleave with theirs. */
module TaskControl {
  import opened Options

  /** Where a `home` request stands: `Activating` after it found HOME inactive, `Activated` when the
  launcher answered, `Posting` before its final `task(False)`. */
  datatype HomePc = Idle | Activating | Activated | Posting

  datatype State = State(visible: Option<bool>, homeActive: bool, pc: HomePc)

  datatype Event = Task(visible: bool) | Poll | HomeBegin | HomeFails | HomeActivates | HomeSets | HomePosts

  const START := State(None, false, Idle)

  predicate Enabled(s: State, e: Event) {
    match e
    case Task(_) => true
    case Poll => true
    case HomeBegin => s.pc.Idle?
    case HomeFails => s.pc.Activating?
    case HomeActivates => s.pc.Activating?
    case HomeSets => s.pc.Activated?
    case HomePosts => s.pc.Posting?
  }

  function Apply(s: State, e: Event): State {
    match e
    case Task(visible) => s.(visible := Some(visible), homeActive := s.homeActive && !visible)
    case Poll => s.(visible := None)
    case HomeBegin => s.(pc := if s.homeActive then Posting else Activating)
    case HomeFails => s.(pc := Idle)
    case HomeActivates => s.(pc := Activated)
    case HomeSets => s.(pc := Posting, homeActive := true)
    case HomePosts => s.(pc := Idle, visible := Some(false))
  }

  predicate Run(states: seq<State>, events: seq<Event>) {
    && |states| == |events| + 1
    && states[0] == START
    && forall i | 0 <= i < |events| :: Enabled(states[i], events[i]) && states[i + 1] == Apply(states[i], events[i])
  }

  /** The events can happen in this order, and leave state `s`. */
  ghost predicate Reaches(events: seq<Event>, s: State) {
    exists states :: Run(states, events) && states[|events|] == s
  }

  lemma ReachesStep(events: seq<Event>, s: State, e: Event)
    requires Reaches(events, s) && Enabled(s, e)
    ensures Reaches(events + [e], Apply(s, e))
  {
    var states :| Run(states, events) && states[|events|] == s;
    assert Run(states + [Apply(s, e)], events + [e]);
  }

  /** The events that fill the mailbox, and with what. */
  function Written(e: Event): Option<bool> {
    match e
    case Task(visible) => Some(visible)
    case HomePosts => Some(false)
    case _ => None
  }

  /** `i` is the latest write before `j`, and nothing was polled since. */
  predicate Undelivered(events: seq<Event>, i: nat, j: nat, visible: bool)
    requires j <= |events|
  {
    i < j && Written(events[i]) == Some(visible)
    && forall n | i < n < j :: Written(events[n]).None? && !events[n].Poll?
  }

  lemma {:induction false} MailboxHolds(states: seq<State>, events: seq<Event>, j: nat, visible: bool)
    requires Run(states, events) && j <= |events|
    ensures states[j].visible == Some(visible) <==> exists i: nat :: Undelivered(events, i, j, visible)
  {
    if j > 0 {
      var before, e := j - 1, events[j - 1];
      MailboxHolds(states, events, before, visible);
      assert states[j] == Apply(states[before], e);
      if Written(e) == Some(visible) {
        assert Undelivered(events, before, j, visible);
      } else if Written(e).None? && !e.Poll? {
        if exists i: nat :: Undelivered(events, i, before, visible) {
          var i: nat :| Undelivered(events, i, before, visible);
          assert Undelivered(events, i, j, visible);
        }
        if exists i: nat :: Undelivered(events, i, j, visible) {
          var i: nat :| Undelivered(events, i, j, visible);
          assert i < before && Undelivered(events, i, before, visible);
        }
      }
    }
  }

  /** In every interleaving a poll delivers exactly the latest visibility written since the previous
  poll, and no later poll delivers the same write again. */
  lemma PollDelivers(states: seq<State>, events: seq<Event>, j: nat, visible: bool)
    requires Run(states, events) && j < |events| && events[j].Poll?
    ensures states[j].visible == Some(visible) <==> exists i: nat :: Undelivered(events, i, j, visible)
    ensures states[j + 1].visible == None
    ensures forall i: nat, k: nat | j < k <= |events| && Undelivered(events, i, j, visible) ::
              !Undelivered(events, i, k, visible)
  {
    MailboxHolds(states, events, j, visible);
  }

  lemma {:induction false} ActivatingIsInactive(states: seq<State>, events: seq<Event>, j: nat)
    requires Run(states, events) && j <= |events|
    ensures states[j].pc.Activating? ==> !states[j].homeActive
  {
    if j > 0 {
      ActivatingIsInactive(states, events, j - 1);
      assert states[j] == Apply(states[j - 1], events[j - 1]);
    }
  }

  lemma {:induction false} ActivationRemembered(states: seq<State>, events: seq<Event>, i: nat, j: nat)
    requires Run(states, events) && i < j <= |events| && events[i].HomeActivates?
    requires forall n | i < n < j :: events[n] != Task(true)
    ensures states[j].pc.Activated? || states[j].homeActive
  {
    if j > i + 1 {
      ActivationRemembered(states, events, i, j - 1);
    }
    assert states[j] == Apply(states[j - 1], events[j - 1]) && Enabled(states[j - 1], events[j - 1]);
  }

  /** In every interleaving the app was shown between any two launcher activations. */
  lemma ActivationsSeparated(states: seq<State>, events: seq<Event>, i: nat, j: nat)
    requires Run(states, events) && i < j < |events| && events[i].HomeActivates? && events[j].HomeActivates?
    ensures exists n :: i < n < j && events[n] == Task(true)
  {
    ActivatingIsInactive(states, events, j);
    assert Enabled(states[j], events[j]);
    if forall n | i < n < j :: events[n] != Task(true) {
      ActivationRemembered(states, events, i, j);
    }
  }

  predicate ShownBetween(events: seq<Event>, i: nat, j: nat)
    requires j <= |events|
  {
    exists n :: i < n < j && events[n] == Task(true)
  }

  /** The app was shown after each HOME request that had recorded its activation. */
  predicate ShownSince(events: seq<Event>, j: nat)
    requires j <= |events|
  {
    forall i: nat | i < j && events[i].HomeSets? :: ShownBetween(events, i, j)
  }

  lemma {:induction false} ActiveMeansSet(states: seq<State>, events: seq<Event>, j: nat)
    requires Run(states, events) && j <= |events|
    ensures states[j].homeActive <==> !ShownSince(events, j)
  {
    if j > 0 {
      var before, e := j - 1, events[j - 1];
      assert states[j] == Apply(states[before], e);
      ActiveMeansSet(states, events, before);
      if e == Task(true) {
        assert forall i: nat | i < before :: ShownBetween(events, i, j);
      } else {
        assert forall i: nat | i < before :: ShownBetween(events, i, j) <==> ShownBetween(events, i, before);
        assert !ShownBetween(events, before, j);
      }
    }
  }

  /** A `home` request goes to the launcher exactly when the app was shown after each earlier request
  had recorded its activation. */
  lemma HomeActivatesIff(states: seq<State>, events: seq<Event>, j: nat)
    requires Run(states, events) && j < |events| && events[j].HomeBegin?
    ensures states[j + 1].pc.Activating? <==> ShownSince(events, j)
  {
    ActiveMeansSet(states, events, j);
  }

  /** Being shown after the last activation is not enough: when `task(True)` falls between the
  launcher's answer and the assignment of `home_active`, the next HOME is not sent to the launcher. */
  lemma HomeCanBeLost() returns (states: seq<State>, events: seq<Event>)
    ensures Run(states, events) && |events| == 6
    ensures events[1].HomeActivates? && events[2] == Task(true)
    ensures events[5].HomeBegin? && states[6].pc.Posting?
  {
    events := [HomeBegin, HomeActivates, Task(true), HomeSets, HomePosts, HomeBegin];
    states := [START, State(None, false, Activating), State(None, false, Activated),
               State(Some(true), false, Activated),
               State(Some(true), true, Posting), State(Some(false), true, Idle), State(Some(false), true, Posting)];
  }

  /** The part of ProcessHost that `task`, `poll_task` and `home` share. `events` is what happened so far. */
  class TaskControl {
    var visible: Option<bool>
    var homeActive: bool
    ghost var pc: HomePc
    ghost var events: seq<Event>

    ghost predicate Valid()
      reads this
    {
      Reaches(events, State(visible, homeActive, pc))
    }

    constructor ()
      ensures Valid() && events == []
    {
      visible, homeActive, pc, events := None, false, Idle, [];
      assert Run([START], []);
    }

    ghost method Record(e: Event)
      requires Valid() && Enabled(State(visible, homeActive, pc), e)
      modifies this`events
      ensures events == old(events) + [e] && Reaches(events, Apply(State(visible, homeActive, pc), e))
    {
      ReachesStep(events, State(visible, homeActive, pc), e);
      events := events + [e];
    }

    method Task(shown: bool)
      requires Valid()
      modifies this
      ensures Valid() && pc == old(pc) && events == old(events) + [Event.Task(shown)]
      ensures visible == Some(shown) && homeActive == (old(homeActive) && !shown)
    {
      Record(Event.Task(shown));
      visible := Some(shown);
      if shown { homeActive := false; }
    }

    method PollTask() returns (delivered: Option<bool>)
      requires Valid()
      modifies this
      ensures Valid() && pc == old(pc) && events == old(events) + [Poll]
      ensures forall v :: delivered == Some(v) <==> exists i: nat :: Undelivered(old(events), i, |old(events)|, v)
    {
      ghost var states :| Run(states, events) && states[|events|] == State(visible, homeActive, pc);
      forall v ensures visible == Some(v) <==> exists i: nat :: Undelivered(events, i, |events|, v) {
        MailboxHolds(states, events, |events|, v);
      }
      Record(Poll);
      delivered := visible;
      visible := None;
    }

    predicate Elsewhere(more: seq<Event>) {
      forall i | 0 <= i < |more| :: more[i].Task? || more[i].Poll?
    }

    ghost predicate Extends(before: seq<Event>)
      reads this
    {
      |before| <= |events| && events[..|before|] == before
    }

    /** What other threads do between two steps of `home`; callers know only the contract. */
    method Yield()
      requires Valid()
      modifies this
      ensures Valid() && pc == old(pc) && Extends(old(events))
      ensures Elsewhere(events[|old(events)|..])
    {
    }

    /** The call of `activate_launcher` and the assignment of `home_active`; `fails` is an exception. */
    method Activate(fails: bool) returns (activated: bool)
      requires Valid() && pc.Activating?
      modifies this
      ensures Valid() && Extends(old(events)) && activated == !fails
      ensures pc == if activated then Posting else Idle
      ensures activated ==> homeActive && |events| > |old(events)| && events[|events| - 1].HomeSets?
      // it posts nothing, and records an activation only when there was one
      ensures forall n | |old(events)| <= n < |events| ::
                !events[n].HomePosts? && !events[n].HomeBegin?
                && (events[n].HomeActivates? || events[n].HomeSets? ==> activated)
    {
      Yield();
      if fails {
        Record(HomeFails);
        pc := Idle;
        return false;
      }
      Record(HomeActivates);
      pc := Activated;
      Yield();
      Record(HomeSets);
      homeActive, pc := true, Posting;
      activated := true;
    }

    /** `home`: unavailable outside an app session, otherwise answered after at most one activation. */
    method Home(available: bool, fails: bool) returns (done: bool, activated: bool)
      requires Valid() && pc.Idle?
      modifies this
      ensures Valid() && pc.Idle? && Extends(old(events))
      ensures !available ==> !done && !activated && events == old(events)
      ensures available ==> (activated <==> !old(homeActive) && !fails)
      ensures available ==> (done <==> old(homeActive) || !fails)
      ensures done ==> |events| > 0 && events[|events| - 1].HomePosts? && visible == Some(false)
      // of its own it posts at most that, and nothing when the launcher raised; it records only real activations
      ensures forall n | |old(events)| <= n < |events| && events[n].HomePosts? :: done && n == |events| - 1
      ensures forall n | |old(events)| <= n < |events| && (events[n].HomeActivates? || events[n].HomeSets?) :: activated
    {
      done, activated := false, false;
      if !available { return; }
      var active := homeActive;
      Record(HomeBegin);
      pc := if active then Posting else Activating;
      if !active {
        activated := Activate(fails);
        if !activated { return; }
      }
      Yield();
      Record(HomePosts);
      visible, pc, done := Some(false), Idle, true;
    }
  }
}
