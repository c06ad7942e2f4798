/** When the hand is raised and when it drops back: leaving the hand container
    arms a retract timer, entering it cancels the timer unless the HUD is
    collapsed, and a one-shot timer lowers the hand once the entrance animation
    is over. Time is an explicit clock: a `Tick(now)` fires every timer that is
    due by `now`. */
module Retraction {
  import opened JsText

  /** The container's `bottom` (raised = `handHeights.active`, lowered =
      `handHeights.inactive`), whether the cards show their backs, and the
      deadlines of the two pending timers. */
  datatype HandState = HandState(raised: bool, faceDown: bool, retractAt: Option<int>, entranceAt: Option<int>)

  datatype Event =
    | Enter(collapsed: bool)  // mouseenter on the hand container
    | Leave(now: int)         // mouseleave on the hand container
    | Tick(now: int)          // the clock reaches `now`
    | DeckSleep               // the deck is turned face-down (`deckSleep`)
    | DeckWake(collapsed: bool) // the deck is turned face-up (`deckWake`)

  /** How long the entrance lasts before the hand drops: one delay per visible
      card plus 700 ms. */
  function EntranceDuration(cardCount: nat, maxVisible: int, entranceDelay: int): (d: int)
    ensures maxVisible >= 0 && entranceDelay >= 0 ==>
      700 <= d <= maxVisible * entranceDelay + 700 && d <= cardCount * entranceDelay + 700
  {
    var shown := Min(cardCount, maxVisible);
    assert maxVisible >= 0 && entranceDelay >= 0 ==>
      shown * entranceDelay <= maxVisible * entranceDelay && shown * entranceDelay <= cardCount * entranceDelay
    by {
      if maxVisible >= 0 && entranceDelay >= 0 {
        ScaleUp(shown, maxVisible, entranceDelay);
        ScaleUp(shown, cardCount, entranceDelay);
      }
    }
    shown * entranceDelay + 700
  }

  lemma ScaleUp(a: int, b: int, c: nat)
    requires a <= b
    ensures a * c <= b * c
  {
    assert b * c - a * c == (b - a) * c;
  }

  /** The hand as `renderHand` leaves it: raised unless collapsed, face-down,
      no retract timer, the entrance timer armed. */
  function Rendered(now: int, collapsed: bool, duration: int): (s: HandState)
    ensures s.faceDown && s.retractAt.None? && s.entranceAt == Some(now + duration)
    ensures s.raised <==> !collapsed
  {
    HandState(!collapsed, true, None, Some(now + duration))
  }

  /** `setDeckSleepLocal` together with the inactive height. */
  function Lower(s: HandState): HandState {
    s.(raised := false, faceDown := true)
  }

  /** The effect of one event, with the retract delay setting. */
  function Step(s: HandState, e: Event, retractDelay: int): (t: HandState)
    ensures e.Enter? && e.collapsed ==> t == s
    ensures e.Leave? ==> t.retractAt == Some(e.now + retractDelay)
    ensures e.Tick? ==>
      ((s.retractAt.Some? && s.retractAt.value <= e.now) || (s.entranceAt.Some? && s.entranceAt.value <= e.now)
       <==> !t.raised && t.faceDown && t != s)
  {
    match e
    case Enter(collapsed) =>
      // cancelRetractTimer, which also wakes the deck
      if collapsed then s else s.(retractAt := None, raised := true, faceDown := false)
    case Leave(now) =>
      // startRetractTimer: clearTimeout, then a new timer
      s.(retractAt := Some(now + retractDelay))
    case Tick(now) =>
      var s1 := if s.retractAt.Some? && s.retractAt.value <= now then Lower(s).(retractAt := None) else s;
      if s1.entranceAt.Some? && s1.entranceAt.value <= now then Lower(s1).(entranceAt := None) else s1
    case DeckSleep =>
      s.(faceDown := true)
    case DeckWake(collapsed) =>
      if collapsed then s else s.(faceDown := false)
  }

  // ---------------------------------------------------------------------------
  // Properties

  /** Leaving arms a single timer: a second leave replaces the first one's
      deadline, and nothing else about the hand changes. */
  lemma LeaveReplacesTimer(s: HandState, t1: int, t2: int, retractDelay: int)
    ensures Step(Step(s, Leave(t1), retractDelay), Leave(t2), retractDelay) == Step(s, Leave(t2), retractDelay)
    ensures Step(s, Leave(t1), retractDelay).(retractAt := s.retractAt) == s
  {
  }

  /** Coming back in before the deadline, while the HUD is not collapsed,
      cancels the retract timer: the hand stays raised and face-up at any
      later time as long as no entrance timer is pending. */
  lemma ReenterKeepsHandActive(s: HandState, left: int, later: int, retractDelay: int)
    requires s.entranceAt.None?
    ensures var t := Step(Step(Step(s, Leave(left), retractDelay), Enter(false), retractDelay), Tick(later), retractDelay);
      t.raised && !t.faceDown && t.retractAt.None?
  {
  }

  /** With no re-entry, the hand drops and shows its backs once the deadline
      has passed; before the deadline the retract timer does nothing. */
  lemma DeadlineLowersHand(s: HandState, left: int, now: int, retractDelay: int)
    ensures now >= left + retractDelay ==>
      var t := Step(Step(s, Leave(left), retractDelay), Tick(now), retractDelay);
      !t.raised && t.faceDown && t.retractAt.None?
    ensures now < left + retractDelay && (s.entranceAt.None? || s.entranceAt.value > now) ==>
      Step(Step(s, Leave(left), retractDelay), Tick(now), retractDelay) == Step(s, Leave(left), retractDelay)
  {
  }

  /** Entering while the HUD is collapsed changes nothing, so a pending retract
      timer still fires. */
  lemma CollapsedEnterIsIgnored(s: HandState, now: int, retractDelay: int)
    requires s.retractAt.Some? && s.retractAt.value <= now
    ensures Step(s, Enter(true), retractDelay) == s
    ensures !Step(Step(s, Enter(true), retractDelay), Tick(now), retractDelay).raised
  {
  }

  /** The entrance timer is not the retract timer: entering the hand does not
      cancel it, and it drops the hand when due. */
  lemma EntranceTimerIgnoresPointer(s: HandState, now: int, retractDelay: int)
    requires s.entranceAt.Some? && s.entranceAt.value <= now
    ensures Step(s, Enter(false), retractDelay).entranceAt == s.entranceAt
    ensures var t := Step(Step(s, Enter(false), retractDelay), Tick(now), retractDelay);
      !t.raised && t.faceDown && t.entranceAt.None?
  {
  }

  /** A freshly rendered hand that is hovered throughout still drops when the
      entrance is over. */
  lemma RenderedHandDrops(now: int, duration: int, later: int, retractDelay: int)
    requires later >= now + duration
    ensures var t := Step(Step(Rendered(now, false, duration), Enter(false), retractDelay), Tick(later), retractDelay);
      !t.raised && t.faceDown
  {
    EntranceTimerIgnoresPointer(Rendered(now, false, duration), later, retractDelay);
  }

  /** A tick fires each timer at most once: a second tick at the same time
      changes nothing. */
  lemma TickIsIdempotent(s: HandState, now: int, retractDelay: int)
    ensures var t := Step(s, Tick(now), retractDelay); Step(t, Tick(now), retractDelay) == t
  {
  }

  // ---------------------------------------------------------------------------
  // The timers of one rendered hand

  class HandTimers {
    var raised: bool
    var faceDown: bool
    var retractTimer: Option<int>
    var entranceTimer: Option<int>
    const retractDelay: int

    function State(): HandState
      reads this
    {
      HandState(raised, faceDown, retractTimer, entranceTimer)
    }

    /** The timers of a hand just rendered at time `now`. */
    constructor Render(now: int, collapsed: bool, cardCount: nat, maxVisible: int, entranceDelay: int,
                       retractDelay: int)
      ensures State() == Rendered(now, collapsed, EntranceDuration(cardCount, maxVisible, entranceDelay))
      ensures this.retractDelay == retractDelay
    {
      raised := !collapsed;
      faceDown := true;
      retractTimer := None;
      entranceTimer := Some(now + EntranceDuration(cardCount, maxVisible, entranceDelay));
      this.retractDelay := retractDelay;
    }

    /** `cancelRetractTimer`, and the deck wake it ends with. */
    method CancelRetractTimer(collapsed: bool)
      modifies this
      ensures State() == old(State()).(retractAt := None, raised := true, faceDown := old(faceDown) && collapsed)
    {
      retractTimer := None;
      raised := true;
      DeckWake(collapsed);
    }

    /** The mouseenter listener. */
    method MouseEnter(collapsed: bool)
      modifies this
      ensures State() == Step(old(State()), Enter(collapsed), retractDelay)
    {
      if !collapsed {
        CancelRetractTimer(collapsed);
      }
    }

    /** The mouseleave listener: `startRetractTimer`. */
    method MouseLeave(now: int)
      modifies this
      ensures State() == Step(old(State()), Leave(now), retractDelay)
    {
      retractTimer := Some(now + retractDelay);
    }

    /** Runs the timers due by `now`. */
    method Tick(now: int)
      modifies this
      ensures State() == Step(old(State()), Event.Tick(now), retractDelay)
    {
      if retractTimer.Some? && retractTimer.value <= now {
        retractTimer := None;
        raised := false;
        DeckSleep();
      }
      if entranceTimer.Some? && entranceTimer.value <= now {
        entranceTimer := None;
        raised := false;
        DeckSleep();
      }
    }

    /** `setDeckSleepLocal`. */
    method DeckSleep()
      modifies this
      ensures State() == Step(old(State()), Event.DeckSleep, retractDelay)
    {
      faceDown := true;
    }

    /** `setDeckWakeLocal`: does nothing while the HUD is collapsed. */
    method DeckWake(collapsed: bool)
      modifies this
      ensures State() == Step(old(State()), Event.DeckWake(collapsed), retractDelay)
    {
      if collapsed {
        return;
      }
      faceDown := false;
    }
  }
}
