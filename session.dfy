/** The display state machine. A session is in one of three states: a
    celebration banner after a new order, the order's screens shown in turn
    (scrolling the content screens), or idle. The scheduler advances it once
    per tick; a new order preempts whatever it is doing. Time is a number of
    milliseconds handed in by the caller. */
module DisplayStateMachine {
  import opened ScreenBuilder

  datatype DisplayState = Celebration | OrderInfo | Idle

  datatype Option<T> = None | Some(value: T)

  /** How long the celebration banner stays up. */
  const CelebrationDurationMs: int := 3000
  /** How long one screen stays up. */
  const ScreenTimeoutMs: int := 8000
  /** Full passes over the screens before going idle. */
  const OrderCycles: int := 2
  /** Scroll advance per tick, in the units of the scroll limit. */
  const ScrollStep: int := 10
  /** Padding added to the scroll limit. */
  const ScrollPadding: int := 156

  /** The fields of the display session. */
  datatype Session = Session(
    state: DisplayState,
    stateStartTime: int,
    scrollPosition: int,
    screens: seq<string>,
    screenIndex: int,
    cyclesRemaining: int)

  /** What one tick draws: the celebration banner, a screen of text at a
      scroll offset, a cleared device, or nothing. */
  datatype Frame = Banner | Text(text: string, offset: int) | Cleared | Blank

  datatype TickResult = TickResult(session: Session, frame: Frame)

  /** Where the scroll of a screen wraps around: the character count of the
      whole screen text (not a pixel width), plus the device width, plus the
      padding. */
  function ScrollLimit(screen: string, width: nat): (limit: int)
    ensures limit >= ScrollPadding
  {
    |screen| + width + ScrollPadding
  }

  /** The screen index can be used to pick the shown screen. */
  predicate IndexInRange(s: Session)
  {
    s.state == OrderInfo && s.screens != [] ==> 0 <= s.screenIndex < |s.screens|
  }

  /** What every reachable session satisfies on a device `width` wide: the
      index is in range and the scroll below its limit while screens are
      shown, the first two screens never scroll, the scroll is zero in every
      other state, and the cycle counter stays within its bounds and is
      positive while screens are shown. */
  ghost predicate Inv(s: Session, width: nat)
  {
    && 0 <= s.screenIndex
    && 0 <= s.scrollPosition
    && 0 <= s.cyclesRemaining <= OrderCycles
    && (s.state != OrderInfo || s.screens == [] ==> s.scrollPosition == 0)
    && (s.state == OrderInfo ==> 1 <= s.cyclesRemaining)
    && (s.state == OrderInfo && s.screens != [] ==>
          && s.screenIndex < |s.screens|
          && s.scrollPosition < ScrollLimit(s.screens[s.screenIndex], width)
          && (s.screenIndex <= 1 ==> s.scrollPosition == 0))
  }

  /** The session a display starts with, at time `now`. */
  function Initial(now: int): Session
  {
    Session(Idle, now, 0, [], 0, 0)
  }

  /** The effect of a new order at time `now`: its screens replace the old
      ones, the scroll restarts and the celebration begins; the screen index
      and the cycle counter are left as they were. */
  function NewOrder(s: Session, order: Order, now: int): Session
  {
    s.(screens := OrderScreens(order), scrollPosition := 0, state := Celebration, stateStartTime := now)
  }

  /** Moving on to the next screen at time `now`: past the last screen the
      index wraps to the first and one cycle is used up; when none is left
      the session goes idle. */
  function AdvanceScreen(s: Session, now: int): Session
  {
    var next := s.(screenIndex := s.screenIndex + 1, scrollPosition := 0, stateStartTime := now);
    if next.screenIndex >= |next.screens| then
      var wrapped := next.(screenIndex := 0, cyclesRemaining := next.cyclesRemaining - 1);
      if wrapped.cyclesRemaining <= 0 then wrapped.(state := Idle, stateStartTime := now)
      else wrapped
    else next
  }

  /** The scroll position of a shown screen after this tick's step: content
      screens (index above 1) move on by one step, wrapping at the limit;
      the first two keep theirs. */
  function ScrollAfter(s: Session, width: nat): int
    requires s.state == OrderInfo && s.screens != [] && IndexInRange(s)
  {
    if s.screenIndex > 1 then (s.scrollPosition + ScrollStep) % ScrollLimit(s.screens[s.screenIndex], width)
    else s.scrollPosition
  }

  /** One tick of the display loop at time `now` on a device `width` wide:
      the frame drawn, then the state transition. */
  function Next(s: Session, width: nat, now: int): TickResult
    requires IndexInRange(s)
  {
    match s.state
    case Celebration =>
      if now - s.stateStartTime > CelebrationDurationMs then
        TickResult(s.(state := OrderInfo, stateStartTime := now, screenIndex := 0, cyclesRemaining := OrderCycles), Banner)
      else TickResult(s, Banner)
    case OrderInfo =>
      if s.screens == [] then TickResult(s, Blank)
      else
        var screen := s.screens[s.screenIndex];
        var maxWidth := |screen|;
        var limit := ScrollLimit(screen, width);
        var frame := Text(screen, if s.screenIndex > 1 then s.scrollPosition else 0);
        var scrolled := s.(scrollPosition := ScrollAfter(s, width));
        if now - s.stateStartTime > ScreenTimeoutMs || scrolled.scrollPosition >= limit + maxWidth then
          TickResult(AdvanceScreen(scrolled, now), frame)
        else TickResult(scrolled, frame)
    case Idle => TickResult(s, Cleared)
  }

  lemma InitialInv(width: nat, now: int)
    ensures Inv(Initial(now), width)
  {
  }

  /** A tick keeps every reachable session reachable. */
  lemma NextPreservesInv(s: Session, width: nat, now: int)
    requires Inv(s, width)
    ensures Inv(Next(s, width, now).session, width)
  {
    if s.state == OrderInfo && s.screens != [] {
      var scrolled := s.(scrollPosition := ScrollAfter(s, width));
      assert 0 <= scrolled.scrollPosition < ScrollLimit(s.screens[s.screenIndex], width);
    }
  }

  /** A new order keeps every reachable session reachable, and its session
      celebrates with no scroll and never fewer than two screens. */
  lemma NewOrderInv(s: Session, order: Order, width: nat, now: int)
    requires Inv(s, width)
    ensures Inv(NewOrder(s, order, now), width)
    ensures NewOrder(s, order, now).state == Celebration
    ensures NewOrder(s, order, now).scrollPosition == 0
    ensures |NewOrder(s, order, now).screens| >= 2
  {
    ScreenCount(order);
  }

  /** The scroll position after a tick's step never reaches the limit plus
      the screen's character count, so the width-based advance condition is
      never what moves the display on. */
  lemma WidthConditionNeverHolds(s: Session, width: nat)
    requires Inv(s, width)
    requires s.state == OrderInfo && s.screens != []
    ensures var screen := s.screens[s.screenIndex];
      0 <= ScrollAfter(s, width) < ScrollLimit(screen, width) <= ScrollLimit(screen, width) + |screen|
  {
  }

  /** The celebration lasts while no more than 3 s have passed since it
      began, changing nothing; the first tick after that enters the screen
      cycle at its start: first screen, no scroll, all cycles left, a fresh
      start time and the same screens. */
  lemma CelebrationTick(s: Session, width: nat, now: int)
    requires Inv(s, width) && s.state == Celebration
    ensures Next(s, width, now).frame == Banner
    ensures now - s.stateStartTime <= CelebrationDurationMs ==> Next(s, width, now).session == s
    ensures now - s.stateStartTime > CelebrationDurationMs ==>
      Next(s, width, now).session == Session(OrderInfo, now, 0, s.screens, 0, OrderCycles)
  {
  }

  /** A tick showing a screen draws it (content screens at their scroll
      offset) and moves on to the next screen exactly when more than 8 s have
      passed since it was first shown; otherwise only the scroll changes, and
      only on content screens, where it steps on modulo the limit. */
  lemma OrderInfoTick(s: Session, width: nat, now: int)
    requires Inv(s, width) && s.state == OrderInfo && s.screens != []
    ensures var screen := s.screens[s.screenIndex];
      Next(s, width, now).frame == Text(screen, if s.screenIndex > 1 then s.scrollPosition else 0)
    ensures now - s.stateStartTime > ScreenTimeoutMs ==>
      Next(s, width, now).session == AdvanceScreen(s, now)
    ensures now - s.stateStartTime <= ScreenTimeoutMs ==>
      var limit := ScrollLimit(s.screens[s.screenIndex], width);
      Next(s, width, now).session ==
        s.(scrollPosition := if s.screenIndex > 1 then (s.scrollPosition + ScrollStep) % limit else s.scrollPosition)
  {
    WidthConditionNeverHolds(s, width);
  }

  /** An idle tick clears the device and changes nothing; a tick that should
      show screens when there are none draws nothing and changes nothing. */
  lemma QuiescentTick(s: Session, width: nat, now: int)
    requires IndexInRange(s)
    requires s.state == Idle || (s.state == OrderInfo && s.screens == [])
    ensures Next(s, width, now).session == s
    ensures Next(s, width, now).frame == (if s.state == Idle then Cleared else Blank)
  {
  }

  /** The cycle counter goes down only when the index wraps from the last
      screen to the first, and then by exactly one; it goes up only when the
      celebration ends, to the full count. Whenever the index changes the
      scroll restarts at zero. */
  lemma CountersOnlyMoveTogether(s: Session, width: nat, now: int)
    requires Inv(s, width)
    ensures var t := Next(s, width, now).session;
      && (t.cyclesRemaining < s.cyclesRemaining ==>
            && s.state == OrderInfo && s.screenIndex == |s.screens| - 1
            && t.screenIndex == 0 && t.cyclesRemaining == s.cyclesRemaining - 1)
      && (t.cyclesRemaining > s.cyclesRemaining ==>
            s.state == Celebration && t.cyclesRemaining == OrderCycles)
      && (t.screenIndex != s.screenIndex ==> t.scrollPosition == 0)
  {
  }

  /** `n` screen advances in a row, all at time `now`. */
  function AdvanceTimes(s: Session, n: nat, now: int): Session
    decreases n
  {
    if n == 0 then s else AdvanceTimes(AdvanceScreen(s, now), n - 1, now)
  }

  lemma {:induction false} AdvanceTimesAdd(s: Session, a: nat, b: nat, now: int)
    ensures AdvanceTimes(s, a + b, now) == AdvanceTimes(AdvanceTimes(s, a, now), b, now)
    decreases a
  {
    if a > 0 {
      AdvanceTimesAdd(AdvanceScreen(s, now), a - 1, b, now);
    }
  }

  /** Advancing within one pass moves the index and nothing else of note. */
  lemma {:induction false} WithinPass(s: Session, j: nat, now: int)
    requires s.state == OrderInfo && 0 <= s.screenIndex && s.screenIndex + j < |s.screens|
    ensures var t := AdvanceTimes(s, j, now);
      && t.state == OrderInfo && t.screenIndex == s.screenIndex + j
      && t.cyclesRemaining == s.cyclesRemaining && t.screens == s.screens
    decreases j
  {
    if j > 0 {
      WithinPass(AdvanceScreen(s, now), j - 1, now);
    }
  }

  /** One full pass from the first screen returns to the first screen with
      one cycle fewer, idle if that was the last. */
  lemma OnePass(s: Session, now: int)
    requires s.state == OrderInfo && s.screenIndex == 0 && |s.screens| >= 1 && s.cyclesRemaining >= 1
    ensures var t := AdvanceTimes(s, |s.screens|, now);
      && t.screenIndex == 0 && t.cyclesRemaining == s.cyclesRemaining - 1 && t.screens == s.screens
      && t.state == (if s.cyclesRemaining - 1 <= 0 then Idle else OrderInfo)
  {
    var k := |s.screens|;
    AdvanceTimesAdd(s, k - 1, 1, now);
    WithinPass(s, k - 1, now);
  }

  /** From the first screen with `c` cycles left, the display goes idle after
      exactly `c` full passes over the screens, and not one advance sooner. */
  lemma {:induction false} PassesToIdle(s: Session, now: int)
    requires s.state == OrderInfo && s.screenIndex == 0 && |s.screens| >= 1 && s.cyclesRemaining >= 1
    ensures AdvanceTimes(s, s.cyclesRemaining * |s.screens|, now).state == Idle
    ensures forall n: nat :: n < s.cyclesRemaining * |s.screens| ==> AdvanceTimes(s, n, now).state == OrderInfo
    decreases s.cyclesRemaining
  {
    var k, c := |s.screens|, s.cyclesRemaining;
    OnePass(s, now);
    var t := AdvanceTimes(s, k, now);
    forall n: nat | n < k ensures AdvanceTimes(s, n, now).state == OrderInfo {
      WithinPass(s, n, now);
    }
    if c > 1 {
      PassesToIdle(t, now);
      assert c * k == k + (c - 1) * k;
      AdvanceTimesAdd(s, k, (c - 1) * k, now);
      forall n: nat | k <= n < c * k ensures AdvanceTimes(s, n, now).state == OrderInfo {
        AdvanceTimesAdd(s, k, n - k, now);
      }
    }
  }

  /** The life of an order: once a new order has been taken and more than
      3 s have passed, the display shows the order's screens from the first,
      and goes idle after exactly two full passes over them. */
  lemma OrderLifecycle(s: Session, order: Order, width: nat, t0: int, t1: int)
    requires Inv(s, width)
    requires t1 - t0 > CelebrationDurationMs
    ensures var shown := Next(NewOrder(s, order, t0), width, t1).session;
      && shown == Session(OrderInfo, t1, 0, OrderScreens(order), 0, OrderCycles)
      && AdvanceTimes(shown, OrderCycles * |shown.screens|, t1).state == Idle
      && forall n: nat :: n < OrderCycles * |shown.screens| ==> AdvanceTimes(shown, n, t1).state == OrderInfo
  {
    NewOrderInv(s, order, width, t0);
    var shown := Next(NewOrder(s, order, t0), width, t1).session;
    CelebrationTick(NewOrder(s, order, t0), width, t1);
    PassesToIdle(shown, t1);
  }

  /** The session after one tick at each of `times`, in turn. */
  ghost function Run(s: Session, width: nat, times: seq<int>): Session
    requires Inv(s, width)
    decreases |times|
  {
    if times == [] then s
    else
      NextPreservesInv(s, width, times[0]);
      Run(Next(s, width, times[0]).session, width, times[1..])
  }

  /** How many of the ticks at `times` find the shown screen timed out, the
      screen having started at `start`: each such tick restarts the screen's
      clock, the others leave it. */
  function Timeouts(start: int, times: seq<int>): nat
    decreases |times|
  {
    if times == [] then 0
    else if times[0] - start > ScreenTimeoutMs then 1 + Timeouts(times[0], times[1..])
    else Timeouts(start, times[1..])
  }

  /** Where the display is in its screen cycle, leaving out the scroll and
      the clock. */
  function Position(s: Session): Session
  {
    s.(stateStartTime := 0, scrollPosition := 0)
  }

  /** Advancing does not depend on the scroll, the clock or the time of the
      advance. */
  lemma {:induction false} AdvanceTimesPosition(a: Session, b: Session, n: nat, x: int, y: int)
    requires Position(a) == Position(b)
    ensures Position(AdvanceTimes(a, n, x)) == Position(AdvanceTimes(b, n, y))
    decreases n
  {
    if n > 0 {
      AdvanceTimesPosition(AdvanceScreen(a, x), AdvanceScreen(b, y), n - 1, x, y);
    }
  }

  /** A run of ticks while screens are shown (and up to the tick that ends
      them) is where the same number of advances leaves the display, one
      advance per timed-out tick; the ticks in between only scroll. */
  lemma {:induction false} RunAdvances(s: Session, width: nat, times: seq<int>)
    requires Inv(s, width) && s.state != Celebration && s.screens != []
    requires forall n: nat :: n < Timeouts(s.stateStartTime, times) ==> AdvanceTimes(s, n, 0).state == OrderInfo
    ensures Position(Run(s, width, times)) == Position(AdvanceTimes(s, Timeouts(s.stateStartTime, times), 0))
    decreases |times|
  {
    if times != [] {
      var t, rest := times[0], times[1..];
      NextPreservesInv(s, width, t);
      var s1 := Next(s, width, t).session;
      if t - s.stateStartTime > ScreenTimeoutMs {
        assert AdvanceTimes(s, 0, 0).state == OrderInfo;
        OrderInfoTick(s, width, t);
        assert s1 == AdvanceScreen(s, t);
        var r := Timeouts(t, rest);
        forall n: nat | n < r ensures AdvanceTimes(s1, n, 0).state == OrderInfo {
          AdvanceTimesPosition(AdvanceScreen(s, 0), s1, n, 0, 0);
          assert AdvanceTimes(s, n + 1, 0) == AdvanceTimes(AdvanceScreen(s, 0), n, 0);
        }
        RunAdvances(s1, width, rest);
        AdvanceTimesPosition(s1, AdvanceScreen(s, 0), r, 0, 0);
      } else {
        var r := Timeouts(s.stateStartTime, rest);
        if s.state == OrderInfo {
          OrderInfoTick(s, width, t);
        } else {
          QuiescentTick(s, width, t);
        }
        assert Position(s1) == Position(s) && s1.stateStartTime == s.stateStartTime;
        forall n: nat | n < r ensures AdvanceTimes(s1, n, 0).state == OrderInfo {
          AdvanceTimesPosition(s, s1, n, 0, 0);
        }
        RunAdvances(s1, width, rest);
        AdvanceTimesPosition(s1, s, r, 0, 0);
      }
    }
  }

  /** Ticking from the first screen with `c` cycles left: the display is
      still showing screens while fewer than `c` full passes of timed-out
      ticks have happened, and is idle once exactly that many have. The ticks
      may come at any times; only those that find the screen timed out move
      it on. */
  lemma TicksToIdle(s: Session, width: nat, times: seq<int>)
    requires Inv(s, width) && s.state == OrderInfo && s.screenIndex == 0 && s.screens != []
    requires Timeouts(s.stateStartTime, times) <= s.cyclesRemaining * |s.screens|
    ensures Run(s, width, times).state ==
      if Timeouts(s.stateStartTime, times) == s.cyclesRemaining * |s.screens| then Idle else OrderInfo
  {
    PassesToIdle(s, 0);
    RunAdvances(s, width, times);
  }

  /** The life of an order in ticks: after a new order, a tick more than 3 s
      later shows its screens, and from then on the display goes idle exactly
      when the ticks have found a screen timed out twice per screen. */
  lemma TickedOrderLifecycle(s: Session, order: Order, width: nat, t0: int, t1: int, times: seq<int>)
    requires Inv(s, width)
    requires t1 - t0 > CelebrationDurationMs
    requires Timeouts(t1, times) <= OrderCycles * |OrderScreens(order)|
    ensures Inv(NewOrder(s, order, t0), width)
    ensures Run(NewOrder(s, order, t0), width, [t1] + times).state ==
        if Timeouts(t1, times) == OrderCycles * |OrderScreens(order)| then Idle else OrderInfo
  {
    NewOrderInv(s, order, width, t0);
    var n := NewOrder(s, order, t0);
    CelebrationTick(n, width, t1);
    var shown := Next(n, width, t1).session;
    NextPreservesInv(n, width, t1);
    assert ([t1] + times)[1..] == times;
    TicksToIdle(shown, width, times);
  }

  /** The display manager: the session's fields, updated in place by the
      display loop's ticks and by new orders. */
  class DisplayManager {
    const width: nat
    const height: nat
    var displayState: DisplayState
    var stateStartTime: int
    var scrollPosition: int
    var screens: seq<string>
    var screenIndex: int
    var cyclesRemaining: int
    var orderData: Option<Order>

    function Snapshot(): Session
      reads this
    {
      Session(displayState, stateStartTime, scrollPosition, screens, screenIndex, cyclesRemaining)
    }

    ghost predicate Valid()
      reads this
    {
      Inv(Snapshot(), width)
    }

    /** A display `width` by `height` pixels, idle at time `now`. */
    constructor (width: nat, height: nat, now: int)
      ensures Valid()
      ensures this.width == width && this.height == height
      ensures Snapshot() == Initial(now) && orderData == None
    {
      this.width := width;
      this.height := height;
      displayState := Idle;
      stateStartTime := now;
      scrollPosition := 0;
      screens := [];
      screenIndex := 0;
      cyclesRemaining := 0;
      orderData := None;
    }

    /** Takes a new order at time `now`, whatever the display was doing. */
    method SetNewOrder(order: Order, now: int)
      requires Valid()
      modifies this
      ensures Valid()
      ensures Snapshot() == NewOrder(old(Snapshot()), order, now)
      ensures orderData == Some(order)
    {
      orderData := Some(order);
      screens := CreateOrderScreens(order);
      scrollPosition := 0;
      displayState := Celebration;
      stateStartTime := now;
      NewOrderInv(old(Snapshot()), order, width, now);
    }

    /** One pass of the display loop at time `now`: returns what it draws and
      updates the session. */
    method Tick(now: int) returns (frame: Frame)
      requires Valid()
      modifies this
      ensures Valid()
      ensures Snapshot() == Next(old(Snapshot()), width, now).session
      ensures frame == Next(old(Snapshot()), width, now).frame
      ensures orderData == old(orderData)
    {
      if displayState == Celebration {
        frame := Banner;
        if now - stateStartTime > CelebrationDurationMs {
          displayState := OrderInfo;
          stateStartTime := now;
          screenIndex := 0;
          cyclesRemaining := OrderCycles;
        }
      } else if displayState == OrderInfo {
        if screens != [] {
          var maxWidth := |screens[screenIndex]|;
          var scrollLimit := maxWidth + width + ScrollPadding;
          if screenIndex > 1 {
            frame := Text(screens[screenIndex], scrollPosition);
            scrollPosition := (scrollPosition + ScrollStep) % scrollLimit;
          } else {
            frame := Text(screens[screenIndex], 0);
          }
          if now - stateStartTime > ScreenTimeoutMs || scrollPosition >= scrollLimit + maxWidth {
            screenIndex := screenIndex + 1;
            scrollPosition := 0;
            stateStartTime := now;
            if screenIndex >= |screens| {
              screenIndex := 0;
              cyclesRemaining := cyclesRemaining - 1;
              if cyclesRemaining <= 0 {
                displayState := Idle;
                stateStartTime := now;
              }
            }
          }
        } else {
          frame := Blank;
        }
      } else {
        frame := Cleared;
      }
      NextPreservesInv(old(Snapshot()), width, now);
    }
  }
}
