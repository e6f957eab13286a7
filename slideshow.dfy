/** `src/components/gallery/Slideshow.tsx`: the slide index and play state
    of the gallery slideshow, the keyboard handler, the autoplay timeout and
    the effect that schedules it, and the text announced to screen readers.
    The timeout's delay and the DOM are not modelled: a pending timeout is a
    flag, and it fires when `Tick` is called. */
module Slideshow {
  import opened Wrappers
  import opened Strings
  import opened Configs

  const DefaultInterval := 5000

  /** JavaScript's `a % b`: the remainder truncated toward zero, which takes
      the sign of `a`. */
  function JsRem(a: int, b: int): (r: int)
    requires b != 0
    ensures a >= 0 ==> 0 <= r < (if b > 0 then b else -b)
    ensures a < 0 ==> -(if b > 0 then b else -b) < r <= 0
  {
    var m := if b > 0 then b else -b;
    if a >= 0 then a % m else -((-a) % m)
  }

  /** For a non-negative left operand and a positive divisor it is Dafny's `%`. */
  lemma JsRemNonNegative(a: int, b: int)
    requires a >= 0 && b > 0
    ensures JsRem(a, b) == a % b
  {
  }

  /** A negative left operand that is not a multiple of the divisor gives a
      negative remainder: Dafny's `%` minus the divisor. */
  lemma JsRemNegative(a: int, b: int)
    requires a < 0 && b > 0
    ensures a % b == 0 ==> JsRem(a, b) == 0
    ensures a % b != 0 ==> JsRem(a, b) == a % b - b < 0
  {
    var q, r := (-a) / b, (-a) % b;
    assert -a == q * b + r && 0 <= r < b;
    if r == 0 {
      assert a == (-q) * b;
      ModOfMultiple(-q, b);
    } else {
      assert a == (-q - 1) * b + (b - r);
      ModUnique(a, b, -q - 1, b - r);
    }
  }

  lemma ModOfMultiple(q: int, b: int)
    requires b > 0
    ensures (q * b) % b == 0
  {
    ModUnique(q * b, b, q, 0);
  }

  /** Dafny's `%` is the unique remainder in [0, b). */
  lemma ModUnique(a: int, b: int, q: int, r: int)
    requires b > 0 && 0 <= r < b && a == q * b + r
    ensures a % b == r
  {
    var q0, r0 := a / b, a % b;
    assert a == q0 * b + r0 && 0 <= r0 < b;
    assert (q - q0) * b == r0 - r;
    if q > q0 {
      MulAtLeast(q - q0, b);
    } else if q < q0 {
      MulAtLeast(q0 - q, b);
    }
  }

  lemma MulAtLeast(d: int, b: int)
    requires d >= 1 && b > 0
    ensures d * b >= b
  {
    assert d * b == (d - 1) * b + b;
  }

  /** `clamp(i)`: wrap around with `loop`, else saturate at both ends. */
  function Clamp(i: int, count: int, loop: bool): int
    requires count > 0
  {
    if loop then JsRem(i + count, count) else if count - 1 < i then count - 1 else if i < 0 then 0 else i
  }

  /** The clamp lands in [0, count) for every argument it is given: any `i`
      without loop, and `i >= -count` with loop (Home, End, the dots and one
      step from a valid index). */
  lemma ClampInRange(i: int, count: int, loop: bool)
    requires count > 0 && (loop ==> i >= -count)
    ensures 0 <= Clamp(i, count, loop) < count
  {
  }

  /** A valid index is its own clamp. */
  lemma ClampKeepsValid(i: int, count: int, loop: bool)
    requires 0 <= i < count
    ensures Clamp(i, count, loop) == i
  {
    if loop {
      assert (i + count) % count == i by {
        assert i + count == 1 * count + i;
      }
    }
  }

  /** With loop, one step past either end wraps to the other end. */
  lemma LoopWraps(count: int)
    requires count > 0
    ensures Clamp(count - 1 + 1, count, true) == 0
    ensures Clamp(0 - 1, count, true) == count - 1
  {
    assert count % count == 0 by {
      assert count == 1 * count + 0;
    }
  }

  /** Without loop, a step past either end stays at that end. */
  lemma NoLoopSaturates(count: int)
    requires count > 0
    ensures Clamp(count - 1 + 1, count, false) == count - 1
    ensures Clamp(0 - 1, count, false) == 0
  {
  }

  /** With loop the clamp is the Euclidean remainder on those arguments. */
  lemma LoopClampIsMod(i: int, count: int)
    requires count > 0 && i >= -count
    ensures Clamp(i, count, true) == (i + count) % count
  {
  }

  /** More than a turn below zero the loop clamp is a negative index, unless
      `i + count` happens to be a multiple of the count. */
  lemma LoopClampBelowRange(i: int, count: int)
    requires count > 0 && i < -count
    ensures (i + count) % count == 0 ==> Clamp(i, count, true) == 0
    ensures (i + count) % count != 0 ==> Clamp(i, count, true) == (i + count) % count - count < 0
  {
    JsRemNegative(i + count, count);
  }

  /** "Slide {index+1} of {count}", announced only when there are slides. */
  function Announcement(index: int, count: int): (r: Option<string>)
    ensures r.Some? <==> count > 0
    ensures r.Some? ==> r.value == "Slide " + IntToString(index + 1) + " of " + IntToString(count)
  {
    if count > 0 then Some("Slide " + IntToString(index + 1) + " of " + IntToString(count)) else None
  }

  /** The guard of the autoplay effect: it schedules a timeout only when
      playing, motion is allowed, the pointer is not over the slideshow, it
      does not have focus, and there are at least two slides. */
  predicate AutoplayArmed(playing: bool, prefersReduced: bool, hovered: bool, userFocus: bool, count: int) {
    playing && !prefersReduced && !hovered && !userFocus && count >= 2
  }

  /** The autoplay effect's dependency list `[playing, index, interval, isUserFocus, count]`. */
  datatype Deps = Deps(playing: bool, index: int, interval: int, userFocus: bool, count: int)

  class Slideshow {
    const count: int
    const loop: bool
    const autoPlay: bool
    const interval: int
    var index: int
    var playing: bool
    var userFocus: bool
    /** `hoverRef.current`: a ref, so changing it does not re-render. */
    var hovered: bool
    /** A timeout that will call `next()` is scheduled (`timerRef`). */
    var timerPending: bool
    /** The last run of the autoplay effect returned its cleanup. */
    var cleanupArmed: bool
    /** The dependencies the effect last ran with; none before mounting. */
    var lastRun: Option<Deps>
    /** What `matchMedia` said when the pending timeout was scheduled. */
    ghost var reducedAtArm: bool

    /** The slideshow is shown only with at least one picture, and its index
        then names one of them. */
    ghost predicate Valid()
      reads this
    {
      count > 0 && 0 <= index < count
    }

    /** A scheduled timeout was scheduled by a run that passed the guard:
        with fewer than two slides, or with reduced motion, none is pending. */
    ghost predicate TimerSound()
      reads this
    {
      timerPending ==> cleanupArmed && count >= 2 && !reducedAtArm
    }

    /** The timer state is as it was. */
    twostate predicate TimerUntouched()
      reads this
    {
      timerPending == old(timerPending) && cleanupArmed == old(cleanupArmed) &&
      lastRun == old(lastRun) && reducedAtArm == old(reducedAtArm)
    }

    function CurrentDeps(): Deps
      reads this
    {
      Deps(playing, index, interval, userFocus, count)
    }

    /** The props with their defaults (`loop = true`, `autoPlay = true`,
        `interval = 5000`) and the initial state. */
    constructor (pictures: Option<seq<Picture>>, loop: Option<bool>, autoPlay: Option<bool>, interval: Option<int>)
      ensures count == (if pictures.Some? then |pictures.value| else 0)
      ensures this.loop == loop.GetOr(true) && this.autoPlay == autoPlay.GetOr(true)
      ensures this.interval == interval.GetOr(DefaultInterval)
      ensures index == 0 && playing == this.autoPlay && !userFocus && !hovered
      ensures !timerPending && !cleanupArmed && lastRun == None && TimerSound()
      ensures count > 0 ==> Valid()
    {
      count := if pictures.Some? then |pictures.value| else 0;
      this.loop := loop.GetOr(true);
      this.autoPlay := autoPlay.GetOr(true);
      this.interval := interval.GetOr(DefaultInterval);
      index := 0;
      playing := autoPlay.GetOr(true);
      userFocus := false;
      hovered := false;
      timerPending := false;
      cleanupArmed := false;
      lastRun := None;
      reducedAtArm := false;
    }

    /** `next()`. */
    method Next()
      requires Valid()
      modifies this
      ensures Valid() && index == Clamp(old(index) + 1, count, loop)
      ensures old(index) < count - 1 ==> index == old(index) + 1
      ensures old(index) == count - 1 ==> index == (if loop then 0 else count - 1)
      ensures playing == old(playing) && userFocus == old(userFocus) && hovered == old(hovered)
      ensures TimerUntouched()
    {
      ClampInRange(index + 1, count, loop);
      if index < count - 1 {
        ClampKeepsValid(index + 1, count, loop);
      } else {
        LoopWraps(count);
      }
      index := Clamp(index + 1, count, loop);
    }

    /** `prev()`. */
    method Prev()
      requires Valid()
      modifies this
      ensures Valid() && index == Clamp(old(index) - 1, count, loop)
      ensures old(index) > 0 ==> index == old(index) - 1
      ensures old(index) == 0 ==> index == (if loop then count - 1 else 0)
      ensures playing == old(playing) && userFocus == old(userFocus) && hovered == old(hovered)
      ensures TimerUntouched()
    {
      ClampInRange(index - 1, count, loop);
      if index > 0 {
        ClampKeepsValid(index - 1, count, loop);
      } else {
        LoopWraps(count);
      }
      index := Clamp(index - 1, count, loop);
    }

    /** `goTo(i)`: a valid target is taken as is. */
    method GoTo(i: int)
      requires count > 0
      modifies this
      ensures index == Clamp(i, count, loop)
      ensures 0 <= i < count ==> index == i
      ensures (!loop || i >= -count) ==> Valid()
      ensures playing == old(playing) && userFocus == old(userFocus) && hovered == old(hovered)
      ensures TimerUntouched()
    {
      if 0 <= i < count {
        ClampKeepsValid(i, count, loop);
      }
      if !loop || i >= -count {
        ClampInRange(i, count, loop);
      }
      index := Clamp(i, count, loop);
    }

    /** The play/pause button. */
    method TogglePlaying()
      modifies this
      ensures playing == !old(playing) && index == old(index)
      ensures userFocus == old(userFocus) && hovered == old(hovered)
      ensures TimerUntouched()
    {
      playing := !playing;
    }

    /** `onKeyDown`: arrows step, Home and End jump, Space and Enter toggle
        play only when the region itself has focus; other keys do nothing. */
    method OnKeyDown(key: string, targetIsRegion: bool)
      requires Valid()
      modifies this
      ensures Valid()
      ensures key == "ArrowLeft" ==> index == Clamp(old(index) - 1, count, loop)
      ensures key == "ArrowRight" ==> index == Clamp(old(index) + 1, count, loop)
      ensures key == "Home" ==> index == 0
      ensures key == "End" ==> index == count - 1
      ensures key !in {"ArrowLeft", "ArrowRight", "Home", "End"} ==> index == old(index)
      ensures (key == " " || key == "Enter") && targetIsRegion ==> playing == !old(playing)
      ensures !((key == " " || key == "Enter") && targetIsRegion) ==> playing == old(playing)
      ensures userFocus == old(userFocus) && hovered == old(hovered)
      ensures TimerUntouched()
    {
      if key == "ArrowLeft" {
        Prev();
      } else if key == "ArrowRight" {
        Next();
      } else if key == "Home" {
        GoTo(0);
      } else if key == "End" {
        GoTo(count - 1);
      } else if key == " " || key == "Enter" {
        if targetIsRegion {
          TogglePlaying();
        }
      }
    }

    /** `onFocus`. */
    method Focus()
      modifies this
      ensures userFocus && index == old(index) && playing == old(playing) && hovered == old(hovered)
      ensures TimerUntouched()
    {
      userFocus := true;
    }

    /** `onBlur`. */
    method Blur()
      modifies this
      ensures !userFocus && index == old(index) && playing == old(playing) && hovered == old(hovered)
      ensures TimerUntouched()
    {
      userFocus := false;
    }

    /** `onMouseEnter`: sets the hover ref and cancels a scheduled timeout. */
    method MouseEnter()
      requires TimerSound()
      modifies this
      ensures hovered && !timerPending && TimerSound()
      ensures index == old(index) && playing == old(playing) && userFocus == old(userFocus)
      ensures cleanupArmed == old(cleanupArmed) && lastRun == old(lastRun)
    {
      hovered := true;
      if timerPending {
        timerPending := false;
      }
    }

    /** `onMouseLeave`: only clears the hover ref. No dependency of the
        effect changes, so nothing schedules a new timeout. */
    method MouseLeave()
      modifies this
      ensures !hovered && index == old(index) && playing == old(playing) && userFocus == old(userFocus)
      ensures TimerUntouched()
    {
      hovered := false;
    }

    /** The evidently intended `onMouseLeave`: clear the hover ref and run the
        effect's body again, so that autoplay resumes once the pointer leaves. */
    method MouseLeaveResuming(prefersReduced: bool)
      requires TimerSound()
      modifies this
      ensures !hovered && index == old(index) && playing == old(playing) && userFocus == old(userFocus)
      ensures lastRun == old(lastRun) && TimerSound()
      ensures AutoplayArmed(playing, prefersReduced, hovered, userFocus, count) ==> timerPending && cleanupArmed
      ensures !AutoplayArmed(playing, prefersReduced, hovered, userFocus, count) ==>
        timerPending == old(timerPending) && cleanupArmed == old(cleanupArmed)
    {
      hovered := false;
      if AutoplayArmed(playing, prefersReduced, hovered, userFocus, count) {
        timerPending, cleanupArmed := true, true;
        reducedAtArm := prefersReduced;
      }
    }

    /** React's commit after a render: when a dependency changed since the
        last run (or on mount), the previous run's cleanup cancels its
        timeout, and the effect schedules a new one iff its guard passes.
        `prefersReduced` is what `matchMedia` reports at that moment. */
    method Commit(prefersReduced: bool)
      requires TimerSound()
      modifies this
      ensures index == old(index) && playing == old(playing) && userFocus == old(userFocus) && hovered == old(hovered)
      ensures TimerSound()
      ensures old(lastRun) == Some(CurrentDeps()) ==> TimerUntouched()
      ensures old(lastRun) != Some(CurrentDeps()) ==>
        lastRun == Some(CurrentDeps()) &&
        timerPending == AutoplayArmed(playing, prefersReduced, hovered, userFocus, count) &&
        cleanupArmed == timerPending
    {
      if lastRun == Some(CurrentDeps()) {
        return;
      }
      if cleanupArmed {
        timerPending := false;
      }
      if AutoplayArmed(playing, prefersReduced, hovered, userFocus, count) {
        timerPending, cleanupArmed := true, true;
        reducedAtArm := prefersReduced;
      } else {
        cleanupArmed := false;
      }
      lastRun := Some(CurrentDeps());
    }

    /** The scheduled timeout fires and calls `next()`. */
    method Tick()
      requires Valid() && timerPending && TimerSound()
      modifies this
      ensures Valid() && !timerPending && TimerSound()
      ensures index == Clamp(old(index) + 1, count, loop)
      ensures playing == old(playing) && userFocus == old(userFocus) && hovered == old(hovered)
      ensures cleanupArmed == old(cleanupArmed) && lastRun == old(lastRun)
    {
      timerPending := false;
      Next();
    }

    /** The live-region text for the current slide. */
    function Announce(): Option<string>
      reads this
    {
      Announcement(index, count)
    }
  }

  /** Pressing Home then End on a fresh slideshow of n pictures ends on the last one. */
  method HomeThenEnd(pictures: seq<Picture>) returns (s: Slideshow)
    requires |pictures| > 0
    ensures s.index == |pictures| - 1 && s.playing
  {
    s := new Slideshow(Some(pictures), None, None, None);
    s.OnKeyDown("Home", false);
    s.OnKeyDown("End", false);
  }

  /** What can happen to a mounted slideshow. */
  datatype Event =
    | KeyDown(key: string, targetIsRegion: bool)
    | FocusIn
    | FocusOut
    | PointerEnter
    | PointerLeave
    | PlayButton
    | TimeoutFires
    | Render(prefersReduced: bool)

  /** Any sequence of events keeps the timer sound: a slideshow of fewer than
      two pictures never has a timeout pending, and neither does one whose
      every render sees reduced motion. A timeout fires only when pending. */
  method Replay(s: Slideshow, events: seq<Event>)
    requires s.Valid() && s.TimerSound()
    modifies s
    ensures s.Valid() && s.TimerSound()
    ensures s.count < 2 ==> !s.timerPending
    ensures !old(s.timerPending) && (forall i :: 0 <= i < |events| && events[i].Render? ==> events[i].prefersReduced) ==>
      !s.timerPending
  {
    var quiet := !s.timerPending;
    for k := 0 to |events|
      invariant s.Valid() && s.TimerSound()
      invariant quiet == !old(s.timerPending)
      invariant quiet && (forall i :: 0 <= i < k && events[i].Render? ==> events[i].prefersReduced) ==>
        !s.timerPending
    {
      match events[k]
      case KeyDown(key, region) => s.OnKeyDown(key, region);
      case FocusIn => s.Focus();
      case FocusOut => s.Blur();
      case PointerEnter => s.MouseEnter();
      case PointerLeave => s.MouseLeave();
      case PlayButton => s.TogglePlaying();
      case TimeoutFires => if s.timerPending { s.Tick(); }
      case Render(reduced) => s.Commit(reduced);
    }
  }

  /** The stall: a playing slideshow of two or more pictures, mounted, then
      hovered and left, has no timeout pending after any later render that
      changes none of the effect's dependencies, although its guard passes. */
  method HoverStalls(pictures: seq<Picture>) returns (s: Slideshow)
    requires |pictures| >= 2
    ensures AutoplayArmed(s.playing, false, s.hovered, s.userFocus, s.count)
    ensures !s.timerPending
  {
    s := new Slideshow(Some(pictures), None, None, None);
    s.Commit(false);
    assert s.timerPending;
    s.MouseEnter();
    s.MouseLeave();
    s.Commit(false);
  }

  /** With the resuming handler, the same events leave a timeout pending. */
  method HoverResumes(pictures: seq<Picture>) returns (s: Slideshow)
    requires |pictures| >= 2
    ensures AutoplayArmed(s.playing, false, s.hovered, s.userFocus, s.count)
    ensures s.timerPending
  {
    s := new Slideshow(Some(pictures), None, None, None);
    s.Commit(false);
    s.MouseEnter();
    s.MouseLeaveResuming(false);
    s.Commit(false);
  }
}
