/**
 * Properties of the main loop over many frames: the global fist cooldown,
 * the length of the countdown, the game-over timer, and the order in which
 * a frame's key events are handled.
 */
module LifecycleRuns {
  import opened Lifecycle

  /** The clock readings of the frames, run while the loop keeps running, in which a fist click was accepted. */
  function ClickTimes(s: Session, ins: seq<FrameInput>): seq<real>
    decreases |ins|
  {
    if |ins| == 0 || !s.running then
      []
    else
      var f := Step(s, ins[0]);
      (if Clicked(f) then [ins[0].now] else []) + ClickTimes(f.next, ins[1..])
  }

  /** Each time is more than one cooldown after the one before it, the first after `last`. */
  ghost predicate SpacedAfter(last: real, ts: seq<real>) {
    && (|ts| > 0 ==> ts[0] - last > FistCooldown)
    && (forall i :: 0 < i < |ts| ==> ts[i] - ts[i - 1] > FistCooldown)
  }

  /**
   * Consecutive accepted clicks, on whatever buttons and screens, are more
   * than the cooldown apart, and the first is more than the cooldown after
   * the session's last recorded click.
   */
  lemma {:induction false} ClicksSpaced(s: Session, ins: seq<FrameInput>)
    ensures SpacedAfter(s.lastFistTime, ClickTimes(s, ins))
    decreases |ins|
  {
    if |ins| > 0 && s.running {
      var f := Step(s, ins[0]);
      var rest := ClickTimes(f.next, ins[1..]);
      ClicksSpaced(f.next, ins[1..]);
      if Clicked(f) {
        var ts := [ins[0].now] + rest;
        assert ts == ClickTimes(s, ins);
        assert CooldownElapsed(ins[0].now, s.lastFistTime);
        forall i | 0 < i < |ts|
          ensures ts[i] - ts[i - 1] > FistCooldown
        {
          assert ts[i] == rest[i - 1];
          if i == 1 {
            assert ts[0] == f.next.lastFistTime;
          } else {
            assert ts[i - 1] == rest[i - 2];
          }
        }
      } else {
        assert ClickTimes(s, ins) == rest;
      }
    }
  }

  lemma {:induction false} SpacedPairwise(last: real, ts: seq<real>, i: int, j: int)
    requires SpacedAfter(last, ts)
    requires 0 <= i < j < |ts|
    ensures ts[j] - ts[i] > FistCooldown
    decreases j - i
  {
    if j > i + 1 {
      SpacedPairwise(last, ts, i, j - 1);
      assert ts[j] - ts[j - 1] > FistCooldown;
    }
  }

  /**
   * No two accepted fist clicks of a run are a cooldown or less apart; from
   * the loop's initial variables, none is accepted in the first half second.
   */
  lemma NoTwoClicksWithinCooldown(s: Session, ins: seq<FrameInput>)
    ensures var ts := ClickTimes(s, ins);
      && (forall i, j :: 0 <= i < j < |ts| ==> ts[j] - ts[i] > FistCooldown)
      && (s == Initial() && |ts| > 0 ==> ts[0] > FistCooldown)
  {
    var ts := ClickTimes(s, ins);
    ClicksSpaced(s, ins);
    forall i, j | 0 <= i < j < |ts|
      ensures ts[j] - ts[i] > FistCooldown
    {
      SpacedPairwise(s.lastFistTime, ts, i, j);
    }
    if |ts| > 0 {
      assert ts[0] - s.lastFistTime > FistCooldown;
    }
  }

  /** A frame with no key events, a working camera, time not running backwards and no game over. */
  predicate Quiet(inp: FrameInput) {
    inp.events == [] && inp.cameraOk && inp.dt >= 0.0 && !inp.gameOver
  }

  function SumDt(ins: seq<FrameInput>): real
    decreases |ins|
  {
    if |ins| == 0 then 0.0 else ins[0].dt + SumDt(ins[1..])
  }

  lemma {:induction false} SumDtNonNegative(ins: seq<FrameInput>)
    requires forall i :: 0 <= i < |ins| ==> Quiet(ins[i])
    ensures SumDt(ins) >= 0.0
    decreases |ins|
  {
    if |ins| > 0 {
      assert Quiet(ins[0]);
      assert forall i :: 0 <= i < |ins[1..]| ==> ins[1..][i] == ins[i + 1];
      SumDtNonNegative(ins[1..]);
    }
  }

  /** The session after the loop has consumed the inputs, or stopped. */
  function Final(s: Session, ins: seq<FrameInput>): Session
    decreases |ins|
  {
    if |ins| == 0 || !s.running then s else Final(Step(s, ins[0]).next, ins[1..])
  }

  /** Play continues through quiet frames. */
  lemma {:induction false} PlayPersists(s: Session, ins: seq<FrameInput>)
    requires s.state == Play && s.running
    requires forall i :: 0 <= i < |ins| ==> Quiet(ins[i])
    ensures Final(s, ins).state == Play
    decreases |ins|
  {
    if |ins| > 0 {
      assert Quiet(ins[0]);
      assert forall i :: 0 <= i < |ins[1..]| ==> ins[1..][i] == ins[i + 1];
      PlayPersists(Step(s, ins[0]).next, ins[1..]);
    }
  }

  /**
   * Through quiet frames, a countdown is still showing exactly while the
   * frame times so far add up to less than its remaining time; after that
   * the game is in play.
   */
  lemma {:induction false} CountdownEndsAfterItsTime(s: Session, ins: seq<FrameInput>)
    requires s.state == Countdown && s.running && s.countdownTimer > 0.0
    requires forall i :: 0 <= i < |ins| ==> Quiet(ins[i])
    ensures Final(s, ins).state == if s.countdownTimer - SumDt(ins) > 0.0 then Countdown else Play
    decreases |ins|
  {
    if |ins| > 0 {
      var f := Step(s, ins[0]);
      assert Quiet(ins[0]);
      assert f == CountdownFrame(s, ins[0].dt);
      assert forall i :: 0 <= i < |ins[1..]| ==> ins[1..][i] == ins[i + 1];
      if f.next.state == Countdown {
        CountdownEndsAfterItsTime(f.next, ins[1..]);
      } else {
        PlayPersists(f.next, ins[1..]);
        SumDtNonNegative(ins[1..]);
      }
    }
  }

  /** Through quiet frames, the game-over screen stays and its timer adds up the frame times. */
  lemma {:induction false} GameOverTimerAccumulates(s: Session, ins: seq<FrameInput>)
    requires s.state == GameOver && s.running
    requires forall i :: 0 <= i < |ins| ==> Quiet(ins[i])
    ensures Final(s, ins) == s.(gameOverTimer := s.gameOverTimer + SumDt(ins))
    decreases |ins|
  {
    if |ins| > 0 {
      var f := Step(s, ins[0]);
      assert Quiet(ins[0]);
      assert f == GameOverFrame(s, ins[0].dt);
      assert forall i :: 0 <= i < |ins[1..]| ==> ins[1..][i] == ins[i + 1];
      GameOverTimerAccumulates(f.next, ins[1..]);
    }
  }

  /** A restart key pressed just after a frame that still showed the black cover is ignored. */
  lemma RestartNeverDuringCover(s: Session, dt: real)
    requires s.state == GameOver
    ensures var f := GameOverFrame(s, dt);
      f.overlay == BlackCover ==> HandleEvent(f.next, KeyDown(KeyR)).next == f.next
  {
  }

  /** Handling one more event continues from where the earlier events left off. */
  lemma {:induction false} HandleEventsAppend(s: Session, events: seq<Event>, e: Event)
    ensures HandleEvents(s, events + [e]).next == HandleEvent(HandleEvents(s, events).next, e).next
    decreases |events|
  {
    if |events| > 0 {
      var first := HandleEvent(s, events[0]);
      assert (events + [e])[0] == events[0];
      assert (events + [e])[1..] == events[1..] + [e];
      HandleEventsAppend(first.next, events[1..], e);
    }
  }

  /**
   * When a frame's last key event is Escape, the events leave the game on
   * the menu, unless it was and stays on the game-over screen.
   */
  lemma EscapeLastLeavesForMenu(s: Session, events: seq<Event>)
    requires |events| > 0 && events[|events| - 1] == KeyDown(KeyEscape)
    ensures var after := HandleEvents(s, events).next;
      after.state == Menu || (after.state == GameOver && s.state == GameOver)
  {
    var init := events[..|events| - 1];
    assert events == init + [KeyDown(KeyEscape)];
    HandleEventsAppend(s, init, KeyDown(KeyEscape));
  }

  /** Starting from the menu with a fist on "start" begins a countdown from three seconds. */
  lemma MenuStartScenario(now: real)
    requires now > FistCooldown
    ensures var f := Step(Initial(), FrameInput([], true, 0.016, now, "start", false, true));
      && f.next.state == Countdown && f.next.countdownTimer == 3.0
      && f.effects == [PlayButtonSound, ResetGame, StopMusic, PlayCountdownSound]
  {
  }

  /**
   * The timer is decremented before the digit is chosen, so frames of 1.01
   * seconds show 2, then 1, then start play: the digit 3 is never drawn.
   */
  lemma CountdownWithLongFrames()
    ensures var quiet := FrameInput([], true, 1.01, 10.0, "", false, false);
      var f1 := Step(EnterCountdown(Initial()), quiet);
      var f2 := Step(f1.next, quiet);
      var f3 := Step(f2.next, quiet);
      && f1.overlay == Digit(2) && f2.overlay == Digit(1)
      && f3.next.state == Play && f3.next.gameOverTimer == 0.0
  {
  }

  /** The restart key is refused one second into the game-over screen and accepted at 2.6 seconds. */
  lemma RestartScenario(s: Session)
    requires s.state == GameOver
    ensures HandleEvent(s.(gameOverTimer := 1.0), KeyDown(KeyR)).next.state == GameOver
    ensures var r := HandleEvent(s.(gameOverTimer := 2.6), KeyDown(KeyR)).next;
      r.state == Countdown && r.countdownTimer == 3.0
  {
  }

  /**
   * One key event crossfades to the menu theme at most once, and only on its
   * way to the menu; on the menu no key event leaves it or crossfades.
   */
  lemma EventCrossfade(s: Session, e: Event)
    ensures var r := HandleEvent(s, e);
      && multiset(r.effects)[CrossfadeToMenu] <= 1
      && (multiset(r.effects)[CrossfadeToMenu] == 1 ==> r.next.state == Menu)
      && (s.state == Menu ==> multiset(r.effects)[CrossfadeToMenu] == 0 && r.next.state == Menu)
  {
    if e == KeyDown(KeyEscape) {
      assert HandleEvent(s, e).effects == if s.state in {Credits, Guide, Countdown, Play} then [CrossfadeToMenu] else [];
    } else {
      assert CrossfadeToMenu !in HandleEvent(s, e).effects;
    }
  }

  /** The same holds for all of a frame's key events together. */
  lemma {:induction false} EventsCrossfadeOnce(s: Session, events: seq<Event>)
    ensures var r := HandleEvents(s, events);
      && multiset(r.effects)[CrossfadeToMenu] <= 1
      && (multiset(r.effects)[CrossfadeToMenu] == 1 ==> r.next.state == Menu)
      && (s.state == Menu ==> multiset(r.effects)[CrossfadeToMenu] == 0 && r.next.state == Menu)
    decreases |events|
  {
    if |events| > 0 {
      var first := HandleEvent(s, events[0]);
      var rest := HandleEvents(first.next, events[1..]);
      EventCrossfade(s, events[0]);
      EventsCrossfadeOnce(first.next, events[1..]);
      assert HandleEvents(s, events).effects == first.effects + rest.effects;
      assert multiset(first.effects + rest.effects) == multiset(first.effects) + multiset(rest.effects);
    }
  }

  /**
   * A frame crossfades to the menu theme at most once, even when an Escape
   * has already brought the game back to the menu in the same frame.
   */
  lemma OneCrossfadePerFrame(s: Session, inp: FrameInput)
    ensures multiset(Step(s, inp).effects)[CrossfadeToMenu] <= 1
  {
    var keys := HandleEvents(s, inp.events);
    EventsCrossfadeOnce(s, inp.events);
    if inp.cameraOk {
      var menuMusicOn := inp.menuMusicOn || CrossfadeToMenu in keys.effects;
      var body := ScreenFrame(keys.next, inp.(menuMusicOn := menuMusicOn));
      assert Step(s, inp).effects == keys.effects + body.effects;
      assert multiset(keys.effects + body.effects) == multiset(keys.effects) + multiset(body.effects);
    }
  }

  /** Escape out of play followed by a fist on "start" crossfades once and starts a new countdown. */
  lemma EscapeThenStartScenario(s: Session, inp: FrameInput)
    requires s.state == Play && inp.cameraOk
    requires inp.events == [KeyDown(KeyEscape)] && inp.fistButton == "start"
    requires CooldownElapsed(inp.now, s.lastFistTime)
    ensures var f := Step(s, inp);
      && f.next.state == Countdown && f.next.countdownTimer == 3.0
      && f.effects == [CrossfadeToMenu] + [PlayButtonSound, ResetGame, StopMusic, PlayCountdownSound]
  {
    var menu := s.(state := Menu);
    var heard := inp.(menuMusicOn := true);
    EscapeAloneFromPlay(s);
    StepAfterKeys(s, inp, Reaction(menu, [CrossfadeToMenu]), heard);
    StartOnMenu(menu, heard);
    var started := [PlayButtonSound, ResetGame, StopMusic, PlayCountdownSound];
    assert ScreenFrame(menu, heard) == MenuFrame(menu, heard);
    assert ScreenFrame(menu, heard).effects == started;
    assert Step(s, inp).effects == [CrossfadeToMenu] + started;
  }

  /** A camera frame is the key reaction followed by the screen's own frame. */
  lemma StepAfterKeys(s: Session, inp: FrameInput, keys: Reaction, heard: FrameInput)
    requires inp.cameraOk && keys == HandleEvents(s, inp.events)
    requires heard == inp.(menuMusicOn := inp.menuMusicOn || CrossfadeToMenu in keys.effects)
    ensures Step(s, inp).next == ScreenFrame(keys.next, heard).next
    ensures Step(s, inp).effects == keys.effects + ScreenFrame(keys.next, heard).effects
  {
  }

  lemma EscapeAloneFromPlay(s: Session)
    requires s.state == Play
    ensures HandleEvents(s, [KeyDown(KeyEscape)]) == Reaction(s.(state := Menu), [CrossfadeToMenu])
  {
    assert HandleEvent(s, KeyDown(KeyEscape)) == Reaction(s.(state := Menu), [CrossfadeToMenu]);
    assert [KeyDown(KeyEscape)][1..] == [];
  }

  lemma StartOnMenu(s: Session, inp: FrameInput)
    requires s.state == Menu && inp.menuMusicOn && inp.fistButton == "start"
    requires CooldownElapsed(inp.now, s.lastFistTime)
    ensures var f := MenuFrame(s, inp);
      && f.next.state == Countdown && f.next.countdownTimer == 3.0
      && f.effects == [PlayButtonSound, ResetGame, StopMusic, PlayCountdownSound]
  {
  }
}
