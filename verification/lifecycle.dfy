/**
 * The game's session state machine, as the body of the main loop runs it
 * once per frame: keyboard events first, in arrival order, then the body
 * of whichever screen is current. Clocks, the camera, the menu's button
 * hit-testing, the scoring engine and the sound manager are inputs or
 * recorded effects.
 */
module Lifecycle {
  import opened Wrappers

  /** The six screens; the source numbers them 0 to 5 in this order. */
  datatype GameState = Menu | Countdown | Play | GameOver | Credits | Guide

  /** Seconds that must pass between two accepted fist clicks, on any button. */
  const FistCooldown: real := 0.5
  /** Seconds the countdown starts from. */
  const CountdownSeconds: real := 3.0
  /** Seconds of black cover before the game-over screen is revealed. */
  const RevealSeconds: real := 2.5

  /** The loop's own variables that survive from one frame to the next. */
  datatype Session = Session(
    state: GameState,
    countdownTimer: real,
    gameOverTimer: real,
    lastFistTime: real,
    running: bool)

  /**
   * The variables as the loop first sees them: the menu, a full countdown, no
   * game-over time, and a click time of zero, so that the cooldown first
   * elapses after half a second of program time.
   */
  function Initial(): (r: Session)
    ensures r.state == Menu && r.running
    ensures r.countdownTimer == CountdownSeconds && r.gameOverTimer == 0.0
    ensures forall now: real :: CooldownElapsed(now, r.lastFistTime) <==> now > FistCooldown
  {
    Session(Menu, CountdownSeconds, 0.0, 0.0, true)
  }

  datatype Key = KeyQ | KeyM | KeyS | KeyPlus | KeyEquals | KeyMinus | KeyEscape | KeyR | OtherKey

  /** A window event; resizing and everything else the core ignores is `OtherEvent`. */
  datatype Event = QuitEvent | KeyDown(key: Key) | OtherEvent

  /** Calls on collaborators, in the order they are made. */
  datatype Effect =
    | ToggleMusic | ToggleSound | MusicVolumeUp | MusicVolumeDown
    | CrossfadeToMenu | StopMusic | PlayGameplayMusic | PlayCountdownSound
    | PlayButtonSound | ResetGame | UpdateEngine

  /** What a frame draws over the scene, where the core decides it. */
  datatype Overlay = NoOverlay | Digit(n: int) | BlackCover | ScoreScreen

  /**
   * One frame's inputs: the queued events, whether the camera delivered a
   * frame, the frame time `dt`, the clock `now`, the button the menu saw a
   * fist on (`""` when none), the scoring engine's game-over flag after its
   * update, and whether the menu theme was the current music when the frame
   * began.
   */
  datatype FrameInput = FrameInput(
    events: seq<Event>,
    cameraOk: bool,
    dt: real,
    now: real,
    fistButton: string,
    gameOver: bool,
    menuMusicOn: bool)

  datatype Reaction = Reaction(next: Session, effects: seq<Effect>)

  datatype Frame = Frame(next: Session, effects: seq<Effect>, overlay: Overlay)

  /** A fist click was accepted in this frame: every acceptance plays the button sound. */
  predicate Clicked(f: Frame) {
    PlayButtonSound in f.effects
  }

  predicate IsQuit(e: Event) {
    e == QuitEvent || e == KeyDown(KeyQ)
  }

  /** The single global anti-spam gate shared by every fist-activated button. */
  predicate CooldownElapsed(now: real, lastFistTime: real) {
    now - lastFistTime > FistCooldown
  }

  /** A new session starts: the countdown is rewound to three seconds. */
  function EnterCountdown(s: Session): Session {
    s.(state := Countdown, countdownTimer := CountdownSeconds)
  }

  /** Keyboard handling for one event. */
  function HandleEvent(s: Session, e: Event): (r: Reaction)
    ensures r.next.lastFistTime == s.lastFistTime && r.next.gameOverTimer == s.gameOverTimer
    ensures r.next.running == (s.running && !IsQuit(e))
    ensures PlayButtonSound !in r.effects
    ensures e == KeyDown(KeyEscape) ==> (r.next.state == Menu <==> s.state != GameOver)
    ensures e == KeyDown(KeyEscape) && s.state in {Menu, GameOver} ==> r.next == s
    ensures e == KeyDown(KeyR) && s.state == GameOver ==>
      (r.next.state == Countdown <==> s.gameOverTimer > RevealSeconds)
    ensures ResetGame in r.effects <==> e == KeyDown(KeyR) && s.state == GameOver && s.gameOverTimer > RevealSeconds
    ensures r.next.state != s.state ==>
      || (e == KeyDown(KeyEscape) && r.next.state == Menu)
      || (e == KeyDown(KeyR) && r.next.state == Countdown && r.next.countdownTimer == CountdownSeconds)
    ensures r.next.state == s.state ==> r.next.countdownTimer == s.countdownTimer
    ensures e == KeyDown(KeyR) && !(s.state == GameOver && s.gameOverTimer > RevealSeconds) ==> r == Reaction(s, [])
    ensures e == KeyDown(KeyEscape) && s.state !in {Menu, GameOver} ==> r == Reaction(s.(state := Menu), [CrossfadeToMenu])
  {
    match e
    case QuitEvent => Reaction(s.(running := false), [])
    case OtherEvent => Reaction(s, [])
    case KeyDown(k) =>
      match k
      case KeyQ => Reaction(s.(running := false), [])
      case KeyM => Reaction(s, [ToggleMusic])
      case KeyS => Reaction(s, [ToggleSound])
      case KeyPlus => Reaction(s, [MusicVolumeUp])
      case KeyEquals => Reaction(s, [MusicVolumeUp])
      case KeyMinus => Reaction(s, [MusicVolumeDown])
      case KeyEscape =>
        if s.state in {Credits, Guide, Countdown, Play} then
          Reaction(s.(state := Menu), [CrossfadeToMenu])
        else
          assert s.state == Menu || s.state == GameOver;
          Reaction(s, [])
      case KeyR =>
        if s.state == GameOver && s.gameOverTimer > RevealSeconds then
          Reaction(EnterCountdown(s), [ResetGame, StopMusic, PlayCountdownSound])
        else
          Reaction(s, [])
      case OtherKey => Reaction(s, [])
  }

  /** All of one frame's events, in arrival order. */
  function HandleEvents(s: Session, events: seq<Event>): (r: Reaction)
    ensures r.next.lastFistTime == s.lastFistTime && r.next.gameOverTimer == s.gameOverTimer
    ensures r.next.running <==> s.running && forall i :: 0 <= i < |events| ==> !IsQuit(events[i])
    ensures PlayButtonSound !in r.effects
    ensures r.next.state == GameOver ==> s.state == GameOver
    ensures r.next.state == Play ==> s.state == Play
    ensures s.state == GameOver && r.next.state != GameOver ==> ResetGame in r.effects
    ensures r.next.state == Countdown && s.state != Countdown ==> ResetGame in r.effects
    ensures r.next.countdownTimer == if ResetGame in r.effects then CountdownSeconds else s.countdownTimer
    decreases |events|
  {
    if |events| == 0 then
      Reaction(s, [])
    else
      var first := HandleEvent(s, events[0]);
      var rest := HandleEvents(first.next, events[1..]);
      assert forall i :: 1 <= i < |events| ==> events[i] == events[1..][i - 1];
      Reaction(rest.next, first.effects + rest.effects)
  }

  /**
   * The countdown digit shown for a timer value: the timer rounded up,
   * capped at 3, and no digit once the timer has run out.
   */
  function CountdownDigit(timer: real): (r: Option<int>)
    ensures r.Some? <==> timer > 0.0
    ensures r.Some? ==> 1 <= r.value <= 3
    ensures r.Some? ==> (r.value - 1) as real < timer
    ensures r.Some? && r.value < 3 ==> timer <= r.value as real
  {
    if timer > 2.0 then Some(3)
    else if timer > 1.0 then Some(2)
    else if timer > 0.0 then Some(1)
    else None
  }

  /** The black cover is shown while the game-over timer is below the reveal time. */
  predicate InCoverPhase(gameOverTimer: real) {
    gameOverTimer < RevealSeconds
  }

  /** The menu screen: a fist on a button, once the global cooldown has passed. */
  function MenuFrame(s: Session, inp: FrameInput): (r: Frame)
    requires s.state == Menu
    ensures Clicked(r) <==> inp.fistButton != "" && CooldownElapsed(inp.now, s.lastFistTime)
    ensures Clicked(r) ==> r.next.lastFistTime == inp.now
    ensures !Clicked(r) ==> r.next == s
    ensures Clicked(r) && inp.fistButton == "start" ==>
      r.next.state == Countdown && r.next.countdownTimer == CountdownSeconds && ResetGame in r.effects
    ensures Clicked(r) && inp.fistButton == "credits" ==> r.next.state == Credits
    ensures Clicked(r) && inp.fistButton == "guide" ==> r.next.state == Guide
    ensures inp.fistButton !in {"start", "credits", "guide"} ==> r.next.state == Menu
    ensures r.next.gameOverTimer == s.gameOverTimer && r.next.running == s.running
    ensures r.next.state != Countdown ==> r.next.countdownTimer == s.countdownTimer
    ensures ResetGame in r.effects ==> r.next.state == Countdown
    ensures CrossfadeToMenu in r.effects <==> !inp.menuMusicOn
    ensures multiset(r.effects)[CrossfadeToMenu] == if inp.menuMusicOn then 0 else 1
  {
    var music := if inp.menuMusicOn then [] else [CrossfadeToMenu];
    if inp.fistButton != "" && CooldownElapsed(inp.now, s.lastFistTime) then
      var clicked := s.(lastFistTime := inp.now);
      if inp.fistButton == "start" then
        Frame(EnterCountdown(clicked), music + [PlayButtonSound, ResetGame, StopMusic, PlayCountdownSound], NoOverlay)
      else if inp.fistButton == "credits" then
        Frame(clicked.(state := Credits), music + [PlayButtonSound], NoOverlay)
      else if inp.fistButton == "guide" then
        Frame(clicked.(state := Guide), music + [PlayButtonSound], NoOverlay)
      else
        Frame(clicked, music + [PlayButtonSound], NoOverlay)
    else
      Frame(s, music, NoOverlay)
  }

  /** The countdown screen: the timer runs down by the frame time, then play begins. */
  function CountdownFrame(s: Session, dt: real): (r: Frame)
    requires s.state == Countdown
    ensures r.next.countdownTimer == s.countdownTimer - dt
    ensures r.next.state == Play <==> r.next.countdownTimer <= 0.0
    ensures r.next.state != Play ==> r.next.state == Countdown
    ensures r.next.state == Countdown <==> r.overlay.Digit?
    ensures r.overlay.Digit? ==> r.overlay.n in {1, 2, 3}
    ensures r.overlay.Digit? ==> Some(r.overlay.n) == CountdownDigit(r.next.countdownTimer)
    ensures r.next.state == Play ==> r.next.gameOverTimer == 0.0 && r.effects == [PlayGameplayMusic]
    ensures r.next.state == Countdown ==> r.next.gameOverTimer == s.gameOverTimer && r.effects == []
    ensures r.next.lastFistTime == s.lastFistTime && r.next.running == s.running
  {
    var timer := s.countdownTimer - dt;
    match CountdownDigit(timer)
    case Some(n) => Frame(s.(countdownTimer := timer), [], Digit(n))
    case None => Frame(s.(countdownTimer := timer, state := Play, gameOverTimer := 0.0), [PlayGameplayMusic], NoOverlay)
  }

  /** The play screen: the engine updates, and its game-over flag ends the session. */
  function PlayFrame(s: Session, gameOver: bool): (r: Frame)
    requires s.state == Play
    ensures r.next.state == GameOver <==> gameOver
    ensures r.next.state != GameOver ==> r.next == s
    ensures gameOver ==> r.next.gameOverTimer == 0.0 && StopMusic in r.effects
    ensures |r.effects| > 0 && r.effects[0] == UpdateEngine
    ensures r.next.lastFistTime == s.lastFistTime && r.next.running == s.running
    ensures r.next.countdownTimer == s.countdownTimer
  {
    if gameOver then
      Frame(s.(state := GameOver, gameOverTimer := 0.0), [UpdateEngine, StopMusic], NoOverlay)
    else
      Frame(s, [UpdateEngine], NoOverlay)
  }

  /** The credits and guide screens: only a fist on "back", past the cooldown, leaves them. */
  function InfoFrame(s: Session, inp: FrameInput): (r: Frame)
    requires s.state in {Credits, Guide}
    ensures Clicked(r) <==> inp.fistButton == "back" && CooldownElapsed(inp.now, s.lastFistTime)
    ensures Clicked(r) ==> r.next == s.(state := Menu, lastFistTime := inp.now)
    ensures !Clicked(r) ==> r.next == s
  {
    if inp.fistButton == "back" && CooldownElapsed(inp.now, s.lastFistTime) then
      Frame(s.(state := Menu, lastFistTime := inp.now), [PlayButtonSound], NoOverlay)
    else
      Frame(s, [], NoOverlay)
  }

  /** The game-over screen: the timer grows by the frame time and picks the phase. */
  function GameOverFrame(s: Session, dt: real): (r: Frame)
    requires s.state == GameOver
    ensures r.next == s.(gameOverTimer := s.gameOverTimer + dt)
    ensures r.overlay == BlackCover <==> InCoverPhase(r.next.gameOverTimer)
    ensures r.overlay in {BlackCover, ScoreScreen}
    ensures r.effects == []
  {
    var timer := s.gameOverTimer + dt;
    Frame(s.(gameOverTimer := timer), [], if timer < RevealSeconds then BlackCover else ScoreScreen)
  }

  /**
   * The body of the current screen; exactly one runs per frame. Each screen
   * only moves along its own edges of the screen graph, and only the menu
   * crossfades to its theme, once, when that is not already playing.
   */
  function ScreenFrame(s: Session, inp: FrameInput): (r: Frame)
    ensures r.next.running == s.running
    ensures s.state == Menu ==> r.next.state in {Menu, Countdown, Credits, Guide}
    ensures s.state == Countdown ==> r.next.state in {Countdown, Play}
    ensures s.state == Play ==> r.next.state in {Play, GameOver}
    ensures s.state in {Credits, Guide} ==> r.next.state in {s.state, Menu}
    ensures s.state == GameOver ==> r.next.state == GameOver
    ensures multiset(r.effects)[CrossfadeToMenu] == if s.state == Menu && !inp.menuMusicOn then 1 else 0
  {
    match s.state
    case Menu => MenuFrame(s, inp)
    case Countdown => CountdownFrame(s, inp.dt)
    case Play => PlayFrame(s, inp.gameOver)
    case Credits => InfoFrame(s, inp)
    case Guide => InfoFrame(s, inp)
    case GameOver => GameOverFrame(s, inp.dt)
  }

  /**
   * One iteration of the main loop. A camera failure ends the loop after the
   * events are handled and before any screen body runs. An Escape earlier in
   * the frame that crossfaded to the menu theme makes it the current music
   * for the menu body.
   */
  function Step(s: Session, inp: FrameInput): (r: Frame)
    ensures Clicked(r) ==> CooldownElapsed(inp.now, s.lastFistTime) && r.next.lastFistTime == inp.now
    ensures !Clicked(r) ==> r.next.lastFistTime == s.lastFistTime
    ensures Clicked(r) ==> inp.fistButton != ""
    ensures !inp.cameraOk ==> !r.next.running
    ensures r.next.running ==> s.running
    ensures s.state == GameOver && r.next.state != GameOver ==> ResetGame in r.effects
    ensures r.next.state == Countdown && s.state != Countdown ==> ResetGame in r.effects
    ensures r.next.state == Play && s.state != Play ==> r.next.gameOverTimer == 0.0
  {
    var keys := HandleEvents(s, inp.events);
    if !inp.cameraOk then
      Frame(keys.next.(running := false), keys.effects, NoOverlay)
    else
      var menuMusicOn := inp.menuMusicOn || CrossfadeToMenu in keys.effects;
      var body := ScreenFrame(keys.next, inp.(menuMusicOn := menuMusicOn));
      Frame(body.next, keys.effects + body.effects, body.overlay)
  }
}
