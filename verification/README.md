# CamFu core in Dafny

CamFu is a camera-driven arcade game: the player's tracked body punches or grabs objects on screen. This project models the two pieces of logic that decide what happens each frame:

- **the collision detector** (`CollisionDetector` in `collision_detector.py`). It answers stateless questions in integer pixel space. A landmark can hit a circle. Two hands can hit an object, with an optional fist requirement and left-hand priority. Any of a list of body points can hit. A wrist–elbow segment can hit. An absent landmark is `None` in the source and `Option.None` here.
- **the session state machine** in the main loop of `main.py`. It has six screens (menu, countdown, play, game over, credits, guide), a countdown timer, a game-over timer and one global fist cooldown. Key events drive its transitions, as do the button the menu saw a fist on, the scoring engine's game-over flag, the frame time `dt` and the clock `now`.

Modules:

- `Wrappers`: `Option`.
- `Geometry`: squared distance, the square-root-free reach test, `int()` truncation, and projecting a point onto a segment in real coordinates.
- `Collision`: the detector queries.
- `HandCursor`: `is_same_position` and the choice of cursor hand.
- `Lifecycle`: one loop iteration as a pure `Step(session, input) -> frame`.
- `LifecycleRuns`: properties over many frames.

Modelling choices:

- `math.sqrt(d) < reach` is decided as `reach > 0 && d < reach * reach`. `Geometry.WithinReachMatchesRoot` proves this agrees with the float comparison for the exact root.
- The projection parameter and the closest point are `real`s.
- Python's `int()` on the closest point truncates toward zero (`Geometry.Trunc`). It is not `Floor`.
- Timers, `dt` and `now` are `real`s.
- Calls on the sound manager, the engine (`update`, `reset_game`) and the menu's button sound are recorded in order as `Effect` tags. Playing the button sound marks an accepted fist click.

Behaviour of the code that a reader might not expect, modelled as written:

- Escape returns to the menu only from credits, guide, countdown and play (main.py:223). On the game-over screen it does nothing.
- Restart needs a game-over timer strictly above 2.5 s (main.py:228), while the score screen is shown from 2.5 s on (main.py:412). So a timer of exactly 2.5 shows the score screen but still refuses the restart key.
- The countdown timer is decremented before the digit is chosen (main.py:326-334). So frames of 1.01 s show 2, then 1, then play, and never 3 (`LifecycleRuns.CountdownWithLongFrames`).
- `last_fist_time` starts at 0 and `now` counts from program start (main.py:181, 193). So no fist click is accepted in the first half second (`LifecycleRuns.NoTwoClicksWithinCooldown`).
- The fist cooldown is one global gate shared by every button (main.py:180-182, 306, 388, 402).
- The forearm query measures from the nearest point of the segment truncated to whole pixels (collision_detector.py:181-182). Its docstring promises "true if the segment intersects the object" (collision_detector.py:150). The truncation shifts the measured point by less than a pixel per axis, so the answer can differ from exact geometry near the rim. `Collision.ArmMissesNearRim` exhibits a miss: reach 1, wrist (0, 10), elbow (10, 0), object (6, 5); the segment passes about 0.71 px from the centre but the query is false. `Collision.ArmHitsWellInsideReach` and `Collision.ArmHitOnlyNearSegment` bound the effect to two pixels of reach either way.
- On the menu, the crossfade to the menu theme is skipped when that theme is already current (main.py:295). An Escape earlier in the same frame has just crossfaded to it, so the model treats the theme as current from then on, and a frame crossfades at most once (`LifecycleRuns.OneCrossfadePerFrame`).

## Model

| member | source | states |
|---|---|---|
| Geometry.DistSq | collision_detector.py:36 | the squared distance is never negative and is zero exactly for identical points |
| Geometry.DistSqSymmetric | collision_detector.py:36 | the distance is symmetric and zero from a point to itself |
| Geometry.WithinReachMatchesRoot | collision_detector.py:58-59 | for the non-negative real root of the squared distance, `root < reach` holds iff the integer test does; a reach of zero or less never admits a hit |
| Geometry.Trunc | collision_detector.py:183 | `int()` truncates toward zero: at most one unit toward zero from the float, from below for non-negative and from above for negative values |
| Geometry.TruncBetween | collision_detector.py:183 | truncation keeps a value inside any integer interval containing it |
| Geometry.Clamp01 | collision_detector.py:174-175 | `max(0, min(1, u))`: the result lies in [0, 1], is 0 below the range, 1 above it, and the raw parameter inside it |
| Geometry.SegmentPointInBox | collision_detector.py:178-179 | every point for a parameter in [0, 1] lies in the box spanned by wrist and elbow |
| Geometry.ClosestOnSegment | collision_detector.py:173-179 | the closest point lies on the segment: on the line through wrist and elbow and inside the box they span |
| Geometry.ClosestIsNearest | collision_detector.py:173-179 | the clamped projection is a nearest point of the segment: no point of the segment is closer to the object centre |
| Geometry.ClosestBeatsEndpoints | collision_detector.py:173-179 | the closest point is no farther from the object centre than either joint |
| Geometry.ClosestOfPointOnSegment | collision_detector.py:173-179 | a centre lying on the segment is its own closest point |
| Geometry.ClosestOnSegmentSymmetric | collision_detector.py:167-179 | the closest point is the same when measured from either end of the segment |
| Collision.CheckCollision | collision_detector.py:55-59 | an absent landmark never collides; a hit needs a positive reach and a squared distance below its square |
| Collision.CheckCollisionIsStrictDistance | collision_detector.py:58-59 | the query is true iff the Euclidean distance is strictly below collision radius plus object radius |
| Collision.RimDoesNotCollide | collision_detector.py:59 | a landmark exactly one reach from the centre does not collide |
| Collision.InsideRimCollides | collision_detector.py:59 | a landmark one pixel inside the rim collides |
| Collision.CollisionMonotone | collision_detector.py:58-59 | a landmark no farther than a colliding one also collides |
| Collision.CheckHandCollision | collision_detector.py:87-109 | the result is left iff the left hand qualifies; right iff only the right does; none iff neither does. A hand qualifies when it collides and is a fist or no fist is required |
| Collision.FistRequiredIgnoresOpenHands | collision_detector.py:87-109 | with a fist required an open hand is never reported, however it overlaps; the tag is one of "left", "right", "" and is "" exactly for no hit |
| Collision.LeftHandPriority | collision_detector.py:87-97 | a qualifying left hand is reported whatever the right hand's position and fist state |
| Collision.ContactSufficesWithoutFist | collision_detector.py:87-109 | without the fist requirement the fist flags do not matter and some side is reported iff some hand collides |
| Collision.CheckBodyCollision | collision_detector.py:128-131 | true iff some point of the list collides; an empty list gives false |
| Collision.ArmProbe | collision_detector.py:162-183 | the truncated closest point lies within the box spanned by wrist and elbow |
| Collision.CheckArmCollision | collision_detector.py:152-185 | false if either joint is absent; true if either joint collides; never true without a positive reach |
| Collision.ArmDegenerateIsPointQuery | collision_detector.py:167-171 | a zero-length forearm gives the same answer as the point query on the wrist |
| Collision.ArmProbeNearSegment | collision_detector.py:173-183 | the measured pixel is within one pixel per axis of a nearest point of the segment |
| Collision.ArmCollisionSymmetric | collision_detector.py:152-185 | swapping wrist and elbow never changes the answer |
| Collision.ObjectOnForearmCollides | collision_detector.py:160-185 | an object centred on a whole pixel of the segment is hit whenever the reach is positive |
| Collision.ArmHitsWellInsideReach | collision_detector.py:173-184 | an object whose centre is closer than reach minus two pixels to the segment is hit |
| Collision.ArmHitOnlyNearSegment | collision_detector.py:160-184 | a hit implies the object's centre is closer than reach plus two pixels to the segment |
| Collision.ArmMissesNearRim | collision_detector.py:150-184 | a segment passing within the reach of the object's centre can still miss: the truncated pixel is measured instead |
| HandCursor.IsSamePosition | main.py:45-48 | false when either position is absent; otherwise true iff the larger axis offset is strictly below the threshold |
| HandCursor.IsSamePositionSymmetric | main.py:45-48 | the test is symmetric and a present point matches itself for a positive threshold |
| HandCursor.ActiveHand | main.py:245-278 | no cursor without landmarks; otherwise the cursor is one of the two fingers: a hovering right finger, else a hovering left one, else the right finger if tracked, else the left; hover is ignored during play |
| HandCursor.RightFingerPreferred | main.py:271-276 | a tracked right finger is chosen whenever the left one does not hover |
| Lifecycle.HandleEvent | main.py:196-233 | key events never touch the cooldown or the game-over timer. Quit and Q stop the loop. Escape leads to the menu, crossfading to its theme and changing nothing else, from every screen but menu and game over, and leaves those two unchanged. R restarts into a 3-second countdown only on the game-over screen past 2.5 s, and only then resets the game; anywhere else it does nothing at all. Only Escape and R change the screen |
| Lifecycle.Initial | main.py:161-189 | the loop starts on the menu, running, with a 3-second countdown and no game-over time; its click time of zero lets the cooldown elapse exactly at program times past 0.5 s |
| Lifecycle.HandleEvents | main.py:196-233 | over a frame's events in order: the loop stops iff some event is a quit; the game-over screen is neither entered nor left without a reset; play is never entered; the countdown timer is 3 s after a reset and untouched otherwise |
| Lifecycle.CountdownDigit | main.py:328-334 | a digit is shown iff the timer is positive; it is in 1..3 and is the timer rounded up, capped at 3 |
| Lifecycle.MenuFrame | main.py:293-318 | a click is accepted iff a button is seen and more than 0.5 s passed since the last accepted click. Acceptance records the time. "start" enters a 3-second countdown and resets the game; "credits" and "guide" open their screens; other labels keep the menu but use up the cooldown. Without acceptance nothing changes |
| Lifecycle.CountdownFrame | main.py:320-340 | the timer drops by `dt`; play starts iff it reaches zero or below, with the game-over timer reset and the gameplay music started; otherwise the shown digit is the bucket of the new timer |
| Lifecycle.PlayFrame | main.py:352-377 | the engine is updated first; the game-over screen is entered iff the game-over flag is set, with its timer at zero and the music stopped; otherwise nothing changes |
| Lifecycle.InfoFrame | main.py:379-405 | on credits or guide only "back" with the cooldown elapsed returns to the menu and records the click time; any other label changes nothing |
| Lifecycle.GameOverFrame | main.py:407-418 | the timer grows by `dt`; the black cover shows iff the new timer is below 2.5 s, the score screen otherwise |
| Lifecycle.ScreenFrame | main.py:293-418 | each screen body only moves along its own edges (menu to countdown, credits or guide; countdown to play; play to game over; credits and guide to menu; game over stays), and only the menu crossfades, once, when its theme is not current |
| Lifecycle.Step | main.py:191-412 | a frame accepts a click only past the cooldown and then records its time, else leaves the click time alone. A camera failure stops the loop. Leaving game over always resets the game, and so does entering the countdown from another screen. Entering play resets the game-over timer |
| LifecycleRuns.ClicksSpaced | main.py:304-405 | in any run, each accepted click is more than 0.5 s after the previous one, the first more than 0.5 s after the recorded click time |
| LifecycleRuns.NoTwoClicksWithinCooldown | main.py:180-182 | no two accepted clicks of a run, on any buttons, are 0.5 s or less apart; from the initial variables none is accepted before 0.5 s |
| LifecycleRuns.PlayPersists | main.py:352-377 | play continues through frames without events or game over |
| LifecycleRuns.CountdownEndsAfterItsTime | main.py:326-340 | through quiet frames the countdown is still on iff the summed frame times are below the remaining time, and play has begun otherwise |
| LifecycleRuns.GameOverTimerAccumulates | main.py:407-409 | through quiet frames the game-over screen stays and its timer grows by the summed frame times |
| LifecycleRuns.RestartNeverDuringCover | main.py:228-412 | after a frame that showed the black cover, the restart key is ignored |
| LifecycleRuns.HandleEventsAppend | main.py:196-233 | events are handled in arrival order, each from the state the previous one left |
| LifecycleRuns.EscapeLastLeavesForMenu | main.py:222-225 | when a frame's last event is Escape, the events end on the menu, or on game over if they started there |
| LifecycleRuns.EventsCrossfadeOnce | main.py:222-225 | a frame's key events crossfade to the menu theme at most once, only on the way to the menu, and never when the frame starts on the menu |
| LifecycleRuns.OneCrossfadePerFrame | main.py:222-225 | a whole frame crossfades to the menu theme at most once, counting both Escape and the menu body's check |
| LifecycleRuns.MenuStartScenario | main.py:305-314 | a fist on "start" past the cooldown, from the initial variables, enters a 3-second countdown with button sound, reset, music stop and countdown cue in that order |
| LifecycleRuns.EscapeThenStartScenario | main.py:222-314 | Escape out of play then a fist on "start" in the same frame crossfades once and begins a 3-second countdown |
| LifecycleRuns.CountdownWithLongFrames | main.py:326-339 | with 1.01-second frames the countdown shows 2, then 1, then starts play with the game-over timer at zero |
| LifecycleRuns.RestartScenario | main.py:228-230 | the restart key is refused one second into game over and accepted at 2.6 s, rewinding the countdown to 3 s |

## Left out

- Camera enumeration, the terminal camera menu, and opening the device (`get_available_cameras`, `select_camera_terminal`, main.py:26-132): device I/O and standard input. A failed frame read is the input flag `cameraOk`.
- Rendering, fonts, blitting, window resizing and asset loading: user interface. A resize event is an ignored `OtherEvent`, and cursor circles are not drawn. Only the countdown digit and the game-over phase are modelled, as `Overlay`.
- The sound manager, the menu's `check_button_fist_click` and `check_button_hover`, the pose detector and the game engine are not part of this model. Their results are frame inputs: `fistButton` (`""` stands for every falsy result), `menuMusicOn`, `gameOver`, and a `hovers` function. Their side effects are `Effect` tags.
- The landmark-to-screen coordinate scaling (main.py:249-265): it belongs to the pose detector.
- `clock.tick`, `pygame.time.get_ticks` and `time.time`: `dt` and `now` are given reals. `play_duration` and `start_time` only feed the display.
- Floating point: the square root, the division for `t` and the timers are exact reals. Rounding in Python floats is not modelled.
- `Lifecycle.Step` models one loop iteration. `running` only stops the multi-frame functions `ClickTimes` and `Final`; the process exit and cleanup after the loop are not modelled.
- Collision.CheckArmCollision: its own contract states the absent-joint and joint-hit cases only. The segment test is measured from a truncated pixel, which has no closed form; `Collision.ArmHitsWellInsideReach` and `Collision.ArmHitOnlyNearSegment` bound it against the exact distance, and `Collision.ArmMissesNearRim` shows the bound cannot be dropped.
- The sound manager's `current_music` is not modelled beyond the `menuMusicOn` input, which gives its value when the frame begins. What `M` (toggle music) or `stop_music` do to it is not part of this model.
