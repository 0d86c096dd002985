# LabChase, verified

LabChase is a two-player light-cycle game for Minix, written in C on top of the
course labs that precede it (timer, keyboard, mouse, video). This project models
its logic in Dafny and proves what the whole program keeps, whatever arrives on
its interrupt lines.

The game keeps no trail structure. Every move paints a 5x5 block into the
framebuffer and looks at **one** pixel first; the framebuffer is the collision
index. The central result is that, on the board and by day, this one-pixel probe
answers exactly the question the players care about: does the block I enter
share a pixel with any block entered before it in this game? The proof spans
row-major addressing, the frame conditions of the nested drawing loops, the
rendering of a map from lattice cells to painters, and an invariant over whole
runs of ticks, keys, pauses and restarts.

## Layout

| file | content |
|---|---|
| `Words.dfy` | machine words, bits, quotients and remainders |
| `Raster.dfy` | modes, pixels, lines, rectangles, the collision probe, the two image blits |
| `LightCycles.dfy` | the movement rules over a framebuffer |
| `Arena.dfy` | the simple game: a list of blocks, a crash when pixels are shared; its picture |
| `Refinement.dfy` | on the board, the framebuffer game plays the simple game |
| `Linear.dfy` | what it plays anywhere in video memory: blocks as sets of linear pixel indices |
| `GameLength.dfy` | no reversal, the lattice, conservation of pixels and cells |
| `VideoGr.dfy` | the statics of `video_gr.c` as a class, updated in place |
| `Mouse.dfy` | PS/2 packets and the menu cursor |
| `Console.dfy` | `proj_main_loop` and `kbc_ih` as a machine over events |
| `ConsoleInvariants.dfy` | flags, settled command, pause and resume |
| `Controls.dfy` | what each key and each click does, in the source's codes, coordinates, rectangles and colours |
| `Winner.dfy` | the picture invariant of the whole program, the screen after every notification, who wins |
| `Screens.dfy` | what every screen shows when it comes up, byte by byte, on every run |
| `Edge.dfy` | the screen after every notification of a day game, on the board or off it |
| `Night.dfy` | what the white background does |
| `Endurance.dfy` | how long a game of the whole program can last |
| `Walk.dfy` | no reversal on runs of the whole program, moves behind the pause screen included |
| `Runs.dfy` | runs of the booted program that reach a game, a turn behind the pause screen, an overruled crash, a stale command |
| `MainLoop.dfy` | the nested receive loops as a class, refining the machine |
| `Colour.dfy`, `Pattern.dfy` | lab 5 colours and tiling |
| `Motion.dfy`, `Sprite.dfy` | lab 5 sprite animation |
| `Idle.dfy` | idle timeouts of labs 3 and 4 |
| `Timer.dfy` | 8254 programming |

Each in-place operation is a method whose postcondition equates the new state
with a specification function of the old one; the laws are lemmas about those
functions. The laws that fix what those functions compute are written with the
source's own numbers and repeat none of their definitions.

## How the source is read

- `driver_receive`, the ports, the clock and the images are inputs. One event is
  one return of `driver_receive`; a hardware notification may carry the timer,
  keyboard and mouse bits together, each with what its ports hold.
- Coordinates are 16-bit and wrap. Video memory is exactly the frame; a block
  that does not lie inside it is a `Fault`, since the C program then has no
  defined behaviour. A block that merely leaves the right edge is inside memory
  and is modelled as it is drawn: on the next row.
- Screens are at most 16128 pixels wide: up to there the unsigned address
  expression cannot wrap, whatever the 16-bit coordinates are (`AddressNoWrap`).
- `move_player` has no edge test although the game's description promises one.
  Statements about shared pixels take "the heads have been on the board since the
  game began" as a hypothesis; `EdgeLaw` and `EveryDayRun` say what happens
  without it, on every game and every run by day.
- `start_game` does not paint the starting blocks; the trail is the set of blocks
  entered by moves.
- The clear before a game is longer than the frame; it is modelled as zeroing the
  frame.
- The first game-over screen redraws the image of the second one, and that image
  is never loaded; here it is any image that is well formed (as many bytes as its
  size asks for) and no larger than the screen.
- `State.starts` and `State.entered` are history: nothing reads them.
- The idle loops of labs 3 and 4 start with an interrupt count of zero, as a fresh
  program does; the sprite animation starts with any count.

## Where the code falls short of what it promises

Each of these is a theorem with its exact condition.

- By night (`hour >= 0x19`) the white background trips the probe: the first tick
  is clean if and only if it is day or pixels are one byte
  (`FirstTickCleanIff`). With two bytes or more, on every night run a passive tick
  makes blue lose, unless the key in the same notification pauses the game, and a
  key command that moves anybody quits the program (`NightGamesEndAtOnce`).
- The probe tells visited from free blocks if and only if the background is black
  and pixels have at least two bytes (`ProbeFaithfulIff`).
- The stored key command survives `start_game`: the first key of a new game,
  however many ticks after its beginning, if it is no direction, moves a player if
  and only if the command left over is vertical (`FirstKeyMovesIff`; at any later
  receive, if and only if the command is not settled, `StaleCommandIff`). By day a
  run of 17 notifications from power-on does it
  (`StaleTurnReached`). Once a key of the game has been handled the command is
  harmless until the next `start_game` (`QuietUntilNextGame`).
- Direction keys released during a pause move the players: exactly the turns
  (`DirectionInPauseIff`). Five notifications from power-on do it
  (`PausedTurnReached`). The frame still comes back as saved
  (`FrameSurvivesPause`).
- A crash of a tick is overruled by the keyboard bit of the same notification
  exactly when the key is P, or when its command makes its rider enter a block of
  the trail, which quits the program (`WinnerStep`). P comes with the crash and the
  game goes on in `OverruledCrashReached`; the number of lit pixels tells whether
  that ever happened in a game (`GameIsBounded`).
- A mouse interrupt with a bad status repeats the previous byte, and is harmless
  if and only if no packet is under way and that byte could not start one
  (`BadStatusRepeatsByte`).
- The cursor wraps to the far edge when a coordinate would become negative, and
  is the mathematical clamp exactly when the 16-bit sum does not wrap or the wrap
  makes no difference (`AxisLaw`).
- The sprite ends up drawn at its target if and only if the last step was cut
  short or fell on a frame (`AnimationEnds`).
- Of the frequencies `timer_set_frequency` accepts, the divisor is right exactly
  from 19 to the clock's own frequency (`DivisorExactIff`).

## Model

| member | source | states |
|---|---|---|
| Raster.DrawPixel | proj/src/video_gr.c:105-109 | the frame changes in exactly the bytes of the addressed pixel, which become the colour's low bytes |
| Raster.DrawHline | proj/src/video_gr.c:111-116 | the frame changes in exactly the line's pixels, columns truncated to 16 bits |
| Raster.DrawRectangle | proj/src/video_gr.c:118-127 | the flag is the probe of the frame before drawing; the frame changes in exactly the rectangle's pixels |
| Raster.RectExtent | proj/src/video_gr.c:105-127 | on the screen the painted index set is the rectangle of coordinates, both ways |
| Raster.AddressNoWrap | proj/src/video_gr.c:106 | no 16-bit coordinates make the 32-bit address expression wrap in a valid mode |
| Raster.PixelValueBytes | proj/src/video_gr.c:277-281 | reading a pixel and taking the bytes of the value gives back the bytes of the frame |
| Raster.DrawImg | proj/src/video_gr.c:162-168 | row copies of an image of any width leave the frame `Blit` describes, later rows over earlier ones |
| Raster.DrawImg2 | proj/src/video_gr.c:151-160 | column-major pixel writes, of an image of any width and with coordinates that may wrap, leave at each index the last pixel drawn there |
| Raster.BlitsAgree | proj/src/video_gr.c:151-168 | the fast blit and the pixel blit leave the same frame for every image no wider than the screen without 16-bit wrap |
| Raster.WideBlitsDiffer | proj/src/video_gr.c:151-168 | the width hypothesis is needed: a wider image on which the two blits differ |
| Raster.BlitPixel | proj/src/video_gr.c:151-168 | on the screen, each pixel of the rectangle shows the image's own pixel, and every other pixel is unchanged |
| Raster.PaintedPixel | proj/src/video_gr.c:111-127 | on the screen, a painted rectangle shows the colour's bytes at exactly its own pixels |
| VideoGr.Screen.MovePlayer | proj/src/video_gr.c:212-259 | new frame, riders and code are those of the specification function |
| VideoGr.Screen.PassiveMovePlayers | proj/src/video_gr.c:203-210 | blue first, orange only if blue did not crash |
| VideoGr.Screen.StartGame | proj/src/video_gr.c:261-275 | starting positions and headings, white fill by night, cursor untouched |
| VideoGr.Screen.MouseMovement | proj/src/video_gr.c:290-309 | the cursor moves by the wrapping, clamping law and its image is blitted there |
| Arena.ShareIffSame | proj/src/video_gr.c:234-250 | two blocks of one lattice share a pixel if and only if they are the same block |
| Arena.PaintIsUpdate | proj/src/video_gr.c:105-127 | drawing a block on the picture of a trail gives the picture of the trail with that one cell updated |
| Arena.ProbeLaw | proj/src/video_gr.c:118-122 | what the one-pixel probe answers on every picture, background and colour depth |
| Arena.ProbeFaithfulIff | proj/src/video_gr.c:118-127 | the probe is the visited test on all pictures if and only if the background is black and pixels have two bytes or more |
| Refinement.MoveRefines | proj/src/video_gr.c:212-259 | one move: same code, same riders, frame still the picture of the blocks |
| Refinement.PlayRefines | proj/src/video_gr.c:203-259 | every sequence of ticks and keys on the board: no fault, the same codes as the block game, frame equal to the picture |
| Refinement.GameRefines | proj/src/video_gr.c:203-275 | the same for whole day games from `start_game` on a cleared screen |
| Refinement.ProbeExact | proj/src/video_gr.c:118-127 | after any day game on the board, a move is flagged if and only if the block entered shares a pixel with an earlier block of the game |
| Refinement.FirstTickCleanIff | proj/src/video_gr.c:261-275 | the first tick of a game is clean if and only if it is day or pixels are one byte; otherwise blue loses |
| Linear.EdgeLaw | proj/src/video_gr.c:118-127 | after any day game inside video memory, on the board or off, a move is flagged if and only if the linear index of its top-left pixel was painted by an earlier block; past the right edge that is a pixel of the next row |
| Linear.PlayMarked | proj/src/video_gr.c:203-259 | along every such game the pixels the probe sees are exactly the indices of the blocks drawn, and all others are black |
| Edge.EveryDayRun | proj/src/main.c:244-268 | on every day run, with no hypothesis about the board: the screen, riders and blocks after every notification of a game, from the painted indices |
| GameLength.NeverReverses | proj/src/video_gr.c:188-259 | on every game the framebuffer code plays, by day or night, on the board or off, at every depth and resolution: headings are real, each move is one step, and no player is back where it was two moves before |
| GameLength.CommonLattice | proj/src/video_gr.c:212-275 | every block drawn in such a game without 16-bit wrap lies on one lattice common to both players |
| GameLength.StartsOnLattice | proj/src/video_gr.c:267-273 | the two starting places share a lattice if and only if the screen has at least 200 columns, so that blue's column did not wrap |
| GameLength.Conservation | proj/src/video_gr.c:203-258 | on the real game, while nothing is flagged: 25 lit pixels per block drawn, one free cell fewer per block, at most as many blocks as cells and half as many ticks |
| GameLength.LitPixels | proj/src/video_gr.c:118-127 | on the real frame, exactly 25 lit pixels per move of a crash-free day game |
| Mouse.BytesConserved | proj/src/main.c:101-107 | bytes fed = 3 * packets + dropped + pending |
| Mouse.ParseLaw | proj/src/mouse.c:19-38 | each field of a packet from the bits of its three bytes: buttons at 0, 1, 2, signs at 4, 5, overflows at 6, 7, displacements less 256 when the sign is set |
| Mouse.MouseRoundTrip | proj/src/mouse.c:9-38 | after any bytes with bit 3 clear, a standard stream decodes to exactly the packets sent |
| Mouse.BadStatusRepeatsByte | proj/src/mouse.c:13-16 | an interrupt with a bad status feeds the previous byte once more; nothing changes if and only if no packet is under way and that byte has bit 3 clear |
| Mouse.TestPackets | lab4/lab4.c:42-72 | stops exactly at the interrupt that completes the requested number of packets, with the packets of the stream so far |
| Mouse.AxisLaw | proj/src/video_gr.c:291-305 | one axis at every resolution: the clamps act on the wrapped sum; from 60 pixels on, the result is the mathematical clamp if and only if the sum did not wrap or the wrap is invisible, and a negative sum lands on the far edge |
| Mouse.CursorLaw | proj/src/video_gr.c:290-309 | both axes at every resolution, with the sign of the vertical displacement reversed |
| Mouse.CursorStaysInside | proj/src/video_gr.c:290-309 | over every packet sequence the cursor stays 30 pixels inside the screen |
| Console.StatusFilters | proj/src/keyboard.c:54 | the keyboard and mouse status filters as ranges, with no status in common |
| ConsoleInvariants.FlagInvariant | proj/src/main.c:76-290 | at every receive the three flags are those of the screen, and `start_game` has run once per game chosen on a menu |
| ConsoleInvariants.GameBegan | proj/src/main.c:231-237 | every receive of a game, on the screen or paused, belongs to a game begun at an earlier event on a menu, with no `start_game` since |
| ConsoleInvariants.StepFacts | proj/src/main.c:84-284 | one event: flags kept, only the listed screen changes, `start_game` exactly on the step from a menu to a game |
| ConsoleInvariants.NoReturn | proj/src/main.c:84-284 | the main menu never returns, the multiplayer screen is never left |
| ConsoleInvariants.KeyboardSettles | proj/src/keyboard.c:49-104 | after every handled keyboard interrupt the stored command can no longer move its player |
| ConsoleInvariants.StepKeepsSettled | proj/src/main.c:250-268 | every step that starts no game keeps the command settled, passive ticks included |
| ConsoleInvariants.FirstGameSettled | proj/src/main.c:217-268 | through the whole first game of every run the command is settled |
| ConsoleInvariants.SettledUntilNextStart | proj/src/main.c:203-268 | in every game: a settled command stays settled over any events until the next `start_game` |
| ConsoleInvariants.QuietUntilNextGame | proj/src/main.c:203-268 | on every run, from a handled keyboard interrupt to the next `start_game`, a notification without a direction release does to riders, frame and trail exactly what it would do without its keyboard bit |
| ConsoleInvariants.QuietKeyboardIsVoid | proj/src/main.c:262-268 | with a settled command, an interrupt that is no direction release moves nobody and paints nothing |
| ConsoleInvariants.StaleCommandIff | proj/src/main.c:217-268 | at any receive of a game, with or without a timer bit, a keyboard bit without a direction release moves a player if and only if the stored command is not settled |
| ConsoleInvariants.FirstKeyMovesIff | proj/src/main.c:231-268 | on every run, the first key of a game, however late, if no direction release, moves a player if and only if the command left over from before the game is vertical |
| ConsoleInvariants.PausedStep | proj/src/main.c:203-229 | while paused, a quiet event is P, which resumes on the saved frame, or changes only the scan code |
| ConsoleInvariants.PauseResume | proj/src/main.c:203-242 | the round trip: frame, positions, headings, tick count and everything else as when the screen was saved, for every quiet sequence in between |
| ConsoleInvariants.DirectionInPauseIff | proj/src/main.c:217-223 | a direction key released during a pause moves its player if and only if it is a turn |
| ConsoleInvariants.FrameSurvivesPause | proj/src/main.c:238-242 | for every sequence, direction keys included, the frame and the tick count come back as saved |
| Controls.DirectionKeys | proj/src/keyboard.c:64-100 | for each of the eight codes, in every state of a game or a pause: which rider moves, to which coordinates modulo 2^16, with which heading, and the other rider stays |
| Controls.KeysAlong | proj/src/video_gr.c:212-231 | a direction key along its rider's heading, forwards or backwards, moves nobody, paints nothing and changes no screen |
| Controls.TurnKey | proj/src/main.c:217-223 | a key command that enters a block: its rider there, the other one still, and QUIT exactly if the pixel under the block's corner was neither 0 nor 255 |
| Controls.KeysStored | proj/src/keyboard.c:54-103 | a good status stores the scan code; any code but the eight keeps the command; with a settled command 153 toggles the pause; nothing else changes the screen but a crash |
| Controls.MovePaints | proj/src/video_gr.c:212-259 | a move on the board paints exactly five by five pixels at its new corner, blue as 1F51FF and orange as FF5F1F, low byte first |
| Controls.Clicks | proj/src/main.c:99-120 | every mouse interrupt on a menu: the cursor it leads to, and the game, the multiplayer screen or the end exactly if the left button is down in the first, second or third rectangle, tried in that order; without a full packet nothing changes |
| Winner.FrameInvariant | proj/src/main.c:203-274 | on every run, whatever happened in earlier games: with the heads on the board since the current game began, pauses included, the game frame is the picture of the blocks drawn since then |
| Winner.WinnerStep | proj/src/main.c:249-268 | from the trail and the notification alone: no fault on the board, the riders and blocks of the block game, and which screen comes next, quitting, pausing and both victories included |
| Winner.RightWinner | proj/src/main.c:244-274 | on every such run every notification of a game leads to the screen, riders and blocks the trail says; on every run no other screen declares a winner |
| Winner.DeclaredWinner | proj/src/main.c:250-261 | on every day run with the heads on the board, a timer interrupt alone: the riders one step on at every fifth, and the second or the first player declared the winner exactly by which block shares a pixel with an earlier one, in coordinates |
| Screens.ScreenComesUp | proj/src/main.c:124-209 | on every run, byte by byte: the first game-over screen comes up with its own image over what the game left, the second with its own, the pause screen with its own, the frame kept aside |
| Screens.FirstScreen | proj/src/main.c:82-90 | at the first receive: the main menu over the cursor image in the middle of what the card showed |
| Screens.NewGameScreen | proj/src/main.c:231-237 | on every run a game begins on a frame all 0, or all 255 from hour 25, with both riders in the middle row 100 columns either side, facing each other |
| Screens.MenuRedrawn | proj/src/main.c:99-110 | on every run a mouse interrupt on a menu that completes a packet and stays there redraws the background, then the cursor at its new place; one that does not leaves the frame |
| Screens.NothingHappens | proj/src/main.c:92-96 | on every run a failed receive or another message changes nothing; in the multiplayer screen or after quitting nothing ever does |
| Night.NightGamesEndAtOnce | proj/src/main.c:249-268 | on every night run, the screen after any notification of a game: QUIT when the key moves its rider, else PAUSE on P, else the second player's victory on a passive tick |
| Endurance.GameIsBounded | proj/src/main.c:231-268 | from the beginning of a game to any later receive of it: 25 lit pixels of the game frame per block if and only if no crash was overwritten by the pause key; if none was, two blocks or more per passive tick and no more blocks than cells |
| Walk.ProgramNeverReverses | proj/src/main.c:203-268 | from the beginning of a game to any later receive before the next `start_game`, by day or night, on the board or off, keys behind the pause screen included: real headings, one step per move, nobody back where it was two moves before |
| Walk.ProgramLattice | proj/src/main.c:203-268 | and without 16-bit wrap all those places lie on the common lattice |
| Runs.ClickBegins | proj/src/main.c:99-120 | from any menu at any resolution the three bytes of a click on the first button start a game with both riders at their starting places, the key command kept |
| Runs.ClickStartsGame | proj/src/main.c:86-123 | at 800 by 600 the booted program's cursor is on that button |
| Runs.PausedTurnReached | proj/src/main.c:203-229 | a run from boot in which a key released behind the pause screen has moved blue, the saved frame being that of the start |
| Runs.OverruledCrashReached | proj/src/main.c:249-268 | a run from boot with a passive move into blue's own trail that ends the game alone and is forgotten with P in the same notification, the next P resuming on an overlapping trail |
| Runs.StaleTurnReached | proj/src/main.c:231-268 | a run from boot in which the first game's last command turns blue in the second one, on a key without meaning |
| MainLoop.Program.constructor | proj/src/main.c:48-82 | the initialised program is the machine's boot state, cursor drawn |
| MainLoop.Program.ReadKeyboard | proj/src/keyboard.c:49-104 | the handler's three effects on screen, command and scan code |
| MainLoop.Program.MenuMouse | proj/src/main.c:99-120 | packet assembly, redraw, cursor and click |
| MainLoop.Program.KeyboardBranch | proj/src/main.c:262-268 | handler, then the keyed move, then QUIT on a crash |
| MainLoop.Program.TimerBranch | proj/src/main.c:250-261 | every fifth interrupt a passive move, with the right screen |
| MainLoop.Program.EnterPause | proj/src/main.c:204-209 | the frame is copied to the save buffer before the pause image covers it |
| MainLoop.Program.ResumeGame | proj/src/main.c:238-242 | the save buffer is copied back once |
| MainLoop.Program.Loop | proj/src/main.c:84-284 | the nested receive loops leave, for every script of events, exactly the state of the flat machine |
| Colour.SplitFields | lab5/lab5.c:97-104 | for all mask sizes from 1 to 8, the shifts extract each channel's own bits |
| Colour.SplitJoin | lab5/lab5.c:97-119 | decomposing and recomposing gives the colour modulo 2^total |
| Colour.JoinSplit | lab5/lab5.c:113-119 | recomposing and decomposing is the identity: no carry between channels |
| Colour.ShadeLaw | lab5/lab5.c:113-119 | for every row, column and step each channel is the start plus its offset (column, row, their sum) times the step, modulo its own size: the 32-bit wraps never show |
| Pattern.Hline | lab5/video_gr.c:91-99 | the frame changes in exactly the line's pixels |
| Pattern.Rectangle | lab5/video_gr.c:101-106 | the frame changes in exactly the rectangle's pixels |
| Pattern.DrawPattern | lab5/lab5.c:123-135 | the nested loops leave the finished pattern, whose pixels `PatternLaw` gives |
| Pattern.PatternLaw | lab5/lab5.c:113-135 | a pixel inside the n by n tiles shows one colour whose red is the start plus column times step, green plus row times step, blue plus their sum times step, each modulo its own size; a pixel outside is untouched |
| Motion.AnimationLaw | lab5/video_gr.c:146-187 | never past the target, there after exactly the least number of ticks, lag bounded, and exactly when the last position is drawn |
| Sprite.XpmDrawer | lab5/video_gr.c:108-119 | the nested loops leave the frame with the sprite stamped on it, whose pixels `SpritePixel` gives |
| Sprite.SpritePixel | lab5/video_gr.c:113-117 | inside the rectangle each pixel's low byte is the image's byte in row-major order and the others are 0; every other pixel is unchanged |
| Sprite.EraseUndoes | lab5/video_gr.c:161-162 | erasing the rectangle undoes drawing the sprite on a black screen |
| Sprite.XpmMove | lab5/video_gr.c:122-204 | from any screen: ends exactly at the first notification after which Esc is the last scan code served or the target is reached; position after the ticks received; the screen is the start screen with a sprite drawn, then erased and redrawn on every redrawing tick |
| Sprite.HeardIs | lab5/video_gr.c:156-190 | the code that ends the animation is that of the latest notification with a good keyboard status whose tick did not cut the step short |
| Sprite.DrawnStep | lab5/video_gr.c:156-186 | a tick redraws the sprite exactly if it cuts the step short or the interrupt count is a multiple of 60 / fr_rate |
| Sprite.BlackScreen | lab5/video_gr.c:146-187 | on a black screen that is always one sprite, where it was last drawn |
| Sprite.OutsideStrip | lab5/video_gr.c:146-187 | on any screen no pixel outside the strip flown over is touched |
| Sprite.FlightLaw | lab5/video_gr.c:146-187 | whenever the loop may end: position, at most the least number of ticks, lag at most speed * (60 / fr_rate - 1) |
| Sprite.AnimationEnds | lab5/video_gr.c:156-187 | on arrival: exactly ceil(distance / speed) ticks, and drawn at the target if and only if the last step was cut short or fell on a frame |
| Idle.MouseTestAsync | lab4/lab4.c:90-127 | ends exactly at the first notification with 60 ticks per second of idle time since the last mouse event, with the packets assembled until then |
| Idle.TimedScan | lab3/lab3.c:96-123 | ends exactly at the first notification after which Esc was released or 60 ticks per second passed since the last key event |
| Idle.ScanCodeIs | lab3/lab3.c:96-123 | the code tested is that of the last notification with a good keyboard status |
| Idle.PortsJoin | lab4/lab4.c:99-107 | the interrupts served are those of the notifications with the device bit, in order |
| Idle.QuietCounts | lab4/lab4.c:99-107 | the quiet count is the ticks since the last device event, or since the beginning without one, in the order each loop serves the bits of one notification |
| Timer.ControlWordFields | proj/src/timer.c:11-16 | timer selected, low byte then high byte, the four configuration bits read back are kept |
| Timer.ReadBackValue | proj/src/timer.c:58-79 | the command written is 0xE0 + 2^(timer + 1): status only, of the one timer |
| Timer.SetFrequency | proj/src/timer.c:11-41 | the ordered writes, on failure too, and that the two data bytes recombine to the divisor |
| Timer.DivisorExactIff | proj/src/timer.c:27-38 | over all accepted frequencies, the loaded count is the right quotient if and only if 19 <= freq <= 1193182 |
| Timer.RateBound | proj/src/timer.c:32-38 | the rate is at least freq and exceeds it by less than freq / divisor |

## Left out

- VBE mode setting, memory mapping, IRQ subscription, KBC command bytes and RTC reads: device calls; their results are parameters.
- Serial port and multiplayer play: the multiplayer screen has no logic, and the serial driver is unfinished.
- Boost, Esc to the menu and an edge test: described for the game, not in the code.
- XPM parsing: an image is a width, a height and bytes. Full-screen images are assumed to fit the screen and the cursor image to be at most 30 by 30.
- The gesture recogniser of lab 4, the packed branch of `get_color` and `timer_display_conf`: no clear state machine, a degenerate modulus, and formatting.
- Console.OnTimer: the interrupt count is unbounded, so the signed overflow after 2^31 interrupts is not modelled.
- Sprite.XpmMove: stated for speeds that are not negative and frame rates from 1 to 60; for other rates the C code divides by zero, and a negative speed leaves the screen.
- Console.Setup: screens of at least 60 by 60; below, the margins cross and the cursor need not stay inside (`AxisLaw` covers them).
- Screens wider than 16128 pixels: the address expression could wrap.
- Video memory outside the frame: a block that touches it is a fault and ends the modelled run.
