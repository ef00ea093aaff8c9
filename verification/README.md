# Verification of the pong game console

The repository is the firmware of a small game console: an ESP32 with an OLED
panel that serves a web application, answers name queries for `pong.game`, and
plays Pong by running a Python engine. This project models the parts that change
state and proves what they keep.

- **Display stack** (`Bitwise`, `LineGeometry`, `Panel`, `Ssd1306`, `Display`,
  `TitleScreen`, `GameScreen`). `LineGeometry` says what a line is without
  drawing it: the points within half a pixel of the true line. `Device` holds the
  pages of bytes with the eight spare bytes behind each, and a ghost picture that
  its validity ties to the visible ones bit by bit.
  `Panel` decodes command and data streams as the SSD1306 does. The two screens
  erase the last frame and draw the next, each over its own copy of the buffer;
  their validity says that no other pixel is lit.
- **Engine** (`Pong`, `EngineFrames`, `Text`). Reals stand for floats, and the
  functions of Python's `math` are a parameter with laws (`Math`). The invariant
  holds for every time step that is not negative; `EngineFrames` fixes the step to
  0.03, and follows a frame from the engine through its text to the screen.
- **Exchange between two threads** (`AppServer`, `Handshake`, `MainLoop`,
  `Console`, `ClientQueue`). `Handshake` interleaves single reads and writes of the shared
  variables in any order, on a memory that is sequentially consistent.
  `MainLoop` is the same consumer as a loop over classes, with both screens;
  `Console` lets the engine of `Pong` drive it.
  `ClientQueue` is the other side, with its queues and partial writes.
- **Name server** (`DnsMessage`, `DnsServer`, `DnsTheorems`). `DnsMessage` is a
  parser written from RFC 1035 section 4.1 and knows nothing of the server.
- **Data transforms of the web framework** (`Base64`, `GridGenerator`, `Merge`,
  `ObjectList`).

Classes follow the classes of the source; functions named in their contracts are
the specifications that lemmas are about. What such a function stands for is said
again without it: in pixels and coordinates (`OnLineInCoordinates`,
`ObjectsInCoordinates`, `CubeInCoordinates`), in numbers (`PaddlesMove`,
`PuckMoves`, `TurnMeans`), by a parser (`Start`), by files and bytes
(`WholeResponds`), along paths (`MergedAlongPaths`), by URLs (`EffectOfRequest`). `dafny verify dfyconfig.toml` checks
everything.

Where the code differs from what is promised, the code is modelled, and the exact
condition is proved:

- A reversed line does not always touch the same pixels (`ReversalTheorem`).
- The terminator of a payload is stored one place too far, so the interpreter may
  read a byte of an earlier request (`ReadAsSent`, `InterpreterReads`, with the run
  in `StaleByteInSomeRun`).
- Some frames of the cube, and a puck in the last two columns, reach behind column
  127. The bytes there belong to the next page's header, which nothing reads; the
  visible picture is exact all the same (`FramesAreDrawable`, `Render`).
- A query may state a record length that does not end with the datagram, and is
  answered (`OptRecordReads`).
- The stop parameter is no JSON text, so the engine is never told of a stop: the number
  of players of the first start stays its mode (`ModeIsKept`).
- Replies set RD and opcode 0 whatever the query had, and only the lower-case
  name is known (`FlagsCopied`, `CaseMatters`). `DECISIONS.md` lines 37-38 say the
  server reacts to one query only; the code also answers other names with
  NXDOMAIN, and this is what is modelled.
- The empty string is encoded as a zero byte, and codes above 255 are not kept
  (`RoundTrip`, `EmptyEncodes`).
- Appending keeps the checked column unique only if it is stored
  (`UniqueAfterAppend`).
- Merging is not associative when values of different kinds meet, or when a null is
  overwritten (`SysMergeAssociates`, `MergeAssociates`, `OverwrittenNull`).

## Model

| member | source | states |
|---|---|---|
| LineGeometry.LinePixelsMeaning | src/components/ssd1306/ssd1306.c:150-192 | The pixels of a line are exactly the integer points within half a pixel of the true line (of two exact halves one counts), between the two ends |
| LineGeometry.OnLineInCoordinates | src/components/ssd1306/ssd1306.c:150-192 | The same told in the four end coordinates alone: between the ends along the longer axis, with twice the cross product within the longer distance, one limit excluded |
| LineGeometry.PixelCount | src/components/ssd1306/ssd1306.c:150-192 | Every line, whatever its direction, has exactly max(dx, dy) + 1 different pixels |
| LineGeometry.StepsTouch | src/components/ssd1306/ssd1306.c:169-190 | Consecutive pixels of a line are different neighbours |
| LineGeometry.InBoundingBox | src/components/ssd1306/ssd1306.c:163-192 | No pixel leaves the box spanned by the two end points |
| LineGeometry.HoldsBothEnds | src/components/ssd1306/ssd1306.c:163-192 | Both end points belong to the line, the second one as the last step |
| LineGeometry.NearestTouch | src/components/ssd1306/ssd1306.c:172-176 | From one major step to the next the nearest minor step stays or advances by one; there is only one nearest minor step |
| LineGeometry.NearestBounds | src/components/ssd1306/ssd1306.c:168-190 | Between the ends the nearest minor step lies between the ends too |
| LineGeometry.DeviationProduct | src/components/ssd1306/ssd1306.c:168-176 | The error term of the loop is the linear form 2*minor*k - 2*major*j |
| LineGeometry.FirstPixelsMeaning | src/components/ssd1306/ssd1306.c:168-190 | After n steps exactly the n pixels with the smallest major coordinate are drawn |
| LineGeometry.OnReversed | src/components/ssd1306/ssd1306.c:172-189 | A pixel survives swapping the end points if and only if it is not a tie |
| LineGeometry.ReversalTheorem | src/components/ssd1306/ssd1306.c:163-192 | Drawing a line backwards touches the same pixels if and only if the slope has no tie, that is, once common factors of two are removed the longer distance is odd (or there is none) |
| LineGeometry.TieFreeExcludesTies | src/components/ssd1306/ssd1306.c:172-189 | When the parity condition holds no pixel column has two equally near candidates |
| Bitwise.OrBits | src/components/ssd1306/ssd1306.c:145 | Each bit of a disjunction is the disjunction of the bits |
| Bitwise.AndNotBits | src/components/ssd1306/ssd1306.c:143 | Each bit of a masked byte is kept unless the mask has it |
| Ssd1306.Device.Pixel | src/components/ssd1306/ssd1306.c:135-148 | The read-modify-write of one byte sets or clears exactly one pixel; behind column 127 it meets a byte that is not shown |
| Ssd1306.Device.DrawFlat | src/components/ssd1306/ssd1306.c:167-178 | The loop over x sets (or clears) exactly the pixels of the line in columns of the panel |
| Ssd1306.Device.DrawSteep | src/components/ssd1306/ssd1306.c:180-191 | The loop over y sets (or clears) exactly the pixels of the line in columns of the panel |
| Ssd1306.Device.DrawLine | src/components/ssd1306/ssd1306.c:151-192 | In all eight octants, with end points up to eight columns behind the panel, the picture changes by exactly the pixels of the line in columns of the panel |
| Ssd1306.PlotStep | src/components/ssd1306/ssd1306.c:170 | The pixel drawn in step k is within the bytes of a page and is the pixel of step k of the line |
| Ssd1306.TracksNext | src/components/ssd1306/ssd1306.c:171-176 | Adding to the error term, and carrying from it, moves to the nearest pixel of the next step |
| Ssd1306.DisplayImage | src/components/ssd1306/ssd1306.c:69-74 | Panel and buffer receive the same columns of the same page; nothing else changes in either |
| Ssd1306.DisplayText | src/components/ssd1306/ssd1306.c:76-92 | At most 16 glyphs are written to one page; all other pages keep their pixels, and a panel that mirrored the buffer still does |
| Ssd1306.TextRowAt | src/components/ssd1306/ssd1306.c:76-92 | Column c of a page row shows column c mod 8 of the glyph of character c / 8, complemented when inverted; columns behind the text are as before |
| Ssd1306.ClearScreen | src/components/ssd1306/ssd1306.c:94-101 | Whatever panel and buffer held, both hold the same afterwards: no lit pixel, or inverted every pixel, if the glyph of code 31 is blank |
| Ssd1306.SpacesAreBlank | src/components/ssd1306/ssd1306.c:94-101 | Glyphs of code 31 blank a page, or inverted fill it |
| Ssd1306.ShowBuffer | src/components/ssd1306/ssd1306.c:34-39 | After the eight transfers the panel memory equals the buffer, from any earlier content and any addressing state of page mode |
| Ssd1306.DisplayImageI2c | src/components/ssd1306/ssd1306_i2c_new.c:125-160 | For a page and column on the panel the decoder, fed the transmitted bytes, replaces exactly the columns of the image; otherwise nothing is sent |
| Ssd1306.InitSelectsPageMode | src/components/ssd1306/ssd1306_i2c_new.c:76-123 | Decoding the initialization stream leaves the panel in page addressing mode, between commands, with its memory untouched |
| Ssd1306.SetContrast | src/components/ssd1306/ssd1306_i2c_new.c:162-176 | The clamped contrast command leaves memory and addressing as they were |
| Ssd1306.Device.CopyFrom | src/components/peripherals/Display.cpp:40-48 | A value copy: every byte and the picture become those of the original |
| Panel.AddressingSetsPointers | src/components/ssd1306/ssd1306_i2c_new.c:132-153 | The three command bytes of a transfer set column and page to the values they encode, whatever the pointers were (SSD1306 datasheet sections 10.1.1, 10.1.2, 10.1.13) |
| Panel.BurstPatches | src/components/ssd1306/ssd1306_i2c_new.c:155-158 | In page addressing mode a data burst that fits the page replaces exactly its columns |
| Panel.CommandsConcat | src/components/ssd1306/ssd1306_i2c_new.c:84-122 | Decoding a command stream is decoding its parts one after the other |
| Panel.ReadSetting | src/components/ssd1306/ssd1306_i2c_new.c:89-116 | A command with an operand takes the next byte as its operand and not as a command |
| Display.Display.Init | src/components/peripherals/Display.cpp:17-23 | After initialization buffer and panel are blank and equal, from any earlier panel state between commands |
| Display.Display.RenderText | src/components/peripherals/Display.cpp:25-28 | A text changes one page only, and keeps the panel in step with the buffer |
| Display.Display.SetDisplayDev | src/components/peripherals/Display.cpp:45-48 | The display takes over the other buffer by value; what the panel showed of the other it shows of this one |
| TitleScreen.TriangleStep | src/main/TitleScreen.cpp:93-122 | Stepping up at the bottom and down at the top is a triangle wave of the number of frames, for every period |
| TitleScreen.MatrixIsAdjacency | src/main/cube-animation.hpp:16-29 | The twelve pairs of the matrix are exactly the pairs of vertices whose numbers differ in one binary digit, the smaller first |
| TitleScreen.EdgesInCoordinates | src/main/TitleScreen.cpp:72-91 | A pixel belongs to the cube drawn if and only if it is in a column of the panel and on the straight line between two such vertices |
| TitleScreen.CubeInCoordinates | src/main/TitleScreen.cpp:51-91 | The same with the vertices read from the table: the entry of the frame plus the offset, in 8 bits |
| TitleScreen.PlayersShown | src/main/TitleScreen.cpp:138-157 | The sign of a connected player stands at the second place with one player, at both with two |
| TitleScreen.FramesAreDrawable | src/main/TitleScreen.cpp:51-70 | For every frame and every sideways offset of the animation all vertices stay within the bytes of a page, although some are behind column 127 |
| TitleScreen.TitleScreen.constructor | src/main/TitleScreen.cpp:9-29 | A new title screen is valid, blank and shown |
| TitleScreen.TitleScreen.DrawCubeLines | src/main/TitleScreen.cpp:72-91 | The picture gains or loses exactly the pixels on lines between adjacent vertices, or nothing without eight coordinates |
| TitleScreen.TitleScreen.CalcCubeCoords | src/main/TitleScreen.cpp:51-70 | The vertices of the current frame, moved sideways in 8 bits, are drawn and remembered |
| TitleScreen.TitleScreen.ProcessMovement | src/main/TitleScreen.cpp:93-122 | Both steppers stay on their triangle waves, the table pointer on its frame |
| TitleScreen.TitleScreen.Render | src/main/TitleScreen.cpp:36-49 | In every frame, wherever the animation stands: outside the text pages a pixel is lit if and only if it is on a line between two adjacent vertices, which are the table entries of the closed-form frame number moved by the closed-form offset; the panel equals the buffer |
| TitleScreen.TitleScreen.PrintHeader | src/main/TitleScreen.cpp:31-34 | The header replaces page 1 and nothing else, and keeps the no-ghosts invariant and the mirrored panel |
| TitleScreen.TitleScreen.PrintPlayerInfo | src/main/TitleScreen.cpp:138-157 | The line for the number of players replaces page 7 and nothing else, and keeps the no-ghosts invariant and the mirrored panel |
| Text.FindIsFirst | src/main/Helper.hpp:8 | The search returns the first occurrence if there is one |
| Text.Split | src/main/Helper.hpp:5-18 | The in-place loop appends the text between delimiters to the result, and leaves the last piece in the text |
| Text.JoinPieces | src/main/Helper.hpp:5-18 | Joining the pieces gives the text back: nothing is lost |
| Text.PiecesAreFree | src/main/Helper.hpp:10-17 | No piece contains the delimiter |
| Text.SplitJoin | src/main/Helper.hpp:5-18 | Splitting what was joined from comma-free fields gives the fields back |
| Text.StoiItoa | src/main/pong.h:299-304 | Reading a printed integer gives the integer, for every integer of 32 bits |
| Text.DecimalPlaces | src/main/pong.h:299-304 | Digit i from the right of a printed number is the number divided by 10^i, modulo 10 |
| Text.DecimalLength | src/main/pong.h:299-304 | A printed number has no leading zero |
| Text.FrameOrder | src/main/pong.h:299-305 | The six fields on the wire are puck x, puck y, left height, right height, left score, right score, in this order |
| Text.FrameRoundTrip | src/main/pong.h:299-305 | Splitting a frame text and reading its six fields gives exactly the six integers of the frame |
| GameScreen.RedrawForgets | src/main/GameScreen.cpp:45-52 | The next picture below the score page does not depend on what was lit within the objects of the last frame |
| GameScreen.FieldsRead | src/main/GameScreen.cpp:70-73 | Which field of a frame is read as which number |
| GameScreen.ObjectsInCoordinates | src/main/GameScreen.cpp:64-116 | The objects of a frame in coordinates: the puck two pixels at its place and three below, the paddles columns 4 to 6 and 124 to 126 over eleven rows cut at row 63, the middle line column 64 rows 8 to 56 |
| GameScreen.RedrawnInCoordinates | src/main/GameScreen.cpp:40-52 | What redrawing leaves, in coordinates: paddles; the puck except under old paddles; the middle line except under the old puck and old paddles |
| GameScreen.ScoreTextFillsLine | src/main/GameScreen.cpp:133-147 | Two scores of together at most 16 characters fill the line, one at each end |
| GameScreen.GameScreen.DrawPuck | src/main/GameScreen.cpp:70-84 | The puck is two strokes, drawn or erased only when its 8-bit position is on the screen; at columns 126 and 127 only its pixels on the panel appear |
| GameScreen.GameScreen.RenderPuck | src/main/GameScreen.cpp:64-87 | The pixels of the puck of the last or the current frame, in the coordinates of its numbers, are erased or drawn, no others |
| GameScreen.GameScreen.DrawPaddle | src/main/GameScreen.cpp:95-114 | A paddle is three strokes, cut at the bottom, drawn only between 2 and 57 |
| GameScreen.GameScreen.RenderPaddle | src/main/GameScreen.cpp:89-116 | The pixels of the paddle of the last or the current frame, in the coordinates of its numbers, are erased or drawn, no others |
| GameScreen.GameScreen.RenderScores | src/main/GameScreen.cpp:118-149 | The score line is rewritten exactly when both kept scores are zero or one has risen, and only page 0 changes |
| GameScreen.GameScreen.PrintScores | src/main/GameScreen.cpp:133-147 | The scores replace page 0 and nothing else; with at most 16 characters nothing of the old line is left |
| GameScreen.GameScreen.RenderObjects | src/main/GameScreen.cpp:40-52 | Middle line, erasures and strokes compose in this order to the redrawn picture |
| GameScreen.GameScreen.RenderFrame | src/main/GameScreen.cpp:40-54 | After a frame every pixel below the score page is the one that redrawing on an empty screen gives |
| GameScreen.GameScreen.Render | src/main/GameScreen.cpp:28-62 | Over any sequence of frames a pixel below page 0 is lit if and only if the coordinates of the frame, and of the one before for what was erased, say so; the scores kept are those of the frame exactly when both were zero or one has risen; the panel equals the buffer |
| GameScreen.GameScreen.Reset | src/main/GameScreen.cpp:17-21 | A new game starts the scores over and still knows the strokes to erase |
| GameScreen.GameScreen.SetDisplayDev | src/main/micropython_as.cpp:119-122 | The game screen starts with a blank value copy, and the panel shows it |
| EngineFrames.NarrowedFrame | src/main/GameScreen.cpp:70-73 | Narrowing to 8 bits maps no puck off the screen to a drawn place, and paddles are always drawn on the screen |
| EngineFrames.ReportBounds | src/main/pong.h:299-302 | In every reachable game at step 0.03 the puck is within -1.6 to 65.6 and -2 to 130, and the reported integers within theirs |
| EngineFrames.EngineToScreen | src/main/pong.h:286-305 | Every frame reported in a reachable game has six fields, reads back as the same numbers, and is one the game screen accepts |
| Pong.Vector.Recalc | src/main/pong.h:90-95 | The magnitude is the root of the sum of squares again |
| Pong.Vector.SetMagnitude | src/main/pong.h:102-108 | A vector that is not zero keeps its direction and gets the new length |
| Pong.Vector.SetAngle | src/main/pong.h:110-114 | The length is kept, the components are those of the angle |
| Pong.Vector.FlipY | src/main/pong.h:116-119 | The y component changes its sign, length and x do not change |
| Pong.Vector.FlipX | src/main/pong.h:121-124 | The x component changes its sign, length and y do not change |
| Pong.Paddle.SetInput | src/main/pong.h:136-145 | Exactly one, or neither, of up and down follows the input |
| Pong.Paddle.Update | src/main/pong.h:147-170 | A player moves the paddle up to y - speed*dt, down to y + speed*dt, or not; an automatic one goes 55*dt towards an approaching puck that is further off, or not at all; each to the nearest place in range |
| Pong.PlayerSteers | src/main/pong.h:158-162 | Where a paddle steered by a player wants to go |
| Pong.AutoFollows | src/main/pong.h:149-156 | Where an automatic paddle wants to go: it follows only a puck that approaches, only when that is more than one step off |
| Pong.Clamp | src/main/pong.h:164-170 | The result is the nearest place at which the whole paddle is on the screen |
| Pong.BetweenIsOverlap | src/main/pong.h:238-246 | The puck is beside a paddle if and only if some height lies within the paddle and within the puck widened by the tolerance |
| Pong.Puck.NextVelocity | src/main/pong.h:182-187 | The table is used in a cycle of 50 |
| Pong.Puck.Serve | src/main/pong.h:195-198 | The puck starts at the centre with speed 40 in the direction of the table entry |
| Pong.Puck.Reset | src/main/pong.h:189-198 | Only the side that scored gains one point, and the velocity index moves on by one |
| Pong.Puck.Collide | src/main/pong.h:220-236 | A hit gives full speed at the angle of the place hit, the right paddle deciding last; without a hit nothing changes |
| Pong.Puck.Launch | src/main/pong.h:229-236 | Speed, direction and length after a hit |
| Pong.Puck.Bounce | src/main/pong.h:214-218 | The vertical velocity flips exactly beyond the edges |
| Pong.Puck.Score | src/main/pong.h:208-212 | A point is given exactly when the puck has left the field, to the right side, and the puck returns to the centre |
| Pong.Puck.Turn | src/main/pong.h:204-205 | Collision and bounce together: the new velocity, and one step on the puck is still in the band |
| Pong.Puck.TurnMeans | src/main/pong.h:214-246 | The velocity after collision and bounce in numbers: which paddle is in reach, the angle, speed 120, the edge |
| Pong.Puck.StartMeans | src/main/pong.h:189-198 | A restart is at (64, 32) with speed 40 on the ray of the table entry |
| Pong.Puck.Update | src/main/pong.h:200-206 | One step: exact position, scores and velocity, and the invariant that the puck is in the band now and one step on, for every time step |
| Pong.HitAngleSign | src/main/pong.h:227-233 | A puck above the middle of the paddle leaves upwards, one below it downwards |
| Pong.HitAngleMeans | src/main/pong.h:227-233 | The angle is proportional to the distance from the middle of the paddle, an eighth of a turn at its ends |
| Pong.BounceKeepsBand | src/main/pong.h:214-236 | Why an unclamped puck stays near the screen: the flip undoes the step that left the band, or turns a velocity chosen outwards by a hit |
| Pong.CentreIsInside | src/main/pong.h:195-198 | A restarted puck is inside the band with any velocity up to full speed |
| Pong.TruncateMeans | src/main/pong.h:299-302 | Reported numbers are cut off towards zero |
| Pong.NoVelocityIsZero | src/main/pong.h:28-79 | No entry of the velocity table is zero, so every start has full start speed |
| Pong.Game.constructor | src/main/pong.h:258-262 | A new game satisfies the invariant with no scores |
| Pong.Game.Step | src/main/pong.h:264-305 | In every reachable game: the state machine; up and down move the paddles by 80*dt in the stated direction, an automatic paddle follows the puck by 55*dt, each within the screen; puck position and velocity, scores (at most one rises, by one), velocity index (1 + scores) mod 50; and the text of exactly these numbers |
| Pong.Game.StepPlay | src/main/pong.h:291-297 | Inputs, paddles, then puck: new places, scores and velocity are functions of the state before |
| Pong.Game.PaddlesMove | src/main/pong.h:291-296 | The heights after a step of play, in numbers |
| Pong.Game.PuckMoves | src/main/pong.h:200-212 | The place of the puck and the scores after a step of play, in numbers |
| AppServer.HandledIsConsistent | src/main/micropython_as.cpp:140-190 | Handling any request keeps: the game screen is selected exactly while a game runs, and effective starts and stops alternate |
| AppServer.LookupMeans | src/components/network_oop/ASRequestDef.hpp:13-47 | Which URL and method is which request |
| AppServer.EffectOfRequest | src/main/micropython_as.cpp:136-192 | What each request of a sequence adds to what has happened, told of its URL and of whether a game ran |
| AppServer.RunsSinceStart | src/main/micropython_as.cpp:140-163 | A game runs if and only if there was a start request and no stop request since |
| AppServer.StaleByteIsRead | src/main/micropython_as.cpp:169-175 | The interpreter reads the payload up to its first zero; without one, exactly one more byte is read unless the byte behind the payload is zero |
| AppServer.WhoLeftIt | src/main/micropython_as.cpp:169-175 | Over any sequence of requests a byte of the buffer is not zero if and only if an earlier payload put it there and no later payload or terminator has overwritten it; it is then the byte of that payload |
| AppServer.ReadAsSent | src/main/micropython_as.cpp:169-175 | A request is read as it was sent if and only if it holds no zero and no earlier request left the byte behind it; otherwise the text read is the payload and that byte |
| AppServer.GrowingPayloadsAreSafe | src/main/micropython_as.cpp:169-175 | Payloads without zeros that are never shorter than those before them are all read as they were sent |
| AppServer.ShorterAfterLonger | src/main/micropython_as.cpp:169-175 | Witness: after a start and a two-byte move a one-byte move is read with the second byte of the move before |
| AppServer.FoldedIsConsistent | src/main/micropython_as.cpp:140-163 | Any sequence of requests handled in one piece leaves screen and game consistent |
| Handshake.HttpKeepsInv | src/components/network_oop/ClientHandler.cpp:75-101 | Every single step of the HTTP thread keeps the invariant of the exchange |
| Handshake.MainKeepsInv | src/main/micropython_as.cpp:136-192 | Every single step of the main loop keeps the invariant of the exchange |
| Handshake.Safe | src/components/network_oop/ASRequestHandler.cpp:21-31 | The invariant holds after every interleaving of single reads and writes |
| Handshake.ReadsAreOneRequest | src/main/micropython_as.cpp:136-192 | While the main loop handles a request, identifier, length and payload bytes are those of one and the same published request, the next one due; the byte behind the payload is not zero if and only if an earlier, longer payload left it |
| Handshake.InterpreterReads | src/main/micropython_as.cpp:169-175 | In every run the text handed to the interpreter is the one stated for the sequence of requests, and equals the payload if and only if the payload has no zero and no earlier request left the byte behind it |
| Handshake.OneWriter | src/components/network_oop/ClientHandler.cpp:75-101 | Every step that changes identifier, length or buffer is made by the thread the status gives them to, while the other neither publishes nor handles; results are taken only when nothing is handled |
| Handshake.StatusCycles | src/main/micropython_as.cpp:136-192 | The status only goes WAIT_IN, PROCESSING, PROCESSED, WAIT_IN, each step made by its own thread |
| Handshake.ExactlyOnce | src/components/network_oop/ClientHandler.cpp:84-102 | Every publication is consumed exactly once before the next one, and the result taken is the payload of its publication |
| Handshake.Linearized | src/main/micropython_as.cpp:136-192 | The interleaved run has the effect, on the state of the main loop and on the buffer, of handling the published requests one after the other, each in one piece, with the text the interpreter really reads |
| Handshake.EverySequence | src/components/network_oop/ClientHandler.cpp:75-102 | Every sequence of requests that match a definition is published by some run |
| Handshake.StaleByteInSomeRun | src/main/micropython_as.cpp:169-175 | Some run moves a paddle with a text that was never sent |
| Handshake.GameFollowsScreen | src/main/micropython_as.cpp:140-163 | GameRunning holds exactly when the game screen is selected, at every moment of every interleaving but between the three assignments of a start or stop, where they differ |
| MainLoop.Requests.ProcessRequest | src/main/micropython_as.cpp:135-196 | The branches of the consumer compute the specified handling, and the parameters for the interpreter |
| MainLoop.Requests.MovePaddle | src/main/micropython_as.cpp:165-190 | The terminator is stored one place too far, the interpreter reads up to the first zero, and the paddle of the player it names moves in the direction of the request |
| MainLoop.Requests.StartOrStop | src/main/micropython_as.cpp:140-163 | An effective start or stop selects the screen, starts or stops the game and is recorded; a start chooses single or multi by the number of players; anything else changes nothing |
| MainLoop.Screens.constructor | src/main/micropython_as.cpp:118-123 | Two screens with separate copies of one blank buffer, shown on the panel |
| MainLoop.Screens.RenderMain | src/main/micropython_as.cpp:199-201 | The title screen is shown on the panel, one frame on, and the game screen keeps its copy |
| MainLoop.Screens.RenderGame | src/main/micropython_as.cpp:209-214 | The game screen is shown on the panel with this frame, and the title screen keeps its copy |
| MainLoop.Screens.ResetGame | src/main/micropython_as.cpp:202-208 | Starting a game transmits nothing and keeps both screens valid |
| MainLoop.Screens.CountPlayers | src/main/micropython_as.cpp:229-238 | A connection adds a player up to two, a disconnection removes one down to none, anything else changes nothing |
| MainLoop.Screens.PrintTexts | src/main/micropython_as.cpp:240-243 | Exactly the header and the player line are written to the title screen, and shown |
| MainLoop.Screens.RenderTexts | src/main/micropython_as.cpp:216-245 | Exactly every 50th round players are counted, and texts printed if the title screen is selected; any other round changes nothing |
| MainLoop.MainLoop.HandleRequest | src/main/micropython_as.cpp:135-196 | A pending request is handled and marked processed, and both parameters for the interpreter, and the one due now, are those chosen by request, player and player count |
| MainLoop.MainLoop.RenderScreen | src/main/micropython_as.cpp:198-214 | Exactly the screen due is rendered and shown on the panel, or initialized |
| MainLoop.MainLoop.RenderRound | src/main/micropython_as.cpp:198-245 | After rendering and texts the panel equals the buffer of the screen selected |
| MainLoop.MainLoop.Iterate | src/main/micropython_as.cpp:133-248 | Over all rounds: no ghosts on either screen, the panel memory equals the buffer of the screen selected, consistent control, and the frame shown is the frame reported |
| Console.Console.constructor | src/main/micropython_as.cpp:108-130 | A new console is valid: title screen, no game, the engine waiting for its start |
| Console.Console.CallEngine | src/main/micropython_as.cpp:202-214 | While a game is shown the engine takes one step with exactly the parameter due (of start or of move), otherwise none; a game in play returns a frame the screen accepts, with the numbers of the engine |
| Console.Console.InputOfRequest | src/main/micropython_as.cpp:140-213 | The input of a round: the paddle and direction of a pending paddle request of a running game, none without a request, single or multi by player count for a start; no call exactly after a stop or without a game |
| Console.Console.ModeIsKept | src/main/micropython_as.cpp:154-163 | A first start decides for good whether the left paddle is automatic: no later start, move or stop changes it or ends play |
| Console.Console.Advance | src/main/micropython_as.cpp:135-214 | Handling a request and calling the engine takes the engine one step with the parameter the request, or its absence, stands for; a running game stays in play |
| Console.Console.Round | src/main/micropython_as.cpp:133-248 | Over all rounds, from request to picture: the engine takes exactly the step of the parameter due; a paddle request moves exactly its paddle by 2.4 in its direction, within the screen; the picture of the game screen is, pixel by pixel, the one of the engine numbers after that step; and the panel equals the buffer of the screen selected |
| Console.Console.HeightsOfRound | src/main/micropython_as.cpp:165-213 | The heights of the paddles after a round, told of request and player: up, down, none, and the automatic paddle |
| ClientQueue.Shared.ASRequestInit | src/components/network_oop/ASRequestHandler.cpp:19-32 | The loop publishes identifier, length and payload of a request that an entry matches, with PROCESSING last, and otherwise changes nothing |
| ClientQueue.Shared.Offer | src/components/network_oop/ClientHandler.cpp:75-77 | A head request is published, with identifier, length and bytes in the buffer, only while nothing is pending, before the other thread may finish it |
| ClientQueue.Client.Receive | src/components/network_oop/ClientHandler.cpp:58-63 | New requests join the end of the queue |
| ClientQueue.Client.GetFileMetadata | src/components/filesystem/Filesystem.hpp:27-35 | The first file with this path |
| ClientQueue.FileAtIsFirst | src/components/filesystem/Filesystem.hpp:27-35 | The file found is at the first place in the list that has the path; none is found if and only if no place has it |
| ClientQueue.Client.Respond | src/components/network_oop/ClientHandler.cpp:79-135 | An idle connection takes a finished result, whoever asked for it, and restores WAIT_IN; else it answers a GET request with its file; else it waits |
| ClientQueue.Client.SendFile | src/components/network_oop/ClientHandler.cpp:105-134 | The first file with the path of the URL is answered with status 200, its type and content; without one the message has status 404, text/html and the page at /404.html, or nothing |
| ClientQueue.Client.MsgGetSendMetadata | src/components/network_oop/ClientHandler.cpp:138-139 | What is offered continues the bytes already taken to a beginning of the current response |
| ClientQueue.Client.Send | src/components/network_oop/ClientHandler.cpp:136-156 | However much the socket takes, exactly that much of the response is written; the queue moves on if and only if that completes it |
| ClientQueue.Client.ProcessHead | src/components/network_oop/ClientHandler.cpp:72-156 | What is published and the bytes then in the buffer, which response an idle connection starts, and the resulting status, while the stream of the connection stays in order |
| ClientQueue.Client.Visit | src/components/network_oop/ClientHandler.cpp:50-157 | One visit only adds requests, bytes and completed answers |
| ClientQueue.ClientHandler.ProcessClients | src/components/network_oop/ClientHandler.cpp:42-168 | Every connection is visited once; exactly hung-up or failed ones may go, and hung-up ones do; the result is, in 8 bits, the number of connections with more requests than answers |
| ClientQueue.CountIsNumber | src/components/network_oop/ClientHandler.cpp:42-66 | Counting while visiting gives that number in whatever order the map is walked |
| ClientQueue.ClientHandler.AddClient | src/components/network_oop/ClientHandler.cpp:28-40 | A new connection starts with nothing received and nothing written |
| ClientQueue.ChunksRead | src/components/network_oop/ClientHandler.cpp:136-156 | A reader that knows the lengths cuts concatenated responses into the same responses |
| ClientQueue.WholeResponds | src/components/network_oop/ClientHandler.cpp:79-135 | A byte string is a whole response if and only if it is the formatted head of status, type and length, told of the files, and the content |
| ClientQueue.WrittenInOrder | src/components/network_oop/ClientHandler.cpp:50-157 | On every connection, at all times, the bytes written are one whole response per request from the head of the queue in the order of arrival, and the beginning of the next: the first file with the path and status 200, or status 404 and its page, byte for byte, or a result as JSON |
| DnsServer.Server.Memmove | src/components/network_oop/DNSServer.cpp:113 | Overlapping move: the target holds the old bytes of the source, all other bytes are kept |
| DnsServer.Server.Receive | src/components/network_oop/DNSServer.cpp:51 | A datagram overwrites the front of the buffer only |
| DnsServer.Server.Classify | src/components/network_oop/DNSServer.cpp:58-103 | The tests on the reused buffer decide by the received bytes alone |
| DnsServer.Server.BuildAnswer | src/components/network_oop/DNSServer.cpp:108-149 | The move and the stores assemble exactly the specified answer in place |
| DnsServer.AnswerAssembled | src/components/network_oop/DNSServer.cpp:112-147 | Header, question, record and moved bytes are the answer |
| DnsServer.Server.Serve | src/components/network_oop/DNSServer.cpp:51-165 | One reply, NXDOMAIN or silence, a function of the datagram alone, whatever the buffer held; the address used is the configured one, part by part |
| DnsServer.Server.ServerLoop | src/components/network_oop/DNSServer.cpp:49-169 | Over any run each reply depends only on its own datagram, with the configured address, part by part |
| DnsServer.AddressIsRead | src/components/network_oop/DNSServer.cpp:144-147 | The four parts of the address are read as its four bytes in order |
| DnsTheorems.NameReads | src/components/network_oop/DNSServer.cpp:58-70 | The byte comparison accepts a name if and only if it reads as the two labels pong and game (RFC 1035 section 3.1), uncompressed |
| DnsTheorems.AcceptanceTheorem | src/components/network_oop/DNSServer.cpp:58-103 | The byte tests accept exactly the messages that an RFC 1035 parser reads as one A, IN question for pong.game, alone or in front of bytes that begin like an OPT record |
| DnsTheorems.OptRecordReads | src/components/network_oop/DNSServer.cpp:85-103 | An accepted query longer than its question parses as a whole message, with exactly one OPT record, if and only if the record length it states reaches the end of the datagram |
| DnsTheorems.ShortRecordIsAccepted | src/components/network_oop/DNSServer.cpp:85-103 | Witness: a query whose OPT record announces a byte it does not have is accepted, and is no whole message |
| DnsTheorems.AnswerReads | src/components/network_oop/DNSServer.cpp:128-147 | The compressed record reads as type A, class IN, 3600 seconds, the configured address, owned by the question name |
| DnsTheorems.AnswerTheorem | src/components/network_oop/DNSServer.cpp:107-151 | For every accepted query the reply fits the buffer and a parser recovers identifier, RCODE 0, the question and exactly one answer; all that followed the question follows unchanged |
| DnsTheorems.DottedSplits | src/components/network_oop/DNSServer.cpp:44-47 | Four numbers joined by dots split into their four texts |
| DnsTheorems.Start | src/components/network_oop/DNSServer.cpp:22-169 | A server started with the text a.b.c.d answers every accepted query, in any run, with a reply that the parser reads as one A record with the bytes a, b, c, d |
| DnsTheorems.AdditionalTheorem | src/components/network_oop/DNSServer.cpp:112-126 | The reply is a complete message if and only if the query is one, with the same additional section |
| DnsTheorems.NxDomainTheorem | src/components/network_oop/DNSServer.cpp:153-164 | A name error changes only flags, ANCOUNT and NSCOUNT, and has RCODE 3 |
| DnsTheorems.SilenceTheorem | src/components/network_oop/DNSServer.cpp:53-168 | Other lengths get no reply; among these lengths exactly those messages get none whose question, as the parser reads it, names pong.game but which do not read as an accepted query |
| DnsTheorems.FlagsCopied | src/components/network_oop/DNSServer.cpp:117-118 | Opcode and RD of the query are repeated if and only if it is a standard query that desires recursion |
| DnsTheorems.CaseMatters | src/components/network_oop/DNSServer.cpp:58-70 | A spelling of the name gets NXDOMAIN if and only if it is not all lower case |
| Base64.KeyIsGood | src/components/filesystem/srcfiles/x0/sysBase64.js:20-22 | The key string lists the alphabet of RFC 4648 section 4, and the pad |
| Base64.RoundSplitsBits | src/components/filesystem/srcfiles/x0/sysBase64.js:50-56 | The shifts and masks of a round cut three bytes into four numbers below 64 from which the bytes come back |
| Base64.Encoder.Encode | src/components/filesystem/srcfiles/x0/sysBase64.js:35-70 | The do-while loop computes the encoding, padding included |
| Base64.RoundTrip | src/components/filesystem/srcfiles/x0/sysBase64.js:35-70 | An RFC 4648 section 4 decoder gives the codes back if and only if the text is not empty and all codes are at most 255 |
| Base64.DecodesToBytes | src/components/filesystem/srcfiles/x0/sysBase64.js:35-70 | What decodes decodes to bytes, so codes above 255 cannot come back |
| Base64.LengthAndPadding | src/components/filesystem/srcfiles/x0/sysBase64.js:44-67 | The length is four for every three codes begun, and the pads are exactly the missing codes, at the very end |
| Base64.EmptyEncodes | src/components/filesystem/srcfiles/x0/sysBase64.js:44-67 | The empty text is encoded as a zero byte |
| GridGenerator.Next | src/components/filesystem/srcfiles/x0/sysGridGenerator.js:130-179 | One step of a generator: its element, and the next position in the cycle |
| GridGenerator.YieldIsCyclic | src/components/filesystem/srcfiles/x0/sysGridGenerator.js:130-179 | The generators yield element k modulo the length |
| GridGenerator.ClosedGroups | src/components/filesystem/srcfiles/x0/sysGridGenerator.js:86-117 | Closed groups are not empty and follow one another, for any sizes, positive or not |
| GridGenerator.BoundaryMet | src/components/filesystem/srcfiles/x0/sysGridGenerator.js:98-115 | With positive sizes a place is some boundary if and only if it is the last one met |
| GridGenerator.Generator.CloseColumn | src/components/filesystem/srcfiles/x0/sysGridGenerator.js:86-100 | A column encloses the pending elements, with identifier and style, and the boundary moves on |
| GridGenerator.Generator.CloseRow | src/components/filesystem/srcfiles/x0/sysGridGenerator.js:102-117 | A row encloses the columns closed since the last one, and the boundary moves on |
| GridGenerator.Generator.Generate | src/components/filesystem/srcfiles/x0/sysGridGenerator.js:65-123 | From any rows and columns of earlier calls the loop appends the specified rows; columns left over by earlier calls join the first of them |
| GridGenerator.ColumnHoldsItsSize | src/components/filesystem/srcfiles/x0/sysGridGenerator.js:82-100 | Column k holds exactly as many consecutive elements as size k modulo the number of sizes says |
| GridGenerator.BoundaryAdds | src/components/filesystem/srcfiles/x0/sysGridGenerator.js:86-117 | Each boundary is the last one plus the next size of the cycle |
| GridGenerator.ColumnHolds | src/components/filesystem/srcfiles/x0/sysGridGenerator.js:86-100 | A closed column is named c and its end, has the style of the cycle, and holds the elements since the last boundary |
| GridGenerator.RowHolds | src/components/filesystem/srcfiles/x0/sysGridGenerator.js:102-117 | A row is named r and its end, has the style of the cycle, and holds the columns closed since the last row |
| GridGenerator.ColumnsAt | src/components/filesystem/srcfiles/x0/sysGridGenerator.js:86-100 | The columns stand in their order |
| GridGenerator.RowsAt | src/components/filesystem/srcfiles/x0/sysGridGenerator.js:102-117 | The rows stand in their order |
| GridGenerator.ColumnsOfRow | src/components/filesystem/srcfiles/x0/sysGridGenerator.js:102-117 | With positive column sizes a row holds exactly the columns that end behind the last row and not behind itself |
| GridGenerator.LeftoverMeans | src/components/filesystem/srcfiles/x0/sysGridGenerator.js:65-123 | Columns that an earlier call left open stand in front of those of the first row |
| GridGenerator.ColumnsAreSlice | src/components/filesystem/srcfiles/x0/sysGridGenerator.js:82-100 | Closed columns that follow one another hold one stretch of the source, nothing twice |
| GridGenerator.RowsArePrefix | src/components/filesystem/srcfiles/x0/sysGridGenerator.js:65-123 | The rows flattened are a prefix of the source, up to the last column boundary at or before the last row boundary |
| GridGenerator.NothingLost | src/components/filesystem/srcfiles/x0/sysGridGenerator.js:65-123 | With positive sizes nothing is lost if and only if the end of the source is both a row and a column boundary |
| Merge.SysMergeObjects | src/components/filesystem/srcfiles/x0/sysHelper.js:18-38 | The recursive loop terminates and computes the merge of the values, or throws at null, for keys in any order, own properties named constructor included |
| Merge.MergedAlongPaths | src/components/filesystem/srcfiles/x0/sysHelper.js:18-38 | Path by path: where a path ends in the second object its value is the result, except that an array is appended to an array; where the second object does not go the first one is kept |
| Merge.ThrowsMeans | src/components/filesystem/srcfiles/x0/sysHelper.js:21-23 | Merging throws if and only if a path through objects ends in a null |
| Merge.MergedThrows | src/components/filesystem/srcfiles/x0/sysHelper.js:18-38 | Merging with a merged object throws if and only if it holds a null, at any depth, that the second of its parts brought or did not overwrite |
| Merge.PropertyIsSmaller | src/components/filesystem/srcfiles/x0/sysHelper.js:20-24 | Properties that the recursion descends into are smaller, for objects, arrays and strings |
| Merge.KeysAreUnion | src/components/filesystem/srcfiles/x0/sysHelper.js:18-38 | The keys of the result are those of both sides |
| Merge.EmptyIsIdentity | src/components/filesystem/srcfiles/x0/sysHelper.js:18-38 | The empty object is an identity on both sides |
| Merge.AbsorbedMeans | src/components/filesystem/srcfiles/x0/sysHelper.js:18-38 | Merging an object in leaves nothing but that object if and only if it has every key met on the way and appends to no array |
| Merge.UnchangedMeans | src/components/filesystem/srcfiles/x0/sysHelper.js:18-38 | Merging leaves a value as it is if and only if all that is merged in is there already, and appends to no array |
| Merge.HidesMeans | src/components/filesystem/srcfiles/x0/sysHelper.js:18-38 | Merging the same into two values gives the same if and only if the values differ only where it overwrites |
| Merge.SkipsMeans | src/components/filesystem/srcfiles/x0/sysHelper.js:18-38 | A value merged in between makes no difference if and only if what follows overwrites it or it was there already |
| Merge.ArraysBeforeObject | src/components/filesystem/srcfiles/x0/sysHelper.js:18-38 | An object behind two arrays: the orders agree if and only if it has every index behind the longer array up to both lengths together, and hides or keeps each element below |
| Merge.MergedAssociates | src/components/filesystem/srcfiles/x0/sysHelper.js:18-38 | For any three values under one key the order of the two merges makes no difference if and only if no array is cut off from an earlier one by a value of another kind, an object behind a value that is no object absorbs what came before, and an object behind two arrays has and hides their indices, at every depth |
| Merge.SysMergeAssociates | src/components/filesystem/srcfiles/x0/sysHelper.js:18-38 | For any three values, exceptions included, the two orders agree if and only if both throw, or neither throws and the properties associate |
| Merge.MergeAssociates | src/components/filesystem/srcfiles/x0/sysHelper.js:18-38 | When values on shared paths are of one kind, the two orders agree if and only if a null in the second object is not overwritten by the third, unless the third throws |
| Merge.OverwrittenNull | src/components/filesystem/srcfiles/x0/sysHelper.js:18-38 | Witness: a null that the last object overwrites, where one order throws and the other returns a value |
| Merge.MixedKindsDoNotAssociate | src/components/filesystem/srcfiles/x0/sysHelper.js:27-34 | Witness for the condition on kinds: a scalar between two arrays |
| Merge.JoinedArraysDoNotAssociate | src/components/filesystem/srcfiles/x0/sysHelper.js:27-34 | Witness: an empty object behind two arrays of one element |
| ObjectList.RemovingSelected | src/components/filesystem/srcfiles/x0/sysObjList.js:559-570 | Removing the collected places from the back leaves exactly the unselected elements in their order |
| ObjectList.SpliceMeans | src/components/filesystem/srcfiles/x0/sysObjList.js:544-550 | Which element a splice removes, for any start |
| ObjectList.UnselectedAt | src/components/filesystem/srcfiles/x0/sysObjList.js:557-573 | What remains: as many as are not selected, each behind those that stood in front of it |
| ObjectList.UniqueAfterAppend | src/components/filesystem/srcfiles/x0/sysObjList.js:673-706 | A form that passes the double check keeps the column unique if and only if the column is stored, or no record lacks it |
| ObjectList.ColumnNotStored | src/components/filesystem/srcfiles/x0/sysObjList.js:673-706 | Witness: a form whose checked column is not stored passes the check and breaks uniqueness |
| ObjectList.List.RenderPage | src/components/filesystem/srcfiles/x0/sysObjList.js:487-522 | From any state rows mirror the data afterwards: row i has index i, carries record i, and is not selected |
| ObjectList.List.Update | src/components/filesystem/srcfiles/x0/sysObjList.js:348-354 | A service result is appended, and the rows mirror the data |
| ObjectList.List.Reset | src/components/filesystem/srcfiles/x0/sysObjList.js:361-365 | No data and no rows |
| ObjectList.List.RemoveRow | src/components/filesystem/srcfiles/x0/sysObjList.js:544-550 | One splice of the data, with the index rules of splice, and rows that mirror it |
| ObjectList.List.RemoveSelectedRows | src/components/filesystem/srcfiles/x0/sysObjList.js:557-573 | When rows mirrored the data exactly the unselected records remain, in their order |
| ObjectList.List.UpdateRow | src/components/filesystem/srcfiles/x0/sysObjList.js:633-639 | The record in front of the index is replaced, or appended |
| ObjectList.List.CheckDouble | src/components/filesystem/srcfiles/x0/sysObjList.js:471-480 | True if and only if no record has this value in the column |
| ObjectList.List.AppendData | src/components/filesystem/srcfiles/x0/sysObjList.js:656-715 | A form is refused exactly when the list is full and errors can be shown, the value is there already, or a pattern fails, and then nothing changes; where errors can be shown the list never exceeds its limit; any other form appends its known columns, mirrors the rows, and keeps uniqueness exactly as stated |
| ObjectList.ListRow.Select | src/components/filesystem/srcfiles/x0/sysObjList.js:99-113 | A left click toggles the selection where rows are selectable |

## Left out

- TitleScreen.TitleScreen.Render: the cube table is a parameter whose entries are bounded (x from 50 to 95, y below 64), as those of the shipped table are.
- GameScreen.GameScreen.Render: requires at least six fields, and numbers where they are read; with fewer the source reads past the list, on other text it throws.
- Ssd1306.Device.Pixel: assumes the usual layout of the page structure, in which the eight bytes behind column 127 are the unused header of the next page (behind the last page, the two bus fields, which are read only during initialization).
- MainLoop.MainLoop.Iterate: the results of the interpreter, the player in a payload and the Wi-Fi events are parameters; `Console` puts the engine in their place.
- Console.Console.Round: requires scores below 2147483647 and a player 1 or 2; any other player text is pasted into the parameter as it is, and what the engine makes of that is not part of this model.
- Console.Console.CallEngine: the stop parameter is no JSON text, so the engine is not told of a stop and keeps playing when a game is started again; its JSON reader is a parameter with laws.
- MainLoop.Requests.ProcessRequest: takes payloads of at most 2046 bytes, and the status is not changed by the other thread during the call; `Handshake` has the interleaving. The parameter texts are datatype values.
- Handshake.ExactlyOnce: is about publications, not HTTP requests; the head of a queue can be published again while its response is being sent.
- Handshake.ReadsAreOneRequest: assumes a sequentially consistent memory, as `DECISIONS.md` lines 20-24 do; reordering by compiler or processor is not modelled.
- ClientQueue.Client.Respond: a result may answer the head request of any connection, as in the code; delivery to its own requester is not claimed.
- ClientQueue.WrittenInOrder: of a result only the length is fixed, because the exchange buffer may change after the status is restored.
- ClientQueue.ClientHandler.ProcessClients: the visiting order is a parameter.
- ClientQueue.Client.MsgGetSendMetadata: the message generator and the request parser are not part of this repository; the contract used for the generator stands at the head of the file.
- Ssd1306.DisplayImageI2c: a failed allocation, after which nothing is sent, and transmission errors are not modelled.
- Ssd1306.ClearScreen: requires the glyph of code 31 to be blank; the font table is a parameter.
- Display.Display.constructor: creates the buffer only; the choice to initialize the panel is a separate call.
- Pong.Game.Step: reals instead of floats, and inputs already decoded from JSON.
- Text.StoiItoa: text that is not a number, on which the source throws, is outside the contracts of the screens and of the server's address.
- GridGenerator.Generator.Generate: requires at least one size and one style; on an empty list the generators of the source never yield.
- Merge.SysMergeObjects: works on values; that arrays of the first object, which are shared with the copy, grow in place is not captured, nor are keys named `__proto__`.
- ObjectList.List.UpdateRow: takes an index from 1 to one behind the last record; other indices leave holes or named properties in the source array.
- ObjectList.List.AppendData: values are texts, so loose equality is equality; the result of the pattern test and the presence of an error container are parameters.
- ObjectList.ListRow.Select: records are values; that a row shares its record with the data array is not captured.
- Sockets, Wi-Fi, event groups, I2C and GPIO drivers, task delays and LED fades: foreign calls.
- Pixel bitmaps of the panel driver: they rest on a function that the driver declares and does not define.
- Panels of 32 lines, display scrolling and cursor drawing: not used by the console.
- DOM rendering, event listeners, menus, overlays, requests, pagination and validators of the web framework: browser interface, or rules that rest on library functions.
