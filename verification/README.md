# Verified model of the decoder, touch, video and control-scheme core

This project models, in Dafny, the parts of the repository whose correctness is hard to see, and proves what they are
for. `dafny verify dfyconfig.toml` checks everything.

**The UBWC address swizzle** (`Bits.dfy`, `Arith.dfy`, `Ubwc*.dfy`). A pixel coordinate becomes a byte offset through a bit
interleave, two block masks and a bank term gated by alignment tests. The main result (`UbwcTheorems.BijectiveIff`) says
exactly when this is a bijection between pixel bytes and plane bytes, for every pixel size, macrotile mode, swizzle level
mask, highest bank bit, pitch and height; round trips of whole images and frames, the permutation of the plane, the
single-block tools and the meta plane follow.

**The touch pipeline** (`Touch*.dfy`). Calls on the PC become 8-byte packets, a byte stream, slots of a daemon, and
contacts of the kernel's type-B multi-touch protocol. The daemon and the session are written as the objects they are and
tied to functions; `TouchEndToEnd.FingersLand` says what the contacts are after any run of calls, queued or not, and
`TouchEndToEnd.TouchesArrive` says their points from the calls too when none is queued. The re-entrant flush of pending
moves is given a closed form, and what it does to order, to the contacts and to the cached frame size is settled exactly.

**The frame hand-off** (`VideoHandoff.dfy`, `VideoBuffer.dfy`). Two threads, one mutex, one condition, two buffers and a
queued notification, as a transition system with a program counter per thread in which every shared access is a step,
including the window between unlocking and emitting. The invariant holds in every interleaving; the code of the decoder,
run statement by statement under an arbitrary schedule of the main thread, is shown to be such a run and to terminate.

**The video stream** (`Stream*.dfy`, `Demuxer.dfy`, `Record*.dfy`). Demuxing inverts the framing; the recorder's file is
right exactly under a condition on how the recording starts and ends; both are composed from bytes to file.

**Control schemes** (`Scheme*.dfy`, `GameControlsEditor.dfy`). The printer and parser of the scheme store round-trip
exactly under a stated condition; the editor's dialog and rules keep an invariant over every session, and the two are
composed. A second reader of the same files, the game engine's, is modelled too: `SchemeInGame.GameLoads` says what the
game gets from every printed scheme, and `SchemeResaved.ResavedIff` which entries of other files survive the editor.

**The server start** (`ServerStart.dfy`). Event handlers over steps, two timers and two counters; a budget bounds the connect
attempts of every run.

Where the source changes things step by step the model does too: classes with their fields, methods with loops and frames,
each tied by its contract to a function about which the theorems are proved. Names of modules differ from class names where
Dafny needs it: `Demuxing`, `Recorders`, `VideoBuffers`, `ControlsEditor`. Automatic induction is switched off wherever
Dafny would try it, so every inductive proof is the one written in the body.

## What was found

Properties that the source or its documentation suggests and that do not hold in general, each with its exact condition:

- The pixel offset does not fill [0, 256) for the 16x8 block (`UbwcBlock.GapUnused`), and below highest bank bit 11 the bank
  term, which is joined with `|`, can collide with the place bits (`UbwcTheorems.BankBitTenFails`): exactly when is
  `UbwcTheorems.BijectiveIff`, and exactly when a pixel lies past the plane is `UbwcBounds.StaysInPlaneIff`.
- `flushPendingTouchMoves` says one write per flush; since `writesFlushed` is emitted synchronously by that very write,
  one flush drains the queue (`TouchQueue.FlushDrains`). A DOWN does not clear the slot's waiting position, so that position
  can follow it (`TouchOrder.DownOvertakes`; exactly when, `TouchOrder.InCallOrderIff`) and the finger rests where it was
  before (exactly when, `TouchStale.DownEndsStaleIff`); waiting moves of different sizes leave the two cached sizes different
  (`TouchFrameSize.QueuedSizesPullApart`; exactly when, `TouchFrameSize.StepAgreesIff`). None of this happens while
  `hasPendingWrites` answers no, as it does now.
- `ensureFrameSize` records a size whose packet was given up, and does not send it again. The daemon scales with the
  recorded size if and only if the latest FRAME got through or changed nothing (`TouchEndToEnd.SizeHeldIff`), which over a
  run of one size means that one of the first 21 attempts was accepted (`TouchEndToEnd.SizeLearnedIff`); otherwise it never
  learns it (`TouchEndToEnd.SizeNeverLearned`).
- `disconnectDevice` joins the stream thread before it interrupts the buffer. The push in hand then returns if and only if
  the decoder need not wait for the main thread (`VideoHandoff.JoinReturnsIff`), and a decoder with more packets comes to
  wait for good if and only if expired frames are rendered and nothing has interrupted (`VideoHandoff.AloneWaitsIff`).
- With fewer than two data packets, or with a config packet last, the recorder rebases against a missing origin and loses a
  packet or writes one at a meaningless time; for every muxer `Recording.RecordingFaithfulIff` says exactly when a recording
  is right.
- A look node's shoot spot is promised to survive wherever it is dragged; it does so only for a mouse button, or on the
  anchor. A tap that shares the shoot button or lies on the anchor is swallowed (`SchemeTheorems.PrintParseIff`); the
  editor prevents the first but not the second (`SchemeEditing.EditedSchemeRoundTripsIff`). What came back once need not come back the same again
  (`SchemeTheorems.SecondTripCanChange`); exactly when it does is `SchemeTheorems.SecondTripIff`.
- The game does not get every node that the editor shows: it drops one with an unbound key, a D-pad with a single unbound
  direction, every tap after the fiftieth, and loads nothing at all when the precision key is unknown. Exactly what it gets
  is `SchemeInGame.GameLoads`; schemes made in the editor lose no tap and no delay (`SchemeInGame.EditedPlays`).
- A hand-written file need not play the same once the editor has saved it; exactly which entries do is
  `SchemeResaved.ResavedIff`, and which look controls, `SchemeResaved.LookResavedIff`.
- `stop` stops the timer of the tunnel in use. The connect timer goes on after it if and only if it ran beside a reverse
  tunnel (`ServerStart.Server.Stop`), where `connectTo` starts it if and only if a video socket is already there
  (`ServerStart.Server.OnServerResult`). It can be: the socket listens before the process is executed
  (`12ProScrcpy/12ProScrcpyCore/src/device/server/server.cpp:538-548`), takes its first connection for the video socket,
  whoever makes it, and that notice and the start of the process
  (`12ProScrcpy/12ProScrcpyCore/src/adb/adbprocessimpl.cpp:95`) both come as signals that nothing in the server puts in
  order. `ServerStart.TimerOutlivesStop` is such a run.

## Assumptions

- A send of a packet is all or nothing; its outcome is given by an oracle indexed by attempt.
- Rotations read by the daemon are given by an oracle indexed by mapped point, since another thread polls them.
- Arithmetic of positions and sensitivities is over the reals: rounding of doubles is not modelled.
- FFmpeg's allocator is a size limit, its parser an opinion on key frames over complete frames, its muxer an oracle that
  accepts or refuses each call; timestamps are before rescaling. An empty packet is skipped, as when assertions are off.
- Which key names are mouse buttons is a parameter; the left button is one and the empty name is not.
- A dialog is the list of answers the user gives. JSON is a tree; names of members are an enumeration.

## Model

| member | source | states |
|---|---|---|
| `UbwcTheorems.BijectiveIff` | ubwc_decoder_v2/ubwc_tiling.py:137-264 | For every cpp, macrotile mode, swizzle level mask, highest bank bit from 3, stride from 1 and number of macrotile rows: the map from pixel bytes of the largest image to bytes of the plane is a bijection if and only if the block is not the gapped 16x8 one and every macrotile row's bank term leaves bits 0-7 alone and sets at most one of bits 8-10. |
| `UbwcTheorems.BijectiveFromEleven` | ubwc_decoder_v2/ubwc_tiling.py:137-264 | From highest bank bit 11 on, the map is a bijection for every pitch, level mask and mode. |
| `UbwcTheorems.BankBitTenFails` | ubwc_decoder_v2/ubwc_tiling.py:166-199 | At highest bank bit 10 with all levels enabled, a four-row plane is not a bijection: the guard above is not idle. |
| `UbwcTheorems.GapUnreached` | ubwc_decoder_v2/ubwc_tiling.py:73-76 | With the 16x8 block, byte 128 of the plane belongs to no pixel, against the documented [0, 256). |
| `UbwcTheorems.PlaceCollision` | ubwc_decoder_v2/ubwc_tiling.py:166-176 | Two place bits hit by the bank term: two different pixel bytes share an address. |
| `UbwcTheorems.ShiftedRowUnreached` | ubwc_decoder_v2/ubwc_tiling.py:166-176 | A bank term that reaches bits 0-7 shifts its row: the first byte of the row belongs to no pixel. |
| `UbwcPlane.HighBankBitIsClean` | ubwc_decoder_v2/ubwc_tiling.py:183-212 | Highest bank bit 11 or more keeps every row clean, from the shift and the mask alone. |
| `UbwcPlane.LocateAddress` | ubwc_decoder_v2/ubwc_tiling.py:246-264 | The inverse map finds the pixel byte again from its address, for every clean plane. |
| `UbwcPlane.AddressLocate` | ubwc_decoder_v2/ubwc_tiling.py:246-264 | Every byte of a clean plane is the address of the pixel byte the inverse map gives. |
| `UbwcPlane.BlockRoundTrip` | ubwc_decoder_v2/ubwc_tiling.py:153-176 | The block at a place of a row is found again from the block's index. |
| `UbwcPlane.IndexRoundTrip` | ubwc_decoder_v2/ubwc_tiling.py:153-176 | The index of a block is found again from the block. |
| `UbwcBlock.PixelOffsetInterleaves` | ubwc_decoder_v2/ubwc_tiling.py:137-147 | The pixel offset is the bit interleave x0 y0 x1 y1 x2 x3 x4 y2, for every x and y. |
| `UbwcBlock.PixelByteInSpan` | ubwc_decoder_v2/ubwc_tiling.py:137-147 | Pixel bytes of a block lie in [0, 256), and the pixel is found again from its byte. |
| `UbwcBlock.SpanCovered` | ubwc_decoder_v2/ubwc_tiling.py:137-147 | For an ungapped block every byte of [0, 256) is a pixel byte of the block. |
| `UbwcBlock.GapUnused` | ubwc_decoder_v2/ubwc_tiling.py:73-76 | In the 16x8 block no pixel byte has bit 7 of the span set. |
| `UbwcLinear.XMaskLinear` | ubwc_decoder_v2/ubwc_tiling.py:153-163 | The block-column mask is linear over GF(2). |
| `UbwcLinear.XMaskBasis` | ubwc_decoder_v2/ubwc_tiling.py:153-163 | Where each of the low columns goes. |
| `UbwcLinear.YMaskIsXor` | ubwc_decoder_v2/ubwc_tiling.py:166-176 | The `|` of the block-row mask acts as an XOR when the bank shift is above bit 10. |
| `UbwcLinear.YMaskLinear` | ubwc_decoder_v2/ubwc_tiling.py:166-176 | The block-row mask is then linear over GF(2). |
| `UbwcLinear.YMaskBasis` | ubwc_decoder_v2/ubwc_tiling.py:166-176 | Where each of the low block rows goes. |
| `UbwcRow.XMaskSplit` | ubwc_decoder_v2/ubwc_tiling.py:153-163 | The column mask split into macrotile number and the three place bits. |
| `UbwcRow.YMaskSplit` | ubwc_decoder_v2/ubwc_tiling.py:166-176 | The row mask split into place bits and the bank term, which depends on the macrotile row only. |
| `UbwcRow.BlockOffsetSplit` | ubwc_decoder_v2/ubwc_tiling.py:246-258 | The XOR of both masks is macrotile, place and byte part, each in its own bits. |
| `UbwcRow.MacrotileStaysInRow` | ubwc_decoder_v2/ubwc_tiling.py:183-212 | Every enabled bank level keeps a block in its own macrotile row: its alignment test makes the row a multiple of twice the bit it flips. |
| `UbwcRow.EnabledLines` | ubwc_decoder_v2/ubwc_tiling.py:183-212 | Which level bit enables which bank line, and the divisibility of the stride each one asks for. |
| `UbwcRow.PlaceInverse` | ubwc_decoder_v2/ubwc_tiling.py:153-176 | The three place bits of a block are found again when at most one bank bit hits them. |
| `UbwcRow.PlaceCollides` | ubwc_decoder_v2/ubwc_tiling.py:153-176 | When two bank bits hit them there are two block rows on one place. |
| `UbwcDetile.Fdl6GetBankMask` | ubwc_decoder_v2/ubwc_tiling.py:183-199 | The mask built level by level has exactly the bits of the enabled levels whose alignment test holds. |
| `UbwcDetile.UbwcDetile` | ubwc_decoder_v2/ubwc_tiling.py:222-285 | The output array holds, at each pixel, the byte of the zero-padded plane at the pixel's address, overwritten with 0 or 255 under the two meta codes; it fails exactly for an unknown cpp, an empty image or a grid that does not cover it. |
| `UbwcDetile.CoveredIff` | ubwc_decoder_v2/ubwc_tiling.py:277-283 | A grid of codes covers the image exactly when the block of every pixel has a code in it. |
| `UbwcDetile.StrideBounds` | ubwc_decoder_v2/ubwc_tiling.py:239-240 | The stride counts the whole macrotiles, four blocks of pixels of cpp bytes, in a line of pitch bytes. |
| `UbwcFrames.PlaneOfPitch` | ubwc_decoder_v2/ubwc_tiling.py:239-244 | What the pitch means: for a pitch of whole macrotiles the plane holds pitch bytes for every line of pixels, and the images that fit are those no wider in bytes than the pitch and no taller than the plane. |
| `UbwcFrames.ShortPlane` | ubwc_decoder_v2/ubwc_tiling.py:258-271 | A plane that is too short counts as padded with zeros: a byte past its end is zero. |
| `UbwcBounds.StaysInPlaneIff` | ubwc_decoder_v2/ubwc_tiling.py:258-271 | Every pixel byte of the largest image lies in the plane if and only if the last macrotile row's bank bits touch no byte bit, or its places collide at a pixel size below 16 bytes, which keeps its last block off the last place. |
| `UbwcBounds.SpillsOver` | ubwc_decoder_v2/ubwc_tiling.py:258-271 | Otherwise there is a pixel byte whose address is past the end. |
| `UbwcFrames.NoPaddingUsed` | ubwc_decoder_v2/ubwc_tiling.py:258-271 | Under that exact condition no pixel of a fitting image reads past the plane: the zero padding is dead. |
| `UbwcFrames.DetileScatter` | ubwc_decoder_v2/ubwc_tiling.py:222-274 | Detiling loses nothing: scattering any fitting image with the address map and detiling gives the image back. |
| `UbwcFrames.ScatterDetile` | ubwc_decoder_v2/ubwc_tiling.py:222-274 | Scattering a detiled full-size plane gives the plane back. |
| `UbwcFrames.FullImagePermutes` | ubwc_decoder_v2/ubwc_tiling.py:222-274 | For a full-size image the output bytes are a permutation of the plane's bytes. |
| `UbwcFrames.FlattenedIsImage` | ubwc_decoder_v2/ubwc_tiling.py:260-274 | The flattened output is the image in row-major order. |
| `UbwcFrames.BlockIsSpan` | ubwc_decoder_v2/analyze_block_headers.py:64-80 | The bytes of a block's pixels are exactly the 256 bytes from its base offset. |
| `UbwcFrames.PixelAddressIs` | ubwc_decoder_v2/inspect_meta.py:47-56 | The single-block offset agrees with the detiler: pixel address is block offset plus pixel byte. |
| `UbwcFrames.SpansDisjoint` | ubwc_decoder_v2/analyze_block_headers.py:64-80 | Spans of different blocks of a clean plane do not overlap. |
| `UbwcFrames.MetaPlaneCovers` | ubwc_decoder_v2/ubwc_tiling.py:85-101 | The meta plane has a byte for every block, 64- and 16-aligned lines, and ends on the 4K page the colours start on, with less than a page of padding; in pixels it covers the image and no whole tile more. |
| `UbwcDecode.CodeInMetaPlane` | ubwc_decoder_v2/ubwc_tiling.py:104-119 | Every pixel's block code lies inside the meta plane and in the trimmed grid. |
| `UbwcDecode.CodesInOrder` | ubwc_decoder_v2/ubwc_tiling.py:104-119 | The meta bytes row by row: pixels of the first block share the first byte, a block to the right is the next byte, a block below is one line on. |
| `UbwcDetile.BlocksCount` | ubwc_decoder_v2/ubwc_tiling.py:96-100 | As many blocks as the last pixel needs: the image fills all but the last one. |
| `UbwcDecode.DecodeFrame` | ubwc_decoder_v2/decode_ubwc.py:70-86 | A frame decodes exactly when it is longer than its meta plane, and each output byte is 0, 255 or the detiled byte by the code of its block. |
| `UbwcDecode.FrameRoundTrip` | ubwc_decoder_v2/decode_ubwc.py:70-86 | A frame whose colour part holds an image decodes to that image, except in blocks coded 0x05 and 0x0D. |
| `TouchWire.PutI16` | 12ProScrcpy/12ProScrcpyCore/include/rawinputdaemonsession.h:81-85 | Two bytes of the buffer become the number's high and low byte; the others stay. |
| `TouchWire.I16RoundTrip` | 12ProScrcpy/12ProScrcpyCore/src/rawinputdaemon/raw_input_daemon.c:144-146 | What `putI16` writes, `pkt_i16` reads back, narrowed to 16 bits. |
| `TouchWire.DecodeEncode` | 12ProScrcpy/12ProScrcpyCore/src/rawinputdaemon/raw_input_daemon.c:485-514 | Every packet is understood as it was meant, narrowed to the wire's widths. |
| `TouchWire.PacketLayout` | 12ProScrcpy/12ProScrcpyCore/src/adb/rawinputdaemonsession.cpp:437-470 | Where command, slot and each 16-bit number are in the eight bytes, by value; the rest is zero. |
| `TouchWire.OtherBytes` | 12ProScrcpy/12ProScrcpyCore/src/rawinputdaemon/raw_input_daemon.c:485-514 | Any other first byte is no command. |
| `TouchPanel.MapInPanel` | 12ProScrcpy/12ProScrcpyCore/src/rawinputdaemon/raw_input_daemon.c:346-384 | For all inputs the mapped point lies on the panel. |
| `TouchPanel.MapMonotone` | 12ProScrcpy/12ProScrcpyCore/src/rawinputdaemon/raw_input_daemon.c:346-384 | The map is monotone in each axis, in the direction the rotation gives. |
| `TouchPanel.MapInjective` | 12ProScrcpy/12ProScrcpyCore/src/rawinputdaemon/raw_input_daemon.c:346-384 | Different points of a frame no larger than the panel stay different. |
| `TouchPanel.RotationsMirror` | 12ProScrcpy/12ProScrcpyCore/src/rawinputdaemon/raw_input_daemon.c:346-384 | The two landscape rotations are point reflections of each other, up to one unit from rounding ties. |
| `TouchPanel.MapNearest` | 12ProScrcpy/12ProScrcpyCore/src/rawinputdaemon/raw_input_daemon.c:346-384 | Every point of the frame goes to the nearest unit of the 14399 x 31999 panel, the upper one on a tie: axes in place in portrait, exchanged in landscape with one of them mirrored, by rotation. |
| `TouchPanel.MapOutside` | 12ProScrcpy/12ProScrcpyCore/src/rawinputdaemon/raw_input_daemon.c:346-384 | Every other point goes where the nearest point of the frame goes. |
| `TouchPanel.MapWithoutFrame` | 12ProScrcpy/12ProScrcpyCore/src/rawinputdaemon/raw_input_daemon.c:348-352 | Without a frame size every point is the origin. |
| `TouchPanel.MapCorners` | 12ProScrcpy/12ProScrcpyCore/src/rawinputdaemon/raw_input_daemon.c:346-384 | Frame corners go to panel corners, by rotation. |
| `TouchDaemon.HandleKeepsSync` | 12ProScrcpy/12ProScrcpyCore/src/rawinputdaemon/raw_input_daemon.c:388-481 | From agreement of slot table, count, BTN_TOUCH and kernel contacts, any packet leads to agreement if and only if it is not an in-range DOWN with a negative id; repeated DOWN, stray UP and stray MOVE included. |
| `TouchDaemon.DownKernel` | 12ProScrcpy/12ProScrcpyCore/src/rawinputdaemon/raw_input_daemon.c:402-422 | Effect of a DOWN on the kernel and, by one report, on its readers: the slot's contact is the id at the mapped point, the button is down, nothing else changes. |
| `TouchDaemon.MoveKernel` | 12ProScrcpy/12ProScrcpyCore/src/rawinputdaemon/raw_input_daemon.c:424-437 | Effect of a MOVE on the kernel and, by one report, on its readers. |
| `TouchDaemon.UpKernel` | 12ProScrcpy/12ProScrcpyCore/src/rawinputdaemon/raw_input_daemon.c:439-457 | Effect of an UP on the kernel and, by one report, on its readers: the contact is lifted, the button with the last one. |
| `TouchDaemon.HandleReports` | 12ProScrcpy/12ProScrcpyCore/src/rawinputdaemon/raw_input_daemon.c:402-457 | Every touch of a slot the device has makes exactly one report, which shows all of it; nothing else makes a report. |
| `TouchDaemon.RunKeepsSync` | 12ProScrcpy/12ProScrcpyCore/src/rawinputdaemon/raw_input_daemon.c:485-514 | Agreement after every run of packets without negative ids. |
| `TouchDaemon.ResetLiftsEverything` | 12ProScrcpy/12ProScrcpyCore/src/rawinputdaemon/raw_input_daemon.c:467-481 | From any agreeing state the reset lifts every contact and the button on both sides. |
| `TouchDaemon.StartsInSync` | 12ProScrcpy/12ProScrcpyCore/src/rawinputdaemon/raw_input_daemon.c:595-642 | Daemon and kernel agree at start. |
| `TouchServer.ClientSocket.Read` | 12ProScrcpy/12ProScrcpyCore/src/rawinputdaemon/raw_input_daemon.c:129-141 | A read takes a piece off the front of the stream, or is interrupted and takes nothing. |
| `TouchServer.ReadExact` | 12ProScrcpy/12ProScrcpyCore/src/rawinputdaemon/raw_input_daemon.c:129-141 | The exact read succeeds exactly when the stream has that many bytes left, and takes just those, however it is cut up. |
| `TouchServer.RawInputDaemon.HandleDown` | 12ProScrcpy/12ProScrcpyCore/src/rawinputdaemon/raw_input_daemon.c:402-422 | The handler writes the events and updates the slot table as the state machine says. |
| `TouchServer.RawInputDaemon.HandleMove` | 12ProScrcpy/12ProScrcpyCore/src/rawinputdaemon/raw_input_daemon.c:424-437 | The same for MOVE. |
| `TouchServer.RawInputDaemon.HandleUp` | 12ProScrcpy/12ProScrcpyCore/src/rawinputdaemon/raw_input_daemon.c:439-457 | The same for UP. |
| `TouchServer.RawInputDaemon.HandlePacket` | 12ProScrcpy/12ProScrcpyCore/src/rawinputdaemon/raw_input_daemon.c:485-514 | Dispatch: the packet is handled as the command it encodes, and only QUIT quits. |
| `TouchServer.RawInputDaemon.ResetTouchState` | 12ProScrcpy/12ProScrcpyCore/src/rawinputdaemon/raw_input_daemon.c:467-481 | The loop over the slots writes the lift events of the specification and clears the table. |
| `TouchServer.RawInputDaemon.ServeClient` | 12ProScrcpy/12ProScrcpyCore/src/rawinputdaemon/raw_input_daemon.c:627-634 | The client loop leaves state and events of the whole stream's packets, independent of how reads cut it. |
| `TouchServer.RawInputDaemon.RunAcceptLoop` | 12ProScrcpy/12ProScrcpyCore/src/rawinputdaemon/raw_input_daemon.c:595-642 | The accept loop serves clients in order with a reset after each, until one quits. |
| `TouchServer.ServeKeepsSync` | 12ProScrcpy/12ProScrcpyCore/src/rawinputdaemon/raw_input_daemon.c:627-634 | Any byte stream without negative-id DOWNs keeps daemon and kernel in agreement. |
| `TouchServer.AcceptLeavesNothingTouching` | 12ProScrcpy/12ProScrcpyCore/src/rawinputdaemon/raw_input_daemon.c:595-642 | After any clients, each ended anyhow, nothing is left touching in daemon or kernel. |
| `TouchSender.AttemptDelivers` | 12ProScrcpy/12ProScrcpyCore/src/adb/rawinputdaemonsession.cpp:361-416 | A reliable packet gets through exactly when one of 21 consecutive attempts is accepted after nothing but full buffers. |
| `TouchSender.AttemptCounts` | 12ProScrcpy/12ProScrcpyCore/src/adb/rawinputdaemonsession.cpp:361-420 | A reliable send makes at most 21 attempts and stops at the first one that does not find the buffer full, which decides. |
| `TouchSender.Flush` | 12ProScrcpy/12ProScrcpyCore/src/device/controller/controller.cpp:395-414 | The re-entrant cycle flush, touchMove, sendPacket, writesFlushed terminates: the valid pending entries decrease. |
| `TouchQueue.FlushDrains` | 12ProScrcpy/12ProScrcpyCore/src/device/controller/controller.cpp:395-414 | One flush drains the whole queue, in a closed form: frames going down, the moves that needed them coming back. |
| `TouchQueue.CallIsStep` | 12ProScrcpy/12ProScrcpyCore/src/device/controller/controller.cpp:416-450 | A call with all its nested flushes puts the packets of the closed form on the wire, whatever the network does. |
| `TouchQueue.RunIsTrace` | 12ProScrcpy/12ProScrcpyCore/src/device/controller/controller.cpp:416-450 | So the packets tried over a run do not depend on the network. |
| `TouchOrder.DrainSends` | 12ProScrcpy/12ProScrcpyCore/src/device/controller/controller.cpp:395-414 | A drain sends every waiting position, nothing else, and no slot twice. |
| `TouchOrder.RunKeeps` | 12ProScrcpy/12ProScrcpyCore/src/device/controller/controller.cpp:378-440 | Over every run with an arbitrary busy oracle: queue sorted, each waiting entry the newest MOVE of its slot with no UP after it, every packet genuine. |
| `TouchOrder.StepInOrder` | 12ProScrcpy/12ProScrcpyCore/src/device/controller/controller.cpp:378-440 | The packets of a call are in order after all earlier ones exactly when the call does not overtake a waiting position. |
| `TouchOrder.SentAtMostOnce` | 12ProScrcpy/12ProScrcpyCore/src/device/controller/controller.cpp:378-440 | No call has two touch packets on the wire. |
| `TouchOrder.OnlyDownOvertakes` | 12ProScrcpy/12ProScrcpyCore/src/device/controller/controller.cpp:378-440 | Packets of a slot go out in call order, except that a MOVE may follow a later DOWN; so nothing queued before an UP goes out after it. |
| `TouchOrder.InCallOrderIff` | 12ProScrcpy/12ProScrcpyCore/src/device/controller/controller.cpp:416-440 | All slots are in call order if and only if no DOWN without a frame packet meets a waiting position of its slot. |
| `TouchOrder.DownOvertakes` | 12ProScrcpy/12ProScrcpyCore/src/device/controller/controller.cpp:416-440 | A run where that happens. |
| `TouchStale.DownEndsStaleIff` | 12ProScrcpy/12ProScrcpyCore/src/device/controller/controller.cpp:416-440 | What it does, after any run with any queue and over any network: a DOWN that gets through puts the finger down under its id, at its own position unless it needed no frame packet and a position waiting for the slot gets through behind it; then at that one. |
| `TouchStale.DownEndsStale` | 12ProScrcpy/12ProScrcpyCore/src/device/controller/controller.cpp:416-440 | When nothing is lost: the contact is at a waiting position if and only if one waits for the slot and the DOWN needs no frame packet, at the DOWN's own otherwise. |
| `TouchStale.MoveWaits` | 12ProScrcpy/12ProScrcpyCore/src/device/controller/controller.cpp:378-393 | A run that leaves such a position waiting. |
| `TouchFrameSize.StepAgreesIff` | 12ProScrcpy/12ProScrcpyCore/src/adb/rawinputdaemonsession.cpp:422-435 | From agreement of the two frame-size caches, a call leads to agreement if and only if the last waiting size that is announced equals the one that is recorded. |
| `TouchFrameSize.NeverQueuedAgrees` | 12ProScrcpy/12ProScrcpyCore/src/adb/rawinputdaemonsession.cpp:301-311 | While nothing is queued, as now, the caches agree over every run. |
| `TouchFrameSize.QueuedSizesPullApart` | 12ProScrcpy/12ProScrcpyCore/src/adb/rawinputdaemonsession.cpp:422-435 | Two queued moves of different sizes leave session and daemon with different sizes. |
| `TouchSession.RawInputDaemonSession.SendPacket` | 12ProScrcpy/12ProScrcpyCore/src/adb/rawinputdaemonsession.cpp:317-342 | One attempt, the record of it, and the synchronous flush. |
| `TouchSession.RawInputDaemonSession.SendPacketReliable` | 12ProScrcpy/12ProScrcpyCore/src/adb/rawinputdaemonsession.cpp:361-416 | The bounded retry loop is the specified one. |
| `TouchSession.RawInputDaemonSession.EnsureFrameSize` | 12ProScrcpy/12ProScrcpyCore/src/adb/rawinputdaemonsession.cpp:422-435 | The frame packet and the recorded size. |
| `TouchSession.RawInputDaemonSession.TouchDown` | 12ProScrcpy/12ProScrcpyCore/src/adb/rawinputdaemonsession.cpp:437-449 | The bytes built are the encoding of the DOWN, after the frame size. |
| `TouchSession.RawInputDaemonSession.TouchMove` | 12ProScrcpy/12ProScrcpyCore/src/adb/rawinputdaemonsession.cpp:451-462 | The same for MOVE, unreliable. |
| `TouchSession.RawInputDaemonSession.TouchUp` | 12ProScrcpy/12ProScrcpyCore/src/adb/rawinputdaemonsession.cpp:464-470 | The same for UP. |
| `TouchSession.Controller.FlushPendingTouchMoves` | 12ProScrcpy/12ProScrcpyCore/src/device/controller/controller.cpp:395-414 | The loop finds the first valid entry, consumes it and sends it, and is re-entered. |
| `TouchSession.Controller.DispatchOrQueueTouchMove` | 12ProScrcpy/12ProScrcpyCore/src/device/controller/controller.cpp:378-393 | Send now or keep the newest position of the slot. |
| `TouchSession.Controller.SendRealTouch` | 12ProScrcpy/12ProScrcpyCore/src/device/controller/controller.cpp:416-450 | The three actions over a running session, and the dropped touch without one. |
| `TouchSession.Controller.Play` | 12ProScrcpy/12ProScrcpyCore/src/device/controller/controller.cpp:416-450 | A run of calls on the objects leaves the link state of the functions the whole-run theorems are about. |
| `TouchPipeline.ServeIsRun` | 12ProScrcpy/12ProScrcpyCore/src/rawinputdaemon/raw_input_daemon.c:485-514 | The daemon, fed the bytes the socket accepted, runs exactly the delivered packets. |
| `TouchClients.ServeQuitsIff` | 12ProScrcpy/12ProScrcpyCore/src/rawinputdaemon/raw_input_daemon.c:627-634 | A client ends by quitting if and only if one of the whole packets in its bytes is a QUIT. |
| `TouchClients.QuitEnds` | 12ProScrcpy/12ProScrcpyCore/src/rawinputdaemon/raw_input_daemon.c:627-634 | What follows a QUIT changes nothing, and neither does a packet cut short at the end. |
| `TouchClients.AcceptAppend` | 12ProScrcpy/12ProScrcpyCore/src/rawinputdaemon/raw_input_daemon.c:596-641 | As long as no client quits they are served one after another, each from where the reset after the last one left the daemon. |
| `TouchClients.AcceptFirst` | 12ProScrcpy/12ProScrcpyCore/src/rawinputdaemon/raw_input_daemon.c:627-641 | A client is served and the touches are reset; after one that quits nobody is served. |
| `TouchOnWire.EveryLogMatches` | 12ProScrcpy/12ProScrcpyCore/src/rawinputdaemon/raw_input_daemon.c:388-481 | Over every log of packets, lost or not: each slot of daemon and kernel is held by its latest DOWN or UP that got through and rests at its latest point that got through, mapped with the frame size and rotation of that time; count, button and frame size likewise. |
| `TouchOnWire.BytesMatch` | 12ProScrcpy/12ProScrcpyCore/src/rawinputdaemon/raw_input_daemon.c:627-634 | The same from the bytes, cut into reads anyhow. |
| `TouchEndToEnd.FingersLand` | 12ProScrcpy/12ProScrcpyCore/src/device/controller/controller.cpp:378-450 | End to end for every run, queued or not, every network that loses no DOWN and no UP and every cutting of the bytes: each slot is touched exactly when its latest DOWN or UP was a DOWN, under that DOWN's id, at its latest point in wire order; BTN_TOUCH exactly when some slot is. |
| `TouchEndToEnd.RunHolds` | 12ProScrcpy/12ProScrcpyCore/src/device/controller/controller.cpp:378-450 | Whatever is queued and flushed, each slot is held as the calls say. |
| `TouchEndToEnd.TouchesArrive` | 12ProScrcpy/12ProScrcpyCore/src/device/controller/controller.cpp:416-450 | When no call is queued and only MOVEs are lost, the point too is said from the calls: the latest one that got through, mapped with the frame size the calls passed. |
| `TouchEndToEnd.RunTracks` | 12ProScrcpy/12ProScrcpyCore/src/adb/rawinputdaemonsession.cpp:422-470 | Daemon, kernel, recorded size and count of points after every such run, from the calls. |
| `TouchEndToEnd.FrameIsSentOnce` | 12ProScrcpy/12ProScrcpyCore/src/adb/rawinputdaemonsession.cpp:422-435 | Over a run of one size the FRAME goes out once; if it is given up, it is never sent again. |
| `TouchEndToEnd.SizeHeldIff` | 12ProScrcpy/12ProScrcpyCore/src/adb/rawinputdaemonsession.cpp:422-435 | For every unqueued run of changing sizes on every network: the daemon scales with the size the session recorded if and only if no FRAME was tried, or the latest one tried got through, or the ones before it had left the daemon the same size on the wire. |
| `TouchEndToEnd.QueuedSizeHeldIff` | 12ProScrcpy/12ProScrcpyCore/src/adb/rawinputdaemonsession.cpp:422-435 | For every run, queued or not, in which no FRAME is lost: the daemon scales with the recorded size if and only if the last size announced and the size recorded, both functions of the calls, look the same on the wire. |
| `TouchEndToEnd.SizeLearnedIff` | 12ProScrcpy/12ProScrcpyCore/src/adb/rawinputdaemonsession.cpp:361-435 | Over a run of one size the daemon ends up with it if and only if one of the first 21 attempts was accepted after nothing but full buffers. |
| `TouchEndToEnd.SizeNeverLearned` | 12ProScrcpy/12ProScrcpyCore/src/adb/rawinputdaemonsession.cpp:361-435 | A buffer full for the first 21 attempts and never again: the daemon never learns the size, however long the run; full for 20, it does. |
| `VideoHandoff.NextKeeps` | 12ProScrcpy/12ProScrcpyCore/src/device/decoder/videobuffer.cpp:73-108 | The invariant of all interleavings of decoder and main thread, step by step, with spurious wake-ups. |
| `VideoHandoff.ReachInv` | 12ProScrcpy/12ProScrcpyCore/src/device/decoder/videobuffer.cpp:73-174 | So it holds in every interleaving from the start, in both modes. |
| `VideoHandoff.OneNotificationPerFrame` | 12ProScrcpy/12ProScrcpyCore/src/device/decoder/decoder.cpp:146-169 | In every interleaving one notification is outstanding while the rendering frame is unconsumed and none otherwise, so the assertion of `consumeRenderedFrame` never fails and finds the newest frame. |
| `VideoHandoff.ShownPictureIsStable` | 12ProScrcpy/12ProScrcpyCore/src/device/decoder/videobuffer.cpp:73-108 | While a picture is shown the decoder decodes into the other buffer and no decoder step touches the shown one. |
| `VideoHandoff.ShowsTheNewest` | 12ProScrcpy/12ProScrcpyCore/src/device/decoder/videobuffer.cpp:95-108 | What is shown is always the newest frame published. |
| `VideoHandoff.DefaultModeAccounts` | 12ProScrcpy/12ProScrcpyCore/src/device/decoder/videobuffer.cpp:73-108 | By default: shown in order, none twice, and published = shown + skipped + (1 if unconsumed). |
| `VideoHandoff.ExpiredModeShowsAll` | 12ProScrcpy/12ProScrcpyCore/src/device/decoder/videobuffer.cpp:73-108 | Rendering expired frames without interrupt: shown = published, in order, save at most the last. |
| `VideoHandoff.NobodyIsStuck` | 12ProScrcpy/12ProScrcpyCore/src/device/decoder/videobuffer.cpp:73-108 | Whenever the decoder is blocked the main thread has a step, and whenever that is blocked on the mutex the decoder has one. |
| `VideoHandoff.WaitEnds` | 12ProScrcpy/12ProScrcpyCore/src/device/decoder/videobuffer.cpp:79-82 | No lost wake-up: a waiting decoder is woken within seven main-thread steps, whatever they are. |
| `VideoHandoff.EventIsHandled` | 12ProScrcpy/12ProScrcpyCore/src/device/decoder/decoder.cpp:160-169 | However the decoder runs in between, a posted notification is handled in six steps of the main thread, in program order, and the fifth shows one picture. |
| `VideoHandoff.InterruptIsDone` | 12ProScrcpy/12ProScrcpyCore/src/device/decoder/videobuffer.cpp:158-167 | An interrupt takes four steps; after two the flag is set, and after four the decoder neither waits nor will have to. |
| `VideoHandoff.JoinReturnsIff` | 12ProScrcpy/12ProScrcpyCore/src/device/device.cpp:447-453 | From every reachable state with the main thread idle, as it is while it joins: the push in hand returns if and only if the decoder is not at or before its wait with expired frames rendered, no interrupt and the frame unconsumed. |
| `VideoHandoff.AloneWaitsIff` | 12ProScrcpy/12ProScrcpyCore/src/device/demuxer/demuxer.cpp:113-116 | A decoder that goes on pushing without the main thread comes to wait if and only if expired frames are rendered and nothing has interrupted. |
| `VideoHandoff.JoinBeforeInterruptHangs` | 12ProScrcpy/12ProScrcpyCore/src/device/device.cpp:447-453 | An instance: joined before the interrupt, from the start, the decoder waits for good with its second frame. |
| `VideoBuffers.VideoBuffer.OfferDecodedFrame` | 12ProScrcpy/12ProScrcpyCore/src/device/decoder/videobuffer.cpp:73-93 | The code, interleaved with any schedule of main-thread steps, is a run of the transition system, terminates, publishes one frame, and answers whether it owes a notification. |
| `VideoBuffers.VideoBuffer.WaitForConsumer` | 12ProScrcpy/12ProScrcpyCore/src/device/decoder/videobuffer.cpp:79-82 | The wait ends, because the main thread must wake it, and the condition then holds. |
| `VideoBuffers.VideoBuffer.Swap` | 12ProScrcpy/12ProScrcpyCore/src/device/decoder/videobuffer.cpp:169-174 | The two frame pointers are exchanged, with the main thread running between the assignments. |
| `VideoBuffers.VideoBuffer.OnNewFrame` | 12ProScrcpy/12ProScrcpyCore/src/device/decoder/decoder.cpp:160-169 | Each statement of the handler is a step of the transition system. |
| `VideoBuffers.VideoBuffer.Interrupt` | 12ProScrcpy/12ProScrcpyCore/src/device/decoder/videobuffer.cpp:158-167 | Each statement of the interrupt is a step of the transition system. |
| `VideoBuffers.VideoBuffer.PushFrame` | 12ProScrcpy/12ProScrcpyCore/src/device/decoder/decoder.cpp:146-158 | The offer, and the posted notification unless an earlier one is still to consume the frame, are steps of the transition system. |
| `VideoBuffers.VideoBuffer.Push` | 12ProScrcpy/12ProScrcpyCore/src/device/decoder/decoder.cpp:75-88 | Decoding in place, then the offer. |
| `StreamWire.Read64Put64` | 12ProScrcpy/12ProScrcpyCore/src/device/demuxer/demuxer.cpp:82-92 | The big-endian readers read back what was written, whatever follows. |
| `StreamDemux.HeaderBytes` | 12ProScrcpy/12ProScrcpyCore/src/device/demuxer/demuxer.cpp:202-275 | A header read off its twelve bytes: session flag, resize flag, sides, config and key flags, 61-bit timestamp and length, and every way it ends the stream. |
| `StreamDemux.DemuxInvertsEncode` | 12ProScrcpy/12ProScrcpyCore/src/device/demuxer/demuxer.cpp:202-371 | Demuxing inverts the framing for every list of items: each session and config signalled, each data packet one frame of all config bytes since the last data packet and its own, with its pts and key flag; whatever follows in the stream. |
| `StreamDemux.StreamRoundTrip` | 12ProScrcpy/12ProScrcpyCore/src/device/demuxer/demuxer.cpp:118-189 | A whole stream, perhaps ending in a truncated item, gives just the signals of its items. |
| `StreamDemux.BadSizeEnds` | 12ProScrcpy/12ProScrcpyCore/src/device/demuxer/demuxer.cpp:233-239 | A session header ends the stream exactly when a side is zero or does not fit an int. |
| `StreamDemux.ShortOrHugeEnds` | 12ProScrcpy/12ProScrcpyCore/src/device/demuxer/demuxer.cpp:251-264 | A packet header ends the stream exactly when the packet cannot be allocated or its payload is cut short. |
| `StreamDemux.OverflowEnds` | 12ProScrcpy/12ProScrcpyCore/src/device/demuxer/demuxer.cpp:285-300 | Where a merged packet would outgrow the allocator the stream ends, with all the signals before it and none after. |
| `StreamDemux.FramesCarryAll` | 12ProScrcpy/12ProScrcpyCore/src/device/demuxer/demuxer.cpp:277-332 | The frames carry every payload byte once and in order, but for config bytes that no data packet follows. |
| `StreamDemux.MoreBytesOnlyAdd` | 12ProScrcpy/12ProScrcpyCore/src/device/demuxer/demuxer.cpp:158-176 | On any bytes at all, signals already given stay when more of the stream arrives. |
| `Demuxing.Demuxer.RecvPacket` | 12ProScrcpy/12ProScrcpyCore/src/device/demuxer/demuxer.cpp:202-275 | Header, flags, sizes and failures of one read, as specified. |
| `Demuxing.Demuxer.PushPacket` | 12ProScrcpy/12ProScrcpyCore/src/device/demuxer/demuxer.cpp:277-332 | The pending packet grows, is sent with the data packet, and is freed. |
| `Demuxing.Demuxer.Run` | 12ProScrcpy/12ProScrcpyCore/src/device/demuxer/demuxer.cpp:158-189 | The loop emits exactly the signals of the stream. |
| `Recording.RecordingFaithfulIff` | 12ProScrcpy/12ProScrcpyCore/src/device/recorder/recorder.cpp:140-162 | For every muxer: a recording has the first config as header and every data packet once, in order, at its pts minus the first, with its duration, if and only if it starts with a config, the muxer accepts the header and as many frames as there are data packets, and it ends with a data packet that is not the only one, or with a config that is not written, because data starts at time zero or the muxer refuses it. |
| `Recording.AcceptedFaithfulIff` | 12ProScrcpy/12ProScrcpyCore/src/device/recorder/recorder.cpp:140-162 | With a muxer that accepts everything: if and only if it starts with a config and ends with a data packet that is not the only one, or with a config after data from time zero. |
| `Recording.RefusalCuts` | 12ProScrcpy/12ProScrcpyCore/src/device/recorder/recorder.cpp:140-162 | A refused call ends the file there: it is the file of an accepting muxer, cut at the first refusal. |
| `Recording.ConsumeWrites` | 12ProScrcpy/12ProScrcpyCore/src/device/recorder/recorder.cpp:285-308 | After any packets, exactly all but the last are written, each with the duration the next one gives it. |
| `Recording.LastWritten` | 12ProScrcpy/12ProScrcpyCore/src/device/recorder/recorder.cpp:254-275 | The last packet is written right exactly when the origin is known, and for a config packet is zero. |
| `Recording.MediaFirstFails` | 12ProScrcpy/12ProScrcpyCore/src/device/recorder/recorder.cpp:140-150 | A recording that starts with a data packet ends there, with an empty file and the muxer never asked. |
| `Recording.ShortOrHeadless` | 12ProScrcpy/12ProScrcpyCore/src/device/recorder/recorder.cpp:140-150 | A recording of one packet, or not starting with a config, is never right. |
| `Recorders.Recorder.Run` | 12ProScrcpy/12ProScrcpyCore/src/device/recorder/recorder.cpp:243-314 | The thread, under any schedule of pushes and the stop, leaves the file of the specification and fails exactly when it does. |
| `Recorders.Recorder.WritePacket` | 12ProScrcpy/12ProScrcpyCore/src/device/recorder/recorder.cpp:140-162 | Header first, config packets ignored, frames written. |
| `Recorders.Recorder.Push` | 12ProScrcpy/12ProScrcpyCore/src/device/recorder/recorder.cpp:329-345 | Queued, unless the recording has failed. |
| `RecordedStream.StreamRecordedIff` | 12ProScrcpy/12ProScrcpyCore/src/device/device.cpp:350-363 | From bytes to file, for every muxer: the file has the first config item as header and one frame for each data item, with the config bytes before it in front, at its time since the first, as key frame or not, and with its duration, if and only if the items start and end as above and the muxer accepts what it must. |
| `SchemeTheorems.PrintParseIff` | 12ProScrcpy/ui/keymapprofilestore.cpp:224-490 | Printing then parsing gives the normal form if and only if there is at most one look node, no tap shares its shoot button or lies on its anchor, and its shoot spot is bound to a mouse button or lies on its anchor. |
| `SchemeTheorems.SecondTripIff` | 12ProScrcpy/ui/keymapprofilestore.cpp:224-490 | For every scheme: a second round trip changes nothing if and only if the last absorbed click, if any, has a key, and no click that was not absorbed has that key if it is a mouse button. |
| `SchemeTheorems.SecondTripCanChange` | 12ProScrcpy/ui/keymapprofilestore.cpp:224-490 | A scheme whose second trip differs from its first. |
| `SchemeTheorems.SecondTripChangesNothing` | 12ProScrcpy/ui/keymapprofilestore.cpp:224-490 | For schemes that come back in normal form a second round trip changes nothing. |
| `SchemeTheorems.NormalFormRoundTrips` | 12ProScrcpy/ui/keymapprofilestore.cpp:224-490 | The normal form round-trips and is its own normal form. |
| `SchemeTheorems.ParsedNodes` | 12ProScrcpy/ui/keymapprofilestore.cpp:347-490 | What any scheme comes back as: the nodes that are not absorbed, then the look node. |
| `SchemeRoundTrip.NodeParses` | 12ProScrcpy/ui/keymapprofilestore.cpp:271-343 | The entry of each kind of node parses to its normal form, or changes the look node. |
| `SchemeRoundTrip.MultiParses` | 12ProScrcpy/ui/keymapprofilestore.cpp:279-294 | A repeated tap comes back with count at least one and the interval of its first two clicks. |
| `SchemeRoundTrip.LookParses` | 12ProScrcpy/ui/keymapprofilestore.cpp:233-262 | The look node's anchor, sensitivities and two keys come back. |
| `SchemeRoundTrip.LegacySpeeds` | 12ProScrcpy/ui/keymapprofilestore.cpp:380-410 | Divisors of old files become multipliers, that of the axis before the common one, the common one by 2.25 vertically; divisors below 0.001 count as none; a sensitivity in the file wins. |
| `SchemeRoundTrip.RootParses` | 12ProScrcpy/ui/keymapprofilestore.cpp:347-369 | Default keys, shoot button and the list of entries at the root. |
| `SchemeRoundTrip.NearMeans` | 12ProScrcpy/ui/keymapprofilestore.cpp:431 | Near is within a thousandth of the screen, counted along the axes. |
| `SchemeJson.DelayRoundTrip` | 12ProScrcpy/ui/keymapprofilestore.cpp:319 | The unsigned start delay survives the cast to int and back. |
| `SchemeFiles.ToJson` | 12ProScrcpy/ui/keymapprofilestore.cpp:224-345 | The loops print the specified tree. |
| `SchemeFiles.EntriesToJson` | 12ProScrcpy/ui/keymapprofilestore.cpp:271-341 | The entries are appended in node order. |
| `SchemeFiles.FromJson` | 12ProScrcpy/ui/keymapprofilestore.cpp:347-490 | The parser returns the specified scheme for every tree. |
| `SchemeFiles.EntriesFromJson` | 12ProScrcpy/ui/keymapprofilestore.cpp:420-484 | The loop appends nodes and changes the look node as specified. |
| `ControlsEditor.GameControlsEditor.HasLookNode` | 12ProScrcpy/ui/gamecontrolseditor.cpp:752-763 | Found exactly when some marker is a look node. |
| `ControlsEditor.GameControlsEditor.CollectOtherKeys` | 12ProScrcpy/ui/gamecontrolseditor.cpp:765-787 | All bound keys of all other markers. |
| `ControlsEditor.GameControlsEditor.FindMouseTwice` | 12ProScrcpy/ui/gamecontrolseditor.cpp:847-871 | The tally reports a button exactly when some mouse button is bound twice. |
| `ControlsEditor.GameControlsEditor.ValidateNodeKeys` | 12ProScrcpy/ui/gamecontrolseditor.cpp:789-876 | Accepted exactly when no slot shares a key, none is reserved and no mouse button is used twice; otherwise the verdict names a real conflict. |
| `ControlsEditor.GameControlsEditor.CaptureValidNode` | 12ProScrcpy/ui/gamecontrolseditor.cpp:849-868 | The loop gives the node that the answers lead to, or none. |
| `ControlsEditor.GameControlsEditor.HandleControlDropped` | 12ProScrcpy/ui/gamecontrolseditor.cpp:870-895 | A second look node is refused; otherwise the node the dialog gives for the dropped control is added, and nothing else changes. The invariant is kept. |
| `ControlsEditor.GameControlsEditor.EditMarker` | 12ProScrcpy/ui/gamecontrolseditor.cpp:897-908 | The node the dialog gives replaces the marker's own, and nothing else changes. The invariant is kept. |
| `ControlsEditor.GameControlsEditor.RemoveMarker` | 12ProScrcpy/ui/gamecontrolseditor.cpp:935-943 | A removal takes out that marker only. |
| `ControlsEditor.GameControlsEditor.Do` | 12ProScrcpy/ui/gamecontrolseditor.cpp:870-945 | Any one deed takes nodes, keys and dirty flag where the specification says. |
| `ControlsEditor.GameControlsEditor.Session` | 12ProScrcpy/ui/gamecontrolseditor.cpp:752-945 | A whole session leaves the nodes, keys and dirty flag that its deeds lead to one by one, keeps the invariant, and the scheme can be saved exactly as `EditedSchemeRoundTripsIff` says. |
| `SchemeEditing.OtherKeysHeld` | 12ProScrcpy/ui/gamecontrolseditor.cpp:765-787 | The other keys are exactly those held by some field of some other control. |
| `SchemeEditing.DropKeeps` | 12ProScrcpy/ui/gamecontrolseditor.cpp:897-920 | An accepted drop keeps the invariant. |
| `SchemeEditing.EditKeeps` | 12ProScrcpy/ui/gamecontrolseditor.cpp:922-933 | An accepted edit keeps the invariant. |
| `SchemeEditing.RemoveKeeps` | 12ProScrcpy/ui/gamecontrolseditor.cpp:935-943 | A removal keeps the invariant. |
| `SchemeEditing.MoveKeeps` | 12ProScrcpy/ui/gamecontrolmarker.cpp:331-359 | Dragging a marker or its fire icon keeps the invariant. |
| `SchemeEditing.EditedSchemeRoundTripsIff` | 12ProScrcpy/ui/gamecontrolseditor.cpp:752-895 | For schemes the editor's rules allow, the round trip holds if and only if no tap lies on the look anchor and the shoot spot is bound to a mouse button or lies on it. |
| `SchemeEditing.InspectedTakes` | 12ProScrcpy/ui/controlinspectordialog.cpp:278-317 | Field by field: the dialog's result is what was entered, in the range of its box and with the old key where none was pressed, if the action has the field, and the node's own otherwise. |
| `SchemeEditing.CapturedIff` | 12ProScrcpy/ui/gamecontrolseditor.cpp:849-868 | The node that comes out is the one shown after the first accepted answer with good keys, and one comes out if and only if no rejection came before it. |
| `SchemeEditing.AcceptedIff` | 12ProScrcpy/ui/gamecontrolseditor.cpp:789-876 | Keys are accepted if and only if each one entered is in no other field of the node, is neither of the two reserved keys, and, if a mouse button, is bound nowhere else. |
| `SchemeEditing.CapturedGood` | 12ProScrcpy/ui/gamecontrolseditor.cpp:849-868 | It has the action and place it had, accepted keys, and every number in its range. |
| `SchemeEditing.DroppedFields` | 12ProScrcpy/ui/gamecontrolseditor.cpp:870-888 | A dropped control: the defaults, a swipe 0.15 to the right that stays on the screen, the left button for an aim node. |
| `SchemeInGame.GameLoads` | 12ProScrcpy/12ProScrcpyCore/src/device/controller/inputconvert/keymap/keymap.cpp:32-365 | The game's own reader, for every printed scheme: nothing if the switch key, or a set precision key, is unknown; otherwise the look control and, in order, the controls of all nodes whose keys are known, member by member as the node has them. |
| `SchemeInGame.EntryTypes` | 12ProScrcpy/ui/keymapprofilestore.cpp:271-341 | Each node but a look node is one entry, of the type the game knows it by. |
| `SchemeInGame.RootMembers` | 12ProScrcpy/ui/keymapprofilestore.cpp:224-270 | The members of the root, with the default keys by name. |
| `SchemeInGame.EntryLoads` | 12ProScrcpy/12ProScrcpyCore/src/device/controller/inputconvert/keymap/keymap.cpp:191-330 | Each printed entry by itself: click, taps one interval apart up to the fiftieth, wheel with one offset on four sides, swipe. |
| `SchemeInGame.EditedPlays` | 12ProScrcpy/12ProScrcpyCore/src/device/controller/inputconvert/keymap/keymap.cpp:232-330 | Of a scheme made in the editor the game gets every tap, at whole intervals, and every start delay. |
| `SchemeInGame.PlayedIff` | 12ProScrcpy/12ProScrcpyCore/src/device/controller/inputconvert/keymap/keymap.cpp:500-593 | For every entry of any file: the game plays it if and only if it has every member its type asks for and its keys are known. |
| `SchemeInGame.LookPlayedIff` | 12ProScrcpy/12ProScrcpyCore/src/device/controller/inputconvert/keymap/keymap.cpp:59-166 | For every look control of any file: it is played if and only if it has a start, some speed, and no precision key that would not play as a click. |
| `SchemeInGame.HandWritten` | 12ProScrcpy/12ProScrcpyCore/src/device/controller/inputconvert/keymap/keymap.cpp:191-330 | What missing optional members count as, and the start delays that fit their type, by value. |
| `SchemeInGame.LoadingEnds` | 12ProScrcpy/12ProScrcpyCore/src/device/controller/inputconvert/keymap/keymap.cpp:173-184 | The first entry that is no object or has no type ends the loading; what came before it stays. |
| `SchemeInGame.LoadNodes` | 12ProScrcpy/12ProScrcpyCore/src/device/controller/inputconvert/keymap/keymap.cpp:173-358 | The loop over the entries, which an entry that is no object or has no type ends. |
| `SchemeResaved.ResavedIff` | 12ProScrcpy/ui/keymapprofilestore.cpp:420-484 | For every entry of any file that the game plays: shown and saved by the editor, it is played the same if and only if it holds nothing the editor cannot say, such as a switch flag, uneven taps, four different offsets or a fractional delay. |
| `SchemeResaved.LookResavedIff` | 12ProScrcpy/ui/keymapprofilestore.cpp:372-413 | The look control of any file is played the same after the editor has saved it if and only if its precision key stands where the look starts. |
| `SchemeResaved.SpeedsAgree` | 12ProScrcpy/12ProScrcpyCore/src/device/controller/inputconvert/keymap/keymap.cpp:62-118 | Both readers get the same multipliers from old and new files; the game's are never below a thousandth. |
| `SchemeResaved.OddSpeeds` | 12ProScrcpy/ui/keymapprofilestore.cpp:385-405 | A divisor that is no number counts as one, and still hides the common one. |
| `SchemeResaved.TapsShown` | 12ProScrcpy/ui/keymapprofilestore.cpp:449-463 | A repeated tap of any file: key and place of the first tap, as many taps, the gap between the first two. |
| `SchemeResaved.BareEntries` | 12ProScrcpy/ui/keymapprofilestore.cpp:420-483 | Entries that say only their type get default fields, by value, and the corner for a missing position. |
| `SchemeResaved.Skipped` | 12ProScrcpy/ui/keymapprofilestore.cpp:420-484 | Entries of other types, or that are no objects, change nothing. |
| `SchemeResaved.BareFiles` | 12ProScrcpy/ui/keymapprofilestore.cpp:347-490 | A file with nothing in it gives the default keys, and one with an empty look control a look node at the corner. |
| `ServerStart.Server.Run` | 12ProScrcpy/12ProScrcpyCore/src/device/server/server.cpp:429-509 | Whatever events follow one start, in either tunnel mode: at most two cycles, at most 31 connect attempts in each, 62 in all. |
| `ServerStart.Server.OnConnectTimer` | 12ProScrcpy/12ProScrcpyCore/src/device/server/server.cpp:429-509 | An attempt reports success, tries again, or ends the cycle with a restart or a failure report; each one lowers the budget of attempts. |
| `ServerStart.Server.EndCycle` | 12ProScrcpy/12ProScrcpyCore/src/device/server/server.cpp:496-508 | Everything is stopped, then started once more or given up. |
| `ServerStart.Server.Handle` | 12ProScrcpy/12ProScrcpyCore/src/device/server/server.cpp:28-50 | Any one event: when an attempt is counted, when listening or the connect timer starts, what is reported, and what a stop leaves. |
| `ServerStart.Server.OnWorkResult` | 12ProScrcpy/12ProScrcpyCore/src/device/server/server.cpp:511-568 | Push, then the tunnel asked for, with fallback from reverse to forward, then execution; the socket listens exactly after a successful reverse tunnel; every way out of the sequence, a failed listen included, reports a failure. |
| `ServerStart.Server.OnServerResult` | 12ProScrcpy/12ProScrcpyCore/src/device/server/server.cpp:569-594 | RUNNING is entered only from EXECUTE, on the start of the process, and the connect timer starts exactly on a forward tunnel or with a video socket there; a start error closes the socket and reports; any notice of a running process ends RUNNING; nothing else changes anything. |
| `ServerStart.Server.OnAcceptTimer` | 12ProScrcpy/12ProScrcpyCore/src/device/server/server.cpp:293-301 | The accept timer reports a failure once and stops. |
| `ServerStart.Server.ConnectTo` | 12ProScrcpy/12ProScrcpyCore/src/device/server/server.cpp:267-281 | Waits on the reverse tunnel only if no video socket is there yet; otherwise the connect timer starts. |
| `ServerStart.Server.Stop` | 12ProScrcpy/12ProScrcpyCore/src/device/server/server.cpp:315-339 | Stops the timer of its tunnel mode only, and forgets the tunnel: the connect timer goes on if and only if it ran beside a reverse tunnel. |
| `ServerStart.TimerOutlivesStop` | 12ProScrcpy/12ProScrcpyCore/src/device/server/server.cpp:315-339 | A run where it does: push, reverse, listen, video connection, start of the process, stop. |
| `ServerStart.Server.OnNewConnection` | 12ProScrcpy/12ProScrcpyCore/src/device/server/server.cpp:28-50 | The video socket is there afterwards, and then a good control socket, which completes the start, closes the listening socket and stops the accept timer; a bad one stops everything and reports. |
| `ServerStart.RunningPaths` | 12ProScrcpy/12ProScrcpyCore/src/device/server/server.cpp:511-595 | The only step sequences that lead to RUNNING: push, tunnel, execute, in order. |

## Left out

- `peekRenderedFrame`: it calls FFmpeg and returns with the mutex held when that fails, so it has no place in the hand-off.
- A missing frame callback in `onNewFrame`, which would leave notifications unconsumed.
- Short sends, which would misalign the packet stream, and teardown of the session during a call.
- `sendRealScroll` and key events: they use the same calls and add no new state to the session.
- Rotation parsing and polling, daemonizing, SELinux and socket set-up of the daemon.
- Event timestamps and the frames-per-second timer; totals are kept from the start.
- The bank autotuner and its smoothness score, which have no ground truth; the older naive de-tiler.
- Overflow of 64-bit offsets in numpy for planes beyond any address space.
- Opening, closing and the trailer of the output file; reference counting of packets, which are values in the recorder.
- UTF-8 and the text of JSON; the files and directories of the scheme store.
- Signed overflow of click delays, undefined in the source: the model wraps around.
- Editing sessions that start from a hand-written scheme; they start from an empty one.
- Widgets, painting, translations and adb processes.
- UbwcTheorems.BijectiveIff: highest bank bit at least 3, since the bank shift is negative below.
- UbwcLinear.YMaskIsXor: highest bank bit at least 12; below, `BijectiveIff` says what the `|` does.
- TouchPanel.MapInPanel: over the reals, like the other lemmas on the panel map.
- TouchEndToEnd.TouchesArrive: no call finds pending writes, as `hasPendingWrites` answers now; `FingersLand` has no such limit.
- TouchEndToEnd.SizeHeldIff: likewise; for queued calls `QueuedSizeHeldIff` supposes that no FRAME is lost.
- TouchOrder.OnlyDownOvertakes: order of packets tried; a lost MOVE only leaves a gap.
- VideoHandoff.ExpiredModeShowsAll: without interrupt; after one, frames may be overwritten unseen.
- VideoHandoff.WaitEnds: progress of the main thread is assumed, not proved.
- StreamDemux.DemuxInvertsEncode: payloads not empty, pts below 2^61, merged packets within the allocator's limit; `OverflowEnds` says what the first one beyond it does.
- ServerStart.Server.Run: one call of `start` for an object, whose video socket is not taken from it; arguments of the server and adb itself are not modelled.
- `KMT_CLICK_TWICE` and `KMT_ANDROID_KEY` entries, which the store never prints, and the reverse map of the game's reader.
- The rounding of entered numbers to the decimals of their boxes.
- SchemeInGame.LoadNodes: only the loop over the entries is written as a loop; the rest of the reader is on values.
- SchemeResaved.LookResavedIff: files whose speeds, where present, are numbers; the two readers differ on others.
- SchemeResaved.ResavedIff: lists of fewer than 2^31 taps, the range of the source's size.
