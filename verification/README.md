# Verified model of the ucimf input method framework

ucimf draws input method windows over a terminal that owns the whole framebuffer, talks to the
fbterm terminal over a socket, and translates keyboard events and text encodings on the way. This
project models the parts of it whose correctness is not visible in any one function, and proves
what they are for.

| module | what it models |
|---|---|
| `Basics` | optional values, bytes and points, which several modules share |
| `Raster`, `FrameBuffers` | saving and restoring rectangles of a linear framebuffer, byte by byte, with any stride |
| `Overlay` | what showing, hiding and moving a save-under window does to the screen; a `Scene` (a base image with panes over it) is its meaning |
| `Placement` | where the three `Shift` classes put the status, preedit and candidate windows |
| `Rendering` | `Widget::render`: the measuring pass, the drawing pass, and taking the drawing back |
| `Session` | the window manager over all windows: focus, cursor moves, refresh brackets, whole runs |
| `ThreeWindows` | ucimf's own three windows over a whole session, from the shapes their widgets draw |
| `Windows` | the classes `GraphPort`, `Window`, `Shift`, `Cwm` and the refresh entry points on the heap, each method proved against the function of the modules above |
| `RealMemory` | the LRMI real-mode allocator, as a table of blocks and as the array it edits in place |
| `Lines` | Bresenham lines and rectangles |
| `Packed` | the word-wise fill and invert loops at 8, 16, 24 and 32 bits a pixel |
| `VgaPlanes` | the masked fill and invert loops of planar VGA, with latches and set/reset colour |
| `ImClient`, `ImApi` | the fbterm message pump: framing, re-entrant waits, the pending queue; then the same over its byte array |
| `Keyboard` | modifier counters, modifier bits and lock state |
| `Utf` | the UTF-16 and UTF-8 converters, against RFC 3629 section 3 and RFC 2781 sections 2.1 and 2.2 |

The shape is the same throughout: state is a datatype, each operation of the program is a function
on it that follows the code's branches, the properties are lemmas about those functions, and the
imperative form (a class or a method with loops, where the program has one) is proved to compute
exactly that function. Outside input is a parameter: what a read of the socket brings is a list of
outcomes, the kernel's keymap is a function, what the terminal paints and what a shape draws is any
image of the right size, and which windows a callback sets is any function of how many messages
were dispatched before.

## What turned out not to hold

Each of these has a lemma with a concrete input (named first) and one that says exactly when the
code does what is expected of it.

* `wait_message` moves the rest of the batch over the acknowledgement and only then reads the
  length to subtract, so it subtracts the length of the message that follows. `WaitCanSlip`; the
  queue is right if and only if the acknowledgement is the last message of its read or the next one
  has the same length (`ConsumeExactly`, `WaitTakesFirst`). Call a read calm if that is so of its
  first acknowledgement, or it has none: a peer that can activate the client loses no message in
  any run if and only if every batch it may send is calm (`LosslessExactly`).
* `Cwm::set_focus` hides windows in the order in which it showed them. `SameOrderHidingCanFail`; for
  windows that overlap the screen comes back if and only if the first one's picture was there before
  (`SameOrderHiding`). The placements are such that they never overlap (`PlacementsNeverMeet`), and
  both height bounds are needed for that (`HeightBoundIsTight`).
* Moving visible windows one at a time can put one on top of another. `MoveOntoCanFail`; `MoveOnto`.
* `LRMI_alloc_real` with a size that is not positive takes the first free block all the same and,
  except for lucky bit patterns, leaves a table that is out of order. `AllocZeroBreaks`;
  `AllocNotPositive`.
* The 24-bit `PutPixel` combines two shifted copies with `&` where `|` is needed.
  `PutPixel24CanFail` (white); `PutPixel24Exact`.
* A modifier counter is one byte: with all 256 keycodes mapped to one modifier it wraps.
  `WrapCanFail`; `TracksExactly`.
* A modifier counter can lose count of the keys held: a release of a key that was not down takes
  away another key's share (`StrayReleaseCanFail`), and a modifier pressed while the table in use does
  not exist is not counted (`MissingTableCanFail`). With any keymap, an event keeps the counters right
  if and only if it does not disturb them (`StrikeTracks`), and a run keeps them right throughout if
  and only if none of its events does (`RunTracksExactly`).
* `UTF8ToUTF16` has no four-byte form, and a byte it does not know becomes a unit from 0xFF80 on,
  because `char` is signed. `DecodeCanFail`; `RoundTrip`, `DecodeConforms`.
* `to_utf8` emits nothing for 0xFFFF and something for code points beyond the last character.
  `ToUtf8CanFail` (0x110000 and 0xFFFF); `ToUtf8Exactly`, `TextsAgree`.
* `wh` on a visible window puts the picture saved at the old size back at the new one.
  `ResizeCanFail` (two by two pixels narrowed to one by two); on every screen the part that both
  sizes have survives if and only if the width stays or one of the two sizes has a single line
  (`ResizeKeepsPicture`).

## Model

| member | source | states |
|---|---|---|
| `Raster.SaveChangeRestore` | libucimf/display/fblinear16.cpp:99-152 | save, then arbitrary changes confined to the rectangle, then restore gives every byte back, for any stride |
| `Raster.BlitGrab` | libucimf/display/fblinear32.cpp:87-139 | restoring what was just saved changes nothing |
| `Raster.GrabBlit` | libucimf/display/fblinear32.cpp:87-139 | saving what was just restored gives the buffer back |
| `Raster.BlitBlit` | libucimf/display/fblinear16.cpp:129-152 | of two restores to one rectangle the second decides |
| `Raster.GrabPixel` | libucimf/display/fblinear32.cpp:87-115 | a saved rectangle holds the screen's pixels, line after line, pixel after pixel, with nothing in between |
| `Raster.BlitPixel` | libucimf/display/fblinear32.cpp:117-139 | a restore puts each pixel of the rectangle back from there and changes no other pixel |
| `Raster.CoversExactly` | libucimf/display/fblinear16.cpp:129-152 | the bytes touched are those of the rectangle's lines and none between or beyond |
| `FrameBuffers.FrameBuffer.SaveRect` | libucimf/display/fblinear16.cpp:99-127 | the row and column loop puts exactly the rectangle's bytes, row after row, into a fresh buffer |
| `FrameBuffers.FrameBuffer.RstrRect` | libucimf/display/fblinear16.cpp:129-152 | the loop writes the start of the buffer to the rectangle and no byte elsewhere |
| `FrameBuffers.FrameBuffer.CopyWords` | libucimf/display/fblinear32.cpp:108-113 | the inner word loop copies one row and leaves the rest of the target alone |
| `Overlay.ScreenIsOverlay` | libucimf/src/window.cpp:37-87 | under the invariant the screen is the base outside all visible windows and each visible window's content inside |
| `Overlay.ShowsUnique` | libucimf/src/window.cpp:37-87 | a scene determines its screen |
| `Overlay.ShowRefines` | libucimf/src/window.cpp:37-45 | showing a window at a free place keeps the invariant and the base, and only makes that pane visible with its picture |
| `Overlay.HideRefines` | libucimf/src/window.cpp:47-56 | hiding keeps the invariant and the base, and the hidden window keeps exactly its picture |
| `Overlay.MoveRefines` | libucimf/src/window.cpp:75-87 | moving to a free place changes only that pane's position; hidden windows can always move |
| `Overlay.SameOrderHiding` | libucimf/src/cwm.cpp:75-94 | two windows shown and hidden in the same order leave the screen as it was if and only if the first's picture equals the screen where they overlap |
| `Overlay.SameOrderHidingCanFail` | libucimf/src/cwm.cpp:75-94 | two overlapping one-pixel windows after which the screen of one pixel is the first one's picture |
| `Overlay.OppositeOrderHiding` | libucimf/src/window.cpp:37-56 | hidden in the opposite order the screen always comes back, overlapping or not |
| `Overlay.MoveOnto` | libucimf/src/cwm.cpp:53-72 | a visible window moved onto another leaves the other's picture intact if and only if the pictures agree on the overlap |
| `Overlay.MoveOntoCanFail` | libucimf/src/cwm.cpp:53-72 | two one-pixel windows side by side; the left one moved onto the right one takes its picture away |
| `Placement.PlacedByCursor` | libucimf/src/cwm.cpp:120-147 | for every cursor, screen, gap and size, the left edge is the lesser of cursor plus gap and xres - 16 - width, the top edge is cursor plus gap if that leaves 16 pixels below the window, and otherwise the bottom edge is cursor minus gap; and no other area fits that |
| `Placement.PlacementsNeverMeet` | libucimf/src/cwm.cpp:120-224 | for every cursor, screen, width and mix of flips the three windows share no row, given status and preedit heights up to font height + 7 |
| `Placement.HeightBoundIsTight` | libucimf/src/ucimf.cpp:214-217 | one row more in the status window and it can meet the preedit window, one row more there and it can meet the candidate window |
| `Placement.HorizontalPlacement` | libucimf/src/cwm.cpp:129-137 | the right edge stays at most xres - 16; the left edge is on the screen if and only if the window is narrow enough |
| `Placement.VerticalPlacement` | libucimf/src/cwm.cpp:139-145 | a window is on the screen vertically if and only if it fits below the cursor or above it |
| `Rendering.RenderMeasures` | libucimf/src/window.cpp:89-109 | whatever size the window had, the measuring pass makes it exactly the extent of the shapes, and leaves it at its manager's place for that size |
| `Rendering.ExtentUnique` | libucimf/src/graphport.cpp:112-126 | a list of shapes has one extent |
| `Rendering.RenderTakesBack` | libucimf/src/widget.cpp:48-53 | drawing for the foreground buffer leaves the screen as it was |
| `Rendering.RenderRefines` | libucimf/src/widget.cpp:36-60 | render keeps the base, the other panes and the visibility, and gives the window its new picture at the measured size |
| `Rendering.ResizeRefines` | libucimf/src/window.cpp:58-73 | wh on a visible window at a free place keeps the base and the other panes, and the pane shows the first bytes of its old picture |
| `Rendering.CornerExactly` | libucimf/src/window.cpp:58-73 | for all line lengths and counts: the first bytes of every picture, read at the new line length, agree with it where both have bytes if and only if the lengths are equal or one line is common |
| `Rendering.ResizeKeepsPicture` | libucimf/src/window.cpp:58-73 | wh on a visible window keeps, whatever the screen, the part of the shown picture that both sizes have if and only if the width stays or one of the two sizes has a single line |
| `Rendering.ResizeCanFail` | libucimf/src/window.cpp:58-73 | a shown window of two by two one-byte pixels, in order and with a free place, whose second line changes when it is narrowed to one by two |
| `Rendering.PicturePixels` | libucimf/src/widget.cpp:36-60 | after render each pixel of the picture is from the last shape of the list whose box covers it, at that pixel's offset in the shape's ink, and from the screen below where no shape does |
| `Rendering.PicturePortrays` | libucimf/src/widget.cpp:36-60 | so the foreground buffer is a picture of the shapes, exactly as large as they ask for |
| `Rendering.PortraitUnique` | libucimf/src/widget.cpp:176-181 | shapes of which one fills the window have one picture, wherever and over whatever it was drawn |
| `Rendering.PictureHidesBelow` | libucimf/src/widget.cpp:176-181 | once a shape fills the window, the picture does not depend on what was on the screen below |
| `Rendering.StatusExtent` | libucimf/src/widget.cpp:142-182 | the status window is font height + 3 high and its first shape fills it |
| `Rendering.ListExtent` | libucimf/src/widget.cpp:240-274 | a preedit window of at most one line stays within font height + 7, and its first shape fills it |
| `Rendering.StatusPixels` | libucimf/src/widget.cpp:176-181 | of the five shapes each text is seen whole, each frame around its text, and the filled rectangle nowhere |
| `Rendering.ListPixels` | libucimf/src/widget.cpp:240-274 | of the three shapes the text is seen wherever it reaches and the frame around it |
| `Session.ShowUpToRefines` | libucimf/src/cwm.cpp:80-87 | the showing loop, window after window, unveils exactly the panes it has reached |
| `Session.HideUpToRefines` | libucimf/src/cwm.cpp:80-92 | the hiding loop, in the same order, veils exactly the panes it has reached and keeps the base |
| `Session.MoveUpToRefines` | libucimf/src/cwm.cpp:60-69 | the placing loop moves exactly the panes it has reached, if each finds its way clear |
| `Session.SetFocusRefines` | libucimf/src/cwm.cpp:75-94 | set_focus shows or hides every window; base, pictures and places stay |
| `Session.SetPositionRefines` | libucimf/src/cwm.cpp:53-72 | set_position sends every window to its place for the new cursor and changes nothing else |
| `Session.DrawWidgetRefines` | libucimf/src/widget.cpp:36-60 | rendering an attached widget changes its own pane only |
| `Session.RefreshBegin` | libucimf/src/ucimf.cpp:454-458 | when the terminal may paint, the screen is exactly the base |
| `Session.RefreshBracket` | libucimf/src/ucimf.cpp:449-463 | for any repaint and any cursor move in between, the bracket ends with the new image as the base and every window with its old picture and visibility at its new place |
| `Session.RunKeeps` | patches/jfbterm/patches/jfbterm-0.4.7-ucimf.patch:38-41 | over every run of focus switches, brackets, cursor moves and renderings, each of which finds its places free, the screen is told by the history: the last paint, overlaid if the windows were switched on last with every window at its place by the last cursor and with the picture of its last drawing |
| `Session.SeenPixel` | libucimf/src/cwm.cpp:129-145 | each pixel of a window that is on is seen at its offset right of and below or above the cursor, and is from the last shape over it |
| `Session.FirstPosition` | libucimf/src/cwm.cpp:41-72 | the first cursor position away from the origin brings a fresh session into the invariant without touching the screen |
| `Session.UnseenDraws` | libucimf/src/widget.cpp:36-60 | before anything is shown, rendering leaves the screen alone, and a window that comes out larger than a pixel is at its place |
| `Session.UnseenMoves` | libucimf/src/cwm.cpp:53-72 | before anything is shown, any cursor move brings the session into the invariant without touching the screen |
| `Session.EarlyRunKeeps` | libucimf/src/ucimf.cpp:449-463 | over every run of renderings, brackets and cursor moves before the windows are first switched on, the screen is what the terminal painted last, each window has the picture of its last drawing, and the next move settles the session |
| `Session.UcimfRoomy` | libucimf/src/ucimf.cpp:214-217 | with the gaps of ucimf_init, in any order of the map, all windows are on the screen and apart if and only if each one fits for itself |
| `Session.RenderFindsPlace` | libucimf/src/ucimf.cpp:214-217 | a widget rendering while shown finds its place free at whatever width it comes out, given status and preedit heights up to font height + 7 |
| `ThreeWindows.DrawKeepsKit` | libucimf/src/widget.cpp:36-60 | with room for its own size, a widget can render at any time, shown or hidden, and the height bound stays |
| `ThreeWindows.ActionKeepsKit` | libucimf/src/ucimf.cpp:214-217 | the shapes of Status, Preedit and LookupChoice, switches and brackets are all events the session allows, given only that each window has room for itself |
| `ThreeWindows.KitRunKeeps` | libucimf/src/widget.cpp:142-377 | over every run of the three widgets in which each window has room for itself, the status and preedit heights stay within font height + 7 and the screen is told by the history |
| `ThreeWindows.FirstTextSeen` | libucimf/src/widget.cpp:176-181 | while the windows are on, each pixel of the first status text last drawn is on the screen, 3 pixels inside a frame that starts where the last cursor says |
| `ThreeWindows.SecondTextSeen` | libucimf/src/widget.cpp:176-181 | and each of the second text, right of the first |
| `ThreeWindows.ListTextSeen` | libucimf/src/widget.cpp:240-274 | and each of the text of the preedit and the candidate window, at their gaps |
| `ThreeWindows.EarlyActionKeeps` | libucimf/src/widget.cpp:36-60 | before the windows are first switched on, every drawing with room for its size is possible and keeps the height bound, and brackets and cursor moves always are; a window is at its place or still where it was made |
| `ThreeWindows.WholeSession` | libucimf/src/ucimf.cpp:199-463 | from the start of the program: any run of drawings, brackets and cursor moves leaves the last paint on the screen; if in it the cursor left the origin, or every window was drawn, then over every run that follows heights stay and the screen is told by the history of the whole session: last paint, last switch, last cursor and the last drawing of each window |
| `Windows.GraphPort.PushBgBuf` | libucimf/src/graphport.cpp:128-137 | the background buffer becomes a fresh copy of the window's rectangle |
| `Windows.GraphPort.PushFgBuf` | libucimf/src/graphport.cpp:139-148 | the foreground buffer becomes a fresh copy of the window's rectangle |
| `Windows.GraphPort.PopBgBuf` | libucimf/src/graphport.cpp:150-157 | the background goes back to the screen and the buffer is given up; without a buffer nothing happens |
| `Windows.GraphPort.PopFgBuf` | libucimf/src/graphport.cpp:159-167 | the same for the foreground |
| `Windows.GraphPort.SetPseudo` | libucimf/src/graphport.cpp:102-110 | entering the measuring mode empties the window first |
| `Windows.GraphPort.Draw` | libucimf/src/graphport.cpp:112-126 | a shape is measured in the measuring mode and drawn at its place otherwise |
| `Windows.Window.Show` | libucimf/src/window.cpp:37-45 | screen and window become those of `Overlay.ShowWin` |
| `Windows.Window.Hide` | libucimf/src/window.cpp:47-56 | screen and window become those of `Overlay.HideWin` |
| `Windows.Window.Wh` | libucimf/src/window.cpp:58-73 | screen and window become those of `Rendering.ResizeWin`, also for a visible window |
| `Windows.Window.Xy` | libucimf/src/window.cpp:75-87 | screen and window become those of `Overlay.MoveWin` |
| `Windows.Window.Measure` | libucimf/src/window.cpp:89-109 | the window grows to the larger of its size and the point, through wh |
| `Windows.Window.Render` | libucimf/src/widget.cpp:36-60 | screen and window become those of `Rendering.RenderWin` |
| `Windows.Shift.Update` | libucimf/src/cwm.cpp:120-147 | the window goes to the place computed from cursor, screen, gaps and its size |
| `Windows.Cwm.Update` | libucimf/src/cwm.cpp:96-103 | the window goes to the place its own shift gives it |
| `Windows.Cwm.SetFocus` | libucimf/src/cwm.cpp:75-94 | the loop over the map does what `Session.SetFocus` does |
| `Windows.Cwm.SetPosition` | libucimf/src/cwm.cpp:53-72 | the loop over the map does what `Session.SetPosition` does |
| `Windows.Cwm.AttachWindow` | libucimf/src/cwm.cpp:105-109 | the window joins the map somewhere, the others keep their order |
| `Windows.Ucimf.RefreshBegin` | libucimf/src/ucimf.cpp:454-458 | the focus is remembered and taken away |
| `Windows.Ucimf.RefreshEnd` | libucimf/src/ucimf.cpp:460-463 | the remembered focus comes back |
| `Windows.Ucimf.TermRefresh` | patches/jfbterm/patches/jfbterm-0.4.7-ucimf.patch:38-41 | the four calls around a repaint do what `Session.Bracket` does |
| `RealMemory.AllocFirstFit` | libucimf/display/lrmi.c:111-142 | allocation returns the lowest free block strictly larger than the rounded size, fails if and only if the table is full or there is none, and adds exactly that allocation |
| `RealMemory.AllocNotPositive` | libucimf/display/lrmi.c:123-136 | for sizes that are not positive, the table stays in order if and only if the stored bits are a size that fits the first free block |
| `RealMemory.AllocZeroBreaks` | libucimf/display/lrmi.c:123-136 | a request for nothing leaves a block of size zero |
| `RealMemory.SplitInv` | libucimf/display/lrmi.c:129-133 | splitting a free block keeps the table in order if and only if the stored size fits strictly inside it |
| `RealMemory.FreeKeeps` | libucimf/display/lrmi.c:145-176 | free removes exactly the allocation at the address and keeps the table in order; an address where no live block starts changes nothing |
| `RealMemory.FreeAtKeeps` | libucimf/display/lrmi.c:163-175 | coalescing on both sides leaves no two free neighbours and no other allocation changed |
| `RealMemory.FreeUndoesAlloc` | libucimf/display/lrmi.c:111-176 | freeing what was just allocated restores the identical table |
| `RealMemory.FreeCommutes` | libucimf/display/lrmi.c:145-176 | two frees commute |
| `RealMemory.FreeEverything` | libucimf/display/lrmi.c:145-176 | freeing all live blocks in any order, with anything else mixed in, gives back the one free block |
| `RealMemory.Canonical` | libucimf/display/lrmi.c:145-176 | a table in order is determined by its live allocations |
| `RealMemory.RunKeeps` | libucimf/display/lrmi.c:89-176 | over every run of allocations of positive size and frees of any address the table stays in order |
| `RealMemory.RunLiveDisjoint` | libucimf/display/lrmi.c:89-176 | after any run live allocations are 16-aligned, inside the arena and disjoint |
| `RealMemory.HistoryForgotten` | libucimf/display/lrmi.c:89-176 | two runs with the same live allocations have the same table |
| `RealMemory.MemInfo.Init` | libucimf/display/lrmi.c:54-86 | the first successful mapping sets up the one free block, later calls change nothing |
| `RealMemory.MemInfo.InsertBlock` | libucimf/display/lrmi.c:89-98 | the blocks from i on move up by one |
| `RealMemory.MemInfo.DeleteBlock` | libucimf/display/lrmi.c:100-109 | block i is gone, the others keep their order |
| `RealMemory.MemInfo.AllocReal` | libucimf/display/lrmi.c:111-142 | the search loop with its running address does what `RealMemory.Alloc` does |
| `RealMemory.MemInfo.FreeReal` | libucimf/display/lrmi.c:145-176 | the search loop and the in-place merges do what `RealMemory.Free` does |
| `Lines.LineEnds` | libucimf/display/graphdev.cpp:78-117 | a line starts and ends exactly at its endpoints |
| `Lines.LineReversed` | libucimf/display/graphdev.cpp:91-116 | drawn from the other end, the pixels are visited backwards |
| `Lines.LineSymmetric` | libucimf/display/graphdev.cpp:91-116 | both directions paint the same set of pixels |
| `Lines.LineInBox` | libucimf/display/graphdev.cpp:78-117 | all pixels are in the box of the endpoints |
| `Lines.LineConnected` | libucimf/display/graphdev.cpp:93-114 | consecutive pixels are different 8-neighbours |
| `Lines.LineError` | libucimf/display/graphdev.cpp:91-115 | every pixel is within half a pixel of the true line along the shorter axis |
| `Lines.NearestNext` | libucimf/display/graphdev.cpp:96-101 | the sign of the decision variable, with its tie rule, tells exactly when the nearest integer steps |
| `Lines.NearestMirror` | libucimf/display/graphdev.cpp:96 | from the other end with ties broken the other way the rounding is mirrored |
| `Lines.LineExactly` | libucimf/display/graphdev.cpp:78-117 | the line is the only list of pixels with one step a pixel along the longer axis and less than half a pixel of error, a tie going sideways if the line runs right (or down, when it is not wider than high) and not if it runs the other way |
| `Lines.GraphDev.DrawLine` | libucimf/display/graphdev.cpp:78-117 | the loops paint exactly the pixels of `Lines.Line` and no other |
| `Lines.GraphDev.DrawRect` | libucimf/display/graphdev.cpp:119-126 | the four lines paint exactly the perimeter |
| `Packed.FourInThree` | libucimf/display/fblinear24.cpp:51-63 | the three words hold the twelve bytes of the four pixels in order |
| `Packed.TwoInSix` | libucimf/display/fblinear24.cpp:86-91 | a word and a half word hold two pixels |
| `Packed.Cfb24IsColour` | libucimf/display/fblinear24.cpp:37-49 | the colour map leaves the top byte empty, as the packing needs |
| `Packed.PutPixel24Exact` | libucimf/display/fblinear24.cpp:221-226 | it writes the colour if and only if its two low bytes are zero |
| `Packed.PutPixel24CanFail` | libucimf/display/fblinear24.cpp:221-226 | white comes out as another colour |
| `Packed.Store4Pixels` | libucimf/display/fblinear24.cpp:57-63 | four equal pixels in sequence |
| `Packed.FillLine24` | libucimf/display/fblinear24.cpp:81-97 | the packed line loop with its tails writes `width` pixels and nothing else |
| `Packed.FillLine24Simple` | libucimf/display/fblinear24.cpp:109-114 | so does the plain loop over three bytes a pixel |
| `Packed.FillLine16` | libucimf/display/fblinear16.cpp:60-72 | the two-pixel word loop with its tail writes `width` pixels and nothing else |
| `Packed.FillLine32` | libucimf/display/fblinear32.cpp:62-65 | one word a pixel |
| `Packed.FillRect` | libucimf/display/fblinear24.cpp:65-98 | at 8, 16, 24 and 32 bits: every pixel of the rectangle is the colour and no other byte changes |
| `Packed.FillRect24Simple` | libucimf/display/fblinear24.cpp:99-116 | the commented-out simple form leaves the same memory as the packed one |
| `Packed.PutPixel` | libucimf/display/fblinear16.cpp:154-157 | at 8, 16 and 32 bits: one pixel and nothing else |
| `Packed.FilledPixel` | libucimf/display/fblinear24.cpp:65-98 | after a fill the bytes of each pixel of the rectangle are those of the colour, lowest first, and every other pixel is what it was |
| `Packed.FillIsPixels` | libucimf/display/fblinear32.cpp:48-67 | a filled rectangle is its pixels painted one by one |
| `Packed.RevLine8` | libucimf/display/fblinear8.cpp:57-69 | the word loop with its tails inverts the low nibble of each byte of the line |
| `Packed.RevLine16` | libucimf/display/fblinear16.cpp:88-95 | the word loop with its tail inverts each byte of the line |
| `Packed.RevLine24` | libucimf/display/fblinear24.cpp:132-149 | the same in words of three per four pixels, with both tails |
| `Packed.RevRect` | libucimf/display/fblinear24.cpp:119-150 | at all depths: every byte of the rectangle is exclusive-ored once and no other byte changes |
| `Packed.InvertedByte` | libucimf/display/fblinear8.cpp:47-69 | each byte of the rectangle becomes its complement, at 8 bits only in its low half, and no other byte changes |
| `Packed.RevTwice` | libucimf/display/fblinear24.cpp:151-159 | inverting twice changes nothing |
| `VgaPlanes.Mode3Pixel` | libucimf/display/fbvgaplanes.cpp:199-206 | a masked write recolours the pixels under the mask and keeps the latched others |
| `VgaPlanes.MiddleIsWhole` | libucimf/display/fbvgaplanes.cpp:184-190 | what lies between the edges is a non-negative multiple of 8 pixels |
| `VgaPlanes.EdgesCoverExactly` | libucimf/display/fbvgaplanes.cpp:180-227 | left mask, middle bytes and right mask touch exactly the pixels x1 to x2 |
| `VgaPlanes.FBVgaPlanes.FillRect` | libucimf/display/fbvgaplanes.cpp:164-227 | the three passes colour every pixel of the rectangle and no other |
| `VgaPlanes.FBVgaPlanes.PutPixel` | libucimf/display/fbvgaplanes.cpp:302-312 | one pixel gets the colour and no other changes |
| `VgaPlanes.ColouredUnique` | libucimf/display/fbvgaplanes.cpp:164-227 | that determines all four planes |
| `VgaPlanes.PixelsColour` | libucimf/display/fbvgaplanes.cpp:302-312 | putting all pixels of a rectangle in any order, any number of times each, colours the rectangle |
| `VgaPlanes.FillIsPixels` | libucimf/display/fbvgaplanes.cpp:164-312 | so a fill leaves the memory that putting the pixels one by one leaves |
| `VgaPlanes.FBVgaPlanes.RevRect` | libucimf/display/fbvgaplanes.cpp:247-300 | every pixel of the rectangle is complemented exactly once and no other changes |
| `VgaPlanes.ReversedTwice` | libucimf/display/fbvgaplanes.cpp:247-300 | inverting twice changes nothing |
| `ImClient.ParseFlatten` | patches/fbterm/imapi.c:204-214 | reading back what was framed gives the messages |
| `ImClient.ConsumeExactly` | patches/fbterm/imapi.c:231-241 | the queue loses exactly the awaited message if and only if it is the last of its read or the next has its length |
| `ImClient.WaitTakesFirst` | patches/fbterm/imapi.c:216-250 | an answered wait leaves the old queue followed by all it read minus the first awaited message if and only if no message of another length follows that one in its read; it dispatches nothing, and pings if and only if the queue is not empty |
| `ImClient.WaitCanSlip` | patches/fbterm/imapi.c:232-240 | an acknowledgement with a longer message behind it: four bytes of that message are all that stays queued |
| `ImClient.WaitGivesUp` | patches/fbterm/imapi.c:219-228 | a wait whose connection goes keeps everything it read |
| `ImClient.WaitFits` | patches/fbterm/imapi.c:219-230 | the queue never outgrows its buffer |
| `ImClient.DispatchAllInStep` | patches/fbterm/imapi.c:204-214 | a batch is dispatched in order, each message once, whatever waits its callbacks make; `ImClient.InStep` is kept |
| `ImClient.CheckInStep` | patches/fbterm/imapi.c:252-280 | one turn dispatches what was queued and then what it read, nothing else |
| `ImClient.CheckEnds` | patches/fbterm/imapi.c:256-279 | zero is returned only when the connection is gone, and always in a turn that dispatches a disconnect |
| `ImClient.PumpInStep` | patches/fbterm/imapi.c:130-280 | over every run the client is active if and only if the last Active or Deactive dispatched was an Active, and while connected every hide dispatched was answered and every window set was acknowledged once |
| `ImClient.PumpAccounts` | patches/fbterm/imapi.c:204-280 | every turn, on any input and whatever the callbacks wait for, keeps the account until a wait meets a read that is not calm: received is dispatched plus acknowledged plus queued |
| `ImClient.NothingLost` | patches/fbterm/imapi.c:204-280 | over every run on input whose every read is calm, whatever the callbacks wait for, no message is lost or dispatched twice; and on any other input until a wait meets a read that is not calm |
| `ImClient.PumpCalm` | patches/fbterm/imapi.c:216-280 | on calm input no wait ever slips |
| `ImClient.LosslessExactly` | patches/fbterm/imapi.c:216-280 | for a peer that can activate the client, all runs on its batches conserve all messages if and only if each batch is calm |
| `ImClient.SlipLoses` | patches/fbterm/imapi.c:216-241 | any batch that is not calm, read by the first wait after activation, breaks the account |
| `ImClient.DispatchAllSends` | patches/fbterm/imapi.c:130-202 | over any batch the client sends, in the order of the messages, the known windows their callbacks set and an answer to each hide, and nothing else but pings: at show, key, cursor, mode, hide, info and deactivation only if it was active, at activation always |
| `ImClient.RunSends` | patches/fbterm/imapi.c:86-202 | so over every run, where a lost connection cuts off the end |
| `ImClient.WaitRetries` | patches/fbterm/imapi.c:219-223 | an interrupted read is read again |
| `ImClient.WaitAnswered` | patches/fbterm/imapi.c:216-241 | a wait ends connected if and only if one of its reads brings the message |
| `ImClient.CheckGoesOn` | patches/fbterm/imapi.c:252-280 | the main loop goes on if and only if its read was interrupted, which changes nothing, or brought something and no disconnect |
| `ImApi.ImConnection.Find` | patches/fbterm/imapi.c:231-234 | the scan stops at the first awaited message of the read |
| `ImApi.ImConnection.TakeOut` | patches/fbterm/imapi.c:235-236 | the move and the shortening leave `ImClient.Kept` in the buffer |
| `ImApi.ImConnection.WaitMessage` | patches/fbterm/imapi.c:216-250 | the read loop over the byte array does what `ImClient.Wait` does |
| `ImApi.ImConnection.SetImWindow` | patches/fbterm/imapi.c:86-98 | a message and a wait, only while connected and active and for a known window |
| `ImApi.ImConnection.ProcessMessage` | patches/fbterm/imapi.c:130-202 | the switch does what `ImClient.Dispatch` does |
| `ImApi.ImConnection.ProcessMessages` | patches/fbterm/imapi.c:204-214 | the parsing loop dispatches exactly the messages that are whole, in order, drops one that is cut off, and reports a disconnect |
| `ImApi.ImConnection.CheckImMessage` | patches/fbterm/imapi.c:252-280 | one turn does what `ImClient.Check` does, with its result |
| `Keyboard.RunFollows` | libucimf/src/ucimf.cpp:476-538 | over every run, with any keymap, a modifier's bit is set if and only if its counter is not zero |
| `Keyboard.TableExact` | libucimf/src/ucimf.cpp:483-490 | the bits always fit the 8-bit table number |
| `Keyboard.RepeatIsIdle` | libucimf/src/ucimf.cpp:480-536 | an autorepeat changes no state |
| `Keyboard.KeysymExactly` | libucimf/src/ucimf.cpp:483-495 | the keysym is that of the table whose number is a power of two for each held modifier, with shift turned for a letter under caps lock |
| `Keyboard.CountersExactly` | libucimf/src/ucimf.cpp:476-538 | an event changes its key, and one step the counter of the one modifier its keysym is, unless it repeats |
| `Keyboard.NumOverRun` | libucimf/src/ucimf.cpp:466-513 | over every run num lock is what the last reset made it, toggled once for each unrepeated press that gave its keysym since; in application keypad mode only the bare one |
| `Keyboard.CapsOverRun` | libucimf/src/ucimf.cpp:466-528 | over every run caps lock is what the last reset, caps-on or caps shift made it, toggled once for each unrepeated press of caps lock since |
| `Keyboard.StrikeTracks` | libucimf/src/ucimf.cpp:476-538 | with any keymap, an event keeps each counter equal to the number of held keys of its modifier if and only if it is a repeat or does not disturb: the modifier looked up is the key's own (or, on its release, neither counts), it is not the 256th key of a modifier, and it is not a stray release with the counter above zero |
| `Keyboard.DisturbsOrUpsets` | libucimf/src/ucimf.cpp:520-538 | where the table in use gives the key its own modifier, only stray releases and 256th keys disturb |
| `Keyboard.RunTracksExactly` | libucimf/src/ucimf.cpp:466-538 | over any run with any keymap, the counters are right throughout if and only if no event disturbs them |
| `Keyboard.RunTracks` | libucimf/src/ucimf.cpp:466-538 | so they are over every well-formed run of presses, repeats, releases and resets, if the tables that the modifiers can select agree on them |
| `Keyboard.TracksExactly` | libucimf/src/ucimf.cpp:466-538 | with such tables, all well-formed runs track if and only if no modifier has all the keycodes |
| `Keyboard.AllOneModifier` | libucimf/src/ucimf.cpp:532-536 | pressing 256 keys of one modifier wraps its counter to zero |
| `Keyboard.WrapCanFail` | libucimf/src/ucimf.cpp:532-536 | so it does with the keymap in which every keycode is shift |
| `Keyboard.MissingTableCanFail` | libucimf/src/ucimf.cpp:483-536 | two modifiers and only the plain and the shifted table: the second one pressed is held and its counter is zero |
| `Keyboard.StrayReleaseCanFail` | libucimf/src/ucimf.cpp:532-536 | one shift key pressed, another released that was never down: a key is held and its counter is zero |
| `Keyboard.KeyboardState.KeycodeToKeysym` | libucimf/src/ucimf.cpp:476-552 | the arrays and bits become those of `Keyboard.Strike`, and the keysym is the one looked up before |
| `Keyboard.KeyboardState.InitKeycodeState` | libucimf/src/ucimf.cpp:466-473 | a reset forgets all keys and takes the lock state from the kernel |
| `Utf.EncodeConforms` | ucimf-openvanilla/src/openvanilla.cpp:200-232 | on well-formed UTF-16 the output is the RFC 3629 section 3 encoding of its RFC 2781 section 2.2 characters |
| `Utf.EncodeFits` | ucimf-openvanilla/src/openvanilla.cpp:200-232 | at most three bytes a unit, and one more only if the text ends inside a pair |
| `Utf.RoundTrip` | ucimf-openvanilla/src/openvanilla.cpp:200-266 | encoding and decoding gives the units back if and only if none is zero or a high surrogate; lone low surrogates come back |
| `Utf.DecodeConforms` | ucimf-openvanilla/src/openvanilla.cpp:236-266 | standard UTF-8 becomes standard UTF-16 if and only if every character is of the basic plane and none is zero |
| `Utf.DecodeCanFail` | ucimf-openvanilla/src/openvanilla.cpp:236-266 | U+1F600 does not come back, as a character or as two units; a lone 0x80 becomes 0xFF80 |
| `Utf.DecodeExactly` | ucimf-openvanilla/src/openvanilla.cpp:236-266 | what any bytes become, well-formed or not, byte by byte up to the terminator |
| `Utf.CharactersOfUtf16` | ucimf-openvanilla/src/openvanilla.cpp:220-228 | the two sections of RFC 2781 undo each other, characters first |
| `Utf.Utf16OfCharacters` | ucimf-openvanilla/src/openvanilla.cpp:220-228 | and units first |
| `Utf.ToUtf8Conforms` | libucimf/src/ucimf.cpp:584-612 | to_utf8 is the standard encoding of every character but 0xFFFF, empty for that and surrogates, and emits non-characters between 0x110000 and 0x1FFFFF |
| `Utf.ToUtf8Exactly` | libucimf/src/ucimf.cpp:584-612 | what it emits is the standard encoding of some character if and only if it is given a character other than 0xFFFF |
| `Utf.ToUtf8CanFail` | libucimf/src/ucimf.cpp:584-612 | 0x110000 gets four bytes that no character has, and the character 0xFFFF gets none |
| `Utf.EncodersAgree` | libucimf/src/ucimf.cpp:584-612 | on one unit the two encoders agree if and only if to_utf8 emits something |
| `Utf.TextsAgree` | libucimf/src/ucimf.cpp:584-612 | on well-formed texts they agree if and only if 0xFFFF does not occur |
| `Utf.ToUtf8InPlace` | libucimf/src/ucimf.cpp:584-612 | the index-filling form writes those bytes at the start of the buffer and nothing behind them |
| `Utf.OVImfService.UTF16ToUTF8` | ucimf-openvanilla/src/openvanilla.cpp:200-232 | the loop leaves `Utf.Encode` and a terminator in the buffer |
| `Utf.OVImfService.UTF8ToUTF16` | ucimf-openvanilla/src/openvanilla.cpp:236-266 | the loop leaves `Utf.Decode` in the buffer and returns its length |

## Left out

- `ImClient.NothingLost`: says nothing about what becomes of the messages in a run after a wait has slipped.
- `ImClient.Pump`: a read that cuts a message in two is outside the model; such a run is marked `torn` and counts as disconnected, because the code then reads a header that is not there. A run also ends when a slipped wait has left a queue that the parsing loop cannot make sense of.
- `ImApi.ImConnection.ProcessMessages`: bytes in which a header itself is cut off make the code read stale memory, and a length below the header's own size makes it repeat or step into the header; both are excluded.
- `ImApi.ImConnection.CheckImMessage`: excludes the same bytes in the queue.
- `ImClient.PumpInStep`: a write to the socket always succeeds while it is open, and nothing is said about the order in which messages of different batches are dispatched, since messages queued during the first half of a turn come after the next read.
- `ImClient.RunSends`: the texts and drawings a callback may also send (put_im_text, fill_rect, draw_text) are not modelled, and pings are counted in `ImClient.WaitTakesFirst` only.
- `ImClient.Wait`: an endless series of interrupted reads is not a run here; the outcomes of the reads are a finite list, after which the stream ends.
- `ImApi.ImConnection.MoveDown`: the overlapping memcpy copies forward, as memmove would.
- `Windows.Window.Wh`: a visible window that grows makes the code read beyond the picture it saved; that is excluded.
- `Session.RunKeeps`: brackets do not nest, and a cursor position outside a bracket is allowed when each visible window finds its way clear of the windows not yet moved.
- `Session.EarlyRunKeeps`: is about any layout, and its draws need the place to be on the screen; `ThreeWindows.WholeSession` does without that.
- `ThreeWindows.WholeSession`: switching the windows on before the cursor has left the origin or every window has been drawn is not covered; the windows then lie on top of each other at the origin, and `Overlay.SameOrderHidingCanFail` is what can happen.
- `Keyboard.RunTracks`: leaves out keymaps whose tables disagree on a modifier where held modifiers can select them, as with tables the kernel has not allocated; `Keyboard.RunTracksExactly` covers those event by event.
- `Keyboard.TracksExactly`: leaves out the same keymaps.
- `Keyboard.NumOverRun`: the application keypad mode is the same throughout a run; nothing in the file sets it.
- `Packed.RevRect`: the code reads through a pointer and increments it inside one macro assignment (libucimf/display/fblinear24.cpp:134, libucimf/display/fblinear16.cpp:90, libucimf/display/fblinear8.cpp:59), which C++ leaves unsequenced before C++17; the model takes the read before the increment.
- `Packed.PutPixel`: not at 24 bits, where the code is wrong; `Packed.PutPixel24Exact` says when.
- `FrameBuffers.FrameBuffer.RstrRect`: models the 16 and 32 bit devices. The 24-bit one writes one byte beyond each row and the 8-bit pair saves and restores with other bounds; neither can carry windows.
- `VgaPlanes.FBVgaPlanes.RevRect`: takes the exclusive-or function of the graphics controller to apply in write mode 3 as in the others, which the code counts on.
- `Utf.OVImfService.UTF8ToUTF16`: input that ends inside a character makes the code read beyond its terminator and is excluded, as is output longer than the buffers.
- `Utf.OVImfService.UTF16ToUTF8`: a text that ends in a high surrogate needs a readable unit behind it, because the code reads it.
- Without a graphics device (`gdev` null) windows draw nothing; that mode is not modelled.
- Heap leaks of buffers that are set to null before they are replaced.
- Glyphs, fonts and the layout inside shapes: a shape draws any image within its box.
- The VGA register writes, the 4-bit linear device and the second VGA device.
- C integer overflow of coordinates and sizes, other than the fields and counters named above.
- Signal trapping, configuration, logging, module loading, iconv and the input method engines.
- `keypad_keysym_redirect` and `keysym_to_term_string`: table look-ups.
