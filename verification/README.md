# Terminal, layout and tooling proofs

A Dafny model of the parts of the repository that draw, read back and account for things: the terminal receiver of the PTY
tests, the differential renderer that writes to it, the line wrapper, the picture rasteriser, the worker pools, the build
cache, and the scripts that compare module lists and check generated README tables. Code that updates state in place is a
class or a method with loops, proved equal to a function of the old state; the theorems are about those functions.

`dafny verify dfyconfig.toml` checks everything.

## What is modelled

- **The receiver** (`Terminal`, `PtyScreens`). `Terminal` is the pure reading of one token of input; the class `PtyScreen` has
  the fields and loops of `createPtyScreen`, and every method is proved to take its state where `Terminal` says. Input is Unicode
  code points. The two questions the receiver asks its host, how wide a text is and whether a character joins the text before
  it, are arbitrary functions; widths are 0, 1 or 2, screens are at least two columns by one row.
- **Runs of the receiver**. `Chunking`: how the input is cut into reads does not matter. `ScrollLog`: the screen is the last rows
  of a terminal that never discards a line. `Tiling`: exactly which input keeps every row a sequence of whole glyphs.
  `Snapshot`: the styled snapshot, fed to an empty receiver, gives the screen back. `Typing`: which input leaves such a screen.
  `Replay`: of the screens aligned input leaves, exactly which come back.
- **Renderer against receiver** (`Renderer`, `Redraw`, `Layout`, `Session`, `Frames`, `LiveSession`). The renderer of
  `apps/cli/src/ui/screen.ts` on the alternate screen: it remembers the text of every row and writes only rows that changed. Over
  any session of frames, resizes, titles, cursor shapes, and repaints after another program drew on the screen, it leaves the
  screen a renderer that writes every row leaves, in every cell and every style, and nothing it writes is unknown to the receiver.
  `Layout` shows, from assumptions about single glyphs and neighbours, that a row takes on the screen the cells the layout counted.
  `Frames` concludes that after any session the receiver shows the last frame, glyph by glyph and style by style, and says exactly
  which frames hide whatever was drawn before. `LiveSession` plays a session on the two objects themselves.
- **The wrapper** (`TerminalRows`, `WrapAgreement`): sound, optimal, and the same rows as the receiver's own wrapping.
- **Pictures** (`MascotRaster`, `Pictures`): cells painted into a flat RGBA buffer, images blended over it, pictures side by side.
- **Schedules** (`WorkerPool`, `EvalSummary`): every interleaving of the pool, and the sorted summary that does not depend on it.
- **The build cache** (`BuildCache`): copy-then-rename under kills and several live processes.
- **Canonical forms and generated text** (`StyleRuns`, `ModuleDiff`, `ReadmeTiers`), and text helpers (`Strings`).

Five places where the code and the promise differ:

- A row with a character without width right after a wide one shows through what was there: the wide character's second cell
  becomes non-empty but keeps the style of an earlier frame (`EarlierStyleShowsThrough`). A frame hides every session before it
  exactly when every non-empty cell of its rows has a style of its own (`HistoryDoesNotMatter`). A caller is safe with glyphs at
  least one cell wide, and with a character without width only after a narrow one.
- A character without width appended to a wide glyph, by moving the cursor onto its second cell, is lost in the styled
  snapshot (`WideAppendIsLost`), and so is a glyph moved next to one it joins. What aligned input draws comes back exactly when no
  cell holds the first and no two neighbours are the second (`SnapshotReturns`, `AlignedSnapshotReturns`); input that appends to
  narrow glyphs only never makes the first (`RunTyped`).
- The rasteriser's cells keep to themselves for cells of five pixels or more and not below (`DotsStayInside`, `SmallCellsLeak`).
- An image without pixels does not leave the picture alone: it blackens its box (`EmptyImageBlackens`).
- A pool given no workers but work to do finishes without results (`FinishedHasAllResults`).

Numbers are exact. For the blend of `overlayImage` this loses nothing: no mean lies half way between two whole
numbers (`MixHasNoTies`), and the nearest such point is at least 1/510 away, far above the rounding of doubles. For scaling it holds
while a pixel coordinate times an image side stays below 2^52.

## Model

| member | source | states |
|---|---|---|
| PtyScreens.PtyScreen.constructor | scripts/pty-screen.ts:3-18 | a new receiver is blank, its cursor at home, nothing pending |
| PtyScreens.PtyScreen.Clear | scripts/pty-screen.ts:13-17 | blanks both grids and homes the cursor; style and counters stay |
| PtyScreens.PtyScreen.NewLine | scripts/pty-screen.ts:19-28 | moves down, or scrolls both grids by one row at the bottom |
| PtyScreens.PtyScreen.EraseLine | scripts/pty-screen.ts:41-45 | erases the part of the cursor's row that the mode names, in the current style |
| PtyScreens.PtyScreen.Csi | scripts/pty-screen.ts:29-62 | every control sequence takes the state where its reading says, and keeps it well shaped |
| PtyScreens.PtyScreen.Place | scripts/pty-screen.ts:97-98 | one glyph and the empty cells it continues into; no other cell changes |
| PtyScreens.PtyScreen.FindLead | scripts/pty-screen.ts:91-93 | the search stays in bounds and finds the nearest non-empty cell, or column 0, or nothing at the left edge |
| PtyScreens.PtyScreen.Put | scripts/pty-screen.ts:107-114 | a character with cells of its own, after a wrap when it does not fit |
| PtyScreens.PtyScreen.Print | scripts/pty-screen.ts:89-115 | join, append or put, as the reading of the character says; indices stay in range |
| PtyScreens.PtyScreen.Take | scripts/pty-screen.ts:66-115 | one turn takes exactly the first complete token, or leaves everything as it was |
| PtyScreens.PtyScreen.Feed | scripts/pty-screen.ts:63-117 | a read drains every complete token after what was pending, terminates, and fails only past the capture limit |
| PtyScreens.PtyScreen.Resize | scripts/pty-screen.ts:120-124 | a blank screen of the new size; style, frame count and unsupported names stay |
| PtyScreens.PtyScreen.Text | scripts/pty-screen.ts:127 | the rows of cells as lines of text |
| PtyScreens.PtyScreen.Ansi | scripts/pty-screen.ts:128-129 | every non-empty cell after a reset and its own style, row by row |
| Terminal.Apply | scripts/pty-screen.ts:29-62 | every action keeps the screen well shaped: both grids rows by cols, cursor row on screen, column at most cols + 1 |
| Terminal.Lead | scripts/pty-screen.ts:91-92 | all cells between the lead and the column are empty, and the lead is column 0 or not empty |
| Terminal.PrintOn | scripts/pty-screen.ts:94-114 | every printable character keeps its row well shaped |
| Terminal.StringEnd | scripts/pty-screen.ts:75 | the first place a control string can end, and none when it reports none |
| Terminal.Next | scripts/pty-screen.ts:66-85 | a complete token is never empty and never longer than the input |
| Terminal.Drain | scripts/pty-screen.ts:66-117 | every input keeps the screen shaped and of its size; what is left is a suffix that is empty or an unfinished escape sequence |
| Chunking.NextOfLongerInput | scripts/pty-screen.ts:70-80 | a token that was complete is the same token when more input is appended |
| Chunking.ControlTokenIsControlSequence | scripts/pty-screen.ts:70 | input that starts ESC [ has a first token of length n exactly when its first n characters are parameters, intermediates and one final byte |
| Chunking.StringTokenEndsAtFirstTerminator | scripts/pty-screen.ts:75 | a control string is skipped up to its first terminator and no further |
| Chunking.FeedAllIsDrain | scripts/pty-screen.ts:63-117 | any sequence of reads within the capture limit computes the drain of the whole stream |
| Chunking.ChunkingDoesNotMatter | scripts/pty-screen.ts:63-117 | two splits of one stream leave the same screen, styles, cursor, counters and pending text; a stream that fits the limit is accepted in every split |
| ScrollLog.AdvanceIsNewLine | scripts/pty-screen.ts:19-28 | opening a line at the bottom of the log is scrolling the screen, and keeps every line above the window |
| ScrollLog.LogApplyIsApply | scripts/pty-screen.ts:29-62 | moves, erases and clears touch the window only |
| ScrollLog.LogPrintIsPrint | scripts/pty-screen.ts:89-114 | printing on the log's window is printing on the screen |
| ScrollLog.LogStepIsStep | scripts/pty-screen.ts:66-115 | one token moves the window of the log as it moves the screen, and changes no line above it |
| ScrollLog.ScreenIsWindowOfLog | scripts/pty-screen.ts:13-117 | for every input the screen is the last rows lines of the log, and lines that left stay unchanged |
| ScrollLog.FreshScreenIsWindowOfLog | scripts/pty-screen.ts:13-117 | the same from an empty screen: the screen is the end of everything ever put on it |
| Tiling.PlacedTiled | scripts/pty-screen.ts:111-113 | a glyph with room keeps a row tiled exactly when it starts and ends between glyphs |
| Tiling.FilledTiled | scripts/pty-screen.ts:41-45 | an erase keeps a row tiled exactly when its ends lie between glyphs |
| Tiling.AppendedTiled | scripts/pty-screen.ts:103-106 | a character without width keeps a row tiled exactly when the cell before the cursor starts a glyph and keeps its width |
| Tiling.StepTiled | scripts/pty-screen.ts:29-115 | a token keeps a tiled screen tiled exactly when it is aligned where it lands |
| Tiling.RunTiled | scripts/pty-screen.ts:66-117 | every screen along a run is tiled exactly when every token of it is aligned |
| Tiling.TiledRowFillsTheScreen | scripts/pty-screen.ts:127 | the glyph widths of a tiled row add up to the screen's width |
| Tiling.TextIsRowsByCols | scripts/pty-screen.ts:127 | after an aligned run, text() splits into exactly rows lines, each the cells of its row and as wide as the screen |
| Snapshot.DrainStylesReplay | scripts/pty-screen.ts:51-54 | whatever is fed, every style on the screen is a run of SGR sequences none of which resets |
| Snapshot.StyleFed | scripts/pty-screen.ts:51-54 | feeding such a style to a screen without one sets exactly that style |
| Snapshot.GlyphFed | scripts/pty-screen.ts:84-115 | typing a composed glyph at a free column puts exactly it there and moves the cursor past it |
| Snapshot.SnapshotRoundTrip | scripts/pty-screen.ts:129 | the rows of ansi(), fed with CR LF to an empty screen of the same size, give the same cells, the same style on every non-empty cell, and an equal ansi(); for every tiled screen of typed cells whose neighbours do not join |
| Snapshot.ReachedSnapshotRoundTrip | scripts/pty-screen.ts:63-129 | the same for a screen any input reaches: its styles always qualify |
| Typing.StepTyped | scripts/pty-screen.ts:29-115 | a token keeps a screen of tiled rows and composed cells one exactly when it is aligned and appends a character without width to a narrow glyph only |
| Typing.RunTyped | scripts/pty-screen.ts:66-117 | every screen along a run has tiled rows and composed cells exactly when every token of it is such |
| Typing.RunGrown | scripts/pty-screen.ts:89-114 | aligned input leaves cells that grew one character at a time, each joining or without width and keeping the width, inside the row all the way |
| Replay.PrintOnMarks | scripts/pty-screen.ts:94-114 | a printed character adds at most itself to its row; a cell it touches grows, or what the cell held is gone |
| Replay.RunStands | scripts/pty-screen.ts:66-117 | under any input that never moves back, what a cell starts with stands at its place in the rows above the cursor, unless characters were lost for good |
| Replay.ScreenRuins | scripts/pty-screen.ts:129 | replaying the snapshot of a screen with a cell that cannot be typed goes wrong at the first such cell, with every row above it right |
| Replay.SnapshotReturns | scripts/pty-screen.ts:129 | the snapshot of a tiled screen of grown cells gives back the same cells exactly when every cell is composed as typed and no glyph joins the one on its left, and then an equal ansi() |
| Replay.AlignedSnapshotReturns | scripts/pty-screen.ts:63-129 | the same equivalence for whatever any aligned input draws |
| Replay.TypedSnapshotRoundTrip | scripts/pty-screen.ts:63-129 | what input that appends to narrow glyphs only draws comes back exactly when no two neighbours join |
| Replay.WideAppendIsLost | scripts/pty-screen.ts:103-106 | a tiled screen without joins whose snapshot does not come back: a wide glyph with a character without width appended, for every such pair |
| Renderer.NarrowCutIsWalk | apps/cli/src/view/wrap.ts:75-94 | the fast cut of narrow text is the walk over its cells |
| Renderer.DifferentialRenderer.Take | apps/cli/src/view/wrap.ts:85-93 | the walk gives the longest prefix that fits and its width, line breaks dropped |
| Renderer.DifferentialRenderer.EncodeLine | apps/cli/src/ui/screen.ts:14-29 | a row's escape string and the cells it fills, span by span, stopping when the row is full |
| Renderer.DifferentialRenderer.Draw | apps/cli/src/ui/screen.ts:247-293 | one frame writes exactly the rows whose encoding changed, between the synchronisation marks, and remembers every row |
| Renderer.DifferentialRenderer.Resize | apps/cli/src/ui/screen.ts:234-242 | a resize forgets every row and erases the screen |
| Renderer.DifferentialRenderer.SetCursorShape | apps/cli/src/ui/screen.ts:208-213 | the shape is remembered, and written only when it changes |
| Renderer.DifferentialRenderer.SetTitle | apps/cli/src/ui/screen.ts:214-221 | a title is remembered and written only when titles are on and it changes |
| Redraw.TextPaints | scripts/pty-screen.ts:84-115 | row text changes the cursor's row only, as the same text painted on that row alone |
| Redraw.PaintAgrees | scripts/pty-screen.ts:89-114 | what row text paints left of where it stops does not depend on what was there |
| Redraw.PaintKeepsInks | scripts/pty-screen.ts:89-114 | a style the row text has not set is the style that was there |
| Redraw.RedoneTwice | apps/cli/src/ui/screen.ts:274-278 | drawing a row once more over itself changes no cell and no style, which is why an unchanged row need not be written |
| Redraw.HistoryHidden | apps/cli/src/ui/screen.ts:274-278 | a row looks alike whatever it was drawn over exactly when every non-empty cell of its picture has a style of its own |
| Redraw.RowTextFed | apps/cli/src/ui/screen.ts:276-279 | a row's text and the erase after it redo the cursor's row, and change nothing else but the cursor |
| Redraw.MoveFed | apps/cli/src/ui/screen.ts:276-278 | the absolute move the renderer writes is read as that row and column |
| Redraw.RowFed | apps/cli/src/ui/screen.ts:270-282 | drawing a row redoes that row and leaves every other row, the counters and the style alone |
| Redraw.ChangedRowsFed | apps/cli/src/ui/screen.ts:270-282 | writing the changed rows over a screen the renderer knows leaves every row as if it had been written |
| Layout.KeptIsTaken | apps/cli/src/view/wrap.ts:80-94 | the cut of a span is the text of the pieces that fit, tabs as four blanks and line breaks dropped, and as wide |
| Layout.LaidKeeps | apps/cli/src/view/wrap.ts:85-93 | pieces without width are laid into the glyph on their left, across spans, without changing the text or the width of a row |
| Layout.PaintPieces | apps/cli/src/view/wrap.ts:51-56 | what is written of a row lands in the glyphs the layout laid it into, side by side, each in its cells and the style it started in |
| Layout.SoundLineMeasured | apps/cli/src/view/wrap.ts:51-56 | a sound row is measured alike by layout and receiver; its picture is the glyphs that fit, each in its cells and in its span's style, then blanks without a style |
| Session.FrameFed | apps/cli/src/ui/screen.ts:266-293 | one frame redoes every row, written or not, counts once, leaves nothing pending, places the cursor, and keeps what the renderer remembers true |
| Session.DifferentialIsFull | apps/cli/src/ui/screen.ts:35-38 | writing only the changed rows gives the same screen as writing all of them, every cell and every style, and an equal ansi(); with a cursor, the same cursor too |
| Session.ForgottenReady | apps/cli/src/ui/screen.ts:227-233 | a renderer that forgot what it drew agrees with a screen exactly when no style is in force and the one cell it never writes is blank, whatever else another program left |
| Session.EventKeepsReady | apps/cli/src/ui/screen.ts:209-293 | every frame, resize, title, cursor shape, and every invalidation after another program drew anything but that one cell, keeps receiver and renderer in agreement |
| Session.SessionKeepsReady | apps/cli/src/ui/screen.ts:209-293 | so does any session; each frame is counted once and nothing written is unsupported |
| Session.DifferentialSessionIsFull | apps/cli/src/ui/screen.ts:35-38 | over any session, the renderer that remembers rows leaves the screen of one that writes every row of every frame |
| Session.LastFrameShown | apps/cli/src/ui/screen.ts:247-293 | after any session, every row of the receiver is the picture of the last frame's encoding: its cells, and the styles the encoding sets |
| Session.AnyReadsPlaySession | scripts/pty-screen.ts:63-117 | however the bytes of a session are cut into reads, the receiver ends where the session ends |
| Session.EnterStartsSession | apps/cli/src/ui/screen.ts:160-168 | entering starts a session: a blank screen and a renderer that remembers nothing |
| Frames.SoundFrameMeasured | apps/cli/src/view/wrap.ts:51-56 | a frame of sound rows is measured alike by layout and receiver, and every non-empty cell of it has a style of its own |
| Frames.SoundFrameShown | apps/cli/src/ui/screen.ts:247-293 | after any session that ends in a frame of sound rows, the receiver shows exactly its glyphs, cut to each row's room, each in its own cells and in its span's style, then blanks without a style |
| Frames.HistoryDoesNotMatter | apps/cli/src/ui/screen.ts:247-293 | any two sessions that end in a frame on screens of one size leave equal snapshots exactly when every non-empty cell of the frame has a style of its own |
| Frames.EarlierStyleShows | apps/cli/src/ui/screen.ts:274-278 | for every frame with another cell, two sessions that end in it and leave different snapshots |
| Frames.EarlierStyleShowsThrough | apps/cli/src/ui/screen.ts:274-278 | such a frame is one row of a wide character and one without width, for every such pair |
| LiveSession.PlayOne | apps/cli/src/ui/screen.ts:209-293 | what the renderer object writes in one event takes the receiver object to the screen of that event, a title or shape already set being left out |
| LiveSession.PlaySession | apps/cli/src/ui/screen.ts:209-293 | any session played on the two objects ends in the screen and the memory the session theorems speak of, and only stops early past the capture limit |
| TerminalRows.TerminalRows | scripts/render-b67-frames.ts:8-24 | the nested loops compute the greedy rows of every line, in order |
| TerminalRows.LineRowsSound | scripts/render-b67-frames.ts:10-22 | a line's rows put together are the line with tabs expanded, every break was forced, and every row fits exactly when every cell does |
| TerminalRows.ExpandedIsTabsExpanded | scripts/render-b67-frames.ts:13 | the expanded line is the line with each tab replaced by one to eight spaces |
| TerminalRows.TabReachesStop | scripts/render-b67-frames.ts:13-18 | a tab that fits on its row ends on a multiple of eight columns |
| TerminalRows.FillNeedsNoMore | scripts/render-b67-frames.ts:14-19 | against any split of the text to come into fitting rows, the wrapper ends with no more rows, or with one more when the split's first row does not fit after the row begun |
| TerminalRows.LineRowsOptimal | scripts/render-b67-frames.ts:10-22 | no order-preserving split of a line into fitting rows uses fewer rows |
| WrapAgreement.WrappersAgree | scripts/pty-screen.ts:102-114 | tab-free text of plain characters, fed with CR LF, leaves on the screen the last rows of terminalRows, padded with blanks |
| MascotRaster.Fill | scripts/mascot-raster.ts:51-54 | paints exactly the pixels of the rectangle that lie on the raster; all indices are in range |
| MascotRaster.DrawCell | scripts/mascot-raster.ts:64-85 | the fills of one cell, on top of what was painted |
| MascotRaster.RasterLines | scripts/mascot-raster.ts:45-90 | the picture is the last fill over each pixel, cell by cell over the background |
| MascotRaster.DotsStayInside | scripts/mascot-raster.ts:75-83 | every dot of the glyph grid lies in its cell exactly when cells are five pixels or more |
| MascotRaster.CellWithin | scripts/mascot-raster.ts:64-85 | every fill for a character lies in that character's cell, whatever the character |
| MascotRaster.CellMoved | scripts/mascot-raster.ts:63-85 | a character is drawn alike wherever its cell is |
| MascotRaster.EachPixelIsItsCells | scripts/mascot-raster.ts:45-90 | every pixel of the buffer belongs to one cell, and is a function of that cell's character and style |
| MascotRaster.SmallCellsLeak | scripts/mascot-raster.ts:76-83 | for every cell size from one to four the page " E" paints a pixel of its blank cell |
| MascotRaster.BlocksAreExact | scripts/mascot-raster.ts:1-5 | blocks and half blocks are exact at every size: ink in their half, background in the other |
| MascotRaster.GlyphIsItsBitmap | scripts/mascot-raster.ts:75-83 | a glyph is its five by seven bitmap with every bit blown up to a square |
| MascotRaster.BoxIsItsArms | scripts/mascot-raster.ts:68-74 | a box-drawing glyph is inked exactly on its arms |
| MascotRaster.ArmsMeet | scripts/mascot-raster.ts:68-74 | arms that cross a shared edge meet at the same pixels, and a missing arm leaves its edge clear |
| Pictures.Mix | scripts/mascot-raster.ts:105 | a blended channel lies between image and old value, is the image's when opaque and the old one when clear |
| Pictures.OverlayPixel | scripts/mascot-raster.ts:99-106 | one step changes the three colour channels of one pixel, or nothing |
| Pictures.OverlayImage | scripts/mascot-raster.ts:97-108 | the loops change each pixel of the box on the raster once and no other |
| Pictures.NearestOnImage | scripts/mascot-raster.ts:100 | scaling shows image pixel n at a place exactly when the place starts in the share of n, and never leaves the image |
| Pictures.OverlayBlendsNearest | scripts/mascot-raster.ts:97-108 | each pixel of the box is blended with its nearest image pixel; the guards against leaving the image never act |
| Pictures.OverlayStaysBetween | scripts/mascot-raster.ts:105 | the alpha channel stays and every colour channel ends between image and old value |
| Pictures.OverlayTwice | scripts/mascot-raster.ts:101-105 | where the image is opaque or clear the overlay is the image or nothing, and a second overlay changes nothing |
| Pictures.ScaledToSquares | scripts/mascot-raster.ts:92-100 | in a box k times its size, every image pixel becomes a k by k square |
| Pictures.EmptyImageBlackens | scripts/mascot-raster.ts:100-105 | an image without pixels turns its box black |
| Pictures.RasterRow | scripts/mascot-raster.ts:111-123 | pictures side by side: the total width, the greatest height, every part over the background |
| Pictures.PartIsKept | scripts/mascot-raster.ts:119-123 | every pixel of every part is kept at the part's offset |
| Pictures.GapIsGround | scripts/mascot-raster.ts:115-118 | a pixel under no part is background |
| WorkerPool.RunSafe | scripts/eval-extend.ts:824-831 | in every interleaving indices are claimed once each and in order, at most min(jobs, n) works are in flight, the results stored are exactly those of the works that ended, and every action uses up one of the 2n + min(jobs, n) there can be |
| WorkerPool.RunNeverStuck | scripts/eval-extend.ts:827-829 | while a worker has not stopped, some action is enabled |
| WorkerPool.FinishedWithWorkers | scripts/eval-extend.ts:824-831 | a run that finishes has the result of every item and took exactly two actions an item and one a worker |
| WorkerPool.FinishedHasAllResults | scripts/eval-extend.ts:824-831 | a finished pool has every result exactly when it was given a worker or nothing to do |
| WorkerPool.RunPool | scripts/eval-extend.ts:824-831 | the pool itself, under any scheduling, ends with every result when there is a worker |
| EvalSummary.SortedIsUnique | scripts/eval-customize.ts:238 | without ties there is one sorted order |
| EvalSummary.TieIsAmbiguous | scripts/eval-customize.ts:238 | with a tie between different results there is always another sorted order |
| EvalSummary.JobsDistinct | scripts/eval-customize.ts:225 | distinct cases give distinct jobs, and every case is a job once in every run |
| EvalSummary.PushedAgree | scripts/eval-customize.ts:226-232 | completion orders push the same results, nothing lost or doubled |
| EvalSummary.SummaryIgnoresSchedule | scripts/eval-customize.ts:225-238 | any two runs with any numbers of workers end with one and the same sorted results, a permutation of the job results |
| BuildCache.NamesApart | scripts/perf-attrib.ts:307-323 | cache names and partial names are never equal, and different commits or processes have different ones |
| BuildCache.StepKeeps | scripts/perf-attrib.ts:306-326 | every step of every process, and every kill, keeps the cache whole |
| BuildCache.CacheNeverServesHalf | scripts/perf-attrib.ts:306-326 | after any run, every name in the cache holds a whole build of its commit, and a completed take has that or nothing |
| BuildCache.KeptIsFound | scripts/perf-attrib.ts:309-326 | once a build is renamed into place every later take of its commit finds it, and has a whole build when it ends, through every run |
| ModuleDiff.CountSizes | scripts/perf-attrib.ts:350 | the map counts the non-zero sizes of the list |
| ModuleDiff.Unmatched | scripts/perf-attrib.ts:351 | the multiset difference of the two counts, largest first |
| ModuleDiff.ModuleDiff | scripts/perf-attrib.ts:348-355 | nothing when a list is missing or empty, else the counts, the totals and both unmatched lists |
| ModuleDiff.DiffConserves | scripts/perf-attrib.ts:347-355 | base with added is cand with removed, added and removed are disjoint, and the totals differ by their sums |
| ModuleDiff.DiffSwaps | scripts/perf-attrib.ts:348-355 | swapping the sides swaps added and removed, list for list |
| ReadmeTiers.TiersMatchExactly | scripts/readme-tiers.ts:22-29 | the check passes exactly when the README holds the table with each marker once and nowhere else |
| ReadmeTiers.CellIsSafe | scripts/readme-tiers.ts:7 | no cell holds an angle bracket or a line break |
| ReadmeTiers.CellBarsEscaped | scripts/readme-tiers.ts:7 | every column bar in a cell follows a backslash |
| ReadmeTiers.RenderedTable | scripts/readme-tiers.ts:9-20 | the table is its markers around text without a single angle bracket that opens, one line a feature between four fixed ones |
| ReadmeTiers.RenderedTableMatches | scripts/readme-tiers.ts:9-29 | a README around the rendered table passes exactly when neither marker is before or after it |
| StyleRuns.RunsOf | scripts/readme-images.ts:52-70 | the loops give the runs of the row's styled cells, however its spans were split |
| StyleRuns.RunsTile | scripts/readme-images.ts:51-70 | runs lie side by side from column 0 to the row's width, neighbours differ in style, their texts are the row's text |
| StyleRuns.CellStyleKept | scripts/readme-images.ts:57-66 | over every column of a cell lies a run of the cell's resolved style |
| StyleRuns.CutIsUnique | scripts/readme-images.ts:62-65 | there is one way to cut a row where its style changes and nowhere else |
| StyleRuns.RunsAreCanonical | scripts/readme-images.ts:51-70 | any runs that describe the row cut that way are the runs of the row |
| StyleRuns.SplitDoesNotMatter | scripts/readme-images.ts:56-68 | cutting a span in two between cells gives the same runs |

## Left out

- Input is code points: a character outside the basic plane right after a bare ESC, which the receiver drops as two UTF-16 units, is not modelled; the capture limit does count UTF-16 units.
- `Intl.Segmenter` and `Bun.stringWidth` are arbitrary functions; the facts each theorem needs of them are its stated conditions.
- Screens narrower than two columns, where a wide glyph never fits.
- The scroll log and the byte stream of a session are stated between resizes; sessions with resizes are covered event by event.
- Of the renderer: inline mode, image layers, keyboard protocol, held frames and leaving; the colour codes inside a style and the host's choice of links are inputs of the model.
- Session.DifferentialIsFull: where a frame without a cursor leaves the hidden cursor, which does depend on the rows written.
- Replay.SnapshotReturns: for screens aligned input leaves; what comes back of a screen with half glyphs is not stated.
- Session.EventKeepsReady: another program that leaves a style in force, or something in the bottom-right cell, which no frame ever writes.
- LiveSession.PlaySession: what another program draws between two events is not played on the receiver object.
- `cells` and the cleaning of titles are inputs: rows arrive as measured graphemes, titles as printable text.
- Works of a pool that reject, and the console output of the evaluation.
- The host's sorts are modelled as any sorted permutation; for module sizes an insertion sort stands in.
- EvalSummary.SummaryIgnoresSchedule: each job's result is taken to be the same in both runs; timings in the results are not modelled.
- BuildCache: a read or copy moves one block at a time and renames are atomic, as the file system promises; architecture names are assumed to hold no dash and not to be plain numbers; losing power and a full disk are not modelled.
- Pictures.OverlayImage: the image and the raster are different buffers; blending a raster over itself is not modelled.
- Pictures.RasterRow: at least one part, as the host's maximum of nothing is not a size.
- MascotRaster: the glyph table is any map to five by seven dots, `rgb` and the 256-colour mapping are any functions of a colour's text; the theme has a text colour.
- ReadmeTiers.RenderedTableMatches: feature ids and document paths are assumed to hold no angle bracket that opens and no line break, as the feature list promises.
- StyleRuns: lower-casing of colours is that of ASCII text; drawing the runs as SVG would only add number formatting.
- Process spawning, PTYs, sockets, timers, and the scripts that only drive them.
