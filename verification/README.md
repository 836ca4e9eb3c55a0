# Verified model of the boot menu's state machines and algorithms

This Dafny project models the parts of the repository that are easy to get wrong, and proves what
they are for. Run `dafny verify dfyconfig.toml` in this directory to check all of it.

| files | models |
|---|---|
| `ArqSpec`, `ArqRuns`, `ArqPosts`, `ArqRequests` | the ARAM transfer scheduler: a specification as a state machine, its properties over all runs, what callers get for their posts, and the linked-list code that refines it |
| `Grid`, `Banners`, `Menu` | the scrolling game grid, the pool of 128 banner buffers and the cursor, and all three together |
| `Arith64` | 64-bit division for a 32-bit machine |
| `Mutexes`, `MessageQueue` | recursive mutexes on intrusive lists; the blocking message queue |
| `DiscScreen` | the frame-stepped disc banner read, its buttons and the enumeration thread |
| `PrintfSpec`, `PrintfLaws`, `Printf`, `PrintfStandard`, `PrintfFormats` | the bounded formatter: text of a format, the code, how it relates to the C standard, and whole formats piece by piece |
| `IniSpec`, `Ini`, `IniGet`, `IniRoundTrip` | the in-place settings reader, lookup and the round trip with a printer |
| `Tiler` | the texture tiler against the random-access pixel functions |
| `Scramble` | the ROM scrambler in C and in Python |
| `Crc` | the nibble-table CRC-32 |
| `Common` | an option type, minimum and maximum |

The code that updates state is modelled as classes and methods over arrays and linked objects, and
each method is proved against a function of its inputs or of the old state. Machine words are
integers with every wrap-around written out, or bit-vectors where the code works on bits. Positions
on the screen are exact multiples of 1/150 pixel, in which every distance of the grid is whole.

## Conventions

- Hardware is visible only through events: starting a DMA appends to a log, drive answers and the
  cover switch are parameters of a frame, a card read is a parameter saying whether it worked.
- Interrupts are off in the bodies of the OS calls, so threads interleave only where one goes to
  sleep; one pass of a lock, send or receive loop is one step, and a woken thread repeats its pass.
- The formatter's arguments are a function from position to what fetching there yields, so that there
  is always a value; it is converted to the type fetched. A signed argument fetched as the unsigned
  type of its size, or the other way round, keeps its bits. The text of the floating-point
  conversions is a parameter. Reading past the arguments of a format is undefined in C and not
  described here.
- The standard's text with the quote flag (of SUSv2) supposes a locale that separates groups of three
  digits with a comma, as the code does; in the "C" locale nothing separates them.

## Where code and documentation differ

The model follows the code.

- The formatter's comments cite the C standard. `PrintfStandard.DirectiveConforms` says exactly when
  a directive prints the standard's text. The failing families, each with an input: 0 with precision
  0 (`ZeroIsPrinted`), `%c` with a width (`CharIgnoresWidth`), a negative `%zd` (`SizeIsUnsigned`),
  `%jd` values beyond 32 bits (`WideIsCut`), separators where more digits are wanted
  (`SeparatorEatsZero`, and `WidthLaw` for the width). `ll` and unsigned `j` fetch a 64-bit argument
  with a 32-bit type, which C leaves undefined: for them no value is safe (`WideIsUndefined`). Digits
  before a `*` are accepted and replaced by it (`FieldConforms`).
- An entry with an empty quoted value is stored in a settings file and wiped by the splitter, so a
  lookup finds a later entry or none (`IniRoundTrip.FirstMatch` is the exact condition).
- The Z branch of the input handler does not return; pressing Z with another button, or moving the
  stick, in the same frame can start enumeration, a boot or a file read while the drive is in bypass
  (`DiscScreen.Screen.BrowserInputs` is the exact condition).
- An executable reaching past 0x1AFF00 is not restored by the loader, except by coincidence
  (`Scramble.RoundTrip`).

## Model

| member | source | states |
|---|---|---|
| ArqRuns.RunKeepsInv | patches/source/decomp_arq.c:26-169 | Every run of posts and DMA completions, with any posts made inside callbacks, keeps the invariant: in each priority the jobs called back, in flight and queued are, in this order, exactly those posted; the DMAs logged are the tiles of the first two, as far as issued; the two callbacks are never armed together; nothing waits while idle. |
| ArqRuns.FiresInPostOrder | patches/source/decomp_arq.c:79-97 | In every run, the callbacks that have fired in one priority are exactly a prefix of the jobs posted in it, so each fires at most once and in post order. |
| ArqRuns.StartsInPostOrder | patches/source/decomp_arq.c:26-75 | In every run, the DMAs started in one priority are a prefix of the concatenated tiles of the jobs posted in it: requests start in post order, and low ones are not interleaved. |
| ArqRuns.CallbackSeesItsTransfer | patches/source/decomp_arq.c:79-90 | When a callback fires, the DMAs logged for its job up to that moment are exactly the job's tiles, all of them and in order, and its callback never fires again. |
| ArqRuns.TilesMoveTheRange | patches/source/decomp_arq.c:51-74 | The tiles of a job move byte i of the original source to byte i of the original destination, for every i below the original length, each once and in order: no gap, no overlap, although the code overwrites source, dest and length. |
| ArqRuns.TilesAtFinish | patches/source/decomp_arq.c:51-63 | At the interrupt that ends a job, the transfers started for it are all its tiles. |
| ArqRuns.OneInFlight | patches/source/decomp_arq.c:92-96 | In every run the transfers started exceed the completion interrupts by one while busy and by none while idle: at most one DMA is ever in flight. |
| ArqRuns.BusyPostsOnlyQueue | patches/source/decomp_arq.c:160-166 | Posts made while something is pending, as inside every callback, start no transfer and only lengthen the queues. |
| ArqRuns.CompleteCosts | patches/source/decomp_arq.c:79-97 | The count of transfers left drops by exactly one at each completion, plus the tiles of what its callback posts. |
| ArqRuns.PostCosts | patches/source/decomp_arq.c:160-166 | A post starts a transfer exactly when it turns an idle controller busy. |
| ArqRuns.DrainsExactly | patches/source/decomp_arq.c:43-97 | With nothing more posted, the measure of transfers left drops by one at every completion, and the controller is idle, with every posted job called back, after exactly that many and no sooner. |
| ArqRuns.TilesCost | patches/source/decomp_arq.c:46-75 | The transfers of a list of jobs number one per high request and max(1, ceil(length/4096)) per low request, which is what they cost in completions. |
| ArqRuns.HighNext | patches/source/decomp_arq.c:92-96 | If a high request is queued, the next completion puts the oldest one in flight and starts no low chunk, whatever its callback posts. |
| ArqRuns.HighRunFirst | patches/source/decomp_arq.c:92-96 | All high requests queued at a chunk boundary run, in order, before the next low chunk, whatever is posted meanwhile, by callbacks or between completions. |
| ArqPosts.RunMatches | patches/source/decomp_arq.c:118-169 | In every run the jobs posted are the accepted posts word for word: the k-th has the kind, source, dest and length of the k-th post with priority 0 or 1, is high exactly for priority 1, and calls back the routine given, or the do-nothing one for null. |
| ArqPosts.PostMoves | patches/source/decomp_arq.c:26-169 | In every run, when the callback of the k-th accepted post fires, it is the routine that post gave, and the transfers logged for it have moved, for every i below its length and in order, between main memory source + i and ARAM dest + i for kind 0 and between main memory dest + i and ARAM source + i otherwise, modulo 2^32: in one transfer at priority 1, in max(1, ceil(length/4096)) of at most 4096 bytes at priority 0. |
| ArqRequests.TileAt | patches/source/decomp_arq.c:52-73 | Tile k of a low request starts 4096k bytes in and is the last one exactly when at most 4096 bytes remain. |
| ArqRequests.RestTile | patches/source/decomp_arq.c:52-69 | The transfer the code reads off the overwritten words, modulo 2^32, is the next tile of the original request, and the callback is armed with the last one only. |
| ArqRequests.Scheduler.constructor | patches/source/decomp_arq.c:107-113 | The queues start empty, with nothing pending and no callback armed. |
| ArqRequests.LinkTail | patches/source/decomp_arq.c:139-144 | Linking at the tail pointer, or at the head of an empty queue, makes the linked list one longer at its end and writes nothing but one link. |
| ArqRequests.Scheduler.PopTaskQueueHi | patches/source/decomp_arq.c:26-41 | The pointer code takes the oldest high request, starts its whole range and arms its callback. |
| ArqRequests.Scheduler.TakeNextLo | patches/source/decomp_arq.c:46-49 | With no low request in flight, the oldest queued one is taken. |
| ArqRequests.Scheduler.StartChunk | patches/source/decomp_arq.c:51-74 | The next tile of the pending low request is started; the overwritten words still describe what is left, also when they wrap. |
| ArqRequests.Scheduler.ServiceQueueLo | patches/source/decomp_arq.c:43-75 | Both halves together are the specification's low-priority step. |
| ArqRequests.Scheduler.StartNext | patches/source/decomp_arq.c:92-96 | A queued high request, else a low chunk, else nothing. |
| ArqRequests.Scheduler.PostRequest | patches/source/decomp_arq.c:118-169 | Posting appends to the queue of its priority and drops any other priority; it starts a transfer only from idle, and while busy leaves what is pending alone. What the request then moves is the caller's own range: see PostMoves and ReachedMoves. |
| ArqRequests.Scheduler.Call | patches/source/decomp_arq.c:82-88 | A callback's posts, run while its own request is still pending, refine the same number of specification posts. |
| ArqRequests.Scheduler.FinishPending | patches/source/decomp_arq.c:81-90 | The armed callback runs, high before low, and only then is its request cleared; an unfinished low request stays. |
| ArqRequests.Scheduler.InterruptServiceRoutine | patches/source/decomp_arq.c:79-97 | The interrupt routine is the specification's completion step; the high callback is armed exactly while a high request is pending, the low one exactly while a last chunk is in flight, never both; only the requests posted become known to the scheduler. |
| ArqRequests.Scheduler.PostNext | patches/source/decomp_arq.c:118-169 | Posting on the heap extends the run of the specification it has been through by one post. |
| ArqRequests.Scheduler.InterruptNext | patches/source/decomp_arq.c:79-97 | The interrupt on the heap extends it by one completion. |
| ArqRequests.Scheduler.ReachedKeeps | patches/source/decomp_arq.c:26-169 | So the state of the linked-list scheduler after any such run satisfies the invariant, fired and started in post order, tiled every finished request, and has at most one transfer in flight. |
| ArqRequests.Scheduler.ReachedMoves | patches/source/decomp_arq.c:26-169 | So the log of the linked-list scheduler itself shows, for every accepted post whose callback has fired, exactly the bytes and the routine that post asked for. |
| ArqRequests.Scheduler.Run | patches/source/decomp_arq.c:26-169 | Every run of the specification can be gone through by the pointer code. |
| Grid.FrameKeepsPlace | patches/source/grid.c:344-412 | A frame of animation moves a line by part of its remaining distance and leaves its final position unchanged; the 0.1 cut-off discards nothing. |
| Grid.FrameSpeed | patches/source/grid.c:348-412 | A frame moves a line with one animation pending 392/150 pixels, with more 448/150, or what remains if that is less, in the direction of the animation. |
| Grid.RowTakes22 | patches/source/grid.c:344-412 | A line sent a row of 56 pixels arrives on the 22nd frame and one sent half a row on the 11th, and neither before. |
| Grid.SettlesWithin | patches/source/grid.c:383-412 | Once frames alone are run, the line's distance and pending count are both zero after 135 of them. |
| Grid.UpRows | patches/source/grid.c:184-201 | The two visibility tests of the upward dispatch hold of exactly the row just above the window and of the four visible rows. |
| Grid.UpMoves | patches/source/grid.c:184-201 | Whichever branch the upward dispatch takes, the line ends exactly one row further down. |
| Grid.UpStays | patches/source/grid.c:184-195 | With no line above the window the first visible line is taken for the one moving in, and does not move. |
| Grid.DownRows | patches/source/grid.c:270-295 | The tests of the downward dispatch hold of exactly the row just below the window and of the four visible rows. |
| Grid.DownMoves | patches/source/grid.c:270-295 | Whichever branch the downward dispatch takes, the line ends exactly one row further up. |
| Grid.RowTests | patches/source/menu.c:1512-1531 | The menu's two position tests are equivalent to being the last, or the first, visible row. |
| Grid.Browser.Setup | patches/source/grid.c:62-100 | After set-up every line's final position is 104 + 56 (line - top) pixels and the cursor is in the window. |
| Grid.Browser.JumpToSlot | patches/source/grid.c:107-135 | A jump to an existing slot clamps the top line to the last full window, re-establishes the position law and leaves the cursor in the window; a negative slot changes nothing. |
| Grid.Browser.AddAnim | patches/source/grid.c:137-153 | Only this line changes: the animation and its distance are added unless the list is full, and pending ones the other way are forgotten but not their distance. |
| Grid.Browser.NavigateUp | patches/source/grid.c:156-222 | The dispatch is refused exactly when some line still moves up, and then changes nothing. Otherwise every line keeps the position law for the window one line up; lines on rows 0 to 4 keep the place they are drawn at and gain one animation of 56 pixels downwards, the line entering starts 28 pixels short of its place with 28 pixels to go, all others jump with nothing added; a dispatch the other way is refused from then on. At the start of the list the first line is left behind. |
| Grid.Browser.NavigateDown | patches/source/grid.c:224-316 | The same for the window one line down, with rows 0 to 3 animated upwards and the line of row 4 entering. |
| Grid.Browser.DownFromRest | patches/source/grid.c:224-412 | From rest, a scroll down is followed by exactly 22 frames in which the scroll up is refused. |
| Grid.Browser.UpdatePositions | patches/source/grid.c:344-412 | A frame over all lines keeps the position law and changes neither cursor nor window. |
| Grid.Browser.RunFrames | patches/source/grid.c:344-412 | From the 135th frame without a dispatch on, no line moves, so no dispatch is refused; every line keeps its place. |
| Banners.CoverFits | patches/source/games.c:1050-1096 | At every scroll position, from either kind of start, the window's banners together with what the start left behind number at most 128. |
| Banners.WindowUp | patches/source/games.c:1060-1072 | Scrolling back, freeing and loading the two lines the code picks turns what serves one window into what serves the next. |
| Banners.WindowDown | patches/source/games.c:1073-1086 | The same scrolling on. |
| Banners.FullPrefixCovers | patches/source/games.c:879-892 | When the scan fills the pool before the folder ends, its 128 banners cover the first window. |
| Banners.LinesAround | patches/source/games.c:1298-1310 | The lines the background loader picks around the last-played game include the window it will jump to. |
| Banners.Pool.GetBuf | patches/source/games.c:128-137 | The first free buffer is taken; none is returned exactly when all 128 are used. |
| Banners.Pool.FreeBuf | patches/source/games.c:139-142 | The one buffer is given back; a null pointer changes nothing. |
| Banners.Pool.CountBuf | patches/source/games.c:144-151 | The number of used flags is the number of loaded entries. |
| Banners.Pool.Free | patches/source/games.c:321-338 | Freeing a loaded banner gives back its own buffer and no other; freeing again or freeing an idle entry changes nothing, and one still loading is only marked. |
| Banners.Pool.Occupy | patches/source/games.c:727-741 | A buffer nobody owns becomes the entry's, unless the pool is empty, which leaves the load unfinished. |
| Banners.Pool.Load | patches/source/games.c:669-753 | Loading makes exactly this entry loaded, when it has a banner, the read works and a buffer is free; loading a loaded entry changes nothing. |
| Banners.Pool.LoadLine | patches/source/games.c:1263-1274 | One line's banners are loaded and no others, never meeting an empty pool when the result fits it. |
| Banners.Pool.LineLoad | patches/source/games.c:1009-1030 | On scroll, a line's banners are read only in sliding-window mode. |
| Banners.Pool.LineFree | patches/source/games.c:1032-1048 | In sliding-window mode exactly the line's banners are freed; otherwise nothing is. |
| Banners.Pool.LineChanged | patches/source/games.c:1050-1096 | A scroll by one line either way keeps the window's banners loaded and never meets an empty pool, because a line is freed before one is loaded. |
| Banners.Pool.ScanEntry | patches/source/games.c:875-892 | One scanned entry: loaded while the pool has room; the first one after that switches to the sliding window, and from then on none is loaded. |
| Banners.Pool.CheckFiles | patches/source/games.c:822-892 | The scan loads banners in order until the pool is full and then, and only then, switches to the sliding window; a last-played scan loads none. |
| Banners.Pool.BgLoadLastPlayed | patches/source/games.c:1282-1326 | The background loader loads the window around the game, and the whole folder exactly if its games and apps number at most 128; it leaves the state scrolling relies on. |
| Banners.Pool.ClampedTop | patches/source/games.c:1295-1302 | The top line it loads around is the one the jump will show. |
| Banners.Pool.ReleaseAll | patches/source/games.c:1579-1597 | A folder change leaves no entry loaded and all 128 buffers free, also after a load that found none. |
| Menu.SlotTests | patches/source/menu.c:1506-1525 | The menu's two slot tests say exactly that the selected row is the last, or the first, of the list. |
| Menu.MoveMeans | patches/source/menu.c:1484-1545 | In rows and columns: Right and Left change the column by one inside the row and stop at its ends; Down and Up change the row by one in the same column, scroll exactly from the last or first visible row, and do nothing at the end of the list or when refused. |
| Menu.MoveKeepsCursor | patches/source/menu.c:1484-1545 | No move takes the cursor out of the window or the window out of the list, whatever was refused. |
| Menu.LinesHold | patches/source/games.c:1366-1368 | There are lines enough for every entry, and at least four; they fit the table of 240 lines exactly if the entries fill at most 240. |
| Menu.Screen.FromScan | patches/source/games.c:822-892 | After a scan, grid, cursor and banner window agree. |
| Menu.Screen.FromLastPlayed | patches/source/games.c:1282-1341 | So they do after the background load and the jump to the last-played game. |
| Menu.Screen.MoveRight | patches/source/menu.c:1485-1493 | Right moves one slot, except from the last column. |
| Menu.Screen.MoveLeft | patches/source/menu.c:1495-1503 | Left moves one slot, except from the first column. |
| Menu.Screen.MoveDown | patches/source/menu.c:1505-1522 | Down moves one row, scrolling exactly from the last visible row, unless the list ends or the grid refuses; the code's float tests are proved to decide this. |
| Menu.Screen.MoveUp | patches/source/menu.c:1524-1540 | Up, likewise. |
| Menu.Screen.Settle | patches/source/menu.c:1513-1532 | So after 135 frames without an input no move is refused, and cursor and window are where they were. |
| Menu.Screen.Run | patches/source/menu.c:1484-1545 | After any run of moves and frames: every line's final position is 104 + 56 (line - top) pixels with at most 6 animations pending, 0 <= top <= lines - 4, the selected row is one of the four visible, no load ever found the pool of 128 empty, and every banner of a game or an app is loaded, in sliding-window mode every one of lines top-1 to top+5. |
| Arith64.Clz | patches/source/arith64.c:112-121 | The binary search returns the shift that brings a nonzero word's highest bit to bit 63. |
| Arith64.MaskIsComparison | patches/source/arith64.c:184-185 | The sign-bit mask equals the comparison rem >= b exactly when b - rem - 1 fits a signed 64-bit word; the loop is proved to meet only such pairs, also for b above 2^63. |
| Arith64.BitsInRange | patches/source/arith64.c:176-177 | The iteration count lies in 1 to 63 and the first partial remainder is below b. |
| Arith64.RegisterShifts | patches/source/arith64.c:178-183 | The one register that holds both the numerator's remaining bits and the quotient so far does so after each shift. |
| Arith64.PartialNext | patches/source/arith64.c:182-185 | One step of the division of a prefix of the numerator's bits, with rem < b restored. |
| Arith64.LongDivision | patches/source/arith64.c:175-189 | The shift-subtract loop returns exact quotient and remainder. |
| Arith64.DivMod | patches/source/arith64.c:149-189 | For every 64-bit a and every b but 0: a = q b + r with 0 <= r < b, through every shortcut; b = 0 is the trap. |
| Arith64.TruncatedExactly | patches/source/arith64.c:192-196 | Division of the magnitudes with the signs put back is C's truncating division, and no other quotient and remainder are. |
| Arith64.DivDi3 | patches/source/arith64.c:192-196 | The signed quotient is C's exactly unless the operands are LLONG_MIN and -1, where it wraps to LLONG_MIN. |
| Arith64.ModDi3 | patches/source/arith64.c:225-230 | The signed remainder is C's for all operands with b not 0, that pair included. |
| Mutexes.Thread.PushTail | patches/source/dolphin_os.c:114-126 | The list of owned mutexes gets one longer at its end and stays a doubly linked list. |
| Mutexes.Thread.PopItem | patches/source/dolphin_os.c:141-158 | Taking an item out of any position leaves a doubly linked list of the others in order. |
| Mutexes.Thread.PopHead | patches/source/dolphin_os.c:128-139 | The oldest item is taken off, leaving a doubly linked list of the rest. |
| Mutexes.Kernel.constructor | patches/source/dolphin_os.c:164-168 | Free mutexes and threads owning nothing satisfy the invariant. |
| Mutexes.Kernel.OnOneList | patches/source/dolphin_os.c:114-158 | A mutex sits on no list but its owner's, and there once. |
| Mutexes.Kernel.LockPass | patches/source/dolphin_os.c:170-193 | From any state, a pass of the lock loop is granted exactly if the mutex is free or the thread's own; otherwise the thread sleeps on it and owner and count are untouched. |
| Mutexes.Kernel.TryLock | patches/source/dolphin_os.c:222-239 | Try-lock is granted under the same condition and a refusal changes nothing. |
| Mutexes.Kernel.Release | patches/source/dolphin_os.c:199-207 | The mutex is taken out of its owner's list wherever it is, nothing else changes, and all its sleepers wake. |
| Mutexes.Kernel.Unlock | patches/source/dolphin_os.c:195-209 | Only the owner's unlock counts down; at zero the mutex leaves the owner's list, is free, and every sleeper wakes. |
| Mutexes.Kernel.UnlockAll | patches/source/dolphin_os.c:211-220 | Everything the thread owned, however deep, is free and its sleepers awake, also if it sleeps on another mutex itself; other mutexes are untouched. |
| Mutexes.Kernel.Run | patches/source/dolphin_os.c:164-239 | After any interleaving of these by any threads: owned iff the count is positive, on the owner's list exactly once and on no other, all lists well formed, and nobody asleep on a free mutex. |
| MessageQueue.RingSend | patches/source/dolphin_os.c:298-300 | Writing at (first + used) mod n appends to the queue's contents. |
| MessageQueue.RingReceive | patches/source/dolphin_os.c:323-327 | Reading at first and advancing it mod n removes the oldest message. |
| MessageQueue.Queue.constructor | patches/source/dolphin_os.c:274-281 | A new queue is empty. |
| MessageQueue.Queue.SendPass | patches/source/dolphin_os.c:283-307 | With room the message is appended and receivers wake; without, a non-blocking send changes nothing and a blocking one only sleeps. |
| MessageQueue.Queue.ReceivePass | patches/source/dolphin_os.c:309-332 | With a message the oldest is returned and senders wake; without, a non-blocking receive changes nothing and a blocking one only sleeps. |
| MessageQueue.Queue.Run | patches/source/dolphin_os.c:274-332 | Under any interleaving the received messages are a prefix of the sent ones, the difference is what is queued, and both indices stay in range. |
| DiscScreen.OneEdgeNeverClashes | patches/source/menu.c:1363-1545 | With at most one button or stick edge in a frame, the Z branch that does not return does no harm. |
| DiscScreen.Screen.BannerStart | patches/source/dolphin_dvd.c:255-265 | A read starts at its first step with the counters cleared and the drive in bypass. |
| DiscScreen.Screen.BannerPoll | patches/source/dolphin_dvd.c:275-343 | A poll fails exactly after 900 polls, at step 2 on a failed read, a missing disc magic or no banner offset either way, at step 3 on a failed read or a missing banner magic, at step 4 on a failed read, and never at steps 0 and 1 (a failed ID read waits 15 frames and asks again); it succeeds exactly at step 4 when the drive is done. Which step follows, what is asked of the drive next and at which offset is stated for each step. The drive is in bypass exactly while the answer is 'still working'. |
| DiscScreen.Screen.BannerCancel | patches/source/dolphin_dvd.c:247-253 | A read in flight is ended with one bypass exit; without one nothing happens. |
| DiscScreen.Screen.StartThread | patches/source/games.c:1516-1574 | Enumeration runs afterwards unless the complete list of this very folder is kept, and a list it starts on is empty and incomplete. |
| DiscScreen.Screen.DeinitThread | patches/source/games.c:1615-1624 | Enumeration has stopped when this returns. |
| DiscScreen.Screen.Tick | patches/source/menu.c:129-183 | A frame of the disc screen: READY is entered only by a completed, checked read, and a read that ends hands the drive back once. |
| DiscScreen.Screen.PollRead | patches/source/menu.c:130-143 | A frame of a read ends in NO DISC exactly if its poll fails, in READY exactly if the banner is in, and of a good drive every answer brings the read one step on. |
| DiscScreen.Screen.WatchLid | patches/source/menu.c:144-180 | A frame without a read: the cover counts as opened from the eighth open frame in a row, and the next closed frame starts a read exactly if it was. |
| DiscScreen.Screen.FinishRead | patches/source/dolphin_dvd.c:275-343 | Every genuine disc is read: a drive with both magics and an offset whose reads succeed, answering as often as the steps left before 900 polls are over, brings the screen to READY with one bypass exit. |
| DiscScreen.Screen.RetryPace | patches/source/dolphin_dvd.c:279-298 | After a failed ID read the drive is asked again on the 16th frame and not before, whatever it shows meanwhile. |
| DiscScreen.Screen.DiscInputs | patches/source/menu.c:1215-1265 | START boots exactly from READY; B always leaves, ending a read in flight with one bypass exit. |
| DiscScreen.Screen.ShowDisc | patches/source/menu.c:1392-1400 | The enumeration thread is off the drive before the read takes it into bypass. |
| DiscScreen.Screen.BrowserInputs | patches/source/menu.c:1363-1545 | Bypass still excludes enumeration, booting and the file layer after the handler exactly unless Z went down together with an edge that puts one of them to use: B leaving a folder, A entering one, START booting, or a stick move that loads banners. |
| DiscScreen.Screen.Run | patches/source/menu.c:129-183 | For every run of frames with at most one button or stick edge each, up to a boot: bypass iff a read is active, then disc screen up, no enumeration running and no file read, one exit for every entry, and a disc boots only after a checked banner. |
| DiscScreen.Screen.ReadEnds | patches/source/dolphin_dvd.c:235-343 | Whatever the drive answers, a read has ended after 901 frames of the disc screen. |
| Printf.OutChar | patches/source/rpl_vsnprintf.c:437-442 | Each character is counted, and stored only while the NUL still fits, so the buffer is always a prefix of the text. |
| Printf.FmtStr | patches/source/rpl_vsnprintf.c:843-876 | The string routine sends the string cut at the precision and padded to the width, on the side the flag says, without reading past the precision. |
| Printf.Convert | patches/source/rpl_vsnprintf.c:1327-1340 | The digits of any 32-bit value fit the 43-byte buffer and come lowest first. |
| Printf.OutDigits | patches/source/rpl_vsnprintf.c:966-971 | Printing from the left with a comma whenever the count left is a multiple of three gives the digits grouped from the right. |
| Printf.FmtInt | patches/source/rpl_vsnprintf.c:878-976 | The integer routine sends exactly the specified text: padding, sign, prefix, zeros, grouped digits, padding. |
| Printf.ConvertOne | patches/source/rpl_vsnprintf.c:625-823 | Each conversion sends the text specified for it and takes its argument converted to the type its length modifier names. |
| Printf.FlagStep | patches/source/rpl_vsnprintf.c:500-532 | Flags are collected in any order and number, and the first other character ends them without being consumed. |
| Printf.WidthStep | patches/source/rpl_vsnprintf.c:533-556 | One character at a time, the width state reads the decimal width or takes it from an argument, and reports an overflow exactly of numbers above INT_MAX without computing them. |
| Printf.PrecisionStep | patches/source/rpl_vsnprintf.c:564-587 | The same for the precision, with a negative argument meaning none. |
| Printf.ModifierStep | patches/source/rpl_vsnprintf.c:588-624 | The length modifier is the one the grammar reads at that place, two-letter ones included; a NUL after a first letter is not passed. |
| Printf.DirectiveCut | patches/source/rpl_vsnprintf.c:496-497 | A format that ends inside a directive, wherever, prints nothing for it. |
| Printf.Terminate | patches/source/rpl_vsnprintf.c:830-834 | The NUL lands behind the characters that were stored, inside the size. |
| Printf.RunFormat | patches/source/rpl_vsnprintf.c:493-829 | The directive machine sends the unbounded text of the format as its grammar defines it, and never reads past the format's NUL. |
| Printf.VsnPrintf | patches/source/rpl_vsnprintf.c:457-841 | For every format, arguments and size n: the buffer holds the first min(L, n-1) characters of the unbounded text, a NUL, and its old contents after that; the result is L, or -1 if L exceeds 2^31 - 1 or a number overflowed; a null buffer is left alone. Which text that is, of which arguments, is PrintfFormats.FormatsPieceByPiece. |
| PrintfFormats.FormatsPieceByPiece | patches/source/rpl_vsnprintf.c:493-829 | Every format written from pieces (text, %%, and directives with any flags, a width and a precision as digits, as a star or left out, a length modifier and a conversion), with the pieces' own arguments passed one after the other, prints the pieces' texts one after the other: a star takes the argument before its directive's, each of diouxXcspn and the float conversions takes one, %% none; a negative star width is a '-' flag and a negative star precision none; a float that overflows ends the text. |
| PrintfFormats.DirectiveRead | patches/source/rpl_vsnprintf.c:499-624 | Whatever surrounds it, a directive is read as the flags, width, precision, modifier and conversion it was written from, having passed exactly its stars' arguments. |
| PrintfFormats.SoundTexts | patches/source/rpl_vsnprintf.c:493-829 | If every directive's argument is one the standard gives a text to and is safe to print (see DirectiveConforms), the whole text is the standard's, directive by directive, and nothing overflows. |
| PrintfFormats.PrintPieces | patches/source/rpl_vsnprintf.c:457-841 | The formatter itself on such a format and its arguments: the buffer holds the first characters of the standard's whole text, cut at the size, a NUL, and its old contents; the result is the whole text's length. |
| PrintfLaws.GroupsAgree | patches/source/rpl_vsnprintf.c:966-971 | The left-to-right comma rule equals grouping from the right, for every digit string. |
| PrintfLaws.MoreDigits | patches/source/rpl_vsnprintf.c:535-541 | Reading further digits never makes a number smaller, so the first overflow decides. |
| PrintfStandard.DigitsDenote | patches/source/rpl_vsnprintf.c:1327-1340 | The digits in base 8, 10 or 16 denote the value they were made from, with no leading zero but for 0 itself. |
| PrintfStandard.DigitCase | patches/source/rpl_vsnprintf.c:1327-1340 | All letters among the digits are capital ones for X and small ones otherwise. |
| PrintfStandard.SignedDigitsExact | patches/source/rpl_vsnprintf.c:891-904 | A signed conversion prints the magnitude of its value exactly if that is below 2^32: the unsigned working type has 32 bits while %jd takes 64. |
| PrintfStandard.GroupedDenotes | patches/source/rpl_vsnprintf.c:966-971 | With separators the digits still denote the value. |
| PrintfStandard.GroupedShape | patches/source/rpl_vsnprintf.c:966-971 | In grouped digits every fourth character from the right is a comma, no other is, and none stands first. |
| PrintfStandard.WidthLaw | patches/source/rpl_vsnprintf.c:926-935 | The field width is the exact minimum width for every width, exactly unless separators are printed and more digits are wanted than the value has. |
| PrintfStandard.ConformsExactly | patches/source/rpl_vsnprintf.c:878-976 | Given the value that was meant, an integer's text is the standard's text of that value (section 7.19.6.1 of ISO/IEC 9899:1999, with separators for the quote flag) exactly if its magnitude is below 2^32, it is not 0 with precision 0 other than in '#' octal, and separators do not meet more digits wanted than it has. |
| PrintfStandard.DirectiveConforms | patches/source/rpl_vsnprintf.c:625-752 | A whole directive over the integer, character and string conversions prints the standard's text of its argument, taken at the standard's type and whatever its fetch may yield, exactly under a guard on conversion, modifier, width, number and quote flag: no ll and no unsigned j, %jd magnitudes below 2^32, %zd arguments not negative, %c with no width above 1, and the digits as in the row above. |
| PrintfStandard.PointerText | patches/source/rpl_vsnprintf.c:748-774 | %p of a null pointer prints (nil) in its field; of any other the text of its address as %#x, exactly unless the quote flag meets more digits wanted than the address has. |
| PrintfStandard.ZerosKept | patches/source/rpl_vsnprintf.c:926-938 | As many digits as wanted are printed exactly unless separators are printed and more digits are wanted than the value has. |
| PrintfStandard.IntTextReads | patches/source/rpl_vsnprintf.c:878-976 | Whatever the padding, the text shows the magnitude cut to 32 bits, and holds a '-' exactly for a negative value. |
| PrintfStandard.CharIgnoresWidth | patches/source/rpl_vsnprintf.c:741-744 | %5c departs from the standard's text, for every character. |
| PrintfStandard.SizeIsUnsigned | patches/source/rpl_vsnprintf.c:643-645 | %zd prints -1 as 4294967295. |
| PrintfStandard.WideIsCut | patches/source/rpl_vsnprintf.c:646-648 | %jd prints 2^32 as 0. |
| PrintfStandard.WideIsUndefined | patches/source/rpl_vsnprintf.c:640-690 | %lld, %llu and %ju, whose 64-bit argument is fetched as 32 bits, may print any number for 5. |
| PrintfStandard.ZeroIsPrinted | patches/source/rpl_vsnprintf.c:1335-1338 | %.0d departs from the standard's text at 0. |
| PrintfStandard.SeparatorEatsZero | patches/source/rpl_vsnprintf.c:929 | %'.6u departs from the standard's text at 1234. |
| PrintfStandard.FieldConforms | patches/source/rpl_vsnprintf.c:533-556 | A width or precision is read as the standard has it exactly unless a star follows digits; the star then wins. |
| PrintfStandard.StarReplacesDigits | patches/source/rpl_vsnprintf.c:542-553 | In %5*d the width is the argument, where the standard reads 5. |
| Ini.StrCspn | cubeboot/source/ini.c:120-131 | The scan stops at the first character of the set or a NUL, inside the buffer. |
| Ini.DiscardLine | cubeboot/source/ini.c:63-68 | Everything up to the newline or the end becomes NUL and nothing else changes. |
| Ini.TrimBack | cubeboot/source/ini.c:57-61 | Trailing blanks become NUL, and the text before them is not touched. |
| Ini.ClearEquals | cubeboot/source/ini.c:140-143 | The '=' and all blanks after it become NUL, up to the first other character or the end. |
| Ini.SectionStep | cubeboot/source/ini.c:120-123 | A section name is cut off at the bracket, the newline or the end, whichever comes first. |
| Ini.UnescapeQuotedValue | cubeboot/source/ini.c:71-98 | The unescaped value is written over its own source, the write head always behind the read head, and what lies past it is untouched. |
| Ini.KeyLineStep | cubeboot/source/ini.c:129-170 | A line with a key leaves key and value cut free by NULs; one without '=' or without a value is wiped. |
| Ini.SplitData | cubeboot/source/ini.c:103-173 | The in-place pass over any data, NULs included, leaves exactly the specified buffer, never leaves it, and ends. |
| Ini.IniLoad | cubeboot/source/ini.c:175-189 | A file is copied, terminated and split. |
| IniGet.StrCmpCi | cubeboot/source/ini.c:38-46 | Zero exactly if the lengths are the same and at every position the characters are equal or a capital ASCII letter and its small one, 32 apart. |
| IniGet.Next | cubeboot/source/ini.c:49-55 | The next pointer stands at the next string of the buffer, or at the end. |
| IniGet.IniGet | cubeboot/source/ini.c:197-226 | On any split buffer the pointer walk returns what the specified lookup over its strings returns, or NULL. |
| IniRoundTrip.UnescapeEscape | cubeboot/source/ini.c:71-98 | Unescaping gives back every escaped value up to its closing quote, or to the end of the line when the quote is missing, whatever follows. |
| IniRoundTrip.OtherEscapes | cubeboot/source/ini.c:78-86 | A backslash before a character other than r, n and t gives that character, and before the end of a line ends the value. |
| IniRoundTrip.RoundTrip | cubeboot/source/ini.c:103-226 | For every list of legal lines (section headers with or without their bracket, plain and quoted entries with blanks around '=' and text after the quote, comments, blank lines, lines without '=' and entries without a value): looking a key up in the split print-out gives the value of the first entry whose key and section are the same up to letter case, as in StrCmpCi's row, and whose value is not empty, or NULL. |
| IniRoundTrip.FirstMatch | cubeboot/source/ini.c:156-160 | The lookup gives the first match's value, or NULL without a match, exactly unless that value is empty. |
| IniRoundTrip.LoadAndGet | cubeboot/source/ini.c:175-226 | Loading a printed file and looking a key up, in the code itself: the pointer returned stands at what the two rows above say. |
| IniRoundTrip.EmptyFirstMatch | cubeboot/source/ini.c:156-160 | With an empty quoted value for a, then x for a, looking up a gives x. |
| IniRoundTrip.AnyLetterCase | cubeboot/source/ini.c:38-46 | A key and a section written in one mix of letter cases are found in another. |
| Tiler.ConvertBufferToRGBA8 | patches/source/metaphrasis.c:16-54 | For sides divisible by 4, every byte of the tiled buffer is the byte of the image that the layout (TiledBytes) puts there, and bytes past the image are untouched. |
| Tiler.TiledBytes | patches/source/metaphrasis.c:16-54 | In the converted buffer the alpha and red of pixel (x, y) stand at 64 (y/4 * width/4 + x/4) + 8 (y mod 4) + 2 (x mod 4), its green and blue 32 bytes further on. |
| Tiler.LayoutIsBijective | patches/source/GRRLIB_pixel.h:42-43 | Every part of every pixel has its own byte of the tiled buffer, and every byte belongs to some pixel. |
| Tiler.PixelRead | patches/source/GRRLIB_pixel.h:38-47 | Reading (x, y) from the converted buffer gives pixel y * width + x of the image. |
| Tiler.SetPixel | patches/source/GRRLIB_pixel.h:57-65 | What is written at a pixel is read back, and every other pixel reads as before. |
| Scramble.KeyByteBits | cubeboot/source/descrambler.c:45-50 | Each keystream byte consists of its own eight output bits, nothing of earlier bytes being left in the accumulator. |
| Scramble.FirstKeyBytes | cubeboot/source/descrambler.c:8-50 | The first two keystream bytes are 0x89 and 0x7e, and the three registers after their sixteen clocks hold 0xcba6, 0x0cd6 and 0xb912. |
| Scramble.ClockUndone | cubeboot/source/descrambler.c:17-43 | Every clock of the generator can be undone, from any state: no two states ever run together. |
| Scramble.ScrambledTwice | cubeboot/source/descrambler.c:5-53 | Scrambling is its own inverse. |
| Scramble.Descrambler | cubeboot/source/descrambler.c:5-53 | The C loop xors the data with the keystream, which does not depend on the data. |
| Scramble.PythonScramble | ipl/scripts/iplscramble.py:8-51 | The Python loop xors the data with the same keystream, its unbounded integers never exceeding 16 bits. |
| Scramble.PythonClock | ipl/scripts/iplscramble.py:20-42 | One pass over the unbounded registers is one pass over the 16-bit ones. |
| Scramble.ClockC | cubeboot/source/descrambler.c:17-43 | One pass of the C loop is one clock of the generator. |
| Scramble.LoadedByte | ipl/scripts/iplinject.py:16 | Byte i of the executable comes back unchanged if 0x800 + i lies before 0x1AFF00, and xored with keystream byte 0x700 + i otherwise. |
| Scramble.RoundTrip | cubeboot/source/ipl.c:119 | Scrambled behind 0x700 zeros, put at 0x800 and descrambled from 0x100, an executable is restored exactly if every byte at or past 0x1AFF00 meets a zero keystream byte; in particular whenever it ends there. |
| Crc.TableEntry | patches/source/crc32.c:1-7 | Every entry of the table is four bit steps of its index. |
| Crc.NibbleStepIsFourSteps | patches/source/crc32.c:21 | A table look-up and shift equals four bit steps, for every register value. |
| Crc.TinfCrc32 | patches/source/crc32.c:9-25 | The routine equals the bit-at-a-time CRC-32 (section 8 of RFC 1952) of every byte string, the empty one included. |
| Crc.CheckValue | patches/source/crc32.c:1-25 | The checksum of the nine digits from 1 to 9 is CRC-32's check value 0xCBF43926. |
| Crc.BurstDetected | patches/source/crc32.c:9-25 | Any change confined to four consecutive bytes changes the checksum. |

## Left out

- Hardware registers, cache maintenance, the decompression and patching of the boot ROM, and the boot itself: a DMA, a drive command or a boot is one abstract step, and runs end at the first boot.
- Priority inheritance and the scheduler: sleeping and waking are the only thread switches, and which thread runs next is arbitrary.
- OSJoinThread: one list removal, of the same kind as in the mutex code.
- ArqRequests.Scheduler.constructor: ARQInit without its already-initialised guard; the constructor is its first call.
- The owner word of a request, which nothing reads.
- ArqRequests.Scheduler.PostRequest: requires a request that is not queued, nor in flight unless it is the one whose callback is running, as the code does of its callers; posting any other again would cut a list or overwrite a transfer.
- ArqRequests.Scheduler.PostNext: requires the same.
- Menu.Screen.FromScan: at most 240 lines of entries, 720 of them with three columns; the table of entries holds 2000, and with more than 240 lines the code writes past its table of lines (`Menu.LinesHold` is the exact bound).
- Transparency and the moving-in and moving-out flags of a line: appearance only; no position depends on them.
- Rounding of 32-bit floats: positions are exact, so the model does not say how far float sums drift.
- A scan that changes the number of lines while the grid moves, the background loader running beside the menu, and its early stop: the list of entries is fixed and the loader finishes first.
- Icons: their pool is not modelled; the scan loads banners only.
- Banner reads that fail during scrolling: `Banners.Pool.Load` covers a failing read, the window statements assume the reads succeed.
- DiscScreen.Screen.Run: needs at most one button or stick edge per frame; with more it fails exactly as `DiscScreen.Screen.BrowserInputs` says.
- The file-system fallback for the banner offset, and what the cancelled transfer still does on the bus.
- Arith64: trailing-zero counts, population counts, shifts and find-first-set: the first repeats the leading-zero argument, the others are single expressions over words.
- Printf.ConvertOne: the stores of %n are not modelled, and the text of a floating-point conversion is a parameter.
- DiscScreen.Screen.StartThread: whether the folder is the same one is a parameter, the comparison of paths being left out.
- PrintfStandard.DirectiveConforms: covers only what the standard defines for integers, characters and strings; not wide text, which the code reads as narrow, pointers (`PrintfStandard.PointerText`), or flags and precisions without a defined effect. Which word the target's va_arg finds for a 64-bit argument, and where it goes on reading, is not modelled.
- Printf.VsnPrintf: floating-point text is a parameter and the stores of %n are not modelled; the length is not wrapped at 2^32; width and padding arithmetic is exact where the code's would overflow a signed int, which is undefined there (a width argument of INT_MIN, a precision near INT_MAX with a sign or prefix).
- Locale support of the formatter, compiled out in this build.
- IniRoundTrip.RoundTrip: lines that begin with '=' are never printed, since they leave a value without a key and shift all pairs after them; nor are indented lines, or text on a header's line; plain values are printed only when quoting is not needed.
- The typed lookup over ini_get, and the settings built on it.
- Tiler.ConvertBufferToRGBA8: requires sides divisible by 4, the tile size, and an image below 2^32 bytes; other sides read past the rows of the image.
- The other texture conversions of the tiler, and the colour-space functions beside the pixel functions.
- The 256-entry CRC table of the loader.
- Sorting, path handling, directory reads, theme and settings parsing: I/O around these cores.
