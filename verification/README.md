# Verified core of the client's database worker, daemon and DNS client

A model in Dafny of the parts of this repository whose correctness is decided by their own code, with proofs about
all inputs and all runs. `dafny verify dfyconfig.toml` checks all of it.

## What is modelled

**Arbitrary-precision integers** (`Digits`, `Shifts`, `LongDivision`, `BigIntegers`, `Decimal`, `Numerals`). The
worker keeps magnitudes as base-65536 digit arrays and works on them in place. Each loop is a method on an array
proved against a function on digit sequences, and that function against the number the digits stand for. Long
division is proved for every dividend and divisor, and printing followed by parsing gives every integer back.

**The durable file store** (`FileModel`, `WriteOverlay`, `WorkQueue`, `QueueRewriting`, `FileAgreement`,
`FileDatabase`, `FileViews`, `FileStore`). Files are answered from memory; changes wait in a queue that is
rewritten as new ones arrive, and reach the database one transaction at a time as 4096-byte blocks. Rewriting
preserves what the queue means. The store as an object, buffers shared with waiting writes included, keeps an
invariant between memory, queue, change under way and database, from which it follows what is durable once the
queue has drained. Truncation keeps a whole last block, so a write that starts past the end or a truncation that
grows a file can show old bytes again: the model remembers for each file the positions so exposed and not covered
since (`exposed`), outside which the copies are equal; the exact condition is stated, and a concrete case is given.
An item leaves the list some time before its timer goes off, and until then a write in place still reaches the
buffer it refers to; the invariant covers that stretch too. A handle can outlive its file; a write through it
brings the name back in memory (`stray`), and the database has no such file until the name is deleted and created
again.

**Text and statements** (`Utf8`, `StatementCache`, `RecentTexts`). The UTF-16 to UTF-8 encoder agrees with section
3 of RFC 3629, a strict decoder reads its output back, and the units of what it reads are the string's. The cache
of prepared statements is exactly the 64 texts used last, and no statement is lost or closed twice.

**The daemon** (`Connections`, `ConnectionAgreement`, `ClosedConnections`, `LogStream`, `Lifecycle`, `Outcomes`).
The connection stream, the log stream and the start, reload and stop machine, as steps over explicit state with the
client as a fold over messages. What the code allows is shown as concrete runs, with the exact condition beside
each: a reload overtaken by another reports its failure for the other's instance, after which the service is stuck
in FATAL with an instance running; a reader that takes the lock twice finds no instance; and, since log lines and
clearings are kept under the lock but sent after it, a client gets a line twice, loses one for good, or shows two
in the wrong order.

**The DNS client** (`DnsMessages`, `ClientSubnet`, `SingleFlight`, `LateRemoval`, `DnsCache`, `DnsAgeing`,
`DnsAnswers`). Any number of queries for a question share one exchange, as steps over the lock table, the channels
and the cache. Nothing is held between a query's look in the cache and its removal of an expired entry, so a late
removal can take a fresh answer out: a concrete run shows it, with the exact condition for an answer to stay.
Messages are objects whose records are changed in place; the cached message is the very object that is rewritten
after storing. That rewrite can replace the answer's EDNS record: the loop that sets one time to live on every
record also overwrites the EDNS record's, whose bits 16 to 23 are then read as its version. For a query with an
EDNS record this happens for any time to live with one of those bits set, a day for instance, and ageing then
wraps; the exact condition is proved.

## Assumptions

- IndexedDB is a map changed by transactions that complete; file ids are the names.
- Events of the worker run one at a time: calls on files, timers going off and transactions completing interleave freely.
- The connection stream reads each counter once per connection and step, and counters do not overflow 64 bits.
- A message is copied with all its records and options, and the EDNS record of a message is its last OPT record, as
  the DNS library has it; an answer's records are not its query's.
- Nobody changes the message an exchange returns to the query that asked the transport: it is the cached object itself,
  and what later loads show (`CachedTtl`, `LoadsShrink`, `NeverGrows`) rests on it.
- Times are whole numbers of nanoseconds, so the division that gives the seconds left is exact.

## Model

| member | source | states |
|---|---|---|
| `Digits.Trim` | web/drift_worker.js:2362 | Leading zero digits are dropped: the kept top digit is not zero and the number is the same. |
| `Digits.Compare` | web/drift_worker.js:2433-2435 | The sign of the result is the order of the two numbers, for operands without leading zeros or of one length. |
| `Digits.ShiftDigits` | web/drift_worker.js:2412-2417 | The digits move up by `k` over zeros, the cells above stay as they were. |
| `Digits.Add` | web/drift_worker.js:2436-2441 | The cells hold the digits of the schoolbook sum, with its carry on top; what they stand for is SumValue. |
| `Digits.SumValue` | web/drift_worker.js:2436-2441 | The sum's digits stand for the sum of the numbers and the carry in. |
| `Digits.Subtract` | web/drift_worker.js:2442-2447 | In place, also onto the minuend itself: the low cells hold the digits of the difference with borrows, the rest is untouched. |
| `Digits.DifferenceValue` | web/drift_worker.js:2442-2447 | The difference's digits stand for the difference, modulo the power of 65536 they fill, the final borrow saying whether it wrapped. |
| `Digits.MulAdd` | web/drift_worker.js:2448-2457 | In place: the accumulator gains digit times number at an offset, its carry running on as far as it must; the total must fit. |
| `Digits.MulAddValue` | web/drift_worker.js:2448-2457 | The accumulator's number grows by the digit times the number times the offset's weight. |
| `Shifts.ShiftLeft` | web/drift_worker.js:2418-2421 | The cells hold the operand shifted up, word shift and bit shift together. |
| `Shifts.ShiftedUpValue` | web/drift_worker.js:2418-2421 | Shifting up multiplies the number by the power of two; nothing is lost. |
| `Shifts.ShiftRight` | web/drift_worker.js:2429-2432 | The cells hold the operand shifted down. |
| `Shifts.ShiftedDownValue` | web/drift_worker.js:2429-2432 | Shifting down divides, and what is lost are the bits of the lowest digit below the shift. |
| `LongDivision.EstimateBounds` | web/drift_worker.js:2458-2462 | With the divisor's top bit set, the estimated quotient digit is the true one or at most two too large, never too small. |
| `LongDivision.Correct` | web/drift_worker.js:7910-7912 | Adding the divisor back once takes the guess from `e` to `e - 1` and keeps the window in step with it. |
| `LongDivision.DivideStep` | web/drift_worker.js:7908-7912 | One round leaves the window's remainder by the divisor below, and its true quotient digit above it. |
| `LongDivision.TopDigit` | web/drift_worker.js:7901-7903 | The first comparison puts the leading quotient digit, 0 or 1, in place. |
| `LongDivision.Negate` | web/drift_worker.js:7904-7906 | The cells hold the power of 65536 less the divisor, so that multiply-add subtracts. |
| `LongDivision.QuotientLoop` | web/drift_worker.js:7907-7912 | Through every round quotient times divisor plus the rest is the dividend; at the end the rest is below the divisor. |
| `LongDivision.ShiftMagnitude` | web/drift_worker.js:2422-2428 | The operand times a power of two, cleared below, with the count of digits used. |
| `LongDivision.Normalise` | web/drift_worker.js:7890-7897 | Dividend and divisor are scaled by one power of two that sets the divisor's top bit; the caller's digits are not touched. |
| `LongDivision.DivideNormalised` | web/drift_worker.js:7897-7912 | For a normalised divisor the working digits end as remainder below and quotient above, in place. |
| `LongDivision.Divide` | web/drift_worker.js:7886-7919 | For every dividend and divisor of no more digits: high digits hold the quotient, low digits the scaled remainder, which is below the scaled divisor. |
| `LongDivision.CopyRange` | web/drift_worker.js:2363-2365 | A fresh copy of a digit range, zero to the requested size. |
| `BigIntegers.Negated` | web/drift_worker.js:7769-7774 | Negation; zero stays non-negative. |
| `BigIntegers.AddMagnitudes` | web/drift_worker.js:7828-7836 | The sum of two magnitudes under a given sign, operands in either order of length. |
| `BigIntegers.SubtractMagnitudes` | web/drift_worker.js:7837-7844 | The difference of two magnitudes, larger first, under a given sign. |
| `BigIntegers.Plus` | web/drift_worker.js:7845-7852 | Addition of any two integers, all sign and size cases. |
| `BigIntegers.Minus` | web/drift_worker.js:7853-7860 | Subtraction of any two integers. |
| `BigIntegers.Times` | web/drift_worker.js:7861-7869 | Schoolbook product of any two integers. |
| `BigIntegers.FromInt` | web/drift_worker.js:2373-2389 | Any machine integer, through each of the three branches its size takes. |
| `BigIntegers.ManyDigits` | web/drift_worker.js:2385-2388 | The digits of a number of more than 32 bits fill exactly the room its bit length asks for. |
| `BigIntegers.TruncRemBound` | web/drift_worker.js:7870-7885 | Truncating division: the remainder is below the divisor in size and has the dividend's sign or is zero. |
| `BigIntegers.Division.DivRem` | web/drift_worker.js:7886-7919 | The memo of the last division is valid for the operands asked about, whether it was just made or reused. |
| `BigIntegers.Division.Quotient` | web/drift_worker.js:7870-7877 | The truncating quotient of any dividend by any non-zero divisor. |
| `BigIntegers.Division.Remainder` | web/drift_worker.js:7878-7885 | The truncating remainder: dividend = quotient * divisor + remainder. |
| `BigIntegers.ShiftDown` | web/drift_worker.js:7808-7824 | Shifting any integer, negative ones included, right by any number of bits divides by the power of two and rounds down. |
| `BigIntegers.ShiftParts` | web/drift_worker.js:7808-7824 | A number is the power of two times the digits that stay plus what is shifted out, which is zero exactly when none of its bits is set. |
| `BigIntegers.KeptDigits` | web/drift_worker.js:7784-7795 | Whole words are moved and a part of a word shifted: the digits that stay, with the low bits of the first word left out. |
| `Decimal.Print` | web/drift_worker.js:7927-7943 | The text is the usual decimal text of the number, sign included. |
| `Decimal.PrintParts` | web/drift_worker.js:7933-7941 | Taking four digits at a time with zero padding splits the text of every larger magnitude at the right places. |
| `Decimal.TextByTenThousands` | web/drift_worker.js:7933-7941 | The text of a number is that of its quotient by 10000 followed by its remainder padded to four digits. |
| `Decimal.ParseDigits` | web/drift_worker.js:2329-2335 | Reading in chunks of four, a shorter first one included, gives the number the digits denote. |
| `Decimal.ParseHex` | web/drift_worker.js:2336-2350 | Hexadecimal digits, four to a cell and in either case, give the number they denote. |
| `Decimal.Parse` | web/drift_worker.js:2351-2361 | Any text: the number it denotes, decimal or hexadecimal, signed, between white space; and nothing for any other text. |
| `Decimal.RoundTrip` | web/drift_worker.js:2351-2361 | The text of every integer denotes that integer. |
| `Decimal.PrintThenParse` | web/drift_worker.js:7927-7943 | Printing any big integer and parsing the text gives an equal one back. |
| `Numerals.OnlyText` | web/drift_worker.js:7927-7943 | A text of digits without a leading zero is the text of the number it denotes. |
| `Numerals.LettersAre` | web/drift_worker.js:2336-2341 | A to F count from ten to fifteen in either case. |
| `Numerals.SpacesAre` | web/drift_worker.js:2351-2361 | The white space around a numeral is that of ECMA-262. |
| `Numerals.DenotesMeans` | web/drift_worker.js:2351-2361 | White space, a sign or none, decimal digits or 0x and hexadecimal ones, and white space denote the signed number. |
| `Numerals.DenotesOnly` | web/drift_worker.js:2351-2361 | No other text denotes one. |
| `FileModel.ExecValid` | web/drift_worker.js:11681-11771 | A change that fits its file keeps every block whole, aligned and no further than the length, so reading back never runs off a block. |
| `FileModel.FlushValid` | web/drift_worker.js:11681-11771 | So does any fitting sequence of changes. |
| `FileModel.TruncateRaw` | web/drift_worker.js:11749-11752 | A truncation keeps every byte below the new end, and with it the stale bytes of the last block. |
| `WriteOverlay.Overlay.PutChunk` | web/drift_worker.js:11824-11840 | A block starts as a copy of the file's bytes there, zero past its end, and takes the chunk at its place; other blocks stay. |
| `WriteOverlay.Overlay.Apply` | web/drift_worker.js:11825-11836 | Cutting one write at block boundaries takes the overlay of a list of writes to that of the list with the write added. |
| `WriteOverlay.Overlay.ApplyAll` | web/drift_worker.js:12017-12022 | The overlay of a batch: every touched block in full as the sequentially written file has it, and the final length. |
| `WriteOverlay.OverlayReadsAsPatched` | web/drift_worker.js:11823-11840 | For any contents and writes, each byte read from the blocks, else from the original, else zero, is the sequentially written file's; keys are block-aligned and blocks whole. |
| `WorkQueue.PendingList.AddWrite` | web/drift_worker.js:12010-12016 | Walking back, the write joins the latest write to its file or goes to the end, stopping at the file's creation, any deletion and any truncation. |
| `WorkQueue.PendingList.AddDelete` | web/drift_worker.js:11973-11984 | Walking back, the deletion drops the file's writes, cancels with its creation, or is absorbed by an equal deletion; else it goes to the end. |
| `WorkQueue.WriteProjection` | web/drift_worker.js:12010-12016 | For the written file the write ends up last, alone or as the tail of the file's last write; every other file's changes are as they were. |
| `WorkQueue.DeleteProjection` | web/drift_worker.js:11973-11984 | For the deleted file only trailing writes are dropped and the deletion ends the list, or goes away with a creation or deletion; other files' changes stay. |
| `QueueRewriting.WriteJoins` | web/drift_worker.js:12010-12016 | A write joins the latest write to its file if only writes to other files and their creations have come since, in that place. |
| `QueueRewriting.WriteAppends` | web/drift_worker.js:12010-12016 | Otherwise it goes to the end. |
| `QueueRewriting.DeletionStopped` | web/drift_worker.js:11973-11984 | The writes to its file since the last truncation of any file, or creation or deletion of its own, go; a creation goes with them and a deletion stands for this one, and after a truncation the deletion is queued. |
| `QueueRewriting.DeletionUnstopped` | web/drift_worker.js:11973-11984 | With none of these all writes to its file go and the deletion is queued. |
| `WorkQueue.RunByFile` | web/drift_worker.js:11973-12016 | Running a queue does to each file what its own share of the items does. |
| `WorkQueue.QueueKeepsMeaning` | web/drift_worker.js:11973-12016 | For every legal queue and item, the rewritten queue leaves the same named files and bytes as the queue with the item at its end, and stays legal. |
| `WorkQueue.RunsKeepMeaning` | web/drift_worker.js:11844-12029 | Over every run of arrivals, starts and completions, what is done, under way and waiting together mean exactly the arrived items in order. |
| `FileAgreement.RebasedFlush` | web/drift_worker.js:11940-11951 | Overwriting in place a buffer that waiting writes carry changes what they leave only at the bytes overwritten. |
| `FileAgreement.WriteKeeps` | web/drift_worker.js:11940-11951 | A write, in place or not, merged or not, keeps presence and length of the two copies together, also when it overwrites the content the change under way and waiting writes carry; it keeps the bytes equal exactly when the gap it leaves past the old end, if any, shows no stale byte. |
| `FileAgreement.WriteShows` | web/drift_worker.js:12010-12026 | Such a write decides every byte of the database once the queue has drained: in the blocks its transaction touches, zeros past the new end included, they are memory's, elsewhere what they would have been without it. |
| `FileAgreement.WriteExposes` | web/drift_worker.js:11940-11951 | So, if the copies were equal but for some positions where memory has zeros, they are equal afterwards but for those and the gap, less the blocks the write itself reaches. |
| `FileAgreement.StrayWriteKeeps` | web/drift_worker.js:11940-11951 | A write queued for a name the database will not have leaves it without one. |
| `FileAgreement.TruncateKeeps` | web/drift_worker.js:11934-11937 | A truncation keeps presence and length; it keeps the bytes equal exactly when every byte it uncovers is zero, so always when it does not grow the file. |
| `FileAgreement.TruncateExposes` | web/drift_worker.js:11934-11937 | And, after a truncation, but for those below the new end and the ones it uncovers: for none after a truncation to 0. |
| `FileAgreement.CreateKeeps` | web/drift_worker.js:11911-11918 | A created file is empty in both copies, whatever was there before. |
| `FileAgreement.DeleteKeeps` | web/drift_worker.js:11907-11909 | A deleted file will be absent from both copies, however the queue was rewritten. |
| `FileAgreement.CommitKeeps` | web/drift_worker.js:11848-11852 | Carrying out the oldest change moves it from the list to the database and nothing else. |
| `FileAgreement.CutByteReturns` | web/drift_worker.js:11738-11759 | One byte written, cut off and uncovered again: memory holds zero, the database the old byte. |
| `FileDatabase.Database.Create` | web/drift_worker.js:11669-11679 | A new empty file; an existing one is refused and stays. |
| `FileDatabase.Database.Put` | web/drift_worker.js:11713-11737 | The blocks replace those under their keys and the length is set; a missing file fails and nothing changes. |
| `FileDatabase.Database.Resize` | web/drift_worker.js:11738-11759 | Shrinking deletes the blocks past the one with the new end; the length is set either way. |
| `FileDatabase.Database.Remove` | web/drift_worker.js:11760-11771 | The file and its blocks go. |
| `FileDatabase.Database.ReadBack` | web/drift_worker.js:11681-11712 | The buffer is the file's content: blocks over zeros, cut at the length. |
| `FileStore.FileSystem.constructor` | web/drift_worker.js:11887-11905 | Starting up reads every file of the database into a buffer of its own; the two copies agree. |
| `FileStore.FileSystem.Start` | web/drift_worker.js:11848-11852 | If nothing is under way the oldest item leaves the list and waits for its timer, still referring to its buffer; nothing waits while nothing is under way. |
| `FileStore.FileSystem.Fire` | web/drift_worker.js:12017-12026 | When the timer goes off the change is prepared from the bytes its buffer holds then, not from those it held when queued or taken; the agreement survives. |
| `FileStore.FileSystem.Finish` | web/drift_worker.js:11848-11924 | The change at work reaches the database, no other file changes, and the next item is taken. |
| `FileStore.FileSystem.Open` | web/drift_worker.js:11911-11918 | A missing file is created if asked to, and queued unless temporary; otherwise opening fails and nothing changes. |
| `FileStore.FileSystem.Delete` | web/drift_worker.js:11907-11909 | The name goes from memory and is in neither copy once the queue drains, whatever was written under it before; the queue is rewritten unless the file was temporary. |
| `FileStore.FileSystem.Truncate` | web/drift_worker.js:11934-11937 | Memory holds the resized bytes in a new buffer, for an absent name too; the exposed positions of a persistent file become those below the new end and the ones uncovered, and it is stray exactly when it was absent. |
| `FileStore.FileSystem.Write` | web/drift_worker.js:11940-11951 | Memory holds the written bytes, in the same buffer if they fit, and no other file changes; the queue takes the write with the buffer the file had. The exposed positions of a persistent file gain the gap and lose the blocks written, and it is stray exactly when it was absent. |
| `FileStore.Poke` | web/drift_worker.js:12056-12065 | A write into a buffer: in place if it fits, else into a longer copy that leaves the old one alone. |
| `FileStore.CarryOut` | web/drift_worker.js:11985-12029 | The transaction a change starts leaves the database as the change says, and other files alone. |
| `FileStore.FileSystem.Drain` | web/drift_worker.js:11920-11923 | With no new work everything waiting is carried out. |
| `FileStore.Drained` | web/drift_worker.js:11681-11759 | On every run: once the queue has drained the database holds a file if and only if memory does and it is neither temporary nor was brought back by a write or truncation that found it gone; each has its length and reads back as its in-memory bytes but for the exposed positions, where memory has zeros, so as exactly those bytes if and only if these read as zeros. |
| `FileStore.Restart` | web/drift_worker.js:11887-11905 | Draining and starting again, from any state: exactly those files are there, with those lengths and, but for the exposed positions, those bytes. |
| `FileStore.BroughtBack` | web/drift_worker.js:11940-11951 | Open, delete, then write through the old handle: memory has the file, the drained database does not. |
| `FileStore.Burst` | web/drift_worker.js:11848-11852 | Two writes in place to a file at rest before any timer goes off: the first transaction already puts the second write's bytes into the blocks it touches. |
| `Utf8.Encode` | web/drift_worker.js:7656-7664 | For every UTF-16 string the bytes are the RFC 3629 form of its code points and decode to them; the units of what they decode to are the string, U+FFFD for each unpaired surrogate. |
| `Utf8.UnitsBack` | web/drift_worker.js:7674-7709 | A string's code points, each written as one or two units by section 2.1 of RFC 2781, are in order the string with each unpaired surrogate replaced, so the string itself if there is none. |
| `Utf8.RfcExamples` | web/drift_worker.js:7656-7709 | The octets of the examples of section 7 of RFC 3629. |
| `Utf8.ReadsBack` | web/drift_worker.js:7656-7709 | The octets of any code points are well formed and decode to those code points: no overlong form, surrogate or excess. |
| `Utf8.Writer.Fill` | web/drift_worker.js:7691-7709 | All units but a trailing high surrogate are encoded; it stops early only for want of room. |
| `Utf8.Writer.PutPair` | web/drift_worker.js:7674-7690 | A surrogate pair gives the four octets of its code point; an unpaired one a replacement, the next unit left alone. |
| `Utf8.RoomForAll` | web/drift_worker.js:7659-7664 | Three bytes per unit always leave the room the next unit is checked for, so no check stops the loop. |
| `StatementCache.Cache.Get` | web/drift_worker.js:9648-9657 | The statement handed out is open: the cached one for its text, else a new one, kept unless it only explains; a failed preparation changes nothing. |
| `StatementCache.Cache.Keep` | web/drift_worker.js:9651-9657 | A new statement is kept last; with 64 kept the least recently used one leaves and is closed. |
| `StatementCache.Cache.Again` | web/drift_worker.js:9648-9650 | A hit moves the statement to the end and closes nothing. |
| `StatementCache.Cache.Run` | web/drift_worker.js:9624-9631 | Without parameters nothing is prepared and the cache stays; with them one statement is prepared at most, and afterwards none is left with its caller: each one ever prepared is cached or has been closed exactly once. |
| `StatementCache.Cache.Dispose` | web/drift_worker.js:9659-9672 | Shutting down leaves every statement ever prepared closed exactly once. |
| `StatementCache.UseStep` | web/drift_worker.js:9648-9657 | Moving a hit to the end, or dropping the oldest of 64 for a miss, keeps the cache the 64 texts used last in order of last use. |
| `RecentTexts.KeptMeans` | web/drift_worker.js:9648-9657 | A text is kept exactly if it has been used and fewer than 64 others have been used since. |
| `RecentTexts.CachedMeans` | web/drift_worker.js:9648-9657 | So the cache has a statement for exactly those texts. |
| `RecentTexts.RecentOrder` | web/drift_worker.js:9648-9650 | They stand in the order of their last uses. |
| `Connections.Subscription.Initial` | hiddify-core/hiddify-sing-box/daemon/started_service.go:787-813 | Per connection: NEW if active, then a closed NEW for each time it is remembered closed; snapshots are exactly the active ones. |
| `Connections.Subscription.ApplyNotice` | hiddify-core/hiddify-sing-box/daemon/started_service.go:815-853 | A NEW only for an unknown connection, CLOSED always, nothing for other notices; what a client then shows of a closed connection is ClosedConnections.EndedShows. |
| `Connections.Subscription.TrafficUpdates` | hiddify-core/hiddify-sing-box/daemon/started_service.go:855-951 | Whatever order maps are walked in, the batch has per connection what is due and nothing else, and the snapshots become the active connections' counters. |
| `Connections.Compare` | hiddify-core/hiddify-sing-box/daemon/started_service.go:860-919 | One connection against its snapshot, through every branch: the snapshot takes the counters and is marked moving exactly when one rose and none fell. |
| `Connections.Table.ApplyEvents` | hiddify-core/hiddify-sing-box/experimental/libbox/command_types.go:112-175 | The client's table is the fold of the batch, long-closed entries dropped. |
| `Connections.FoldById` | hiddify-core/hiddify-sing-box/experimental/libbox/command_types.go:119-151 | A client's entry depends on the messages about its connection alone. |
| `ConnectionAgreement.FirstBatch` | hiddify-core/hiddify-sing-box/daemon/started_service.go:787-813 | After the first batch client and snapshots agree exactly when every remembered connection is inactive with a closing time other than 0, or active with the same counters and the closing time 0. |
| `ConnectionAgreement.ClosedBetweenReadings` | hiddify-core/hiddify-sing-box/daemon/started_service.go:787-813 | A first batch that leaves them apart: a connection active in the first reading and closed with the same counters in the second is shown closed and remembered active. |
| `ConnectionAgreement.NoticeKeeps` | hiddify-core/hiddify-sing-box/daemon/started_service.go:815-853 | Any notice, new, late, repeated or about an unknown connection, keeps them in agreement, exactly but for a closing at time 0 of a connection the notice describes or the client shows. |
| `ConnectionAgreement.TickKeeps` | hiddify-core/hiddify-sing-box/daemon/started_service.go:855-951 | A tick keeps them in agreement exactly when no counter of a known active connection went down and none that it closes gets the time 0. |
| `ConnectionAgreement.TickAddresses` | hiddify-core/hiddify-sing-box/daemon/started_service.go:855-951 | At most one message per connection; NEW only to a client that does not show it open, UPDATE and CLOSED only to one that does. |
| `ConnectionAgreement.TickSettles` | hiddify-core/hiddify-sing-box/daemon/started_service.go:855-951 | After a tick the client shows exactly the manager's connections open, with its counters, whatever notices were lost before, if and only if the tick met that condition. |
| `ConnectionAgreement.ThirdTickSilent` | hiddify-core/hiddify-sing-box/daemon/started_service.go:860-919 | If the active connections stop changing the second tick sends at most zero updates and the third nothing, each with its own clock and its own list of closed connections. |
| `ConnectionAgreement.AnyOrder` | hiddify-core/hiddify-sing-box/daemon/started_service.go:855-951 | The client after a tick does not depend on the order of its batch. |
| `ConnectionAgreement.RunsAgree` | hiddify-core/hiddify-sing-box/daemon/started_service.go:698-779 | Over every interleaving of notices, ticks and evictions open connections and totals are the server's at every point if and only if no step of the run closes a known connection at time 0 or finds a counter gone down. |
| `ConnectionAgreement.RunsRated` | hiddify-core/hiddify-sing-box/daemon/started_service.go:855-951 | On every run the snapshot's flag says whether the client shows the connection moving. |
| `ConnectionAgreement.StepMoves` | hiddify-core/hiddify-sing-box/daemon/started_service.go:815-951 | One step and one connection: agreement stays exactly when the step is such, and a connection closed between the two first readings comes back into agreement when it is reported closed or found inactive, and not before. |
| `ConnectionAgreement.RunSettles` | hiddify-core/hiddify-sing-box/daemon/started_service.go:698-779 | From the first batch, per connection: out of agreement exactly while it was active in the first reading, closed in the second, and has not been settled since. |
| `ConnectionAgreement.FromFirstBatch` | hiddify-core/hiddify-sing-box/daemon/started_service.go:698-779 | From the first batch, over every such interleaving, client and server agree if and only if each connection that closed between the two readings has been reported closed or been missing from a tick since. |
| `ConnectionAgreement.StreamAlternates` | hiddify-core/hiddify-sing-box/daemon/started_service.go:877-918 | On every run a zero update for a connection comes only when a moving one has come since the last zero one. |
| `ConnectionAgreement.QuietOnce` | hiddify-core/hiddify-sing-box/daemon/started_service.go:877-918 | Between two zero updates for a connection there is always one that moves. |
| `ClosedConnections.EndedShows` | hiddify-core/hiddify-sing-box/daemon/started_service.go:830-849 | After a notice of its closing every client shows the connection with the final record's own uploaded and downloaded bytes, at rest, closed at the notice's time, else the record's, else now; without a record, with the counters it showed. |
| `ClosedConnections.TickShows` | hiddify-core/hiddify-sing-box/daemon/started_service.go:921-948 | So it does after a tick that closes a connection, with the last record the manager remembers. |
| `ClosedConnections.FirstShows` | hiddify-core/hiddify-sing-box/daemon/started_service.go:802-810 | After the first batch a remembered connection is shown with its last record's counters and time, an unset time as 1 January of the year 1. |
| `ClosedConnections.ClosedStays` | hiddify-core/hiddify-sing-box/daemon/started_service.go:815-951 | On every steady run a connection shown closed is shown as its last closing in the run said, or as at the start if there was none. |
| `ClosedConnections.LeavesView` | hiddify-core/hiddify-sing-box/experimental/libbox/command_types.go:164-173 | A connection leaves the client's view only when it is tidied more than five minutes after it closed. |
| `ClosedConnections.TickRates` | hiddify-core/hiddify-sing-box/experimental/libbox/command_types.go:128-134 | After a tick an agreeing client shows as each active connection's upload and download rates what that counter gained since the last reading, and none for a new one. |
| `LogStream.Collect` | hiddify-core/hiddify-sing-box/daemon/started_service.go:333-360 | The batch says whether a reset is among the drained items and holds the lines after the last one. |
| `LogStream.BatchMeans` | hiddify-core/hiddify-sing-box/daemon/started_service.go:333-360 | One batch does to any client log what its items do one at a time. |
| `LogStream.AnyCutting` | hiddify-core/hiddify-sing-box/daemon/started_service.go:333-365 | However the stream is cut into batches the client log is the same. |
| `LogStream.Log.Write` | hiddify-core/hiddify-sing-box/daemon/started_service.go:1044-1050 | A line joins the server's log and the oldest leaves when there are too many. |
| `LogStream.ServerKeeps` | hiddify-core/hiddify-sing-box/daemon/started_service.go:1044-1051 | On every run the lines are what the items kept leave in order, whatever is sent and when. |
| `LogStream.ClientHears` | hiddify-core/hiddify-sing-box/daemon/started_service.go:333-365 | On every run a subscribed client hears what was on its way when it subscribed and everything sent since, in that order, in any batches. |
| `LogStream.ClientEndsWithServer` | hiddify-core/hiddify-sing-box/daemon/started_service.go:302-365 | For every run up to a subscription and every run after it that leaves nothing on its way: the server's lines are the last ones the client shows if and only if the last lines kept since the last clearing are the last ones sent since the last reset, those on their way at subscription included. |
| `LogStream.InOrder` | hiddify-core/hiddify-sing-box/daemon/started_service.go:302-365 | So they are when nothing sent was still to come at subscription and items were sent in the order kept. |
| `LogStream.ExactlyInOrder` | hiddify-core/hiddify-sing-box/daemon/started_service.go:302-365 | Within the limit the client shows exactly the server's lines if and only if: when it hears a clearing, the items sent after the last one are, in order, those kept after the last one; when it hears none, nothing was on its way at subscription and items were sent in the order kept. |
| `LogStream.SentOnce` | hiddify-core/hiddify-sing-box/daemon/started_service.go:1044-1051 | Every item kept is sent once: in flight before plus kept is sent plus in flight after. |
| `LogStream.SerialInOrder` | hiddify-core/hiddify-sing-box/daemon/started_service.go:1044-1051 | If an item is kept only when none is in flight, as if the lock were held until it is sent, items are sent in the order kept. |
| `LogStream.OneAtATime` | hiddify-core/hiddify-sing-box/daemon/started_service.go:302-365 | Then every client that subscribes with nothing on its way ends with the server's lines. |
| `LogStream.LateEmission` | hiddify-core/hiddify-sing-box/daemon/started_service.go:1044-1051 | A run: a client that subscribes between keeping a line and sending it gets the line twice. |
| `LogStream.LateReset` | hiddify-core/hiddify-sing-box/daemon/started_service.go:110-115 | A run: the log is cleared, a line kept and sent, then the reset sent late; the server has the line, the client has lost it. |
| `LogStream.Swapped` | hiddify-core/hiddify-sing-box/daemon/started_service.go:1044-1051 | A run: two writers send in the opposite order to the one their lines were kept in, and the client shows them swapped. |
| `Lifecycle.RunsSafe` | hiddify-core/hiddify-sing-box/daemon/started_service.go:176-257 | Over every interleaving of starts, reloads, closes and errors the lock, status, instance and window invariants hold; what callers are told is Outcomes.StartOutcome and Outcomes.CloseOutcome. |
| `Outcomes.StartOutcome` | hiddify-core/hiddify-sing-box/daemon/started_service.go:176-228 | On every run a start is turned away exactly if it found STOPPING or FATAL; it succeeds exactly if its instance was created and, at its verdict, had come up or the status was no longer STARTING; else it fails. |
| `Outcomes.CloseOutcome` | hiddify-core/hiddify-sing-box/daemon/started_service.go:230-251 | A close is turned away exactly unless it found STARTING or STARTED, and otherwise tells how the closing went. |
| `Outcomes.ReturnLeaves` | hiddify-core/hiddify-sing-box/daemon/started_service.go:176-257 | A rejection leaves everything as it was, a failure FATAL and the instance as it was, a successful start its instance and STARTED unless the status had moved on, a successful close IDLE and no instance, a reported error FATAL. |
| `Outcomes.Diagram` | hiddify-core/hiddify-sing-box/daemon/started_service.go:176-257 | Which status follows which on every run, and that an instance is set only under STARTING and given up only from STOPPING to IDLE. |
| `Lifecycle.ReadersSafe` | hiddify-core/hiddify-sing-box/daemon/started_service.go:176-257 | Whenever the lock is free STARTING, STARTED and STOPPING mean there is an instance and IDLE that there is none. |
| `Lifecycle.SecondRead` | hiddify-core/hiddify-sing-box/daemon/started_service.go:698-707 | A reader that sees STARTED and takes the lock a second time finds no instance exactly when a close has succeeded in between and no start has created one since. |
| `Lifecycle.NilRead` | hiddify-core/hiddify-sing-box/daemon/started_service.go:698-707 | A run of a start and a close that takes the instance away between such a reader's two holds of the lock. |
| `Lifecycle.OneWindow` | hiddify-core/hiddify-sing-box/daemon/started_service.go:184-190 | At most one caller is in the unlocked close window, and every start and close that looks meanwhile is turned away. |
| `Lifecycle.ReturnsFree` | hiddify-core/hiddify-sing-box/daemon/started_service.go:176-257 | Every return path gives the lock up. |
| `Lifecycle.LockReleased` | hiddify-core/hiddify-sing-box/daemon/started_service.go:176-257 | Whoever holds the lock gives it up within three of its own steps. |
| `Lifecycle.FatalLeft` | hiddify-core/hiddify-sing-box/daemon/started_service.go:185-191 | FATAL is left exactly by a reload coming out of its close window. |
| `Lifecycle.StuckForever` | hiddify-core/hiddify-sing-box/daemon/started_service.go:176-257 | Otherwise FATAL is final: no caller starts, replaces or closes an instance again. |
| `Lifecycle.VerdictOwn` | hiddify-core/hiddify-sing-box/daemon/started_service.go:214-226 | A starter announces STARTED or FATAL about its own instance exactly when no start has created one since. |
| `Lifecycle.Overtake` | hiddify-core/hiddify-sing-box/daemon/started_service.go:176-214 | Two starts reach a state where the second has replaced the first's instance while the first is still starting it. |
| `Lifecycle.ForeignVerdict` | hiddify-core/hiddify-sing-box/daemon/started_service.go:214-223 | From there the first's failure is reported as FATAL for the second's instance, which then runs on with no way to stop it. |
| `SingleFlight.StepSafe` | hiddify-core/hiddify-sing-box/dns/client.go:143-183 | Every step of any query keeps the registration and channel invariants. |
| `SingleFlight.RunsSafe` | hiddify-core/hiddify-sing-box/dns/client.go:143-183 | So they hold in every state any number of concurrent queries can reach. |
| `SingleFlight.OneLeader` | hiddify-core/hiddify-sing-box/dns/client.go:145-159 | At most one query is registered per question. |
| `SingleFlight.OwnEntry` | hiddify-core/hiddify-sing-box/dns/client.go:155-158 | The entry a leader deletes is its own, and only that. |
| `SingleFlight.ClosedOnce` | hiddify-core/hiddify-sing-box/dns/client.go:155-158 | A channel is closed by its maker only, never twice, and has been once its maker is done. |
| `SingleFlight.WaiterReleased` | hiddify-core/hiddify-sing-box/dns/client.go:146-158 | A waiter's channel is closed, or held by a query that has still to close it: no wake-up is lost. |
| `SingleFlight.WaiterWaits` | hiddify-core/hiddify-sing-box/dns/client.go:145-158 | On every run a waiter stays where it is unless it gives up or its channel has been closed once; then its maker has taken the question off and is done. Once the channel is closed the waiter can go on. |
| `SingleFlight.FollowersInTurn` | hiddify-core/hiddify-sing-box/dns/client.go:143-183 | So on every run a query that did not lead reads the cache in an exchange, or calls the transport, only after another for the same question has closed its channel and is done. |
| `SingleFlight.KeptFor` | hiddify-core/hiddify-sing-box/dns/client.go:376-399 | What one query keeps another finds exactly if they ask the same question and, with a cache per transport, over the same transport. |
| `SingleFlight.Judged` | hiddify-core/hiddify-sing-box/dns/client.go:456-482 | A query that has seen an answer is done with it without calling the transport exactly if it never expires or the clock has not passed its time; else the entry goes, and a lookup goes on to an exchange, an exchange to the transport. |
| `SingleFlight.Refused` | hiddify-core/hiddify-sing-box/dns/client.go:185-199 | A query turned away before the transport is done without having called it, and takes its question off if it leads. |
| `SingleFlight.LookupsPeek` | hiddify-core/hiddify-sing-box/dns/client.go:401-414 | A lookup reads the cache by itself before it exchanges, and no other query does. |
| `SingleFlight.AnswerThere` | hiddify-core/hiddify-sing-box/dns/client.go:441-483 | An answer live until some time, neither evicted nor replaced by a shorter-lived one, is in the cache at the end of any run before then exactly unless a query that was between its look and its removal for that key when the run began has removed it since, with no other answer kept after that; what is there is live until then. |
| `SingleFlight.AnswerStays` | hiddify-core/hiddify-sing-box/dns/client.go:441-483 | Such an answer stays throughout the run if and only if no such query removes its entry in it. |
| `SingleFlight.WaiterAnswers` | hiddify-core/hiddify-sing-box/dns/client.go:143-183 | A released waiter that looks finds such an answer if and only if it remains by that condition; if it reads the clock before the answer expires it is then done without calling the transport, and if it has found none it has missed. |
| `LateRemoval.LateRemoval` | hiddify-core/hiddify-sing-box/dns/client.go:459-478 | A run: with an answer kept at 2 and live until 100, nothing evicted and no shorter-lived answer, a query that had found the previous answer expired removes the new one, and a released waiter calls the transport at 2. |
| `DnsCache.ExtractNegative` | hiddify-core/hiddify-sing-box/dns/client.go:98-110 | There is a result exactly if some record is an SOA; with the first one it is at most its time to live and its minimum, and equals one of them. |
| `DnsCache.NegativeMeans` | hiddify-core/hiddify-sing-box/dns/client.go:98-110 | The same of the function that says what it computes. |
| `DnsCache.ComputeTtl` | hiddify-core/hiddify-sing-box/dns/client.go:279-296 | The answer's time to live by the branches of the code; what it means is TtlMeans. |
| `DnsAgeing.TtlMeans` | hiddify-core/hiddify-sing-box/dns/client.go:279-296 | A rewritten time is taken as it is; else a negative answer gets the smaller of its first SOA record's time to live and minimum if both are positive (RFC 2308, section 5), and any other the least positive time among all records, 0 if none. |
| `DnsCache.SetAll` | hiddify-core/hiddify-sing-box/dns/client.go:297-301 | Every record gets the one time to live, in place, and nothing else changes. |
| `DnsCache.Negotiate` | hiddify-core/hiddify-sing-box/dns/client.go:306-315 | On the message itself: EDNS records go if the query had none or an older version, and a fresh one comes if it had one. |
| `DnsCache.Cache.Load` | hiddify-core/hiddify-sing-box/dns/client.go:441-513 | A live entry comes back as an aged copy with the cached message as it was; an expired one is removed. |
| `DnsCache.AgeCopy` | hiddify-core/hiddify-sing-box/dns/client.go:484-511 | The copy's times to live brought down in 32-bit arithmetic from the least positive one cached. |
| `DnsCache.Finish` | hiddify-core/hiddify-sing-box/dns/client.go:279-317 | The answer is stored only if cacheable, a success or a name error, and with a positive time to live, and the stored object is the one handed out, rewrite included. |
| `DnsAnswers.FinishedMeans` | hiddify-core/hiddify-sing-box/dns/client.go:297-305 | It has the query's id and its own code and questions, and every answer and authority record its one time to live and is otherwise unchanged. |
| `DnsAnswers.ExtraKept` | hiddify-core/hiddify-sing-box/dns/client.go:306-309 | So have the additional records if none is an OPT record, or if the query's last one has a version no older than bits 16 to 23 of the time to live. |
| `DnsAnswers.ExtraRewritten` | hiddify-core/hiddify-sing-box/dns/client.go:308-315 | Otherwise all OPT records go, and if the query has one a fresh one comes last, with the size of the answer's last one and the flag bit 15 of the time to live spells. |
| `DnsAnswers.EdnsIsLast` | hiddify-core/hiddify-sing-box/dns/client.go:306-307 | A message's EDNS record is its last OPT record. |
| `DnsAnswers.Packed` | hiddify-core/hiddify-sing-box/dns/client.go:308-313 | Version and flag are read where section 6.1.3 of RFC 6891 packs them. |
| `DnsAnswers.AgedMeans` | hiddify-core/hiddify-sing-box/dns/client.go:471-511 | Loading changes times to live and nothing else: each by what has passed of the least positive one, in 32 bits, or all to the seconds left. |
| `DnsAgeing.HitExact` | hiddify-core/hiddify-sing-box/dns/client.go:484-511 | Every time to live handed out is the whole seconds left exactly when the cached records carry one and the same. |
| `DnsAgeing.FinishedUniform` | hiddify-core/hiddify-sing-box/dns/client.go:297-315 | The cached records carry one time to live exactly unless the EDNS record was replaced after storing and another record remains. |
| `DnsAgeing.CachedTtl` | hiddify-core/hiddify-sing-box/dns/client.go:279-315 | For every cacheable answer and load before expiry: the seconds left are within the stored time, and all records show them, exactly unless that replacement happened. |
| `DnsAgeing.LoadsShrink` | hiddify-core/hiddify-sing-box/dns/client.go:484-511 | Of two loads of one cached message the later shows a record with no more than the earlier did exactly unless the 32-bit subtraction wraps around for that record in between. |
| `DnsAgeing.NeverGrows` | hiddify-core/hiddify-sing-box/dns/client.go:279-315 | Two loads of one stored answer while it is live: no record comes out with more the second time, unless the EDNS record was replaced and another record remains. |
| `DnsAgeing.DayLongAnswerWraps` | hiddify-core/hiddify-sing-box/dns/client.go:306-315 | An answer for 65536 to 98303 seconds, so for a day, to a query with a bare EDNS record: one second later the EDNS record comes out at 2^32 - 1. |
| `DnsAgeing.DayLongAnswerGrows` | hiddify-core/hiddify-sing-box/dns/client.go:306-315 | From 98304 to 131071 seconds, where the stored time has the DNSSEC bit set, the address record comes out above what was stored. |
| `ClientSubnet.SetClientSubnet` | hiddify-core/hiddify-sing-box/dns/extension_edns0_subnet.go:9-11 | The result is the message with the rewritten additional records, and the caller's message is as it was. |
| `ClientSubnet.SetIn` | hiddify-core/hiddify-sing-box/dns/extension_edns0_subnet.go:13-57 | With cloning nothing existing changes; the retry works in place on the copy and does not retry again. |
| `ClientSubnet.Scan` | hiddify-core/hiddify-sing-box/dns/extension_edns0_subnet.go:18-30 | The scan ends at the first subnet option, else at the last record if that is OPT, else nowhere. |
| `ClientSubnet.FirstCarries` | hiddify-core/hiddify-sing-box/dns/extension_edns0_subnet.go:49-56 | The first subnet option of an OPT record afterwards carries the prefix's family, length and address. |
| `ClientSubnet.OthersStay` | hiddify-core/hiddify-sing-box/dns/extension_edns0_subnet.go:31-48 | Every other record stays, and of the one written every other option and field; an option that was there keeps its place and scope, a new one comes last. |
| `ClientSubnet.SentWith` | hiddify-core/hiddify-sing-box/dns/client.go:126-132 | A query is sent with its own prefix if it has one, else with the configured one, and is otherwise as it came. |
| `ClientSubnet.CacheUse` | hiddify-core/hiddify-sing-box/dns/client.go:126-142 | The exchange uses the cache exactly if no prefix is sent, the cache is on, and the query has one question, no authority records and at most a bare EDNS record. |
| `ClientSubnet.LastWins` | hiddify-core/hiddify-sing-box/dns/extension_edns0_subnet.go:13-57 | Setting one prefix and then another gives what setting the other gives. |
| `ClientSubnet.RewrittenAt` | hiddify-core/hiddify-sing-box/dns/extension_edns0_subnet.go:31-48 | Where the option is afterwards, and that a new record is only ever added at the end. |
| `ClientSubnet.SecondOpt` | hiddify-core/hiddify-sing-box/dns/extension_edns0_subnet.go:18-48 | An OPT record is added exactly when no OPT record has a subnet option and the last record is not OPT, even if an earlier one is. |
| `ClientSubnet.TailoredNeverCached` | hiddify-core/hiddify-sing-box/dns/client.go:126-142 | A query with a subnet, its own or configured, is never simple once rewritten, so the exchange neither loads nor stores an answer for it. |

## Left out

- FileStore: a database transaction that aborts, closing the store, and the shared-memory protocol with its chunked writes are not modelled.
- FileStore.FileSystem.Open: the random name given to an anonymous file is a parameter.
- WriteOverlay.Overlay.PutChunk: blocks are values replaced in a map, so two references to one block are not modelled.
- WorkQueue.PendingList.AddWrite: the linked list is a sequence, so its node pointers are not modelled.
- FileDatabase.Database.Put: blocks are put one at a time, in key order, where the code has all puts under way together in one transaction.
- Decimal.Parse: the regular expression is modelled by what it accepts; parsing of doubles is not modelled.
- BigIntegers.ShiftDown: the error for a negative shift amount is a precondition; shifting left is modelled on magnitudes only.
- Digits.Compare: operands of different lengths are taken to have no leading zeros, as every caller has them.
- StatementCache.Cache.Run: running a statement or a text is not modelled.
- Connections.Subscription.Initial: each of the manager's two lists is read at one moment; message fields other than totals, rates and closing time are not modelled.
- Connections.Subscription.TrafficUpdates: one clock reading serves the whole batch.
- LogStream.ClientEndsWithServer: the emitter's package is not part of this model: its queue and each client's are taken to pass items on in order and to drop none, so an item dropped from a full queue is not modelled.
- Lifecycle.RunsSafe: what creating, starting and closing an instance do is a success or a failure; hooks, extra services and the start time are not modelled.
- SingleFlight.WaiterAnswers: with a cache per transport the lock is still per question, so the property is about waiters whose own key was stored.
- SingleFlight.RunsSafe: time-outs and cancellation are a waiter that gives up at any moment; panics are not modelled.
- DnsCache.Finish: response checking, the rejected-response store, address strategies and the filtering of HTTPS hints are not modelled.
- DnsCache.Cache.Load: eviction by the cache's capacity is not modelled here.
- ClientSubnet.SetIn: options are values in a record's list, so that a copy also copies them is part of copying records.
- SingleFlight.Step: a lookup reads the cache by itself before it exchanges (client.go 391-414); that reading is modelled, but not that it also happens for queries a configured subnet would tailor, nor turning messages into addresses.
- Real transports, gRPC, protobuf, URL tests, groups, platform handlers, staged start and close, metadata codecs and user interfaces are not modelled.
