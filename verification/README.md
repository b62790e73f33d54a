# raRt router and zlog: a verified model

The repository holds two programs. raRt takes UDP datagrams, wraps each in a frame under its
sender's address, forwards the frames to one TCP server and sends the server's replies back to
the peers. zlog is the logging library bundled with it. This project models the parts of both
that carry state, in Dafny, and proves what they promise. `dafny verify dfyconfig.toml` checks
everything.

## What is modelled

The logger:

- `LogBuffer.dfy`: the growable byte buffer with a cap and a truncation marker, and its six writers. A run of
  writers in any order leaves one cut of everything that was asked for.
- `HexDump.dfy`: the hex dump that is written piece by piece into such a buffer, and a reader for its hex columns.
- `HashTable.dfy`: bucket chains with `prev` and `next` links in the heap, the rehash, and the iterator. Runs
  refine a map; iteration visits every entry once.
- `Dispatch.dfy`, `Category.dfy`: level bitmaps, rule matching, the rules of a category, and update, commit and
  rollback for one category and for the whole table.
- `Pattern.dfy`, `Render.dfy`, `LogEnv.dfy`: patterns cut into specs, numbered time caches, rendering through the
  caches and the side buffer, and the versioned thread records that survive a reload.
- `ArrayList.dfy`, `ArchiveIndex.dfy`, `ArchiveFiles.dfy`, `NumberedFiles.dfy`, `Rotater.dfy`: the sorted list, the
  arithmetic of archive numbers, what a rotation does to every file of any directory, and the renames and unlinks
  themselves.
- `RotationLock.dfy`, `RotationRuns.dfy`: the two-level lock as a state machine over threads of any number of
  processes, and the rotations and log writes that interleave under it.

The router:

- `Wire.dfy`, `FrameReader.dfy`: the packet buffer with its codec, and the header/payload read machine on a
  stream that arrives in arbitrary segments.
- `Address.dfy`: address tuples, their order, their text, and the split that recovers address and port.
- `Session.dfy`: the connection and the TCP-bound queue of a session as a step machine, and the object whose
  handlers take these steps.
- `UdpQueue.dfy`, `UdpRelay.dfy`: the shared queue towards the UDP peers, and the object that empties it.
- `SessionManager.dfy`: the map from peers to sessions.
- `Router.dfy`: all sessions' streams, interleaved byte by byte, into the shared queue.

`Text.dfy` and `Option.dfy` hold number texts, C string scanning and the option type.

## How it is modelled

- Operations that change fields are methods of classes. Each states its whole new state, either through a
  specification function or through a step of a state machine about which the run theorems are proved.
- Asynchronous completions, allocation failures, the clock, the process id, `vsnprintf`, `localtime_r`, `strftime`
  and the order of a directory listing are parameters. A theorem over a run holds for every choice of them.
- A C `char` is a Dafny `char`. Arrays embedded in a struct and never shared (bitmaps) are sequence fields; heap
  blocks and the packet buffer are arrays.
- The hash table's hash is an arbitrary function of the key. The threshold `nelem > tab_size * 1.3` is
  written as `10 * nelem > 13 * tab_size`.
- A queued packet in `UdpQueue.dfy` is represented by what `deliver_to_udp_peer` makes of it: send a datagram, drop it, or
  end the program. `Address.dfy` computes this from a queued copy's bytes, and `UdpRelay.dfy` queues such copies. An
  exception in a handler ends the program, because the handlers run in a thread whose body is `io_service::run`
  itself (`src/main.cpp:166`).
- Message buffers are restarted for every message, so a thread's record keeps their sizes only.

## Where the code differs from its comments

- `zlog_reload` clears the flag that guards the rollback before it tests it. It fails exactly when the file does not
  load or an allocation for some category fails; the categories are damaged exactly in the second case
  (`LogEnv.LogEnv.Reload`, `LogEnv.FailedReloadLosesRules`). The table-wide rollback itself restores everything
  (`Category.CategoryTable.UpdateOrRestore`).
- `zlog_format_gen_msg` returns -1, not 0, when the buffer is full (`Render.Thread.GenMsg`). The output functions then
  write nothing, so a message that would carry the truncation marker is dropped (`Render.Thread.Output`).
- Rolling rotation loses an archive exactly when one has an index at least two above its position and within the kept
  range (`ArchiveIndex.RollLosesExactlyWhen`, `ArchiveIndex.GapLosesAnArchive`). Archives without gaps stay without gaps.
- Any listed file is taken for an archive, with number 0 when there is none in its name: `app.log.bak` beside
  `app.log` is rotated away (`ArchiveFiles.BackupIsRolled`). Other files are left alone exactly when no such
  file is listed, or in sequence rotation when none is among the unlinked ones (`ArchiveFiles.RollKeepsOthersExactlyWhen`,
  `ArchiveFiles.SequenceKeepsOthersExactlyWhen`).
- Sequence rotation leaves up to `max_count + 1` archives, because it unlinks before it adds
  (`ArchiveIndex.SequenceRunKeepsNewest`).
- `zc_arraylist_set` stays within bounds exactly for an index below twice the current size
  (`ArrayList.SetInBoundsExactlyWhen`, `ArrayList.SetOutOfBounds`).
- A rule with an unknown level name gets level -1 and is accepted; its bitmap still agrees with
  `zlog_rule_output`, so the bitmap results cover levels from -1 on (`Dispatch.BuildBitmap`).
- The router's encoder accepts more than its decoder: a frame is readable exactly when peer, data and the
  4-character peer length together are at most 1024 (`FrameReader.FrameRead`, `FrameReader.LongFrameClosesSession`).
- A datagram whose frame is above that limit is copied beyond the end of the packet's buffer, since the copy counts the
  peer length twice; encoding itself stays inside up to 1024 bytes (`Wire.InBoundsExactlyWhen`, `Wire.CopyOverruns`).
- The UDP-bound queue starts surplus sends, so delivery is at least once (`UdpQueue.NotExactlyOnce`). A packet without a
  usable peer text is dropped without a send of the next one, which a surplus completion then pops unsent
  (`UdpQueue.DropLosesTheNext`). A peer text without an address ends the program with packets still queued
  (`UdpQueue.FatalLosesTheRest`). Over any set of packets no run loses a well-formed one exactly when all are
  well-formed, or none is (`UdpQueue.NothingLostExactlyWhen`).

## Model

| member | source | states |
|---|---|---|
| `LogBuffer.CutAgain` | zlog-latest-stable/src/buf.c:152-163 | truncating in the middle of a run is invisible at its end, and a full buffer ignores further text |
| `LogBuffer.RunIsOneCut` | zlog-latest-stable/src/buf.c:516-556 | for every list of texts, one cut per write leaves what a single write of the concatenation leaves |
| `LogBuffer.RunIsLosslessWhenItFits` | zlog-latest-stable/src/buf.c:516-556 | a run that fits is kept verbatim; one that does not leaves exactly size_max - 1 bytes |
| `LogBuffer.CutMeans` | zlog-latest-stable/src/buf.c:152-163 | a text that does not fit leaves its first characters and the whole marker behind them, cap - 1 in all, or the first cap - 1 of a longer marker |
| `LogBuffer.AdjustedMeans` | zlog-latest-stable/src/buf.c:568-617 | at most the greatest number of characters of the text, at least the least number in all, with spaces on the side away from the text |
| `LogBuffer.WriteDigits` | zlog-latest-stable/src/buf.c:291-297 | the backward digit loop yields the shortest text of the value and stays inside the digit area |
| `LogBuffer.DigitAreasSuffice` | zlog-latest-stable/src/zc_xplatform.h:24-31 | 11 and 20 characters hold every 32-bit and 64-bit value, also in hexadecimal |
| `LogBuffer.LogBuffer.New` | zlog-latest-stable/src/buf.c:98-149 | NULL exactly for a zero minimum, a maximum below it, or an overlong marker; otherwise an empty buffer |
| `LogBuffer.LogBuffer.Seal` | zlog-latest-stable/src/buf.h:65 | the terminating byte is always inside the block and leaves the text alone |
| `LogBuffer.LogBuffer.Truncate` | zlog-latest-stable/src/buf.c:152-163 | lays the marker over the tail of the text, cut if the text is shorter |
| `LogBuffer.LogBuffer.Resize` | zlog-latest-stable/src/buf.c:171-216 | keeps the text; 1 exactly when the cap stops the growth, and then the block is at its cap |
| `LogBuffer.LogBuffer.Append` | zlog-latest-stable/src/buf.c:516-556 | text is the cut of old text plus new text; 1 exactly when it was cut |
| `LogBuffer.LogBuffer.AdjustAppend` | zlog-latest-stable/src/buf.c:559-646 | the same for the text cut to the greatest and padded to the least width, left or right |
| `LogBuffer.LogBuffer.PrintDec32` | zlog-latest-stable/src/buf.c:279-342 | the same for the zero-padded decimal text of a 32-bit value |
| `LogBuffer.LogBuffer.PrintDec64` | zlog-latest-stable/src/buf.c:344-433 | the same for a 64-bit value; the shortcut for small values emits the same text |
| `LogBuffer.LogBuffer.PrintHex` | zlog-latest-stable/src/buf.c:435-513 | the same for the zero-padded hexadecimal text of a 32-bit value |
| `LogBuffer.LogBuffer.Vsnprintf` | zlog-latest-stable/src/buf.c:44-73 | the contract of section 7.19.6.5 of ISO C99: a prefix that leaves room for the null, and the full length returned |
| `LogBuffer.LogBuffer.Vprintf` | zlog-latest-stable/src/buf.c:218-275 | the same cut as append for the formatted output; an encoding error is -1 and changes nothing |
| `LogBuffer.LogBuffer.PerformAll` | zlog-latest-stable/src/buf.c:218-646 | after every run of the six writers the text is everything asked for if that fits; otherwise its beginning followed by the whole marker, cap - 1 characters in all, or the beginning of a longer marker; and some call reports a cut exactly then |
| `Text.DigitsDenote` | zlog-latest-stable/src/buf.c:291-297 | the digit text of a value denotes the value, in every base |
| `Text.DigitsLength` | zlog-latest-stable/src/buf.c:291-297 | at most n digits if and only if the value is below base to the n |
| `Text.ZeroPadDenotes` | zlog-latest-stable/src/buf.c:299-305 | zero padding to any width keeps the value |
| `HexDump.WriteDump` | zlog-latest-stable/src/spec.c:256-350 | all the pieces of a dump amount to one cut write of its text, wherever the buffer fills up |
| `HexDump.AfterWrite` | zlog-latest-stable/src/spec.c:266-347 | stopping at the first full write leaves what writing everything would leave |
| `HexDump.DumpRoundTrip` | zlog-latest-stable/src/spec.c:266-347 | decoding the hex columns of the dump of any bytes gives back exactly the bytes |
| `HexDump.LineShows` | zlog-latest-stable/src/spec.c:275-343 | every line shows its number in ten digits and every byte twice, as two hex digits and as its character or a dot, with blanks behind the last byte |
| `HexDump.LineWidth` | zlog-latest-stable/src/spec.c:275-343 | a line is 80 characters wide if and only if its number has at most ten digits |
| `HexDump.DumpLength` | zlog-latest-stable/src/spec.c:266-347 | max(1, ceil(n/16)) lines of equal width after the heading |
| `HashTable.LinkFront` | zlog-latest-stable/src/zc_hashtable.c:222-234 | pushing an entry to its bucket's front keeps all next and prev links of all chains |
| `HashTable.FrontPushed` | zlog-latest-stable/src/zc_hashtable.c:222-234 | after the push every entry is in the bucket of its hash and no key occurs twice |
| `HashTable.UnlinkFrom` | zlog-latest-stable/src/zc_hashtable.c:263-273 | taking an entry out joins its neighbours or the head and leaves every other chain linked |
| `HashTable.Removed` | zlog-latest-stable/src/zc_hashtable.c:240-279 | after the removal exactly the other entries are left, each in its bucket |
| `HashTable.MoveAll` | zlog-latest-stable/src/zc_hashtable.c:120-155 | the rehash loops move every entry into the right new bucket, linked, none lost or doubled |
| `HashTable.Table.Rehash` | zlog-latest-stable/src/zc_hashtable.c:120-155 | twice the buckets, same entries, same map |
| `HashTable.Table.Get` | zlog-latest-stable/src/zc_hashtable.c:157-183 | the map's value, or nothing if and only if the key is absent |
| `HashTable.Table.Put` | zlog-latest-stable/src/zc_hashtable.c:185-238 | the map updated at the key, whether replaced, inserted or rehashed first; the buckets double exactly for a new key in a table that is over its load; invariant kept |
| `HashTable.Table.Remove` | zlog-latest-stable/src/zc_hashtable.c:240-279 | the map without the key; an absent key changes nothing |
| `HashTable.Table.Clean` | zlog-latest-stable/src/zc_hashtable.c:97-118 | the empty map in the same buckets |
| `HashTable.Table.PerformAll` | zlog-latest-stable/src/zc_hashtable.c:97-279 | every run of put, get, remove and clean gives the answers and the final contents of the run on a map, and nelem is its size |
| `HashTable.Table.Next` | zlog-latest-stable/src/zc_hashtable.c:296-313 | the entry at the following position of the iteration order, or NULL at its end |
| `HashTable.Table.ForEach` | zlog-latest-stable/src/zc_hashtable.c:281-313 | begin and next terminate after nelem entries, in bucket order |
| `HashTable.OrderVisitsOnce` | zlog-latest-stable/src/zc_hashtable.c:281-313 | in every consistent layout the iteration order lists every entry, and every key once |
| `Dispatch.BuildBitmap` | zlog-latest-stable/src/rule.c:647-671 | a bit is set if and only if zlog_rule_output would write an event of that level, for all four comparisons and levels -1 to 255 |
| `Dispatch.MatchesMeans` | zlog-latest-stable/src/rule.c:981-1009 | star, equality, or a trailing underscore as a prefix rule that also matches the name without it; nothing else |
| `Dispatch.MatchedAreRules` | zlog-latest-stable/src/category.c:86-103 | the collected rules are exactly the matching ones |
| `Dispatch.FitMatching` | zlog-latest-stable/src/category.c:86-103 | if some rule matches, the category gets the rules at exactly the matching positions, in ascending order |
| `Dispatch.FitWastebin` | zlog-latest-stable/src/category.c:105-119 | if none matches, it gets the last rule named "!", alone |
| `Dispatch.FitNothing` | zlog-latest-stable/src/category.c:105-119 | with neither it gets none |
| `Dispatch.ActionPositions` | zlog-latest-stable/src/category.c:232-244 | the actions of a rule list at a level are those at exactly the positions that want the level, in order |
| `Dispatch.MatchingActions` | zlog-latest-stable/src/category.c:232-244 | so a log call performs the actions at exactly the positions that match the name and want the level, in order |
| `Dispatch.BitmapAgreesWithScan` | zlog-latest-stable/src/category.c:60-66 | a bit of the overlapped bitmap is set if and only if scanning the rules outputs something |
| `Dispatch.NeedlessIsExact` | zlog-latest-stable/src/category.h:45-46 | for every name, rule list and level the fast test says needless exactly when nothing would be logged, wastebin fallback included |
| `Category.Category.OverlapBitmap` | zlog-latest-stable/src/category.c:60-66 | the byte loop is the bitwise or of both bitmaps |
| `Category.Category.ObtainRules` | zlog-latest-stable/src/category.c:68-123 | the loop with its allocations builds the matching rules or the wastebin rule and their bitmap; fails exactly when an allocation does, and then leaves no list |
| `Category.Category.ObtainedRules` | zlog-latest-stable/src/category.c:68-123 | the list so built, by positions alone: the matching rules in order; or the last wastebin rule; or nothing |
| `Category.Category.UpdateRules` | zlog-latest-stable/src/category.c:159-181 | old rules and bitmap are in the backups, new ones in place, or none after a failure |
| `Category.Category.Log` | zlog-latest-stable/src/zlog.c:835-881 | the early test and the scan together perform exactly the actions of the scan alone |
| `Category.RollbackUndoesUpdate` | zlog-latest-stable/src/category.c:203-228 | rollback after an update, failed or not, is the identity, and so is rollback without one |
| `Category.CommitCompletesUpdate` | zlog-latest-stable/src/category.c:185-198 | commit after an update leaves what zlog_category_new would build from the new rules |
| `Category.CategoryTable.UpdateRules` | zlog-latest-stable/src/category_table.c:68-82 | fails exactly when some category's allocations do, and stops there: exactly the visited categories are updated, the others untouched |
| `Category.CategoryTable.UpdateOrRestore` | zlog-latest-stable/src/category_table.c:68-108 | succeeds exactly when every category's allocations do; then commit leaves every category as new with no backup, otherwise rollback restores every category exactly |
| `Category.CategoryTable.UpdateAndCommit` | zlog-latest-stable/src/zlog.c:267-279 | commit after a successful update; after a failed one a category is left without rules |
| `Category.CategoryTable.FetchCategory` | zlog-latest-stable/src/category_table.c:111-138 | an existing category is returned unchanged, a new one is built from the rules, NULL exactly for a long name or a failed allocation |
| `Pattern.NextSpec` | zlog-latest-stable/src/spec.c:469-655 | an accepted spec is a non-empty prefix of the rest, and takes the next cache slot if and only if it is a time spec |
| `Pattern.ConversionMeans` | zlog-latest-stable/src/spec.c:484-509 | a conversion is the percent sign, the longest run of width characters and what follows; it goes through the side buffer exactly with a width |
| `Pattern.WidthsMean` | zlog-latest-stable/src/spec.c:433-456 | the two numbers in front of a conversion are its least and greatest width, a minus sign in front of them makes it left-adjusted |
| `Pattern.LettersMean` | zlog-latest-stable/src/spec.c:581-606 | which single letter asks for which text |
| `Pattern.OtherLettersMean` | zlog-latest-stable/src/spec.c:564-629 | the other letters, and the two-letter conversions ms and us, of which only m also stands alone |
| `Pattern.ParenthesesMean` | zlog-latest-stable/src/spec.c:511-562 | a parenthesised time format or key reaches to the first closing parenthesis, and is refused without one |
| `Pattern.OthersRefused` | zlog-latest-stable/src/spec.c:630-632 | every other beginning is a pattern error |
| `Pattern.ConstantsMean` | zlog-latest-stable/src/spec.c:635-649 | a constant text reaches to the next percent sign |
| `Pattern.CompilePattern` | zlog-latest-stable/src/format.c:134-146 | the cursor loop terminates and equals the recursive compilation |
| `Pattern.SpecsTilePattern` | zlog-latest-stable/src/format.c:134-146 | the slices of every accepted pattern are non-empty and concatenate to the pattern |
| `Pattern.CompileAnyCount` | zlog-latest-stable/src/spec.c:469-655 | whether a pattern is accepted does not depend on the time specs of the patterns before it |
| `Pattern.ConfigurationSlots` | zlog-latest-stable/src/spec.c:511-590 | across the formats of a loaded configuration no two time specs share a cache, and every cache belongs to its spec's own format |
| `Render.Event.TimeText` | zlog-latest-stable/src/spec.c:59-84 | the text behind both caches is the direct formatting of the event's single timestamp |
| `Render.Event.PidText` | zlog-latest-stable/src/spec.c:207-222 | the cached pid text is the decimal text of the event's pid |
| `Render.NumbersMean` | zlog-latest-stable/src/spec.c:112-222 | milliseconds have three digits and microseconds six, and all numbers read back as their values, line and pid without leading zeros |
| `Render.BaseNameMeans` | zlog-latest-stable/src/spec.c:160-174 | the short file name is the part behind the last slash |
| `Render.TextsMean` | zlog-latest-stable/src/spec.c:128-350 | the texts of all other specs, with their replacements for what an event does not have |
| `Render.WriteSpec` | zlog-latest-stable/src/spec.c:59-350 | every spec writes its text as one cut write, whatever the caches hold |
| `Render.Thread.GenSpec` | zlog-latest-stable/src/spec.c:355-378 | direct, or cut by the side buffer and adjusted in width; a failed writer leaves the message alone |
| `Render.Thread.GenMsg` | zlog-latest-stable/src/format.c:159-175 | all specs see one time and one pid; the buffer holds the cut of the whole message; 0 exactly when nothing failed and nothing was cut |
| `Render.RenderedIsConcatenation` | zlog-latest-stable/src/format.c:159-175 | the message is the concatenation of the width-adjusted spec texts |
| `Render.PieceMeans` | zlog-latest-stable/src/spec.c:355-378 | a spec with widths contributes at most the greatest number of characters of what the side buffer holds of its text, padded to the least with spaces on the proper side |
| `Render.DeliveredMeans` | zlog-latest-stable/src/rule.c:88-111 | a message is written exactly when every spec has a text and their concatenation fits, and then it is that concatenation |
| `Render.FirstReadingMeans` | zlog-latest-stable/src/spec.c:59-126 | the time of a message is the event's, or what the first spec that asks reads |
| `Render.Thread.Output` | zlog-latest-stable/src/rule.c:88-111 | what is written is the whole message or nothing; nothing exactly when a spec fails or the message does not fit |
| `Render.Thread.OutputAll` | zlog-latest-stable/src/category.c:232-244 | the outputs follow each other on one event: each is written in full or not at all, exactly as its text at the time it finds or reads decides |
| `Render.WrittenShowOneTime` | zlog-latest-stable/src/category.c:232-244 | all messages written in one log call show one time, whichever output read the clock first |
| `Render.SceneMatters` | zlog-latest-stable/src/spec.c:59-222 | formats without clock or pid specs render the same at every time or pid |
| `Render.PieceDependsOn` | zlog-latest-stable/src/spec.c:59-254 | only time specs depend on the timestamp and only the pid spec on the pid |
| `LogEnv.LoadConf` | zlog-latest-stable/src/conf.c:475-487 | loads exactly when every pattern is accepted on its own; the formats are the patterns, one each: the slices of each tile its own pattern, and it is what compiling that pattern gives from the count of the earlier time specs; rules and buffer sizes are the given ones |
| `LogEnv.LogEnv.FetchThread` | zlog-latest-stable/src/zlog.c:426-463 | succeeds exactly for a current record, or when the needed allocations do; then the record is of the current version and its caches fit the current configuration; otherwise nothing changes but buffers rebuilt before the event failed |
| `LogEnv.ServedMeans` | zlog-latest-stable/src/zlog.c:426-463 | which of the two allocations a new, a current and an outdated thread need |
| `LogEnv.LogEnv.LogTime` | zlog-latest-stable/src/spec.c:59-84 | in every reachable state the cached time text of any spec equals direct formatting with that spec's format |
| `LogEnv.LogEnv.Reload` | zlog-latest-stable/src/zlog.c:220-307 | succeeds exactly when the file loads and every category's allocations do; categories are damaged exactly when it loads and one of them fails; success outdates all thread records |
| `LogEnv.FailedReloadLosesRules` | zlog-latest-stable/src/zlog.c:267-291 | a concrete reload that fails and takes its one rule away from a category |
| `LogEnv.LogEnv.GetCategory` | zlog-latest-stable/src/zlog.c:338-381 | NULL exactly for a long name or a failed allocation; a new category is built from the current rules, an existing one returned |
| `LogEnv.LogEnv.Log` | zlog-latest-stable/src/zlog.c:622-677 | in every reachable state a log call yields, for every output the rules ask for, the whole text for the current configuration at the time that output finds or reads, or nothing exactly if that text fails or is too long |
| `LogEnv.OutputsMean` | zlog-latest-stable/src/category.c:232-244 | the outputs of a log call are those of exactly the rules that match and want the level, in order, each with the format of its own action |
| `LogEnv.LogHello` | zlog-latest-stable/src/zlog.c:622-677 | a concrete logger whose first log call writes its message |
| `ArrayList.InsertedAt` | zlog-latest-stable/src/zc_arraylist.c:130-144 | sorted insertion goes in front of the first greater element |
| `ArrayList.ArrayList.Expand` | zlog-latest-stable/src/zc_arraylist.c:69-87 | capacity is the larger of twice the size and the index, the contents stay |
| `ArrayList.SetInBoundsExactlyWhen` | zlog-latest-stable/src/zc_arraylist.c:69-102 | the store of zc_arraylist_set is inside the block if and only if the index is below twice the size |
| `ArrayList.SetOutOfBounds` | zlog-latest-stable/src/zc_arraylist.c:69-102 | index 64 on a fresh list of 32 is stored behind the 64 slots it grows to |
| `ArrayList.ArrayList.Set` | zlog-latest-stable/src/zc_arraylist.c:89-102 | overwrites, or appends after a gap of NULLs |
| `ArrayList.ArrayList.Add` | zlog-latest-stable/src/zc_arraylist.c:104-107 | appending is always within bounds and adds exactly the element |
| `ArrayList.ArrayList.InsertInner` | zlog-latest-stable/src/zc_arraylist.c:110-128 | fills an empty slot, or shifts the tail by one |
| `ArrayList.ArrayList.SortAdd` | zlog-latest-stable/src/zc_arraylist.c:130-144 | the scan and the shift together are sorted insertion |
| `ArchiveIndex.RollLosesExactlyWhen` | zlog-latest-stable/src/rotater.c:296-356 | some rename overwrites an archive if and only if one sits at least two above its position within the kept range |
| `ArchiveIndex.GapLosesAnArchive` | zlog-latest-stable/src/rotater.c:296-356 | archives 2 and 3, both kept: one of them is overwritten |
| `ArchiveIndex.RollKeepsOrder` | zlog-latest-stable/src/rotater.c:296-356 | otherwise the result is contiguous: base file, then the kept archives in order, gaps closed |
| `ArchiveIndex.RollFindsItsFiles` | zlog-latest-stable/src/rotater.c:303-330 | even when archives are overwritten, every rename finds its source, and index 0 ends up free |
| `ArchiveIndex.ContiguousRoll` | zlog-latest-stable/src/rotater.c:296-356 | contiguous archives are never overwritten and stay contiguous, cut to max_count when it is positive |
| `ArchiveIndex.NextIndexMeans` | zlog-latest-stable/src/rotater.c:262-275 | in sequence rotation the base file gets the successor of the greatest number, and 0 without archives |
| `ArchiveIndex.RollRunKeepsNewest` | zlog-latest-stable/src/rotater.c:296-356 | after any number of rotations the archives are the newest rotated files, newest first |
| `ArchiveIndex.SequenceKeepsNewest` | zlog-latest-stable/src/rotater.c:243-293 | the base file goes strictly above all indices; exactly the newest max_count old archives stay, in order |
| `ArchiveIndex.SequenceRunKeepsNewest` | zlog-latest-stable/src/rotater.c:243-293 | over any run index order is age order and the newest max_count + 1 files are kept, all without a limit |
| `ArchiveIndex.ListingUnique` | zlog-latest-stable/src/rotater.c:192-241 | the sorted list does not depend on the order of the directory |
| `ArchiveFiles.CheckNewReadsNumber` | zlog-latest-stable/src/rotater.c:142-184 | the number read from an archive path is the number it was made with if and only if that is an int |
| `ArchiveFiles.CheckNewMeans` | zlog-latest-stable/src/rotater.c:142-184 | refused are exactly the base file, directories, long paths and numbers shorter than the width; the others get the number read behind the prefix |
| `ArchiveFiles.NumbersReadExactlyWhen` | zlog-latest-stable/src/rotater.c:166-178 | the names of all archives denote their numbers if and only if the text behind the number does not start with a digit |
| `ArchiveFiles.ListedMeans` | zlog-latest-stable/src/rotater.c:192-241 | for any directory the list holds exactly the accepted paths, each once |
| `ArchiveFiles.RollFindsFiles` | zlog-latest-stable/src/rotater.c:303-330 | whatever is listed and overwritten, every file still to be moved is there, and so is the base file |
| `ArchiveFiles.BlockedMeans` | zlog-latest-stable/src/rotater.c:303-330 | the loop runs downwards and stops at the first new name that is too long |
| `ArchiveFiles.RollKeepsOthersExactlyWhen` | zlog-latest-stable/src/rotater.c:296-356 | a rolling rotation leaves all other files alone if and only if nothing but archives is listed |
| `ArchiveFiles.SequenceKeepsOthersExactlyWhen` | zlog-latest-stable/src/rotater.c:243-293 | a sequence rotation does if and only if nothing but archives is among the unlinked files |
| `ArchiveFiles.BackupTakenForArchive` | zlog-latest-stable/src/rotater.c:142-184 | a backup beside the base file is accepted as archive 0 by the default naming |
| `ArchiveFiles.BackupIsRolled` | zlog-latest-stable/src/rotater.c:296-356 | a rolling rotation renames that backup to archive 1 |
| `NumberedFiles.RollResultShows` | zlog-latest-stable/src/rotater.c:296-356 | on a directory of numbered archives rolling files is rolling indices, other files are kept, and files are lost if and only if indices collide |
| `NumberedFiles.SequenceResultShows` | zlog-latest-stable/src/rotater.c:243-293 | the same for sequence rotation, where the base file's new name is always free |
| `NumberedFiles.ListedIsArchives` | zlog-latest-stable/src/rotater.c:192-241 | whatever order a directory of archives is read in, the list is the archives in index order |
| `NumberedFiles.RollRunOnDisk` | zlog-latest-stable/src/rotater.c:540-584 | after any run of rolling rotations the directory holds the newest rotated files, newest first |
| `NumberedFiles.SequenceRunOnDisk` | zlog-latest-stable/src/rotater.c:540-584 | after any run of sequence rotations the directory holds the newest max_count + 1 rotated files in index order |
| `Rotater.Rotater.AddArchiveFiles` | zlog-latest-stable/src/rotater.c:192-241 | for any listing the list holds the accepted paths in number order, earlier listed ones first among equal numbers |
| `Rotater.Rotater.RollFiles` | zlog-latest-stable/src/rotater.c:296-356 | on any list of files: fails exactly when a new name is too long, and the directory is then that of the steps done so far, otherwise that of the whole rotation; every overwritten file is counted |
| `Rotater.Rotater.SeqFiles` | zlog-latest-stable/src/rotater.c:243-293 | on any list of files: the oldest are unlinked and the base file is renamed, or not if its new name is too long |
| `Rotater.Rotater.Rotate` | zlog-latest-stable/src/rotater.c:540-584 | on any directory: nothing happens unless the base file exists and is too large; otherwise one of the two rotations, with when it fails and what it leaves then |
| `Rotater.Rotater.RollNumbered` | zlog-latest-stable/src/rotater.c:540-584 | on gapless archives: fails exactly when a name is too long; otherwise base file and old archives in order, gapless again, nothing overwritten, other files untouched |
| `RotationLock.StepKeepsInv` | zlog-latest-stable/src/rotater.c:480-538 | every lock and unlock call, failed or not, keeps the ownership invariant |
| `RotationLock.OneMoverAtATime` | zlog-latest-stable/src/rotater.c:540-584 | in every interleaving at most one thread of all processes is listing and moving |
| `RotationLock.FileLockImpliesMover` | zlog-latest-stable/src/rotater.c:480-538 | while releases succeed, a process owns the file lock only while its mutex holder moves files |
| `RotationLock.OutsideHoldsNothing` | zlog-latest-stable/src/rotater.c:480-515 | a thread that is back outside, after a failed trylock too, holds neither lock |
| `RotationLock.LocksGotExactlyWhen` | zlog-latest-stable/src/rotater.c:480-515 | in every reachable state a thread outside gets both locks and moves if and only if its process mutex is free and the file lock is free or its own process's, errors apart |
| `RotationLock.LocksAreReleased` | zlog-latest-stable/src/rotater.c:517-538 | a mover that unlocks without an error leaves both locks free |
| `RotationLock.StuckLockExcludesOthers` | zlog-latest-stable/src/rotater.c:517-538 | after a failed release only threads of the owning process can get in |
| `RotationRuns.PlanRotates` | zlog-latest-stable/src/rotater.c:243-356 | the single renames and unlinks of a call amount to what one rotation leaves, also when it stops at a long name |
| `RotationRuns.RotationsAreSerial` | zlog-latest-stable/src/rotater.c:480-584 | threads of any processes list and work on their own, restrained by the locks only, while anybody writes log files: whenever nobody moves files, the directory is that of the recorded rotations and writes one after another, each rotation finding its base file and listing the directory as it then is |
| `RotationRuns.RotationHappens` | zlog-latest-stable/src/rotater.c:540-584 | from an undisturbed start there is a run whose history is the one rotation that was due, and the directory is what that rotation leaves |
| `RotationRuns.OnlyOne` | zlog-latest-stable/src/rotater.c:480-515 | two threads that hold both locks are the same thread; every other step of the serial order rests on this |
| `RotationRuns.WriteCommutes` | zlog-latest-stable/src/rotater.c:243-356 | a write to a file that a rotation has not touched yet may as well have come before it |
| `RotationRuns.BaseFileWritable` | zlog-latest-stable/src/rotater.c:296-356 | the base file can be written at any moment of its own rotation without breaking the serial order |
| `Wire.FieldRoundTrip` | inc/routerSession.h:114-151 | a length of up to four digits survives its padded field |
| `Wire.FieldMeans` | inc/routerSession.h:114-140 | a field counts as the number it starts with, modulo 2^32 for a negative one, and as 0 without a number |
| `Wire.FrameLayout` | inc/routerSession.h:142-203 | the two lengths right-aligned in four characters each, then the peer, then the data |
| `Wire.RouterPacket.Encode` | inc/routerSession.h:142-203 | peer, data and header written into the buffer form exactly the frame |
| `Wire.RouterPacket.DecodeHeader` | inc/routerSession.h:114-127 | accepted if and only if the field's value is at most 1024; the length is 0 otherwise |
| `Wire.RouterPacket.DecodePeer` | inc/routerSession.h:129-140 | accepted if and only if the field's value is at most the payload length |
| `Wire.RouterPacket.Copy` | inc/routerSession.h:58-68 | a copy agrees on both lengths and on every byte up to the end of the frame |
| `Wire.InBoundsExactlyWhen` | inc/routerSession.h:58-68 | encoding is in bounds if and only if peer and data are at most 1024 bytes, copying if and only if they are at most 1020 |
| `Wire.CopyOverruns` | inc/routerSession.h:58-68 | a 1010-byte datagram from 10.0.0.1:5000 is encoded in bounds and copied out of bounds |
| `FrameReader.SegmentationInvisible` | src/routerSession.cpp:225-321 | how the stream is cut into segments makes no difference |
| `FrameReader.FrameRead` | src/routerSession.cpp:241-321 | a frame is read as its packet if and only if it is within the decoder's limit, and closes the session otherwise |
| `FrameReader.HeaderDecides` | src/routerSession.cpp:241-295 | a header of length 0 or above 1024 closes the session for good; any other waits for exactly that many bytes |
| `FrameReader.PayloadDecides` | src/routerSession.cpp:283-321 | a payload with a peer length above its own length stops the reading without a packet; every other gives its packet and the next header is read |
| `FrameReader.LongFrameClosesSession` | inc/routerSession.h:114-127 | a frame of 1021 characters is encoded, and closes the session that reads it |
| `FrameReader.StreamRoundTrip` | src/routerSession.cpp:225-321 | the concatenated frames of any list of packets are read as that list, in order, nothing left over |
| `FrameReader.DeliveredPacket` | inc/routerSession.h:109-112 | a read packet gives back its peer text, its data and its data length |
| `FrameReader.DataLengthRight` | inc/routerSession.h:109-112 | the unsigned data length is right if and only if the peer leaves room for its own length field |
| `FrameReader.CopyGivesPeerAndData` | inc/routerSession.h:109-191 | a queued copy of a received packet gives its peer text and its data, also for a peer length beyond the body |
| `FrameReader.Receiver.HandleReadHeader` | src/routerSession.cpp:241-276 | the handler on the shared buffer takes exactly the reader's steps for the four bytes |
| `FrameReader.Receiver.HandleReadPayload` | src/routerSession.cpp:283-321 | the handler takes the reader's steps for the payload, also when it is shorter than the peer field, and hands over a copy that carries the packet |
| `FrameReader.Receiver.HandleReadError` | src/routerSession.cpp:241-321 | reading ends; a failed payload read without bytes asks for closing twice |
| `Address.LessIsTotal` | src/adrTuple.cpp:49-80 | exactly one of less, equal and greater holds, and equal is operator== |
| `Address.LessIsTransitive` | src/adrTuple.cpp:61-80 | operator< is transitive |
| `Address.LessMeans` | src/adrTuple.cpp:61-80 | transports first, then the bytes of the address from the left, then ports |
| `Address.ParseIpv4Means` | src/udpRelayServer.cpp:155-156 | a text is accepted as an address if and only if it is the dotted text of one |
| `Address.EndpointMeans` | src/common.cpp:15-23 | what stands in front of the first colon is parsed as the address, the at most seven characters behind it as the port; leading colons are skipped |
| `Address.EndpointWithoutPort` | src/common.cpp:15-23 | without a colon behind the address the port is 0; colons alone are no peer |
| `Address.PortWraps` | src/udpRelayServer.cpp:157 | a port number is kept modulo 65536 |
| `Address.TextExample` | src/adrTuple.cpp:82-87 | the text of 10.0.0.1, port 5000 |
| `Address.BadPeerExactlyWhen` | src/udpRelayServer.cpp:147-153 | a packet is dropped if and only if its peer is empty or does not fit 128 characters with its null |
| `Address.DottedRoundTrip` | src/udpRelayServer.cpp:143-157 | parsing the dotted text of an address gives the address |
| `Address.TupleTextRoundTrip` | src/common.cpp:15-23 | splitting a peer's text gives back its address and port, within the buffers kept for them |
| `Address.TupleTextInjective` | src/adrTuple.cpp:82-87 | peers with the same text are the same peer |
| `Address.FrameReturnsToSender` | src/udpRelayServer.cpp:137-169 | a datagram's frame, read back in any segments, is sent to the address and port it came from, with its data |
| `Address.CopyOutcome` | src/udpRelayServer.cpp:143-169 | a queued copy is sent, dropped or fatal exactly as the packet that was received |
| `Address.UnparsablePeerIsFatal` | src/udpRelayServer.cpp:154-156 | a frame with peer text x ends the program |
| `Session.StepKeepsInv` | src/routerSession.cpp:97-371 | every handler, with every outcome of every outstanding operation, keeps the session invariant |
| `Session.DeliveredInOrder` | src/routerSession.cpp:327-371 | in every run the accepted packets are those whose write completed followed by the queue |
| `Session.OneWriteForTheFront` | src/routerSession.cpp:97-112 | at most one write is outstanding, for the queue's front; while connected and unharmed there is one if and only if the queue is not empty |
| `Session.EndpointsTriedInOrder` | src/routerSession.cpp:143-209 | the endpoints tried are a prefix of those resolved, so attempts never exceed them |
| `Session.FailedConnectTriesNext` | src/routerSession.cpp:159-175 | in every run a failed connect is followed by exactly one connect, to the next endpoint resolved; only after the last one does the session ask to be closed |
| `Session.ResolveTriesFirst` | src/routerSession.cpp:184-209 | a resolve, failed or not, is followed by a connect to the first endpoint; without any the session asks to be closed |
| `Session.GivesUpAfterAll` | src/routerSession.cpp:143-209 | in every run without a successful connect a session asks to be closed exactly when it has packets and waits for nothing, and then every resolved endpoint was tried |
| `Session.ClosesAreFailures` | src/routerSession.cpp:143-344 | in every run there are exactly as many requests to close as failed writes, closings of the ended reader and having run out of endpoints make; exactly the one successful connect starts a reader |
| `Session.NeverForgotten` | src/routerSession.cpp:97-209 | a session with packets waits for exactly one completion or has asked to be closed |
| `Session.QueueDrains` | src/routerSession.cpp:327-371 | from every connected state, one successful completion per packet empties the queue and completes everything accepted |
| `Session.EverythingDelivered` | src/routerSession.cpp:97-371 | for any packets and whichever endpoint answers first there is a run that fails on the endpoints before it, connects, and writes all packets in order, with nothing left and no request to close |
| `Session.ServerReadsAPrefix` | src/routerSession.cpp:349-371 | after any run the bytes written are read by the framing protocol as a prefix of the accepted packets |
| `Session.RouterSession.AddRouterPacket` | src/routerSession.cpp:97-112 | the object takes the accept step and keeps the invariant |
| `Session.RouterSession.HandleResolve` | src/routerSession.cpp:184-209 | the object takes the resolve step and keeps the invariant |
| `Session.RouterSession.HandleConnection` | src/routerSession.cpp:143-177 | the object takes the connect step and keeps the invariant |
| `Session.RouterSession.HandleDeliverTcp` | src/routerSession.cpp:327-344 | the object takes the write step; it never pops an empty queue |
| `UdpQueue.DeliverEstablishesInv` | src/udpRelayServer.cpp:137-169 | whichever way the front is treated, delivering restores the queue's invariant |
| `UdpQueue.LeaveInOrder` | src/sessionManager.cpp:115-145 | in every run packets leave in order of arrival, and started sends are of arrived packets in that order |
| `UdpQueue.AtLeastOnce` | src/udpRelayServer.cpp:107-169 | with well-formed peers every packet that left had a send of it started, failed sends or not |
| `UdpQueue.PopsAreCompletions` | src/udpRelayServer.cpp:107-132 | with well-formed peers no more packets leave than sends completed |
| `UdpQueue.AlwaysInFlight` | src/sessionManager.cpp:115-127 | with well-formed peers and no failed send, something is in flight whenever something is queued |
| `UdpQueue.DropLosesTheNext` | src/udpRelayServer.cpp:147-153 | a concrete run after which a well-formed packet behind a dropped one has left unsent, for good |
| `UdpQueue.FatalLosesTheRest` | src/udpRelayServer.cpp:154-156 | a concrete run after which the program has ended with a well-formed packet queued and never sent |
| `UdpQueue.GoneForGood` | src/udpRelayServer.cpp:107-169 | a packet that left unsent is not sent in any continuation |
| `UdpQueue.CompletionsSuffice` | src/udpRelayServer.cpp:107-132 | with well-formed packets and something in flight, successful completions alone get every queued packet sent |
| `UdpQueue.CompletionsDeliverAll` | src/udpRelayServer.cpp:107-132 | so after any run without failed sends completions alone send everything that arrived |
| `UdpQueue.NothingLostExactlyWhen` | src/udpRelayServer.cpp:107-169 | over a set of packets, no run leaves a well-formed one that can no longer be sent if and only if all of them are well-formed or none is |
| `UdpQueue.NotExactlyOnce` | src/sessionManager.cpp:118-125 | two arrivals start three sends of the first packet |
| `UdpQueue.ArrivalStarts` | src/sessionManager.cpp:115-127 | in every run an arrival starts one send for an idle queue and two of the front for a busy one |
| `UdpQueue.CompletionDoes` | src/udpRelayServer.cpp:107-132 | in every run a failed completion changes no queue; a successful one removes the front and starts one send of the packet behind it |
| `UdpQueue.FailedSendStalls` | src/udpRelayServer.cpp:107-132 | after the failed send of the only packet it stays queued, and nothing happens before the next arrival |
| `UdpRelay.RepliesReachTheirPeers` | src/udpRelayServer.cpp:107-169 | in every run a reply that left the queue was sent to the address and port its frame was made for, with its data |
| `UdpRelay.Relay.HandlePacket` | src/routerSession.cpp:298-310 | the object takes the arrival step on a queued copy and keeps the invariant; it handles nothing after the program has ended |
| `UdpRelay.Relay.HandleDeliverToUdpPeer` | src/udpRelayServer.cpp:107-132 | the object takes the completion step and keeps the invariant |
| `Router.ReadersAreSeparate` | src/routerSession.cpp:225-321 | each session's reader depends on its own stream alone |
| `Router.StepKeepsInv` | src/routerSession.cpp:298-310 | the queue has got from each session exactly what its reader received, in that order |
| `Router.CutStream` | src/routerSession.cpp:225-321 | a stream of frames cut off anywhere gives a prefix of its packets |
| `Router.AllRepliesReachTheirPeers` | src/udpRelayServer.cpp:107-169 | in any interleaving of all sessions' bytes and of sends, every packet that left the queue is a reply on its own session's stream and was sent to that reply's peer with its data |
| `Router.ReplyCanReachItsPeer` | src/udpRelayServer.cpp:107-169 | any list of replies can come in on a session, and there is a run in which any one of them is sent to its peer with its data |
| `SessionManager.FindIsEquality` | src/sessionManager.cpp:32-44 | a lookup that knows keys only through operator< finds exactly the equal key |
| `SessionManager.InsertAscends` | src/sessionManager.cpp:26-30 | inserting at the lower bound keeps the keys ascending |
| `SessionManager.SessionHoldsItsPeersDatagrams` | src/sessionManager.cpp:57-107 | in every run a peer has a session if and only if it sent something since the last removal, and that session accepted exactly the frames of those datagrams in order |
| `SessionManager.WrittenAndQueuedAreThePeers` | src/sessionManager.cpp:57-107 | what a session has written and still queues are the frames of its own peer's datagrams, one each, in order |
| `SessionManager.Manager.Scan` | src/sessionManager.cpp:59-67 | comparing the sessions' own tuples one by one agrees with looking up the key |
| `SessionManager.Manager.LookupIsScan` | src/sessionManager.cpp:32-67 | a lookup by operator< in the ascending keys of the map finds exactly the session that the scan returns |
| `SessionManager.InOrder` | src/sessionManager.cpp:26-30 | insertions at lower bounds list any set of keys in ascending order |
| `SessionManager.Manager.RemoveSession` | src/sessionManager.cpp:32-44 | removes the peer's session and nothing else |
| `SessionManager.Manager.DeliverFromUdpPeer` | src/sessionManager.cpp:57-107 | the datagram's frame is accepted by its sender's session, found or new, and no other session changes, unless copying it overruns its buffer, which happens exactly above the decoder's limit |
| `SessionManager.Manager.HandleReceive` | src/udpRelayServer.cpp:42-63 | an error without data removes the session, everything else is delivered, up to the first overrun |

## Left out

- Sockets, the resolver, `io_service`, signals, daemonising and the command line: foreign calls; their completions are the events of the step machines.
- `src/paramsManager.cpp`, zlog `conf.c` beyond its list of formats, level lists, rule line parsing and `zlog_rotater_parse_archive_path`: rules, formats, levels and archive names are taken as parsed values.
- The output functions of `rule.c` (files, pipes, syslog, records): a rule's output is an action number; only whether and in which order actions happen is modelled.
- MDC wrappers, record tables, profiling, `zc_str_replace_env`, `zc_parse_byte_size`: environment access or thin wrappers that would only add easy members.
- `zc_hashtable_str_hash` and `zc_hashtable_str_equal`: the table is proved for every hash function and for key equality.
- Allocation failure in the buffer and the hash table, and memory release everywhere: growth succeeds; ownership is by reference.
- `zlog_format_new` beyond its spec loop, and the path variants of `gen_msg`: the same code on other buffers.
- strftime's limit on the length of a cached text, a `NULL` file name for `%f`, and overflow of `%ld` in a width: the C library's texts are taken as given.
- The reload counter and period, and the reader-writer lock around the environment: each environment operation is one step.
- IPv6 peers: their text holds colons, so the split does not recover them; addresses are IPv4 as the UDP socket is.
- A send whose unsigned data length has wrapped around: `FrameReader.DataLengthRight` says exactly when the length is right; the data sent otherwise is not modelled.
- `set_udp_buffer` and `start_tcp_connection`: not called by the program.
- Session identity across reconnects: removal is by address, so a late close of an old session can remove its successor; the run theorem of the manager allows a removal at any time.
- LogBuffer.LogBuffer.PrintDec32: negative widths are not modelled; C compares them as large unsigned values and no caller passes one.
- LogBuffer.LogBuffer.PrintDec64: the same.
- LogBuffer.LogBuffer.PrintHex: the same.
- LogBuffer.LogBuffer.Vprintf: an error of only the second vsnprintf call on the same arguments is not modelled.
- LogEnv.LoadConf: `strict init` is on, as it is by default; without it the source skips a refused pattern and goes on.
- LogEnv.LogEnv.Log: requires that no reload has damaged the categories; the source then iterates a NULL list.
- Rotater.Rotater.Rotate: rename and unlink fail only for a missing file; other errors of the file system are not modelled.
- Rotater.Rotater.SeqFiles: the number after the greatest int is not an int, so a directory with archive 2147483647 is not modelled.
- RotationRuns.RotationsAreSerial: a write to a file that the running rotation has already renamed or unlinked is not part of the interleaving; base files are never among these (`RotationRuns.BaseFileWritable`), unless an archive is named like one.
- ArrayList.ArrayList.Set: requires an index below twice the current size, which is exactly what the expansion makes room for; the source does not test it.
- Wire.RouterPacket.Encode: requires that peer and data fit the 1024 bytes kept for them; the source copies without a test.
- Wire.RouterPacket.Copy: requires a payload of at most 1024, which the source does not test.
- SessionManager.Manager.DeliverFromUdpPeer: what the program does after an overrun of the packet's buffer is not modelled; the source does not test for it.
