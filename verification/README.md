# dd-opcda: models and proofs

dd-opcda samples OPC tags and sends batches and files one way through a data diode, keeps a local
history of what it sent, and lets an operator edit tags and groups in a browser. This project
models the parts of it that hold state, encodings or arithmetic and proves what they promise.

| module | what it is about |
|---|---|
| `Wire`, `Receiver` | the 1200-byte datagrams of a file transfer, the sender's loop over its one buffer, and a receiver written from the documented frame layout |
| `Spool`, `SpoolRuns`, `Listing` | the directory tree moved from new through processing to done, in one pass and over many; sorted listings and their walk |
| `Stamps`, `CacheWriter`, `CacheFiles`, `CacheWindows`, `CacheIndex`, `CachePruning`, `Settings` | the history cache: names, rotation, segments, index, retention, writer and pruner on one tree, and the settings read |
| `Collector`, `CachedStream`, `GroupStatus` | batching of points, several collectors at once, start and stop through a stored status |
| `Csv`, `TagImport`, `TagSave`, `DefaultGroup` | the CSV of the tag table, the merge in the browser, the save on the server, the single default group |
| `Subscribers` | the list of websocket connections and its removal by swapping |
| `Seqs`, `Text`, `Integers` | sequences, decimal and hexadecimal text, machine integers |

Code that changes variables is modelled by classes and loops (`Wire.Transmit`, `Spool.Outgoing`,
`CacheWriter.History`, `CacheIndex.Cache`, `Collector.GroupCollector`, `TagImport.TagTable`,
`TagSave.Tags`, `DefaultGroup.Groups`, `Subscribers.Hub`); each method is proved equal to a function
of the old state, and the theorems are about those functions. The status protocol is a transition
system over atomic steps.

Several promises do not hold of the code as it stands. The code is kept, and the exact condition is proved:

* A file name or directory with a space makes the header ambiguous; it survives exactly without
  spaces and NULs and within one datagram (`Receiver.HeaderRoundTripIff`, `Receiver.SpacesAreAmbiguous`).
* The pacing modulus is zero, and the transfer panics after its first data frame, exactly when no
  setting is stored yet, as on a fresh database, or one that is zero or no number
  (`Settings.ModulusIsZeroIff`, `Settings.FreshModulusIsZero`, `Wire.SendFile`).
* On the 386 build the byte total is exact up to 1789569 frames, and announced sizes below 2 GiB
  (`Wire.TotalExactIff`, `Spool.CompleteIff`).
* The cache changes files exactly at five-minute windows only if each window is entered in its first
  minute, coming from a message that was not in a first minute (`CacheWindows.FilesAreWindowsIff`).
* What a run writes to a file is one JSON array exactly if the run opened that file once, and not as
  its first with the first message due in another (`CacheWriter.SegmentIsArrayIff`,
  `CacheWriter.SegmentsAreArrayIff`, `CacheWriter.EmptySegmentIff`, `CacheFiles.FileIsArrayIff`). While
  the clock does not go back that is every file but the startup one when there is no message or the
  first is already due in another file; it then gains a lone `]`, and an array behind it if that
  other file has the same name (`CacheFiles.TickingFileIsArrayIff`, `CacheFiles.ReopenedAtOnce`).
* Retention is exact up to 106751 days and wrong for some file beyond (`CacheIndex.PruneExactIff`).
* The walk of the cache visits two files in the order of time exactly if they are of one year or the
  texts of their years are in the order of the years, as between years of equally many digits
  (`Stamps.WalkOrderIff`, `Stamps.SameDigitsKeepOrder`); year 10000 is walked before year 9999
  (`Stamps.FiveDigitYearsComeFirst`).
* A stop lasts exactly if no collector is still starting (`GroupStatus.StopLastsIff`), which two starts
  in a row can bring about (`GroupStatus.TwoStartsOneLaunch`).
* An imported entry shows the group object of its own id exactly if a group of that id is known
  (`TagImport.GroupObjectIff`).
* Repeated rows for a stored tag lose the change exactly when the last two agree on a number and not
  with the table (`TagSave.ImportIsOverlayIff`).
* More than one group becomes the default exactly by a request that stores one beside another while
  its bulk clear fails, or by a generic data route, which clears nothing (`DefaultGroup.SingleDefaultRunIff`,
  `DefaultGroup.FailedClearLeavesTwo`, `DefaultGroup.BareSavesLeaveTwo`).
* A file whose transfer fails after its rename is never sent: the first pass whose rename works decides
  alone, and what it does not finish stays in processing (`SpoolRuns.FirstMoveDecides`).

One promise rests on the callers. A notification panics exactly over a nil or closed slot, or a failing
connection listed twice (`Subscribers.Hub.NotifySubscribers`); the server registers each connection
once and open, and then none ever does (`Subscribers.Hub.Serve`).

## Model

| member | source | states |
|---|---|---|
| Wire.LE32RoundTrip | engine/filetransfer.go:142-143 | the four little-endian bytes written for a counter or a length read back as its value modulo 2^32 |
| Wire.FullReadsCount | engine/filetransfer.go:139-157 | with full reads a file of S bytes takes ceil(S/1192) + 1 data frames, the last one the empty end-of-file read |
| Wire.PauseCount | engine/filetransfer.go:154-156 | after c frames exactly c/m pauses were taken below 2^32 frames, and one more for each wrap of the counter |
| Wire.TotalExactIff | engine/filetransfer.go:137-145 | the 32-bit byte total equals 1200 times the frames sent, at every frame up to c, exactly while c <= 1789569 |
| Wire.LoadFrame | engine/filetransfer.go:140-143 | one turn of the reused buffer writes number, length and payload in place and leaves the bytes behind the payload as they were |
| Wire.StaleBytes | engine/filetransfer.go:131-146 | behind its payload every data frame still shows what the datagram before it had there, the BEGIN text at first |
| Wire.HeaderWritten | engine/filetransfer.go:122-161 | the text of one header, and of the END frame, character for character |
| Wire.Transmit | engine/filetransfer.go:130-163 | the datagrams written are BEGIN, one frame a read, END, with the byte total and the pauses; with a zero modulus it stops after the first data frame |
| Wire.SendFile | engine/filetransfer.go:93-163 | which error stands for which failing call, with nothing sent, and the whole session otherwise |
| Receiver.HeaderRoundTripIff | engine/filetransfer.go:122-135 | the BEGIN datagram decodes to its name, directory, size and hash if and only if name and directory have no space or NUL and the text fits |
| Receiver.SpacesAreAmbiguous | engine/filetransfer.go:122 | two different files with spaces in their names give the same BEGIN datagram |
| Receiver.FrameReads | engine/filetransfer.go:140-143 | a data frame shows its number, length and payload and is never taken for BEGIN or END, whatever the payload and the stale bytes |
| Receiver.NumbersDistinctIff | engine/filetransfer.go:138-146 | the frames of a transfer bear different numbers if and only if there are at most 2^32 of them |
| Receiver.OneTransfer | engine/filetransfer.go:131-163 | from any receiver state, frames arriving in any order, repeated or lost, give one file made of the arrived chunks in sequence |
| Receiver.LossDetected | engine/filetransfer.go:121-163 | the received length equals the announced size if and only if every non-empty frame arrived at least once, and then the content is the file |
| Receiver.TransfersInSequence | engine/filetransfer.go:121-163 | transfers one after another, each with its own losses and order, are received apart from each other |
| Receiver.SessionRoundTrip | engine/filetransfer.go:121-163 | for any list of files and any legal short reads the concatenated sessions decode to exactly that list of headers and contents |
| Spool.DirTextInjective | engine/filetransfer.go:69-88 | the relative directory printed in a header belongs to one directory only |
| Spool.HeaderNamesFile | engine/filetransfer.go:69-122 | from the header a receiver reads the path of the file below the spool, the hash of its content and its size as a 32-bit int |
| Spool.Outgoing.ProcessFile | engine/filetransfer.go:76-83 | one file is renamed, sent and stored, or stays where the failing call left it |
| Spool.Outgoing.ProcessDirectory | engine/filetransfer.go:69-91 | the recursive pass ends and does to the disk and the wire what its files do one by one in the order of the walk |
| Spool.StepsFates | engine/filetransfer.go:69-176 | for any pattern of failures each file ends in one determined place with its bytes, and no other path changes |
| Spool.SpoolPass | engine/filetransfer.go:69-91 | with nothing failing, new is emptied, exactly the empty files stay in processing and touch nothing in done, all others are in done under their path |
| Spool.PassDecodes | engine/filetransfer.go:69-163 | for any pattern of failures the receiver gets exactly the transmitted files in the order of the walk, each with its path, content, hash and size |
| Spool.PassDelivers | engine/filetransfer.go:69-163 | with nothing failing, what a pass adds to the wire decodes to the non-empty files of new, once each, in order, each with its path, content, hash and size |
| Spool.CompleteIff | engine/filetransfer.go:81-122 | the announced 32-bit size equals the length of the file if and only if it is below 2 GiB |
| SpoolRuns.FirstMoveDecides | engine/filetransfer.go:60-176 | over any number of passes, whatever fails and arrives, a file waits in new until a rename of it works; that pass sends it once or never and decides where it stays with its bytes |
| SpoolRuns.NeverTouchedAgain | engine/filetransfer.go:69-91 | a file that left new is neither moved nor sent by any later pass |
| SpoolRuns.RunDecodes | engine/filetransfer.go:60-163 | over any number of passes and failures the receiver gets exactly the transmitted files, in the order of passes and walks, each with its path, content, hash and size |
| Listing.WalkAscending | engine/cache.go:184-186 | a walk of sorted directories visits files in strictly ascending component-wise order |
| Listing.PutAtEnd | engine/cache.go:222-231 | creating or appending a file that no other comes after changes or extends the end of the walk only |
| Listing.GetPut | engine/cache.go:226-231 | creating or appending a file changes what is found at its path and at no other |
| Listing.WalkRemove | engine/cache.go:257 | removing a file takes it out of the walk and keeps the others in order |
| Listing.GetRemove | engine/cache.go:257 | removing a file takes what is found at its path and nothing else |
| Stamps.NextMinute | engine/cache.go:167 | the computed time goes up by one from every valid calendar minute to the next, over months, years and leap days |
| Stamps.DateCarries | engine/cache.go:167 | any integers make a date: months outside 1 to 12 carry into years, and days, hours and minutes just add up |
| Stamps.TimeOrder | engine/cache.go:163-169 | times are ordered as year, month, day, hour and minute are, and equal only for the same minute |
| Stamps.NameRoundTrip | engine/cache.go:163-169 | parsing the printed file name gives back its UTC minute for every valid date with a non-negative year |
| Stamps.NameCutShort | engine/cache.go:163-169 | of a name that breaks off the fields in front are used and the others are zero; of a foreign name all are |
| Stamps.PathWritten | engine/cache.go:222-224 | the path of one minute, character for character |
| Stamps.NamesDistinct | engine/cache.go:223 | distinct minutes have distinct file names, whatever the year |
| Stamps.WalkOrderIff | engine/cache.go:222-224 | the walk over year, month, day and name visits two files in the order of time if and only if their years are the same or the texts of the years are in the order of the years |
| Stamps.SameDigitsKeepOrder | engine/cache.go:222-224 | so it does for years of equally many digits |
| Stamps.WalkOrderIsTimeOrder | engine/cache.go:222-224 | in particular with four-digit years, whose paths are also distinct for distinct minutes |
| Stamps.FiveDigitYearsComeFirst | engine/cache.go:222-224 | where it fails: every file of year 10000 is walked before every file of year 9999, although it is later |
| CacheWriter.History.CloseCache | engine/cache.go:57-64 | closing appends the closing bracket to the file that is open, if there is one, and changes what is at no other path |
| CacheWriter.History.NewFile | engine/cache.go:220-235 | the file named for the minute is there and open with whatever it held, the one open before got its closing bracket, and the next write is a first one |
| CacheWriter.History.InitCache | engine/cache.go:47-55 | startup creates a file, forgets the last remainder and leaves what every path held |
| CacheWriter.History.ProcessMessage | engine/cache.go:195-218 | one message: in which file it ends, with which separator, and that the file left for a new one is closed; nothing else changes at any path |
| CacheWriter.History.ProcessMessages | engine/cache.go:195-218 | the loop over the channel does this for every message in order |
| CacheWriter.SegmentIsArrayIff | engine/cache.go:57-64 | a closed segment is a JSON array if and only if a message was written to it |
| CacheWriter.SegmentsAreArrayIff | engine/cache.go:57-64 | the segments of one file are one JSON array if and only if there is just one and it has a message |
| CacheWriter.EmptySegmentIff | engine/cache.go:195-218 | over a run no segment but the first is empty, and that one exactly when there is no message or the first one is already due in another file |
| CacheWriter.RunWrites | engine/cache.go:195-235 | at every moment of a run the files hold what was there, the closed segments and the unclosed one, and the open file is the last of the walk |
| CacheWriter.CacheConservation | engine/cache.go:195-235 | after any run and one close, the files read in walk order hold what was there followed by segments that decode to every processed message once and in order |
| CacheWriter.ReadyForRestart | engine/cache.go:220-235 | the tree left by a run meets the conditions of the next one, so the results hold over restarts |
| CacheFiles.FilesHoldEveryMessage | engine/cache.go:195-235 | for any clock, each file holds its earlier bytes and exactly the segments begun in it, in order, even several of one minute, and all segments together are all messages once |
| CacheFiles.FileIsArrayIff | engine/cache.go:195-235 | for any clock, what a run and its close add to a file is one JSON array if and only if the run opened it once, and not as its first file with the first message due in another |
| CacheFiles.TickingFileIsArrayIff | engine/cache.go:195-235 | for a clock that does not go back each file of a run gains one JSON array, but for the startup file exactly when there is no message or the first one is already due in another file |
| CacheFiles.ReopenedAtOnce | engine/cache.go:195-235 | where it fails: a first message in the first minute of a window, the minute of the start, makes the one file gain a lone closing bracket and then an array |
| CacheWindows.OpenIsCreated | engine/cache.go:195-235 | the open file is that of the last creation, whatever is in the tree and whatever the clock does |
| CacheWindows.NeverInsideAWindow | engine/cache.go:195-203 | no rotation separates two messages of one aligned five-minute window |
| CacheWindows.FilesAreWindowsIff | engine/cache.go:195-221 | messages share a file exactly when they share a window, if and only if every window is entered in its first minute from outside a first minute, also when a minute turns between the two readings of the clock |
| CacheWindows.SkippedMinute | engine/cache.go:195-203 | where it fails: a message in minute 4 and the next in minute 6 share a file and no window |
| CacheWindows.MinuteByMinute | engine/cache.go:195-203 | messages at most a minute apart meet that condition |
| CacheWindows.RotationsDistinct | engine/cache.go:198-223 | rotations after startup happen at strictly increasing minutes and open files of distinct printed names |
| CacheIndex.EntryTells | engine/cache.go:171-176 | the entry of a file the cache created bears its path, the minute in its name and its own size |
| CacheIndex.TotalSizeAdds | engine/cache.go:175 | the total size is the sum of the sizes of the entries |
| CacheIndex.SameDigitsIndex | engine/cache.go:171-189 | in a tree of files the cache created in years of equally many digits the index lists strictly ascending times |
| CacheIndex.IndexIsChronological | engine/cache.go:171-189 | in particular in four-digit years, as in the trees that `CacheWriter.ReadyForRestart` is about |
| CacheIndex.EndsAreExtremes | engine/cache.go:66-74 | in years of equally many digits the first and last entries bear the least and greatest time of all |
| CacheIndex.Cache.WalkTree | engine/cache.go:171-178 | the walk appends one entry for each file with its time and keeps the size the total of the entries |
| CacheIndex.Cache.RefreshCache | engine/cache.go:180-189 | items, size and count are exactly those of the files there are, each item with its path and size |
| CacheIndex.Cache.GetCacheInfo | engine/cache.go:66-74 | the ends are those of the first and last entry; of an empty cache they stay as they were |
| CacheIndex.PruneExactIff | engine/cache.go:256 | the wrapped limit and the saturating difference agree with exact arithmetic for all times if and only if the days are at most 106751 |
| CacheIndex.StaleIff | engine/cache.go:256 | up to 106751 days an entry is stale exactly if its age is over so many days of 1440 minutes |
| CacheIndex.PruneKeepsRecent | engine/cache.go:252-260 | a pass leaves exactly the files not older than the retention, and those whose removal fails, in their order |
| CacheIndex.Cache.RemoveStale | engine/cache.go:255-260 | the loop removes the stale entries one by one as far as that works, and counts every one of them |
| CacheIndex.Cache.PrunePass | engine/cache.go:245-260 | the retention used, the files removed, and the number counted, failing removals included |
| CachePruning.PrunedRun | engine/cache.go:195-260 | with removals by the pruner interleaved in any way, the files after a run and its close are in walk order those of the run alone without the removed ones, which lie in front of the open file |
| CachePruning.PrunedReadyForRestart | engine/cache.go:195-260 | the tree left by such a run meets the conditions of the next one |
| CachePruning.PassIsRemovals | engine/cache.go:252-260 | a pass that cannot remove the open file is a row of such removals |
| CachePruning.UnprunedFileSame | engine/cache.go:195-260 | for any clock, a file nobody removes holds what it would hold without the pruner |
| Settings.ModulusIsZeroIff | engine/settings.go:24-32 | the start works with modulus zero if and only if no setting is stored, or one that is zero or no number |
| Settings.FreshModulusIsZero | engine/settings.go:24-32 | without a stored setting the start works with modulus zero, and the start after it with 20 |
| Settings.StoredModulusIsUsed | engine/settings.go:24-32 | a stored number is what a start works with, and the start changes no setting |
| Settings.AtoiOfDecimal | engine/filetransfer.go:39-40 | a printed number is read back, cut to the ends of a 32-bit int |
| Settings.RetentionOfText | engine/cache.go:245-250 | a stored positive number of days is used up to the largest int, smaller ones and texts that are no number stand for 7, and an unreadable setting leaves the days as they were |
| Settings.RetentionOfDecimal | engine/cache.go:245-250 | a printed number of days is read back, cut to an int, and any below one falls back to 7 |
| Collector.Conservation | engine/groups.go:114-136 | batches sent and points held are, in order, all points read except those overwritten in the last slot |
| Collector.LostNeedsNoProxy | engine/groups.go:123-134 | a point is lost only if no proxy was there when it filled the batch |
| Collector.AlwaysProxy | engine/groups.go:114-136 | with a proxy always present after k points exactly k/10 batches of ten consecutive points are sent and k modulo 10 held |
| Collector.NeverProxy | engine/groups.go:123-134 | without any proxy the first nine points and the newest are kept |
| Collector.GroupCollector.Take | engine/groups.go:116-135 | the slots, the index, the sequence number and both streams follow the points taken |
| Collector.GroupCollector.HandOver | engine/groups.go:125-130 | a full batch is sent under its number, the slots start over, and the cache gets the same points under the next number |
| Collector.GroupCollector.Tick | engine/groups.go:114-139 | a tick takes the items in the order given and leaves the counter at the number of points taken modulo 2^32 |
| Collector.GroupCollector.CountsAgreeIff | engine/groups.go:106-139 | while nothing wraps, i and the counter are the points taken, and ten times the sequence number plus b is the same exactly if no point was lost and no full batch waits, as with a proxy always present |
| CachedStream.CachedRefinesSent | engine/groups.go:123-131 | in every interleaving of collectors each group's batches are sent in order with numbers 0, 1, ... and cached in the same order with each number one higher |
| CachedStream.ReplayGivesBatches | engine/cache.go:191-217 | what the cache files give back in walk order, restricted to a group, is that group's sent batches in order |
| GroupStatus.StaysStopped | engine/groups.go:107-145 | the stored status stays not running in every interleaving without a start or a launch |
| GroupStatus.StopLastsIff | engine/groups.go:229-243 | an accepted stop lasts in every continuation without a start if and only if no collector is still starting |
| GroupStatus.SamplesWhileRunning | engine/groups.go:107-142 | while its group is not stopped, or its polls fail, a collector reads exactly once a round |
| GroupStatus.StartedGroupSamples | engine/groups.go:95-142 | a start with tags, a launch that works and some rounds make a running group that was read once a round |
| GroupStatus.ExitIff | engine/groups.go:107-114 | in every interleaving a collector is over if and only if its launch failed or a poll of it found the group stopped |
| GroupStatus.NoSecondCollector | engine/groups.go:207-227 | while a group is not stopped no request starts another collector, and it stays running |
| GroupStatus.NoTagsNoStart | engine/groups.go:216-222 | a start of a group without tags does nothing |
| GroupStatus.StatusKept | engine/groups.go:95-243 | only a stop and a launch that works write the status |
| GroupStatus.TwoStartsOneLaunch | engine/groups.go:204-224 | a group with a running and a starting collector is reached by two starts and one launch |
| GroupStatus.FewReadsAfterStop | engine/groups.go:107-114 | after a stop a collector reads at most once more, plus once for each poll that fails |
| GroupStatus.ExitsAfterStop | engine/groups.go:107-145 | a collector whose polls work has at most three steps left and then has exited |
| Csv.ParseOfNumText | ui/src/views/TagTable.vue:321 | the printed group id is parsed back |
| Csv.TrimCuts | ui/src/views/TagTable.vue:320 | trimming takes off the spaces at both ends, all of them, and nothing else |
| Csv.TrimmedIff | ui/src/views/TagTable.vue:320 | a name is its own trimmed form if and only if it has no space at its ends |
| Csv.SpacesAre | ui/src/views/TagTable.vue:320 | which characters are taken off, by code point |
| Csv.ParseIntDecimal | ui/src/views/TagTable.vue:321 | spaces, a sign and decimal digits in front of anything else give the signed number; no digits give no number |
| Csv.ParseIntHex | ui/src/views/TagTable.vue:321 | behind 0x the digits are read as hexadecimal |
| Csv.HexValueOf | ui/src/views/TagTable.vue:321 | hexadecimal text in either case is read back as its number |
| Csv.StripAtLineEnds | ui/src/views/TagTable.vue:276 | at which characters between them two brackets are at the margin of a line |
| Csv.StripFixesIff | ui/src/views/TagTable.vue:276 | the bracket replacement leaves a name alone if and only if it has no bracket at the margin of a line |
| Csv.ExportWritten | ui/src/views/TagTable.vue:269-276 | the exported text of one tag, character for character |
| Csv.RowBackIff | ui/src/views/TagTable.vue:273-307 | the exported row of a one-line name is read back as it was if and only if the name is clean |
| Csv.CsvJson | ui/src/views/TagTable.vue:298-310 | every line behind the header becomes a record with at least one field |
| Csv.LineRead | ui/src/views/TagTable.vue:303-321 | of a line the first field, trimmed, is the name and the second, as a number, the group id; without a second there is none |
| Csv.LinesRead | ui/src/views/TagTable.vue:298-310 | the lines behind the header are read one by one in order |
| Csv.CsvRoundTripIff | ui/src/views/TagTable.vue:269-321 | importing an exported text gives back every name and group id in order if and only if every name is trimmed and without separator, line feed or margin bracket |
| TagImport.TagTable.Merge | ui/src/views/TagTable.vue:327-355 | the two searches for one record and the one entry they change or add |
| TagImport.TagTable.ProcessResponse | ui/src/views/TagTable.vue:312-359 | the loop over the records and the filter leave the new and changed entries |
| TagImport.RecordsReflected | ui/src/views/TagTable.vue:318-359 | for any named records every entry ends in the group last mentioned and is marked by its last two values, no number always counting as a change, and shows the group object of its id if there is one |
| TagImport.ReimportIsIdle | ui/src/views/TagTable.vue:269-367 | importing one's own export marks nothing new or changed |
| TagImport.GroupObjectIff | ui/src/views/TagTable.vue:318-359 | for any records, an entry left to save shows the group object of its own id if and only if the id is known; else it shows that of the last known id up to its record |
| TagImport.UnknownIdTakesStaleGroup | ui/src/views/TagTable.vue:323-332 | an instance: an entry of unknown id 7 shows the group object of the record before it |
| TagSave.Tags.PostTagChanges | routes/opc.go:433-478 | for any mix of failing writes the table is that of posting each entry in turn, and new, updated and failed each count exactly the entries created, updated and not stored |
| TagSave.Tags.Update | routes/opc.go:452-461 | the tags of a name are tried until one update works; only that one changes the table |
| TagSave.PostOneOutcome | routes/opc.go:451-474 | a stored name is updated if its write works and else fails, a new one is created if its write works, with the writes attempted |
| TagSave.PostedGroups | routes/opc.go:451-474 | whatever fails, each posted name has the group asked for if its entry was stored and its old one if not, a new name without a group has the default one, and no other name changes |
| TagSave.PostedKinds | routes/opc.go:451-474 | the entries counted as updated are of stored names, and those counted as new are of others |
| TagSave.PostAllWorks | routes/opc.go:451-474 | when every write works, posting gives the table of saving or creating each entry in turn |
| TagSave.SaveAllGroups | routes/opc.go:451-474 | after saving, each posted name has the group asked for, a new name without one the default group, and no other name changes |
| TagSave.ImportIsOverlayIff | routes/opc.go:446-477 | for any records import then save is the old name-to-group table overridden by the CSV, with the default group for new names that give none, if and only if no stored tag's last two records agree on a group other than the stored one |
| TagSave.RepeatedRowIsLost | routes/opc.go:446-477 | where it fails: a stored tag that two records put in another group stays in its old one |
| DefaultGroup.Groups.GetGroups | routes/opc.go:201-220 | the groups shown have a default, the first one when none was marked; the table has that mark too if its own save works, and changes in nothing else |
| DefaultGroup.Groups.NewGroup | routes/opc.go:222-243 | the row is stored under its given or new id if the save works, and which groups are then the default; if it fails only marks are gone |
| DefaultGroup.Groups.UpdateGroup | routes/opc.go:245-279 | the row of a known id is stored with the server's columns kept, and which groups are then the default; a failing save leaves all but the marks, an unknown id changes nothing |
| DefaultGroup.Groups.DeleteDataByID | routes/data.go:100-114 | no group with the id is found any more and every other id is found as before; a failing deletion changes nothing |
| DefaultGroup.ListedHasDefault | routes/opc.go:205-217 | a listing ends with exactly one default, the old one or else the group of the lowest id |
| DefaultGroup.SaveKeepsSingleIff | routes/data.go:86-98 | a bare save keeps at most one default if and only if it does not mark a group while another is marked |
| DefaultGroup.SingleDefaultIff | routes/opc.go:201-279 | for any request that writes groups, by the group routes or the generic ones, and any failing writes, at most one default is left if and only if it does not store a default beside another without a clear that works |
| DefaultGroup.SingleDefaultRunIff | routes/opc.go:201-279 | over any sequence of requests and failing writes at most one group is ever the default if and only if no request clashes so |
| DefaultGroup.FailedClearLeavesTwo | routes/opc.go:222-279 | where it fails: two groups created, and the second made the default while the clear fails |
| DefaultGroup.BareSavesLeaveTwo | routes/data.go:70-98 | where it fails: two marked groups stored by the generic routes |
| DefaultGroup.SingleDefault | routes/opc.go:201-279 | over any sequence of requests without such a clash no more than one group is the default, and exactly one after a list, a create or an update whose save and mark work |
| DefaultGroup.NoClash | routes/opc.go:222-279 | a request of the group routes does not clash when its clear works or it asks for no default |
| DefaultGroup.UpdateFrame | routes/opc.go:265-272 | an update writes the request's columns, keeps the server's, and leaves other groups all but their mark |
| DefaultGroup.WriteRowMarks | routes/opc.go:222-279 | after a row is stored the default groups are it if it asks to be, the others unless they were cleared, and if there is none the one of the lowest id as far as its mark works |
| DefaultGroup.BareSaveFrame | routes/data.go:70-98 | the generic routes store the row as it is, refuse a new one of an id that is taken, and touch no other |
| DefaultGroup.DeleteMatchingFrame | routes/data.go:116-142 | a deletion by some condition takes out exactly the groups that meet it |
| DefaultGroup.DeleteFrame | routes/data.go:100-114 | a deletion leaves every other group as it was |
| Subscribers.RemoveAllEntries | logger/websockets.go:56-65 | removing an ascending drop list backwards takes out exactly the entries at those indices of the original list, as multisets |
| Subscribers.RemoveAllDistinct | logger/websockets.go:56-65 | of distinct entries exactly the unlisted ones remain, each once |
| Subscribers.Hub.RegisterWebsocket | logger/websockets.go:20-27 | a new open connection goes to the end and keeps the list healthy |
| Subscribers.Hub.Broadcast | logger/websockets.go:32-43 | the drop list is ascending and holds exactly the failing slots |
| Subscribers.Hub.DropSubscriber | logger/websockets.go:47-54 | an open connection is closed and replaced by the last; a nil or closed one panics |
| Subscribers.Hub.DropSubscribers | logger/websockets.go:56-65 | exactly when it panics, and otherwise which connections are closed and what the list is |
| Subscribers.Hub.NotifySubscribers | logger/websockets.go:29-45 | a notification panics exactly over a broken list; from any other one it closes and drops exactly the failing connections, keeps the rest as often as listed, and keeps a healthy list healthy |
| Subscribers.Hub.Accept | web/server.go:65-70 | an accepted connection is registered once, open |
| Subscribers.Hub.Send | logger/websockets.go:29-45 | a message to all never panics and leaves exactly the connections it reached |
| Subscribers.Hub.Serve | web/server.go:65-70 | over any sequence of accepted connections and notifications none panics, and the list holds exactly the connections every later message reached, which are the open ones |

## Left out

- Wire.SendFile: does not model partial UDP writes, the progress percentage, nor a failing hash, which ends the process; every write takes the full buffer.
- Receiver.SessionRoundTrip: the receiving program is not part of this repository; the decoder is a specification from the header format and the frame comment.
- Stamps.NameRoundTrip: integers are unbounded, so the scanner's overflow error for years beyond an int is not modelled.
- CacheWriter.CacheConservation: assumes four-digit years and a clock that does not go back, since it speaks of walk order; `CacheFiles.FilesHoldEveryMessage` has neither assumption.
- CacheWriter.History.NewFile: an OpenFile that fails, which the source ignores and which loses the messages up to the next file, is not modelled.
- CachePruning.PrunedRun: the open file cannot be removed, as on Windows; a system that unlinks open files would lose what is written to it afterwards.
- CachedStream.CachedRefinesSent: handing a batch to the proxy and to the cache is one step; the shared slice of points between them is not modelled.
- Csv.CsvRoundTripIff: the URI encoding of the download is not modelled (it leaves "#" alone, so a name such as "a#b" cuts the text short), nor are numbers beyond 2^53.
- TagSave.ImportIsOverlayIff: the table is keyed by id; saving the associated group object and soft deletion are not modelled.
- TagSave.Tags.PostTagChanges: a body that does not parse and a failing query of the names are not modelled.
- Subscribers.Hub.Serve: the websocket library, which keeps a connection's socket while its handler runs, is not part of this model.
- GroupStatus.StopLastsIff: requests are atomic; a group saved from an earlier load by another handler is not modelled, nor is there a promise of one collector per group.
- Sizes of cache files are a given function of their content; compression, buffering and JSON are transparent and a message is one token.
- Sockets, proxies, OPC calls, file handles, hashing, the Windows service, users, logins and the remaining routes and views.
- Resending and copying cache files, log purging and the metadata sender, which add only easy members.
