# telegram-files-downloader, modelled in Dafny

The bot saves the attachments it receives (documents, photos and videos) into its current working directory and answers a few commands. This project models the parts of `main.go` that are plain sequential logic and proves what they guarantee:

- **Size rendering** (`humanReadableSize`). A byte count is printed in B, KB, MB or GB, truncated by integer division. `SizeFormat.SizeParts` states the choice of unit and number independently of the code. The rendered text can be parsed back into that number and unit.
- **Directory listing** (`handleLs`). There is one line per entry, and lines are gathered into replies with a 400-byte flush rule. `Listing.Groups` says which pieces make up each reply. The lemmas prove four things:
  - no piece is lost, repeated or moved;
  - a reply built from more than one piece stays under 400 bytes;
  - each flush happened because the next line would have reached 400 bytes;
  - the concatenated replies spell the whole listing.

  These first three rules also determine the split completely: any grouping that obeys them is `Groups`.

  `Listing.SendListing` is the loop itself, proved against `Groups`, and `Listing.HandleLs` adds the enumeration error path.
- **Directory change** (`handleCd`). `PathGuard.WorkingDir` holds the root (`InitialWorkingDir`) and the current directory. `/cd` steps are checked in source order: argument count, the `-r` flag, then the textual confinement test. After that the model records `MkdirAll` and then `Chdir`. The directory changes only when both succeed. The confinement test is modelled exactly as written, a string-prefix test. The model shows that it admits `/data2` and `/data/../etc` under root `/data`.
- **Downloads** (`downloadFile`, `downloadFileInternal` and the three attachment handlers). `StatsTracker.Stats` holds the three `uint32` counters, with explicit wrap-around modulo 2^32. Ghost tallies of the atomic steps give the counters their meaning. One download goes like this:
  1. It claims a pending slot.
  2. It writes to `<final>.tmp`.
  3. It renames that file to the final path, but only if the transfer succeeded.
  4. It counts exactly one success or one failure.
  5. It releases its slot and picks the notification from the decremented pending count.

  `DownloadManager.Burst` models the interleaving in which all downloads of a burst claim their slots before any of them settles. It proves the final counts, and that "All downloads finished" is sent once, by the last download only.

I/O outcomes (`MkdirAll`, `Chdir`, `Bot().Download`, `os.Rename`, `ioutil.ReadDir`) are inputs to the model. The filesystem steps a command attempts are returned, in order, as a sequence of `Io.FsOp`. Replies to the chat are returned as a sequence of strings.

Two points about `handleCd` that the model keeps exactly as the code has them:
- The confinement test only compares strings, and only on absolute paths. Relative paths are not inspected, so the directory can leave the root (for example through `..`).
- `/cd -r` is not a plain reset. It still runs the test, `MkdirAll` and `Chdir` on the root, and either of those two steps can fail, leaving the directory where it was.

## Model

| member | source | states |
|---|---|---|
| Decimal.NatToString | main.go:84 | the `%d` digits of a natural number are non-empty, all decimal digits, and have no leading zero |
| Decimal.IntToString | main.go:84 | `%d` of any integer: a minus sign exactly for negative numbers, then a non-empty run of decimal digits with no leading zero (only 0 itself starts with `0`), and no blank (so the unit after it can be split off) |
| Decimal.ParseNatOfNatToString | main.go:84 | reading the digits back gives the number |
| Decimal.IntToStringRoundTrip | main.go:84 | `%d` is injective: parsing the rendering of any integer, negative ones included, gives it back |
| SizeFormat.SizeParts | main.go:82-94 | sizes below 1024 (negative too) are shown as they are in B; otherwise the unit is the largest of KB/MB/GB whose scale does not exceed the size, and the number is the size divided by that scale rounded down (scale*n <= size < scale*(n+1)); below GB the size is under 1024 times the unit |
| SizeFormat.HumanReadableSizeRoundTrip | main.go:82-94 | the rendered text `"<n> <unit>"` parses back to exactly the number and unit `SizeParts` chose |
| SizeFormat.HumanReadableSize | main.go:82-94 | the text is the `%d` rendering of the number `SizeParts` chose, one blank, and the unit name it chose |
| SizeFormat.HumanReadableSizeExamplesInBytes | main.go:83-85 | 0 gives "0 B", 1023 "1023 B", -5 "-5 B" |
| SizeFormat.HumanReadableSizeExamplesInUnits | main.go:86-93 | 1024 and 1536 give "1 KB", 1048576 "1 MB", 1073741824 "1 GB" |
| Listing.ByteLen | main.go:110 | Go's `len` of a string counts UTF-8 bytes, at least one per code point |
| Listing.ByteLenAppend | main.go:110 | the byte length of a concatenation is the sum of the byte lengths |
| Listing.PadRight | main.go:108 | `%-50s` keeps the name whole, then fills with blanks to 50 code points when it is shorter |
| Listing.EntryLine | main.go:104-109 | an entry line starts with `d` for a directory or `-` otherwise, then a blank and the name, and ends in a newline |
| Listing.Header | main.go:102 | the first piece is `Files in `, the directory, then `:` and a newline |
| Listing.Lines | main.go:103-109 | one line per entry, in enumeration order |
| Listing.AddLine | main.go:110-114 | one loop step keeps every earlier reply and the first piece of the current buffer, and adds at most one reply |
| Listing.Groups | main.go:102-116 | there is always at least one reply, the first starts with the header, and no reply is empty |
| Listing.GroupsPreservePieces | main.go:102-116 | the replies' pieces, in order, are exactly the header followed by every entry line, none dropped or duplicated |
| Listing.GroupsBelowThreshold | main.go:110-114 | every reply that received an append without a flush just before it is under 400 bytes |
| Listing.GroupsFlushedWhenFull | main.go:110-113 | every reply except the last was flushed because it and the next line measure 400 bytes or more |
| Listing.FlushRulesDetermineGroups | main.go:102-116 | any split of the header and entry lines into non-empty replies that keeps the pieces in order, keeps every multi-piece reply under 400 bytes and flushes only when the next line would reach 400 bytes is exactly the split the loop makes |
| Listing.RepliesConcatenateToListing | main.go:102-116 | concatenating all replies gives the header followed by every entry line |
| Listing.FlushOrAppend | main.go:110-114 | the loop body (flush when the buffer and the line reach 400 bytes, reset, append) advances the replies exactly as `AddLine` |
| Listing.ListStep | main.go:103-115 | one iteration renders the entry's line and advances the sent replies and the buffer from the grouping of the lines so far to that of one more line |
| Listing.SendListing | main.go:102-116 | the loop, started from the header, sends exactly the replies of `Groups` for the header and every entry line |
| Listing.HandleLs | main.go:96-117 | a failed enumeration sends nothing and returns its error; otherwise the replies are those of `Groups`, at least one reply is sent even with no entries, and together they spell the listing |
| PathGuard.Resolve | main.go:140 | an absolute target is the new directory itself; a relative one is taken below the current directory |
| PathGuard.OutsideRoot | main.go:129 | only an absolute path can be refused, and never the root itself nor a path below `root/` |
| PathGuard.CdTarget | main.go:124-127 | `-r` stands for the root, which the test always accepts; any other argument is the target as given |
| PathGuard.ChangeDir | main.go:119-148 | a wrong argument count only replies the usage text; an absolute target not starting with the root is refused before any step; a MkdirAll failure is reported as such with only MkdirAll attempted; Chdir is attempted only after MkdirAll succeeded, and its failure is reported as such after both steps were attempted; the command succeeds exactly when both steps do, only then does the directory change, and on every error it is unchanged |
| PathGuard.ChangeDirKeepsRootPrefix | main.go:124-146 | every `/cd` keeps the current directory textually prefixed by the root (path cleaning not modelled) |
| PathGuard.ResetTargetsRoot | main.go:124-129 | `/cd -r` always passes the test, ends in the root or leaves the directory unchanged, and reaches the root exactly when both steps succeed |
| PathGuard.ResetIdempotent | main.go:124-147 | repeating `/cd -r` with the same step outcomes gives the same result as doing it once |
| PathGuard.SiblingAndParentPass | main.go:129 | the test admits `/data2` and `/data/../etc` under root `/data`, and a relative `../etc` is accepted |
| PathGuard.CdOutsideRefused | main.go:129-132 | `/cd /etc` under `/data` is refused with nothing created and the directory unchanged |
| PathGuard.CdRelativeCreatesAndMoves | main.go:134-147 | `/cd relative/sub` under `/data` creates the directory, moves into it and replies `done!` |
| PathGuard.CdUsage | main.go:121-123 | two arguments only give the usage text |
| PathGuard.WorkingDir.constructor | main.go:38 | the process starts in its initial working directory, an absolute path |
| PathGuard.WorkingDir.Cd | main.go:119-148 | `handleCd` on the current directory: replies, steps, error and new directory are those of `ChangeDir`, and the textual root prefix is kept |
| StatsTracker.Add32 | main.go:166-193 | `atomic.AddUint32` on a `uint32`: the plain sum when it stays below 2^32, otherwise the sum minus 2^32 |
| StatsTracker.Add32Inverse | main.go:166-168 | adding 1 and then `^uint32(0)` (or the other way round) returns the counter to its value |
| StatsTracker.Add32NoWrap | main.go:166-168 | away from the wrap point, the two atomic adds are plain increment and decrement |
| StatsTracker.Stats.constructor | main.go:25-35 | all counters start at zero |
| StatsTracker.Stats.Claim | main.go:166 | pending goes up by one (mod 2^32) and nothing else changes |
| StatsTracker.Stats.RecordOk | main.go:193 | the success counter goes up by one (mod 2^32) and nothing else changes |
| StatsTracker.Stats.RecordErr | main.go:184-190 | the failure counter goes up by one (mod 2^32) and nothing else changes |
| StatsTracker.Stats.Release | main.go:168 | pending goes down by one (mod 2^32) and its new value is returned |
| StatsTracker.Stats.Report | main.go:150-156 | `/stats` reports the `ok` counter, which is the number of successes while that stays below 2^32; the total `ok+fail`, exact unless it passes 2^32; and the pending counter, the number of downloads in flight |
| StatsTracker.QuiescentConservation | main.go:165-174 | when every claimed slot is released, pending reads 0, successes plus failures equal the downloads submitted, and no download is left unsettled |
| DownloadManager.TargetNameProperties | main.go:196-221 | a document keeps its file name, or takes its unique ID when the name is empty; photos get `ID.jpg` and videos `ID.mp4` whatever the MIME type; distinct IDs give distinct names, and a photo never shares a name with a video; only a non-MP4 video draws a warning |
| DownloadManager.TargetName | main.go:196-220 | a document with a file name keeps it, and a document without one takes its unique ID; a photo's or video's name is its unique ID followed by a four-character extension |
| DownloadManager.Warnings | main.go:215-218 | at most one warning, given exactly for a video whose MIME type is not `video/mp4` |
| DownloadManager.FinalPath | main.go:179 | the final path is the working directory, a slash, then the file name |
| DownloadManager.TempPath | main.go:180 | the temporary path is the final path followed by `.tmp`, so it is never the final path |
| DownloadManager.TempPathOfOneIsFinalPathOfAnother | main.go:179-180 | the temporary path of `x` is the final path of a document named `x.tmp` |
| DownloadManager.Attempt | main.go:176-194 | the download always goes to the temporary path; the rename from temporary to final path is attempted exactly when the download succeeded; the transfer succeeds only when both succeed, and every failure gives one error reply naming the failing step: `Error: Download: ` or `Error: Rename: ` followed by the reason |
| DownloadManager.FinalPathOnlyByRename | main.go:179-193 | no step writes the final path directly; the only step that reaches it is the rename from its temporary path, right after the download |
| DownloadManager.NoticeFor | main.go:168-173 | "All downloads finished" exactly when the decremented pending count is 0, a progress notice exactly when it is a nonzero multiple of 5, otherwise nothing |
| DownloadManager.NoticeText | main.go:169-172 | nothing for a quiet step, "All downloads finished" for the last download, and for a progress notice one line that is `Done. Pending downloads: ` followed by the `%d` rendering of the pending count, which reads back as that count |
| DownloadManager.DownloadFileInternal | main.go:176-194 | exactly one of the success and failure counters rises by one, matching the outcome; pending is untouched |
| DownloadManager.Settle | main.go:167-173 | the transfer, one outcome counted, pending decremented, and the notification chosen by the decremented value |
| DownloadManager.DownloadFile | main.go:165-174 | across one call pending ends at its entry value, exactly one of ok/err rises by one, and the notification depends on the entry pending value |
| DownloadManager.HandleAttachment | main.go:196-221 | the handler's warning comes first, then the download of the target name it chose; pending ends where it started, the success counter rises exactly when both steps succeed and the failure counter otherwise, and one slot is claimed and released |
| DownloadManager.Burst | main.go:165-174 | n downloads that all claim before any settles end with ok = successes, err = failures, pending = 0; "All downloads finished" is sent once, by the last download |
| DownloadManager.ClaimAll | main.go:166 | n claims from zero leave pending at n |
| DownloadManager.SettleNext | main.go:167-173 | one settle within a burst counts the download's outcome, leaves one fewer pending, and notifies for the new pending count |
| DownloadManager.SettleAll | main.go:167-173 | settling the claimed downloads in order counts every outcome and steps pending down to 0, with the notification for each decremented value |

## Left out

- The messaging client and its wiring are not modelled: `tele.Context`, `Reply`/`Send`, `NewBot`, the long poller, the whitelist middleware, `main` and the `handleHelp` text. Replies are returned as sequences of strings, and the error a handler returns is returned as a value.
- `handlePwd` is not modelled as an operation: it replies the current directory, which the model holds as `WorkingDir.cwd`.
- Real filesystem and network calls are not performed: `os.Getwd`, `os.MkdirAll`, `os.Chdir`, `os.Rename`, `ioutil.ReadDir` and `Bot().Download`. Their outcomes are inputs, and an attempted step is returned as an `Io.FsOp`.
- The listing takes its entries in the order given; that `ioutil.ReadDir` sorts by name is a library property.
- Goroutines and `sync/atomic` are not modelled: each atomic add is one sequential step. The race between `/cd` and in-flight downloads reading the working directory is not modelled either: a download receives the directory as a parameter when it settles.
- Uptime and `time.Since` are clock-dependent and left out, together with `Stats.startTime`.
- `initCfg` is left out: reading the environment, `strconv.ParseInt` and the fatal startup errors are startup I/O.
- Logging through `log.Printf`/`log.Println` is not modelled. Only the chat replies of `logEverywhere` are.
- Path cleaning is not modelled. `filepath.Join` is `dir + "/" + name`, `filepath.IsAbs` is "starts with `/`", and after a successful Chdir the directory is the joined text rather than the cleaned path `os.Getwd` would report.
- PathGuard.ChangeDirKeepsRootPrefix: the containment it proves is only textual. A directory such as `/data/../etc` keeps the prefix `/data` but names `/etc`. With path cleaning modelled, no containment would hold.
- Listing.ByteLen: the UTF-8 width of each code point is counted. File names that are not valid UTF-8 are outside the model.
- Sizes are unbounded integers rather than `int64`. No overflow can arise, since the size is only compared and divided.
- Counters wrap modulo 2^32 in the model, as `uint32` does. Beyond the wrap-around itself, no overflow behaviour is studied. `Burst` requires fewer than 2^32 downloads.
- The results of intermediate `c.Reply` calls (which the source ignores) and of the final one are not modelled.
