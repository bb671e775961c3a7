/**
 * `downloadFile` and `downloadFileInternal` with the attachment handlers
 * that start them. One download claims a pending slot, saves the file under
 * a temporary name, renames it to its final name only if the transfer
 * succeeded, counts the outcome, releases its slot and may notify.
 */
module DownloadManager {
  import opened Io
  import opened StatsTracker
  import Decimal
  import Wrappers
  import PathGuard

  const TMP_SUFFIX: string := ".tmp"
  const ALL_FINISHED: string := "All downloads finished"
  const PROGRESS_PREFIX: string := "Done. Pending downloads: "
  const MP4_MIME: string := "video/mp4"

  /** An inbound attachment, with the fields the handlers read. */
  datatype Attachment =
    | Document(fileName: string, uniqueID: string)
    | Photo(uniqueID: string)
    | Video(uniqueID: string, mime: string)

  /** The file name a handler passes to `downloadFile`. */
  function TargetName(a: Attachment): (n: string)
    ensures a.Document? && a.fileName != "" ==> n == a.fileName
    ensures a.Document? && a.fileName == "" ==> n == a.uniqueID
    ensures !a.Document? ==> |n| == |a.uniqueID| + 4 && n[..|a.uniqueID|] == a.uniqueID
  {
    match a
    case Document(fileName, uniqueID) => if fileName == "" then uniqueID else fileName
    case Photo(uniqueID) => uniqueID + ".jpg"
    case Video(uniqueID, _) => uniqueID + ".mp4"
  }

  /** What a handler replies before starting the download: a warning for a video that is not MP4. */
  function Warnings(a: Attachment): (w: seq<string>)
    ensures |w| <= 1
    ensures w != [] <==> a.Video? && a.mime != MP4_MIME
  {
    if a.Video? && a.mime != MP4_MIME then ["Unsupported video format: " + a.mime + ", wants 'video/mp4'"]
    else []
  }

  /**
   * A document keeps its own name unless it has none; photos and videos are
   * named by their unique identifier with a fixed extension, whatever the
   * video's MIME type, so two photos (or two videos) with different
   * identifiers never share a name and a photo never shares one with a video.
   */
  lemma TargetNameProperties(a: Attachment, b: Attachment)
    ensures a.Document? && a.fileName != "" ==> TargetName(a) == a.fileName
    ensures a.Document? && a.fileName == "" ==> TargetName(a) == a.uniqueID
    ensures a.Photo? ==> TargetName(a) == a.uniqueID + ".jpg"
    ensures a.Video? ==> TargetName(a) == a.uniqueID + ".mp4"
    ensures a.Photo? && b.Photo? && a.uniqueID != b.uniqueID ==> TargetName(a) != TargetName(b)
    ensures a.Video? && b.Video? ==> (TargetName(a) == TargetName(b) <==> a.uniqueID == b.uniqueID)
    ensures a.Photo? && b.Video? ==> TargetName(a) != TargetName(b)
    ensures a.Video? ==> (Warnings(a) != [] <==> a.mime != MP4_MIME)
    ensures !a.Video? ==> Warnings(a) == []
  {
    if a.Photo? && b.Photo? && TargetName(a) == TargetName(b) {
      SameSuffixCancels(a.uniqueID, b.uniqueID, ".jpg");
    }
    if a.Video? && b.Video? && TargetName(a) == TargetName(b) {
      SameSuffixCancels(a.uniqueID, b.uniqueID, ".mp4");
    }
    if a.Photo? && b.Video? {
      var x, y := TargetName(a), TargetName(b);
      assert x[|x| - 1] == 'g' && y[|y| - 1] == '4';
    }
  }

  lemma SameSuffixCancels(u: string, v: string, suffix: string)
    requires u + suffix == v + suffix
    ensures u == v
  {
    assert u == (u + suffix)[..|u|];
    assert v == (v + suffix)[..|v|];
  }

  /** `filepath.Join(mustGetWd(), fname)` (without path cleaning). */
  function FinalPath(wd: string, name: string): (p: string)
    ensures PathGuard.HasPrefix(p, wd + "/") && p[|wd| + 1..] == name
  {
    PathGuard.Join(wd, name)
  }

  /** The temporary path a download is written to before the rename. */
  function TempPath(final: string): (tmp: string)
    ensures tmp != final && PathGuard.HasPrefix(tmp, final) && tmp[|final|..] == TMP_SUFFIX
  {
    final + TMP_SUFFIX
  }

  /**
   * The temporary path of one name can be the final path of another: a
   * document named `x.tmp` is saved where the download of `x` writes its
   * partial data.
   */
  lemma TempPathOfOneIsFinalPathOfAnother(wd: string, name: string)
    ensures TempPath(FinalPath(wd, name)) == FinalPath(wd, name + TMP_SUFFIX)
  {
  }

  /** The steps one transfer attempted, whether it succeeded, and the error it replied. */
  datatype Transfer = Transfer(success: bool, ops: seq<FsOp>, replies: seq<string>)

  /**
   * The file steps of `downloadFileInternal`: download to the temporary
   * path; only if that succeeded, rename it to the final path.
   */
  function Attempt(wd: string, name: string, download: IoResult, rename: IoResult): (t: Transfer)
    ensures var final := FinalPath(wd, name);
      && (t.success <==> download.Done? && rename.Done?)
      && |t.ops| >= 1 && t.ops[0] == Download(TempPath(final))
      && (|t.ops| == 2 <==> download.Done?)
      && |t.ops| <= 2
      && (|t.ops| == 2 ==> t.ops[1] == Rename(TempPath(final), final))
      && (t.success <==> t.replies == [])
      && |t.replies| <= 1
      && (download.Failed? ==> t.replies == ["Error: Download: " + download.reason])
      && (download.Done? && rename.Failed? ==> t.replies == ["Error: Rename: " + rename.reason])
  {
    var final := FinalPath(wd, name);
    var tmp := TempPath(final);
    if download.Failed? then Transfer(false, [Download(tmp)], ["Error: Download: " + download.reason])
    else if rename.Failed? then Transfer(false, [Download(tmp), Rename(tmp, final)], ["Error: Rename: " + rename.reason])
    else Transfer(true, [Download(tmp), Rename(tmp, final)], [])
  }

  /** The only step that can make a file appear at a final path is the rename from that path's temporary name. */
  lemma FinalPathOnlyByRename(wd: string, name: string, download: IoResult, rename: IoResult)
    ensures var t := Attempt(wd, name, download, rename);
      var final := FinalPath(wd, name);
      forall i :: 0 <= i < |t.ops| ==>
        (t.ops[i].Download? ==> t.ops[i].dest != final)
        && (t.ops[i].Rename? ==> t.ops[i].from == TempPath(final) && i > 0 && t.ops[i - 1] == Download(TempPath(final)))
  {
  }

  /** The notification after a download, chosen by the decremented pending count. */
  datatype Notice = AllFinished | Progress(pending: u32) | Quiet

  function NoticeFor(pending: u32): (n: Notice)
    ensures n == AllFinished <==> pending == 0
    ensures n.Progress? <==> pending != 0 && pending % 5 == 0
    ensures n.Progress? ==> n.pending == pending
  {
    if pending == 0 then AllFinished else if pending % 5 == 0 then Progress(pending) else Quiet
  }

  /** The chat text of a notice; a progress notice reads back as the pending count it reports. */
  function NoticeText(n: Notice): (t: seq<string>)
    ensures |t| <= 1 && (t == [] <==> n.Quiet?)
    ensures n.AllFinished? ==> t == [ALL_FINISHED]
    ensures n.Progress? ==>
      && PathGuard.HasPrefix(t[0], PROGRESS_PREFIX)
      && t[0][|PROGRESS_PREFIX|..] == Decimal.IntToString(n.pending as int)
      && Decimal.ParseInt(t[0][|PROGRESS_PREFIX|..]) == Wrappers.Some(n.pending as int)
  {
    match n
    case AllFinished => [ALL_FINISHED]
    case Progress(p) =>
      Decimal.IntToStringRoundTrip(p as int);
      var line := PROGRESS_PREFIX + Decimal.IntToString(p as int);
      assert line[|PROGRESS_PREFIX|..] == Decimal.IntToString(p as int);
      [line]
    case Quiet => []
  }

  /**
   * `downloadFileInternal`: the transfer, then exactly one of the success
   * and failure counters goes up. The counters are changed by a download
   * that has claimed its slot and not yet counted its outcome.
   */
  method DownloadFileInternal(stats: Stats, wd: string, name: string, download: IoResult, rename: IoResult)
    returns (ops: seq<FsOp>, replies: seq<string>)
    requires stats.Valid() && stats.succeeded + stats.failed < stats.claimed
    modifies stats
    ensures stats.Valid()
    ensures var t := Attempt(wd, name, download, rename); ops == t.ops && replies == t.replies
    ensures download.Done? && rename.Done? ==>
      stats.ok == Add32(old(stats.ok), 1) && stats.err == old(stats.err) && stats.succeeded == old(stats.succeeded) + 1 && stats.failed == old(stats.failed)
    ensures !(download.Done? && rename.Done?) ==>
      stats.err == Add32(old(stats.err), 1) && stats.ok == old(stats.ok) && stats.failed == old(stats.failed) + 1 && stats.succeeded == old(stats.succeeded)
    ensures stats.pending == old(stats.pending) && stats.claimed == old(stats.claimed) && stats.released == old(stats.released)
  {
    var fpath := FinalPath(wd, name);
    var tmp := TempPath(fpath);
    ops := [Download(tmp)];
    if download.Failed? {
      replies := ["Error: Download: " + download.reason];
      stats.RecordErr();
      return;
    }
    ops := ops + [Rename(tmp, fpath)];
    if rename.Failed? {
      replies := ["Error: Rename: " + rename.reason];
      stats.RecordErr();
      return;
    }
    replies := [];
    stats.RecordOk();
  }

  /**
   * The second half of `downloadFile`, for a download whose slot is claimed:
   * the transfer, the decrement of pending, and the notification chosen by
   * the decremented value.
   */
  method Settle(stats: Stats, wd: string, name: string, download: IoResult, rename: IoResult)
    returns (ops: seq<FsOp>, replies: seq<string>, notice: Notice)
    requires stats.Valid() && stats.released == stats.succeeded + stats.failed && stats.succeeded + stats.failed < stats.claimed
    modifies stats
    ensures stats.Valid() && stats.released == stats.succeeded + stats.failed
    ensures var t := Attempt(wd, name, download, rename);
      ops == t.ops && replies == t.replies + NoticeText(notice)
    ensures stats.pending == Add32(old(stats.pending), MINUS_ONE) && notice == NoticeFor(stats.pending)
    ensures download.Done? && rename.Done? ==>
      stats.ok == Add32(old(stats.ok), 1) && stats.err == old(stats.err) && stats.succeeded == old(stats.succeeded) + 1 && stats.failed == old(stats.failed)
    ensures !(download.Done? && rename.Done?) ==>
      stats.err == Add32(old(stats.err), 1) && stats.ok == old(stats.ok) && stats.failed == old(stats.failed) + 1 && stats.succeeded == old(stats.succeeded)
    ensures stats.claimed == old(stats.claimed) && stats.released == old(stats.released) + 1
  {
    var errors;
    ops, errors := DownloadFileInternal(stats, wd, name, download, rename);
    var p := stats.Release();
    notice := NoticeFor(p);
    replies := errors + NoticeText(notice);
  }

  /**
   * `downloadFile` run to completion on its own: pending goes up, the
   * download settles, pending comes back to its value on entry, and exactly
   * one of the success and failure counters has gone up by one.
   */
  method DownloadFile(stats: Stats, wd: string, name: string, download: IoResult, rename: IoResult)
    returns (ops: seq<FsOp>, replies: seq<string>, notice: Notice)
    requires stats.Valid() && stats.released == stats.succeeded + stats.failed
    modifies stats
    ensures stats.Valid() && stats.released == stats.succeeded + stats.failed
    ensures var t := Attempt(wd, name, download, rename);
      ops == t.ops && replies == t.replies + NoticeText(notice)
    ensures stats.pending == old(stats.pending) && notice == NoticeFor(old(stats.pending))
    ensures download.Done? && rename.Done? ==>
      stats.ok == Add32(old(stats.ok), 1) && stats.err == old(stats.err) && stats.succeeded == old(stats.succeeded) + 1 && stats.failed == old(stats.failed)
    ensures !(download.Done? && rename.Done?) ==>
      stats.err == Add32(old(stats.err), 1) && stats.ok == old(stats.ok) && stats.failed == old(stats.failed) + 1 && stats.succeeded == old(stats.succeeded)
    ensures stats.claimed == old(stats.claimed) + 1 && stats.released == old(stats.released) + 1
  {
    stats.Claim();
    ops, replies, notice := Settle(stats, wd, name, download, rename);
    Add32Inverse(old(stats.pending));
  }

  /**
   * `handleOnDocument`, `handleOnPhoto` and `handleOnVideo` followed by the
   * download they start: the warning about a non-MP4 video comes first,
   * then whatever the download replies.
   */
  method HandleAttachment(stats: Stats, wd: string, a: Attachment, download: IoResult, rename: IoResult)
    returns (ops: seq<FsOp>, replies: seq<string>)
    requires stats.Valid() && stats.released == stats.succeeded + stats.failed
    modifies stats
    ensures stats.Valid() && stats.released == stats.succeeded + stats.failed
    ensures var t := Attempt(wd, TargetName(a), download, rename);
      ops == t.ops && replies == Warnings(a) + t.replies + NoticeText(NoticeFor(old(stats.pending)))
    ensures stats.pending == old(stats.pending)
    ensures download.Done? && rename.Done? ==>
      stats.ok == Add32(old(stats.ok), 1) && stats.err == old(stats.err) && stats.succeeded == old(stats.succeeded) + 1 && stats.failed == old(stats.failed)
    ensures !(download.Done? && rename.Done?) ==>
      stats.err == Add32(old(stats.err), 1) && stats.ok == old(stats.ok) && stats.failed == old(stats.failed) + 1 && stats.succeeded == old(stats.succeeded)
    ensures stats.claimed == old(stats.claimed) + 1 && stats.released == old(stats.released) + 1
  {
    var warnings := Warnings(a);
    var more, notice;
    ops, more, notice := DownloadFile(stats, wd, TargetName(a), download, rename);
    replies := warnings + more;
  }

  /** One download of a batch: its name and what the transfer and the rename report. */
  datatype Job = Job(name: string, download: IoResult, rename: IoResult)

  function Succeeds(j: Job): bool {
    j.download.Done? && j.rename.Done?
  }

  /** The number of jobs whose transfer and rename both succeed. */
  function CountOk(jobs: seq<Job>): (n: nat)
    ensures n <= |jobs|
  {
    if jobs == [] then 0 else CountOk(jobs[..|jobs| - 1]) + (if Succeeds(jobs[|jobs| - 1]) then 1 else 0)
  }

  /**
   * A burst of concurrent downloads, in the interleaving where every one of
   * them claims its slot before the first settles: afterwards the counters
   * hold the number of successes and failures and pending is back to 0,
   * and "All downloads finished" is sent once, by the last download only.
   */
  method Burst(wd: string, jobs: seq<Job>) returns (ok: u32, err: u32, pending: u32, notices: seq<Notice>)
    requires |jobs| < WORD
    ensures ok as int == CountOk(jobs) && err as int == |jobs| - CountOk(jobs) && pending == 0
    ensures |notices| == |jobs|
    ensures forall k :: 0 <= k < |jobs| ==> notices[k] == NoticeFor((|jobs| - 1 - k) as u32)
    ensures forall k :: 0 <= k < |jobs| ==> (notices[k] == AllFinished <==> k == |jobs| - 1)
  {
    var stats := new Stats();
    ClaimAll(stats, |jobs|);
    notices := SettleAll(stats, wd, jobs);
    ok, err, pending := stats.ok, stats.err, stats.pending;
  }

  /** The claiming half of a burst: `n` downloads bump pending before any of them settles. */
  method ClaimAll(stats: Stats, n: nat)
    requires n < WORD
    requires stats.Valid() && stats.claimed == 0 && stats.released == 0 && stats.succeeded == 0 && stats.failed == 0
    modifies stats
    ensures stats.Valid() && stats.claimed == n && stats.pending as int == n
    ensures stats.released == 0 && stats.succeeded == 0 && stats.failed == 0
  {
    var i := 0;
    while i < n
      invariant 0 <= i <= n
      invariant stats.Valid() && stats.claimed == i && stats.pending as int == i
      invariant stats.released == 0 && stats.succeeded == 0 && stats.failed == 0
    {
      Add32NoWrap(stats.pending);
      stats.Claim();
      i := i + 1;
    }
  }

  /** One step of `SettleAll`: the next download of the burst settles, with `n - i` still pending. */
  method SettleNext(stats: Stats, wd: string, job: Job, ghost n: nat, ghost i: nat) returns (notice: Notice)
    requires n < WORD && i < n
    requires stats.Valid() && stats.claimed == n && stats.released == i && stats.succeeded + stats.failed == i
    requires stats.pending as int == n - i
    modifies stats
    ensures stats.Valid() && stats.claimed == n && stats.released == i + 1 && stats.pending as int == n - i - 1
    ensures stats.succeeded == old(stats.succeeded) + (if Succeeds(job) then 1 else 0)
    ensures stats.failed == old(stats.failed) + (if Succeeds(job) then 0 else 1)
    ensures notice == NoticeFor((n - 1 - i) as u32)
  {
    Add32NoWrap(stats.pending);
    var _, _, nt := Settle(stats, wd, job.name, job.download, job.rename);
    notice := nt;
  }

  /** The settling half of a burst: the claimed downloads settle one after another, in the order given. */
  method SettleAll(stats: Stats, wd: string, jobs: seq<Job>) returns (notices: seq<Notice>)
    requires |jobs| < WORD
    requires stats.Valid() && stats.claimed == |jobs| && stats.pending as int == |jobs|
    requires stats.released == 0 && stats.succeeded == 0 && stats.failed == 0
    modifies stats
    ensures stats.Valid() && stats.released == |jobs| && stats.pending == 0
    ensures stats.ok as int == CountOk(jobs) && stats.err as int == |jobs| - CountOk(jobs)
    ensures |notices| == |jobs|
    ensures forall k :: 0 <= k < |jobs| ==> notices[k] == NoticeFor((|jobs| - 1 - k) as u32)
  {
    notices := [];
    var i := 0;
    while i < |jobs|
      invariant 0 <= i <= |jobs|
      invariant stats.Valid() && stats.claimed == |jobs| && stats.released == i
      invariant stats.pending as int == |jobs| - i
      invariant stats.succeeded == CountOk(jobs[..i]) && stats.failed == i - CountOk(jobs[..i])
      invariant |notices| == i
      invariant forall k :: 0 <= k < i ==> notices[k] == NoticeFor((|jobs| - 1 - k) as u32)
    {
      var job := jobs[i];
      assert jobs[..i + 1][..i] == jobs[..i];
      var notice := SettleNext(stats, wd, job, |jobs|, i);
      notices := notices + [notice];
      i := i + 1;
    }
    assert jobs[..|jobs|] == jobs;
  }
}
