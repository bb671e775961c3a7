/**
 * `handleCd`: the directory change command and the only confinement test
 * the bot applies. The test is textual: an absolute target must begin, as a
 * string, with the initial working directory; a relative target is not
 * inspected at all.
 */
module PathGuard {
  import opened Wrappers
  import opened Io

  const RESET_FLAG: string := "-r"
  const USAGE: string := "Usage: /cd [-r] <path>"
  const OUTSIDE_MESSAGE: string := "Path is not relative to initial working dir"
  const DONE_MESSAGE: string := "done!"

  /** `filepath.IsAbs` on a Unix system. */
  predicate IsAbs(p: string) {
    |p| > 0 && p[0] == '/'
  }

  /** `strings.HasPrefix(s, prefix)`. */
  predicate HasPrefix(s: string, prefix: string) {
    prefix <= s
  }

  /** `filepath.Join(dir, name)`, without the cleaning of `.` and `..` segments. */
  function Join(dir: string, name: string): string {
    dir + "/" + name
  }

  /** The directory a path names when the process stands in `cwd`. */
  function Resolve(cwd: string, p: string): (r: string)
    ensures IsAbs(p) ==> r == p
    ensures !IsAbs(p) ==> HasPrefix(r, cwd + "/") && r[|cwd| + 1..] == p
  {
    if IsAbs(p) then p else Join(cwd, p)
  }

  /** The confinement test of `handleCd`: an absolute path that does not begin with the root. */
  predicate OutsideRoot(root: string, p: string)
    ensures OutsideRoot(root, p) ==> IsAbs(p) && p != root && !HasPrefix(p, root + "/")
    ensures !IsAbs(p) ==> !OutsideRoot(root, p)
  {
    IsAbs(p) && !HasPrefix(p, root)
  }

  /** The directory `/cd arg` goes to: the flag `-r` stands for the root. */
  function CdTarget(root: string, arg: string): (t: string)
    ensures arg == RESET_FLAG ==> t == root && !OutsideRoot(root, t)
    ensures arg != RESET_FLAG ==> t == arg
  {
    if arg == RESET_FLAG then root else arg
  }

  /** Why a directory change was refused or failed. */
  datatype CdError = OutsideInitialDir | MkdirFailed(reason: string) | ChdirFailed(reason: string)

  /** The working directory after a `/cd`, the replies sent, the steps attempted and the error returned. */
  datatype CdResult = CdResult(cwd: string, replies: seq<string>, ops: seq<FsOp>, error: Option<CdError>)

  /**
   * `/cd` with arguments `args` from directory `cwd`, given what MkdirAll and
   * Chdir report when they are attempted.
   */
  function ChangeDir(root: string, cwd: string, args: seq<string>, mkdir: IoResult, chdir: IoResult): (r: CdResult)
    ensures |args| != 1 ==> r == CdResult(cwd, [USAGE], [], None)
    ensures |args| == 1 ==> var t := CdTarget(root, args[0]);
      && (OutsideRoot(root, t) <==> r.error == Some(OutsideInitialDir))
      && (OutsideRoot(root, t) ==> r.ops == [])
      && (!OutsideRoot(root, t) ==> r.ops == [MkdirAll(t)] || r.ops == [MkdirAll(t), Chdir(t)])
      && (r.ops == [MkdirAll(t), Chdir(t)] ==> mkdir.Done?)
      && (r.error == None <==> r.replies == [DONE_MESSAGE])
      && (r.error == None ==> r.ops == [MkdirAll(t), Chdir(t)] && r.cwd == Resolve(cwd, t))
      && (!OutsideRoot(root, t) ==> (r.error == None <==> mkdir.Done? && chdir.Done?))
      && (!OutsideRoot(root, t) && mkdir.Failed? ==>
            r.error == Some(MkdirFailed(mkdir.reason)) && r.ops == [MkdirAll(t)] && r.replies == ["MkdirAll: " + mkdir.reason])
      && (!OutsideRoot(root, t) && mkdir.Done? && chdir.Failed? ==>
            r.error == Some(ChdirFailed(chdir.reason)) && r.ops == [MkdirAll(t), Chdir(t)] && r.replies == ["Chdir: " + chdir.reason])
      && (OutsideRoot(root, t) ==> r.replies == [OUTSIDE_MESSAGE])
    ensures r.error.Some? ==> r.cwd == cwd && |r.replies| == 1
  {
    if |args| != 1 then CdResult(cwd, [USAGE], [], None)
    else
      var t := CdTarget(root, args[0]);
      if OutsideRoot(root, t) then CdResult(cwd, [OUTSIDE_MESSAGE], [], Some(OutsideInitialDir))
      else if mkdir.Failed? then
        CdResult(cwd, ["MkdirAll: " + mkdir.reason], [MkdirAll(t)], Some(MkdirFailed(mkdir.reason)))
      else if chdir.Failed? then
        CdResult(cwd, ["Chdir: " + chdir.reason], [MkdirAll(t), Chdir(t)], Some(ChdirFailed(chdir.reason)))
      else CdResult(Resolve(cwd, t), [DONE_MESSAGE], [MkdirAll(t), Chdir(t)], None)
  }

  /**
   * The textual containment every `/cd` keeps: if `cwd` begins with the root
   * string, so does the directory after the command. (Path cleaning is not
   * modelled; see SiblingAndParentPass for what this does not exclude.)
   */
  lemma ChangeDirKeepsRootPrefix(root: string, cwd: string, args: seq<string>, mkdir: IoResult, chdir: IoResult)
    requires HasPrefix(cwd, root)
    ensures HasPrefix(ChangeDir(root, cwd, args, mkdir, chdir).cwd, root)
  {
    var r := ChangeDir(root, cwd, args, mkdir, chdir);
    if r.cwd != cwd {
      var t := CdTarget(root, args[0]);
      if !IsAbs(t) {
        assert r.cwd == cwd + ("/" + t);
      }
    }
  }

  /** `/cd -r` always passes the confinement test, and its only possible destination is the root. */
  lemma ResetTargetsRoot(root: string, cwd: string, mkdir: IoResult, chdir: IoResult)
    requires IsAbs(root)
    ensures var r := ChangeDir(root, cwd, [RESET_FLAG], mkdir, chdir);
      r.error != Some(OutsideInitialDir) && (r.cwd == root || r.cwd == cwd)
      && (mkdir.Done? && chdir.Done? <==> r.cwd == root && r.error == None)
  {
  }

  /** Repeating `/cd -r` with the same outcomes leaves the same directory as doing it once. */
  lemma ResetIdempotent(root: string, cwd: string, mkdir: IoResult, chdir: IoResult)
    requires IsAbs(root)
    ensures var once := ChangeDir(root, cwd, [RESET_FLAG], mkdir, chdir);
      ChangeDir(root, once.cwd, [RESET_FLAG], mkdir, chdir) == once
  {
  }

  /**
   * What the textual test lets through under root `/data`: the sibling
   * `/data2`, an absolute path that climbs out with `..`, and any relative
   * path (which after cleaning may name a directory outside the root).
   */
  lemma SiblingAndParentPass()
    ensures !OutsideRoot("/data", "/data2")
    ensures !OutsideRoot("/data", "/data/../etc")
    ensures ChangeDir("/data", "/data", ["../etc"], Done, Done).cwd == "/data/../etc"
    ensures ChangeDir("/data", "/data", ["/data2"], Done, Done) == CdResult("/data2", [DONE_MESSAGE], [MkdirAll("/data2"), Chdir("/data2")], None)
  {
    assert "/data" <= "/data2";
    assert "/data" <= "/data/../etc";
  }

  /** Under root `/data`, `/cd /etc` is refused before anything is created, and the directory stays. */
  lemma CdOutsideRefused()
    ensures ChangeDir("/data", "/data", ["/etc"], Done, Done) == CdResult("/data", [OUTSIDE_MESSAGE], [], Some(OutsideInitialDir))
  {
    assert !("/data" <= "/etc");
  }

  /** Under root `/data`, `/cd relative/sub` creates the directory and moves into it. */
  lemma CdRelativeCreatesAndMoves()
    ensures ChangeDir("/data", "/data", ["relative/sub"], Done, Done)
      == CdResult("/data/relative/sub", [DONE_MESSAGE], [MkdirAll("relative/sub"), Chdir("relative/sub")], None)
  {
    assert CdTarget("/data", "relative/sub") == "relative/sub";
    assert !IsAbs("relative/sub") && !OutsideRoot("/data", "relative/sub");
    assert Resolve("/data", "relative/sub") == Join("/data", "relative/sub") == "/data/relative/sub";
  }

  /** `/cd` without exactly one argument only replies the usage text. */
  lemma CdUsage()
    ensures ChangeDir("/data", "/data/x", ["a", "b"], Done, Done) == CdResult("/data/x", [USAGE], [], None)
  {
  }

  /**
   * The process's working directory and its initial value. `cwd` is the
   * path the last successful Chdir was given, joined to the previous
   * directory without cleaning; `root` is `InitialWorkingDir`.
   */
  class WorkingDir {
    const root: string
    var cwd: string

    ghost predicate Valid()
      reads this
    {
      IsAbs(root) && HasPrefix(cwd, root)
    }

    /** At startup the process stands in its initial working directory, an absolute path. */
    constructor (initial: string)
      requires IsAbs(initial)
      ensures Valid() && root == initial && cwd == initial
    {
      root := initial;
      cwd := initial;
    }

    /** `handleCd`: MkdirAll, then Chdir, each attempted only once the checks before it passed. */
    method Cd(args: seq<string>, mkdir: IoResult, chdir: IoResult)
      returns (replies: seq<string>, ops: seq<FsOp>, error: Option<CdError>)
      requires Valid()
      modifies this
      ensures Valid()
      ensures var r := ChangeDir(root, old(cwd), args, mkdir, chdir);
        cwd == r.cwd && replies == r.replies && ops == r.ops && error == r.error
    {
      ChangeDirKeepsRootPrefix(root, cwd, args, mkdir, chdir);
      if |args| != 1 {
        return [USAGE], [], None;
      }
      var wd := args[0];
      if wd == RESET_FLAG {
        wd := root;
      }
      if IsAbs(wd) && !HasPrefix(wd, root) {
        return [OUTSIDE_MESSAGE], [], Some(OutsideInitialDir);
      }
      ops := [MkdirAll(wd)];
      if mkdir.Failed? {
        return ["MkdirAll: " + mkdir.reason], ops, Some(MkdirFailed(mkdir.reason));
      }
      ops := ops + [Chdir(wd)];
      if chdir.Failed? {
        return ["Chdir: " + chdir.reason], ops, Some(ChdirFailed(chdir.reason));
      }
      cwd := Resolve(cwd, wd);
      replies, error := [DONE_MESSAGE], None;
    }
  }
}
