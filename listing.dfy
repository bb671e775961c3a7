/**
 * `handleLs`: one line per directory entry, gathered into replies of the
 * messaging client. A reply is flushed before a line is appended whenever
 * the buffer and the line together measure 400 bytes or more; the last
 * buffer is always sent.
 */
module Listing {
  import opened Wrappers
  import SizeFormat

  /** A buffer that would reach this many bytes is flushed first. */
  const FLUSH_AT: nat := 400
  /** The `%-50s` field the entry name is padded to, in code points. */
  const NAME_WIDTH: nat := 50

  /** One entry as the directory enumeration reports it. */
  datatype FileInfo = FileInfo(name: string, isDir: bool, size: int)

  /** The number of bytes `c` occupies in UTF-8. */
  function Utf8Width(c: char): (w: nat)
    ensures 1 <= w <= 4
  {
    if c as int < 0x80 then 1
    else if c as int < 0x800 then 2
    else if c as int < 0x1_0000 then 3
    else 4
  }

  /** Go's `len(s)` for the UTF-8 encoding of `s`. */
  function ByteLen(s: string): (n: nat)
    ensures n >= |s|
  {
    if s == [] then 0 else ByteLen(s[..|s| - 1]) + Utf8Width(s[|s| - 1])
  }

  lemma {:induction false} ByteLenAppend(a: string, b: string)
    ensures ByteLen(a + b) == ByteLen(a) + ByteLen(b)
    decreases |b|
  {
    if b != [] {
      var b' := b[..|b| - 1];
      assert (a + b)[..|a + b| - 1] == a + b';
      assert (a + b)[|a + b| - 1] == b[|b| - 1];
      ByteLenAppend(a, b');
    } else {
      assert a + b == a;
    }
  }

  /** The concatenation of a sequence of sequences, in order. */
  function Flatten<T>(ss: seq<seq<T>>): seq<T> {
    if ss == [] then [] else Flatten(ss[..|ss| - 1]) + ss[|ss| - 1]
  }

  lemma FlattenSnoc<T>(ss: seq<seq<T>>, s: seq<T>)
    ensures Flatten(ss + [s]) == Flatten(ss) + s
  {
    assert (ss + [s])[..|ss|] == ss;
  }

  lemma {:induction false} FlattenAppend<T>(a: seq<seq<T>>, b: seq<seq<T>>)
    ensures Flatten(a + b) == Flatten(a) + Flatten(b)
    decreases |b|
  {
    if b != [] {
      var b' := b[..|b| - 1];
      assert a + b == (a + b') + [b[|b| - 1]];
      FlattenSnoc(a + b', b[|b| - 1]);
      FlattenAppend(a, b');
    } else {
      assert a + b == a;
    }
  }

  function Spaces(n: nat): (s: string)
    ensures |s| == n && forall i :: 0 <= i < n ==> s[i] == ' '
  {
    if n == 0 then "" else Spaces(n - 1) + " "
  }

  /** `fmt.Sprintf("%-50s", name)`: left-aligned, blank-filled to the width, never cut. */
  function PadRight(name: string, width: nat): (r: string)
    ensures |r| == if |name| < width then width else |name|
    ensures r[..|name|] == name
    ensures forall i :: |name| <= i < |r| ==> r[i] == ' '
  {
    if |name| < width then name + Spaces(width - |name|) else name
  }

  function TypeFlag(f: FileInfo): char {
    if f.isDir then 'd' else '-'
  }

  /** `fmt.Sprintf("%c %-50s: %s\n", t, name, humanReadableSize(size))`. */
  function EntryLine(f: FileInfo): (s: string)
    ensures |s| >= 2 + NAME_WIDTH + 3 && |s| >= 2 + |f.name| + 3
    ensures s[0] == TypeFlag(f) && s[1] == ' '
    ensures s[2..2 + |f.name|] == f.name
    ensures s[|s| - 1] == '\n'
  {
    var head := [TypeFlag(f), ' '] + PadRight(f.name, NAME_WIDTH);
    var size := SizeFormat.HumanReadableSize(f.size);
    var tail := ": " + size + "\n";
    assert |tail| >= 3 && tail[|tail| - 1] == '\n';
    assert |head| >= 2 + NAME_WIDTH && |head| >= 2 + |f.name| && head[0] == TypeFlag(f) && head[1] == ' ';
    assert head[2..2 + |f.name|] == f.name;
    assert (head + tail)[2..2 + |f.name|] == head[2..2 + |f.name|];
    head + tail
  }

  /** The entry lines of a directory, in enumeration order. */
  function Lines(files: seq<FileInfo>): (ls: seq<string>)
    ensures |ls| == |files| && forall i :: 0 <= i < |files| ==> ls[i] == EntryLine(files[i])
  {
    seq(|files|, i requires 0 <= i < |files| => EntryLine(files[i]))
  }

  function Header(wd: string): (h: string)
    ensures |h| == |wd| + 11 && h[..9] == "Files in " && h[9..|h| - 2] == wd && h[|h| - 2..] == ":\n"
  {
    "Files in " + wd + ":\n"
  }

  /** Every group holds at least one piece. */
  predicate NonEmptyGroups(gs: seq<seq<string>>) {
    |gs| >= 1 && forall k :: 0 <= k < |gs| ==> |gs[k]| >= 1
  }

  /** Every reply made of more than one piece measures less than FLUSH_AT bytes. */
  predicate BelowThreshold(gs: seq<seq<string>>) {
    forall k :: 0 <= k < |gs| && |gs[k]| >= 2 ==> ByteLen(Flatten(gs[k])) < FLUSH_AT
  }

  /** Each reply but the last was sent because the piece after it would have brought it to FLUSH_AT bytes or more. */
  predicate FlushedWhenFull(gs: seq<seq<string>>)
    requires NonEmptyGroups(gs)
  {
    forall k :: 0 <= k < |gs| - 1 ==> ByteLen(Flatten(gs[k])) + ByteLen(gs[k + 1][0]) >= FLUSH_AT
  }

  /**
   * One step of the loop on the groups built so far: the line starts a new
   * reply when it and the current buffer (the last group) measure FLUSH_AT
   * bytes or more, and joins the current buffer otherwise.
   */
  function AddLine(gs: seq<seq<string>>, line: string): (gs': seq<seq<string>>)
    requires NonEmptyGroups(gs)
    ensures NonEmptyGroups(gs') && |gs| <= |gs'| <= |gs| + 1
    ensures forall k :: 0 <= k < |gs| - 1 ==> gs'[k] == gs[k]
    ensures gs'[|gs| - 1][0] == gs[|gs| - 1][0]
  {
    var last := gs[|gs| - 1];
    if ByteLen(line) + ByteLen(Flatten(last)) >= FLUSH_AT then gs + [[line]]
    else gs[..|gs| - 1] + [last + [line]]
  }

  /**
   * How the loop splits the pieces `[first] + lines` into replies: each inner
   * sequence is the pieces one reply is made of.
   */
  function Groups(first: string, lines: seq<string>): (gs: seq<seq<string>>)
    ensures NonEmptyGroups(gs) && gs[0][0] == first
    ensures |gs| <= |lines| + 1
  {
    if lines == [] then [[first]]
    else AddLine(Groups(first, lines[..|lines| - 1]), lines[|lines| - 1])
  }

  /** The text of each reply. */
  function Render(gs: seq<seq<string>>): (rs: seq<string>)
    ensures |rs| == |gs| && forall k :: 0 <= k < |gs| ==> rs[k] == Flatten(gs[k])
  {
    seq(|gs|, k requires 0 <= k < |gs| => Flatten(gs[k]))
  }

  /** The replies `handleLs` sends for a header followed by the given lines. */
  function Replies(first: string, lines: seq<string>): seq<string> {
    Render(Groups(first, lines))
  }

  lemma AddLineKeepsPieces(gs: seq<seq<string>>, line: string)
    requires NonEmptyGroups(gs)
    ensures Flatten(AddLine(gs, line)) == Flatten(gs) + [line]
  {
    var last := gs[|gs| - 1];
    var init := gs[..|gs| - 1];
    assert gs == init + [last];
    FlattenSnoc(init, last);
    if ByteLen(line) + ByteLen(Flatten(last)) >= FLUSH_AT {
      FlattenSnoc(gs, [line]);
    } else {
      FlattenSnoc(init, last + [line]);
    }
  }

  lemma AddLineBelowThreshold(gs: seq<seq<string>>, line: string)
    requires NonEmptyGroups(gs) && BelowThreshold(gs)
    ensures BelowThreshold(AddLine(gs, line))
  {
    var last := gs[|gs| - 1];
    if ByteLen(line) + ByteLen(Flatten(last)) < FLUSH_AT {
      FlattenSnoc(last, line);
      ByteLenAppend(Flatten(last), line);
      assert AddLine(gs, line)[|gs| - 1] == last + [line];
    }
  }

  lemma AddLineFlushedWhenFull(gs: seq<seq<string>>, line: string)
    requires NonEmptyGroups(gs) && FlushedWhenFull(gs)
    ensures FlushedWhenFull(AddLine(gs, line))
  {
    var gs' := AddLine(gs, line);
    forall k | 0 <= k < |gs'| - 1
      ensures ByteLen(Flatten(gs'[k])) + ByteLen(gs'[k + 1][0]) >= FLUSH_AT
    {
      if k < |gs| - 1 {
        assert gs'[k] == gs[k];
        assert gs'[k + 1][0] == gs[k + 1][0];
      } else {
        assert gs' == gs + [[line]];
      }
    }
  }

  /** No piece is lost, repeated or moved: the replies' pieces, in order, are the header and then every line. */
  lemma {:induction false} GroupsPreservePieces(first: string, lines: seq<string>)
    ensures Flatten(Groups(first, lines)) == [first] + lines
    decreases |lines|
  {
    if lines == [] {
      FlattenSingleton([first]);
    } else {
      var prefix, line := lines[..|lines| - 1], lines[|lines| - 1];
      var gs := Groups(first, prefix);
      calc {
        Flatten(Groups(first, lines));
        Flatten(AddLine(gs, line));
        { AddLineKeepsPieces(gs, line); }
        Flatten(gs) + [line];
        { GroupsPreservePieces(first, prefix); }
        [first] + prefix + [line];
        { assert lines == prefix + [line]; }
        [first] + lines;
      }
    }
  }

  /** The groups after one more line are one loop step from the groups before it. */
  lemma GroupsSnoc(first: string, lines: seq<string>, i: nat)
    requires i < |lines|
    ensures Groups(first, lines[..i + 1]) == AddLine(Groups(first, lines[..i]), lines[i])
  {
    assert lines[..i + 1][..i] == lines[..i];
  }

  /** A reply of more than one piece had each of its appends checked, so it stays below FLUSH_AT bytes. */
  lemma {:induction false} GroupsBelowThreshold(first: string, lines: seq<string>)
    ensures BelowThreshold(Groups(first, lines))
    decreases |lines|
  {
    if lines != [] {
      var prefix := lines[..|lines| - 1];
      GroupsBelowThreshold(first, prefix);
      AddLineBelowThreshold(Groups(first, prefix), lines[|lines| - 1]);
    }
  }

  /** A reply was flushed only because the line after it would have brought the buffer to FLUSH_AT bytes or more. */
  lemma {:induction false} GroupsFlushedWhenFull(first: string, lines: seq<string>)
    ensures FlushedWhenFull(Groups(first, lines))
    decreases |lines|
  {
    if lines != [] {
      var prefix := lines[..|lines| - 1];
      GroupsFlushedWhenFull(first, prefix);
      AddLineFlushedWhenFull(Groups(first, prefix), lines[|lines| - 1]);
    }
  }

  /** A grouping of the pieces `[first] + lines` that obeys the three rules of the loop. */
  predicate ObeysFlushRules(first: string, lines: seq<string>, gs: seq<seq<string>>) {
    && NonEmptyGroups(gs)
    && Flatten(gs) == [first] + lines
    && BelowThreshold(gs)
    && FlushedWhenFull(gs)
  }

  /** The replies sent before a given one obey the rules too. */
  lemma RulesOnPrefix(gs: seq<seq<string>>, m: nat)
    requires NonEmptyGroups(gs) && BelowThreshold(gs) && FlushedWhenFull(gs) && 1 <= m <= |gs|
    ensures NonEmptyGroups(gs[..m]) && BelowThreshold(gs[..m]) && FlushedWhenFull(gs[..m])
  {
    var init := gs[..m];
    assert forall k :: 0 <= k < m ==> init[k] == gs[k];
  }

  /** Changing the current buffer for one that starts with the same piece and stays below FLUSH_AT keeps the rules. */
  lemma RulesOnReplaceLast(gs: seq<seq<string>>, g: seq<string>)
    requires NonEmptyGroups(gs) && BelowThreshold(gs) && FlushedWhenFull(gs)
    requires |g| >= 1 && g[0] == gs[|gs| - 1][0]
    requires |g| >= 2 ==> ByteLen(Flatten(g)) < FLUSH_AT
    ensures var gs' := gs[..|gs| - 1] + [g];
      NonEmptyGroups(gs') && BelowThreshold(gs') && FlushedWhenFull(gs')
  {
    var gs' := gs[..|gs| - 1] + [g];
    assert forall k :: 0 <= k < |gs| - 1 ==> gs'[k] == gs[k];
    assert gs'[|gs| - 1] == g;
  }

  /** Taking the last line off the listing takes it off the last reply. */
  lemma SplitLastLine(first: string, lines: seq<string>, init: seq<string>, last: seq<string>)
    requires lines != [] && |last| >= 1 && init + last == [first] + lines
    ensures last[|last| - 1] == lines[|lines| - 1]
    ensures init + last[..|last| - 1] == [first] + lines[..|lines| - 1]
  {
    var whole := [first] + lines;
    assert whole[|whole| - 1] == lines[|lines| - 1];
    assert whole[..|whole| - 1] == [first] + lines[..|lines| - 1];
    assert (init + last)[..|whole| - 1] == init + last[..|last| - 1];
  }

  /**
   * The rules fix the split: any grouping of the header and the lines into
   * non-empty replies that keeps the pieces in order, keeps every reply of
   * several pieces below FLUSH_AT bytes and flushes only when the next line
   * would reach FLUSH_AT is the one the loop builds.
   */
  lemma {:induction false} FlushRulesDetermineGroups(first: string, lines: seq<string>, gs: seq<seq<string>>)
    requires ObeysFlushRules(first, lines, gs)
    ensures gs == Groups(first, lines)
    decreases |lines|
  {
    if lines == [] {
      OnlyHeader(first, gs);
    } else {
      var last, init, prefix := gs[|gs| - 1], gs[..|gs| - 1], lines[..|lines| - 1];
      if |last| == 1 {
        LineStartedReply(first, lines, gs);
        assert ObeysFlushRules(first, prefix, init);
        FlushRulesDetermineGroups(first, prefix, init);
        assert init == Groups(first, prefix);
      } else {
        var gs' := init + [last[..|last| - 1]];
        LineJoinedReply(first, lines, gs);
        assert ObeysFlushRules(first, prefix, gs');
        FlushRulesDetermineGroups(first, prefix, gs');
        assert gs' == Groups(first, prefix);
      }
    }
  }

  /** With no lines the header is the only piece, sent alone. */
  lemma OnlyHeader(first: string, gs: seq<seq<string>>)
    requires ObeysFlushRules(first, [], gs)
    ensures gs == Groups(first, [])
  {
    var last, init := gs[|gs| - 1], gs[..|gs| - 1];
    assert gs == init + [last];
    FlattenSnoc(init, last);
    assert |Flatten(init)| + |last| == 1;
    assert Flatten(init) == [];
    assert Flatten(init) + last == last;
    assert [first] + [] == [first];
    assert last == [first];
    assert gs == [[first]];
  }

  /** When the last line makes a reply of its own, the rest is the grouping of the shorter listing and the loop flushed. */
  lemma LineStartedReply(first: string, lines: seq<string>, gs: seq<seq<string>>)
    requires lines != [] && ObeysFlushRules(first, lines, gs) && |gs[|gs| - 1]| == 1
    ensures |gs| >= 2 && ObeysFlushRules(first, lines[..|lines| - 1], gs[..|gs| - 1])
    ensures gs[..|gs| - 1] == Groups(first, lines[..|lines| - 1]) ==> gs == Groups(first, lines)
  {
    var last, init, line := gs[|gs| - 1], gs[..|gs| - 1], lines[|lines| - 1];
    assert gs == init + [last];
    FlattenSnoc(init, last);
    SplitLastLine(first, lines, Flatten(init), last);
    assert last[..0] == [];
    assert Flatten(init) == [first] + lines[..|lines| - 1];
    RulesOnPrefix(gs, |init|);
    assert last == [line];
    assert init[|init| - 1] == gs[|gs| - 2];
    assert ByteLen(Flatten(gs[|gs| - 2])) + ByteLen(gs[|gs| - 1][0]) >= FLUSH_AT;
  }

  /** When the last line joined a reply, taking it off leaves the grouping of the shorter listing and the loop did not flush. */
  lemma LineJoinedReply(first: string, lines: seq<string>, gs: seq<seq<string>>)
    requires lines != [] && ObeysFlushRules(first, lines, gs) && |gs[|gs| - 1]| >= 2
    ensures var last := gs[|gs| - 1];
      var gs' := gs[..|gs| - 1] + [last[..|last| - 1]];
      && ObeysFlushRules(first, lines[..|lines| - 1], gs')
      && (gs' == Groups(first, lines[..|lines| - 1]) ==> gs == Groups(first, lines))
  {
    var last, init, line := gs[|gs| - 1], gs[..|gs| - 1], lines[|lines| - 1];
    assert gs == init + [last];
    FlattenSnoc(init, last);
    SplitLastLine(first, lines, Flatten(init), last);
    var last' := last[..|last| - 1];
    var gs' := init + [last'];
    assert last == last' + [line];
    FlattenSnoc(last', line);
    ByteLenAppend(Flatten(last'), line);
    RulesOnReplaceLast(gs, last');
    FlattenSnoc(init, last');
    assert gs'[..|gs'| - 1] == init;
  }

  lemma {:induction false} FlattenRender(gs: seq<seq<string>>)
    ensures Flatten(Render(gs)) == Flatten(Flatten(gs))
    decreases |gs|
  {
    if gs != [] {
      var init := gs[..|gs| - 1];
      var g := gs[|gs| - 1];
      FlattenRender(init);
      assert gs == init + [g];
      assert Render(gs) == Render(init) + [Flatten(g)];
      FlattenSnoc(Render(init), Flatten(g));
      FlattenSnoc(init, g);
      FlattenAppend(Flatten(init), g);
    }
  }

  /** Concatenating the replies in order gives the header followed by every line. */
  lemma RepliesConcatenateToListing(first: string, lines: seq<string>)
    ensures Flatten(Replies(first, lines)) == first + Flatten(lines)
  {
    var gs := Groups(first, lines);
    calc {
      Flatten(Replies(first, lines));
      Flatten(Render(gs));
      { FlattenRender(gs); }
      Flatten(Flatten(gs));
      { GroupsPreservePieces(first, lines); }
      Flatten([first] + lines);
      { FlattenAppend([first], lines); }
      Flatten([first]) + Flatten(lines);
      { FlattenSingleton(first); }
      first + Flatten(lines);
    }
  }

  lemma FlattenSingleton<T>(s: seq<T>)
    ensures Flatten([s]) == s
  {
    assert [s][..0] == [];
  }

  lemma RenderSnoc(gs: seq<seq<string>>, g: seq<string>)
    ensures Render(gs + [g]) == Render(gs) + [Flatten(g)]
  {
    var r, expected := Render(gs + [g]), Render(gs) + [Flatten(g)];
    forall k | 0 <= k < |r|
      ensures r[k] == expected[k]
    {
    }
  }

  lemma RenderReplaceLast(gs: seq<seq<string>>, g: seq<string>)
    requires |gs| >= 1
    ensures Render(gs[..|gs| - 1] + [g]) == Render(gs)[..|gs| - 1] + [Flatten(g)]
  {
    var r, expected := Render(gs[..|gs| - 1] + [g]), Render(gs)[..|gs| - 1] + [Flatten(g)];
    forall k | 0 <= k < |r|
      ensures r[k] == expected[k]
    {
    }
  }

  lemma RenderAddLine(gs: seq<seq<string>>, line: string)
    requires NonEmptyGroups(gs)
    ensures var last := Flatten(gs[|gs| - 1]);
      Render(AddLine(gs, line)) ==
        if ByteLen(line) + ByteLen(last) >= FLUSH_AT then Render(gs) + [line]
        else Render(gs)[..|gs| - 1] + [last + line]
  {
    var last := gs[|gs| - 1];
    if ByteLen(line) + ByteLen(Flatten(last)) >= FLUSH_AT {
      RenderSnoc(gs, [line]);
      FlattenSingleton(line);
    } else {
      RenderReplaceLast(gs, last + [line]);
      FlattenSnoc(last, line);
    }
  }

  lemma SnocParts<T>(a: seq<T>, x: T, b: seq<T>)
    requires a + [x] == b
    ensures |b| >= 1 && a == b[..|b| - 1] && x == b[|b| - 1]
  {
    assert (a + [x])[..|a|] == a;
  }

  /**
   * The body of the `handleLs` loop: flush the buffer `msg` as a reply if it
   * and the line `s` together reach FLUSH_AT bytes, then append `s`.
   */
  method FlushOrAppend(ghost gs: seq<seq<string>>, replies: seq<string>, msg: string, s: string)
    returns (replies': seq<string>, msg': string)
    requires NonEmptyGroups(gs) && replies + [msg] == Render(gs)
    ensures replies' + [msg'] == Render(AddLine(gs, s))
  {
    RenderAddLine(gs, s);
    SnocParts(replies, msg, Render(gs));
    replies', msg' := replies, msg;
    if ByteLen(s) + ByteLen(msg') >= FLUSH_AT {
      replies' := replies' + [msg'];
      msg' := "";
      assert "" + s == s;
    }
    msg' := msg' + s;
  }

  /** One iteration of the `handleLs` loop: the line of `files[i]` is flushed or appended. */
  method ListStep(header: string, files: seq<FileInfo>, i: nat, replies: seq<string>, msg: string)
    returns (replies': seq<string>, msg': string)
    requires i < |files| && replies + [msg] == Render(Groups(header, Lines(files)[..i]))
    ensures replies' + [msg'] == Render(Groups(header, Lines(files)[..i + 1]))
  {
    ghost var lines := Lines(files);
    var s := EntryLine(files[i]);
    assert s == lines[i];
    GroupsSnoc(header, lines, i);
    replies', msg' := FlushOrAppend(Groups(header, lines[..i]), replies, msg, s);
  }

  /**
   * The loop of `handleLs`: starting from the header, each entry line is
   * appended to the buffer, which is sent first when the two would reach
   * FLUSH_AT bytes; the last buffer is sent at the end.
   */
  method SendListing(header: string, files: seq<FileInfo>) returns (replies: seq<string>)
    ensures replies == Replies(header, Lines(files))
  {
    ghost var lines := Lines(files);
    var msg := header;
    replies := [];
    var i := 0;
    assert lines[..0] == [];
    FlattenSingleton(msg);
    assert Render(Groups(header, [])) == [header];
    while i < |files|
      invariant 0 <= i <= |files|
      invariant replies + [msg] == Render(Groups(header, lines[..i]))
    {
      replies, msg := ListStep(header, files, i, replies, msg);
      i := i + 1;
    }
    assert lines[..|files|] == lines;
    replies := replies + [msg];
  }

  /**
   * `handleLs` in directory `wd`, given what enumerating it returned: the
   * replies it sends, and the error it hands back to the client library.
   */
  method HandleLs(wd: string, readDir: Result<seq<FileInfo>, string>)
    returns (replies: seq<string>, err: Option<string>)
    ensures readDir.Err? ==> replies == [] && err == Some(readDir.error)
    ensures readDir.Ok? ==> err == None && replies == Replies(Header(wd), Lines(readDir.value))
    ensures readDir.Ok? ==> |replies| >= 1 && Flatten(replies) == Header(wd) + Flatten(Lines(readDir.value))
  {
    if readDir.Err? {
      return [], Some(readDir.error);
    }
    replies := SendListing(Header(wd), readDir.value);
    err := None;
    RepliesConcatenateToListing(Header(wd), Lines(readDir.value));
  }
}
