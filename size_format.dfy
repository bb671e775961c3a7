/**
 * `humanReadableSize`: a byte count rendered with the largest of the units
 * B, KB, MB, GB (powers of 1024) that keeps the number at least 1, the
 * number truncated towards zero by integer division.
 */
module SizeFormat {
  import opened Wrappers
  import opened Decimal

  const KIB: int := 1024

  datatype Unit = B | KB | MB | GB {

    /** The number of bytes one of this unit stands for. */
    function Scale(): (k: int)
      ensures k >= 1
    {
      match this
      case B => 1
      case KB => KIB
      case MB => KIB * KIB
      case GB => KIB * KIB * KIB
    }

    function Name(): string {
      match this
      case B => "B"
      case KB => "KB"
      case MB => "MB"
      case GB => "GB"
    }
  }

  /**
   * The number and unit `humanReadableSize` prints for `size`. Sizes below
   * 1024 (negative ones included) are printed as they are; any other size is
   * divided down by the unit's scale, rounding towards zero, and the unit is
   * the largest that does not exceed `size`.
   */
  function SizeParts(size: int): (r: (int, Unit))
    ensures size < KIB ==> r == (size, B)
    ensures size >= KIB ==> r.1 != B && r.1.Scale() <= size
    ensures size >= KIB ==> r.1.Scale() * r.0 <= size < r.1.Scale() * (r.0 + 1)
    ensures r.1 != GB ==> size < KIB * r.1.Scale()
  {
    if size < KIB then (size, B)
    else if size < KIB * KIB then (size / KIB, KB)
    else if size < KIB * KIB * KIB then (size / KIB / KIB, MB)
    else (size / KIB / KIB / KIB, GB)
  }

  /**
   * `humanReadableSize(size)`: the number, one blank and the unit name, the
   * number being the `%d` text of an integer that reads back as the one
   * `SizeParts` chose.
   */
  function HumanReadableSize(size: int): (s: string)
    ensures var (n, u) := SizeParts(size);
      var k := |s| - |u.Name()| - 1;
      && 1 <= k < |s|
      && s[k] == ' ' && s[k + 1..] == u.Name()
      && s[..k] == IntToString(n)
  {
    var (n, u) := SizeParts(size);
    var digits := IntToString(n);
    IntToStringRoundTrip(n);
    var s := digits + " " + u.Name();
    assert s[..|digits|] == digits && s[|digits| + 1..] == u.Name();
    s
  }

  function UnitFromName(s: string): (u: Option<Unit>)
    ensures u.Some? ==> u.value.Name() == s
  {
    if s == "B" then Some(B)
    else if s == "KB" then Some(KB)
    else if s == "MB" then Some(MB)
    else if s == "GB" then Some(GB)
    else None
  }

  /** The position of the first blank in `s`. */
  function IndexOfBlank(s: string): (r: Option<nat>)
    ensures r.None? ==> ' ' !in s
    ensures r.Some? ==> r.value < |s| && s[r.value] == ' ' && ' ' !in s[..r.value]
  {
    if s == [] then None
    else if s[0] == ' ' then Some(0)
    else match IndexOfBlank(s[1..])
      case None => None
      case Some(i) => assert s[1..][..i] == s[1..i + 1]; Some(i + 1)
  }

  /** Reads a rendered size back into its number and unit. */
  function ParseSize(s: string): Option<(int, Unit)> {
    match IndexOfBlank(s)
    case None => None
    case Some(i) =>
      match (ParseInt(s[..i]), UnitFromName(s[i + 1..]))
      case (Some(n), Some(u)) => Some((n, u))
      case _ => None
  }

  lemma IndexOfBlankAfter(a: string, b: string)
    requires ' ' !in a
    ensures IndexOfBlank(a + " " + b) == Some(|a|)
  {
    var s := a + " " + b;
    assert s[|a|] == ' ';
    assert s[..|a|] == a;
  }

  /** The rendering is unambiguous: it can be read back into exactly the number and unit chosen. */
  lemma HumanReadableSizeRoundTrip(size: int)
    ensures ParseSize(HumanReadableSize(size)) == Some(SizeParts(size))
  {
    var (n, u) := SizeParts(size);
    var digits := IntToString(n);
    var s := digits + " " + u.Name();
    IndexOfBlankAfter(digits, u.Name());
    assert s[..|digits|] == digits;
    assert s[|digits| + 1..] == u.Name();
    IntToStringRoundTrip(n);
  }

  /** The worked values below one KB: printed as they are, negative sizes included. */
  lemma HumanReadableSizeExamplesInBytes()
    ensures HumanReadableSize(0) == "0 B"
    ensures HumanReadableSize(1023) == "1023 B"
    ensures HumanReadableSize(-5) == "-5 B"
  {
    assert NatToString(0) == "0" && NatToString(5) == "5";
    assert NatToString(10) == "10";
    assert NatToString(102) == NatToString(10) + "2" == "102";
    assert NatToString(1023) == NatToString(102) + "3" == "1023";
    assert SizeParts(0) == (0, B) && SizeParts(1023) == (1023, B) && SizeParts(-5) == (-5, B);
  }

  /** The worked values from one KB up: no rounding up, exact powers of 1024 move to the next unit. */
  lemma HumanReadableSizeExamplesInUnits()
    ensures HumanReadableSize(1024) == "1 KB"
    ensures HumanReadableSize(1536) == "1 KB"
    ensures HumanReadableSize(1048576) == "1 MB"
    ensures HumanReadableSize(1073741824) == "1 GB"
  {
    assert NatToString(1) == "1";
    assert SizeParts(1024) == (1, KB) && SizeParts(1536) == (1, KB);
    assert SizeParts(1048576) == (1, MB) && SizeParts(1073741824) == (1, GB);
  }
}
