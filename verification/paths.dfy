/**
 * The part of Rust's `std::path` that the build script relies on: the final
 * component of a path, its stem and its extension, and the conversion of a
 * platform string into UTF-8 text.
 */
module Paths {
  import opened Wrappers

  /**
   * One unit of a platform string: a character, or a byte that is not part
   * of valid UTF-8. Platform strings are taken as already decoded: every
   * valid UTF-8 run appears as `Text` units. The type does not enforce this.
   */
  datatype OsUnit = Text(c: char) | Raw(b: bv8)

  type OsStr = seq<OsUnit>

  /**
   * A path, seen through its final component as `Path::file_name` gives it
   * (None for a root, an empty path, or a path that ends in `..`).
   */
  datatype Path = Path(fileName: Option<OsStr>)

  const Dot: OsUnit := Text('.')

  /** The platform string holding exactly the characters of `s`. */
  function FromStr(s: string): (o: OsStr)
    ensures |o| == |s|
    ensures forall i :: 0 <= i < |s| ==> o[i] == Text(s[i])
  {
    if s == [] then [] else [Text(s[0])] + FromStr(s[1..])
  }

  predicate IsText(o: OsStr) {
    forall i :: 0 <= i < |o| ==> o[i].Text?
  }

  function Chars(o: OsStr): (s: string)
    requires IsText(o)
    ensures |s| == |o|
    ensures forall i :: 0 <= i < |o| ==> o[i] == Text(s[i])
  {
    if o == [] then [] else [o[0].c] + Chars(o[1..])
  }

  /** `OsString::into_string`: the text, or the original string back when it is not valid UTF-8. */
  function IntoString(o: OsStr): (r: Result<string, OsStr>)
    ensures r.Ok? <==> IsText(o)
    ensures r.Ok? ==> FromStr(r.value) == o
    ensures r.Err? ==> r.error == o
  {
    if IsText(o) then Ok(Chars(o)) else Err(o)
  }

  lemma TextRoundTrip(s: string)
    ensures IntoString(FromStr(s)) == Ok(s)
  {
    var o := FromStr(s);
    assert IsText(o);
    assert Chars(o) == s;
  }

  /** Index of the last `.` of a platform string, if it has one. */
  function LastDot(o: OsStr): (r: Option<nat>)
    ensures r.Some? ==> r.value < |o| && o[r.value] == Dot
    ensures r.Some? ==> forall j :: r.value < j < |o| ==> o[j] != Dot
    ensures r.None? ==> forall j :: 0 <= j < |o| ==> o[j] != Dot
  {
    if o == [] then None
    else if o[|o| - 1] == Dot then Some(|o| - 1)
    else LastDot(o[..|o| - 1])
  }

  /**
   * `rsplit_file_at_dot`: a file name cut at its last dot into the parts
   * before and after it. The name `..` and a name whose only dot leads it
   * are not cut.
   */
  function SplitAtDot(file: OsStr): (Option<OsStr>, Option<OsStr>)
  {
    if file == FromStr("..") then (Some(file), None)
    else match LastDot(file)
      case None => (None, Some(file))
      case Some(k) => if k == 0 then (Some(file), None) else (Some(file[..k]), Some(file[k + 1..]))
  }

  /** `Path::file_stem`: the part before the last dot, or the whole name when it is not cut. */
  function FileStem(p: Path): (r: Option<OsStr>)
    ensures r.Some? <==> p.fileName.Some?
  {
    match p.fileName
    case None => None
    case Some(f) =>
      var (before, after) := SplitAtDot(f);
      if before.Some? then before else after
  }

  /** `Path::extension`: the part after the last dot, present only when the name is cut. */
  function Extension(p: Path): Option<OsStr>
  {
    match p.fileName
    case None => None
    case Some(f) =>
      var (before, after) := SplitAtDot(f);
      if before.Some? then after else None
  }

  /**
   * Stem and extension rejoin to the file name: with an extension the name is
   * a non-empty stem, a dot and a dot-free extension; without one the stem is
   * the whole name.
   */
  lemma StemExtensionRejoin(p: Path)
    requires p.fileName.Some?
    ensures FileStem(p).Some?
    ensures Extension(p).Some? ==>
      p.fileName.value == FileStem(p).value + [Dot] + Extension(p).value &&
      FileStem(p).value != [] && Dot !in Extension(p).value
    ensures Extension(p).None? ==> FileStem(p).value == p.fileName.value
  {
    var f := p.fileName.value;
    if f != FromStr("..") && LastDot(f).Some? && LastDot(f).value != 0 {
      var k := LastDot(f).value;
      assert f == f[..k] + [Dot] + f[k + 1..];
      var ext := f[k + 1..];
      forall j | 0 <= j < |ext| ensures ext[j] != Dot {
        assert ext[j] == f[k + 1 + j];
      }
    }
  }

  /** A dot with no dot after it is the last dot. */
  lemma LastDotAt(o: OsStr, k: nat)
    requires k < |o| && o[k] == Dot
    requires forall j :: k < j < |o| ==> o[j] != Dot
    ensures LastDot(o) == Some(k)
  {
    if k < |o| - 1 {
      LastDotAt(o[..|o| - 1], k);
    }
  }

  /**
   * Conversely, a non-empty stem, a dot and a dot-free extension split back
   * into that stem and that extension (unless the whole name is `..`).
   */
  lemma SplitOfJoined(stem: OsStr, ext: OsStr)
    requires stem != [] && Dot !in ext
    requires !(stem == [Dot] && ext == [])
    ensures var p := Path(Some(stem + [Dot] + ext));
      FileStem(p) == Some(stem) && Extension(p) == Some(ext)
  {
    var f := stem + [Dot] + ext;
    assert f[|stem|] == Dot;
    forall j | |stem| < j < |f| ensures f[j] != Dot {
      assert f[j] == ext[j - |stem| - 1];
    }
    LastDotAt(f, |stem|);
    assert f != FromStr("..") by {
      if |f| == 2 {
        assert ext == [] && |stem| == 1;
        assert f[0] == stem[0] != Dot;
      }
    }
    assert f[..|stem|] == stem && f[|stem| + 1..] == ext;
  }
}
