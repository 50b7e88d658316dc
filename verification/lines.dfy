/** Text as newline-terminated lines: writing lines out, and splitting a text back into lines. */
module Lines {
  import opened Wrappers

  /** Lines written one after the other, each followed by a newline. */
  function JoinLines(lines: seq<string>): string {
    if lines == [] then "" else JoinLines(lines[..|lines| - 1]) + lines[|lines| - 1] + "\n"
  }

  lemma JoinLinesSnoc(lines: seq<string>, line: string)
    ensures JoinLines(lines + [line]) == JoinLines(lines) + line + "\n"
  {
    assert (lines + [line])[..|lines|] == lines;
  }

  /** The position of the first newline of a text, if it has one. */
  function FirstNewline(s: string): (r: Option<nat>)
    ensures r.Some? ==> r.value < |s| && s[r.value] == '\n'
  {
    if s == [] then None
    else if s[0] == '\n' then Some(0)
    else match FirstNewline(s[1..])
      case None => None
      case Some(k) => Some(k + 1)
  }

  /** The lines of a text, without their newlines; a last line with no newline is kept. */
  function SplitLines(s: string): seq<string>
    decreases |s|
  {
    match FirstNewline(s)
    case None => if s == [] then [] else [s]
    case Some(k) => [s[..k]] + SplitLines(s[k + 1..])
  }

  /** A newline with no newline before it is the first newline. */
  lemma {:induction false} FirstNewlineAt(s: string, k: nat)
    requires k < |s| && s[k] == '\n'
    requires forall j :: 0 <= j < k ==> s[j] != '\n'
    ensures FirstNewline(s) == Some(k)
  {
    if k > 0 {
      FirstNewlineAt(s[1..], k - 1);
    }
  }

  lemma SplitFirstLine(line: string, rest: string)
    requires '\n' !in line
    ensures SplitLines(line + "\n" + rest) == [line] + SplitLines(rest)
  {
    var s := line + "\n" + rest;
    var k := |line|;
    forall j | 0 <= j < k ensures s[j] != '\n' {
      assert s[j] == line[j];
    }
    FirstNewlineAt(s, k);
    assert s[..k] == line && s[k + 1..] == rest;
  }

  /** Splitting undoes joining, for lines without newlines. */
  lemma {:induction false} SplitJoinLines(lines: seq<string>, rest: string)
    requires forall l :: l in lines ==> '\n' !in l
    ensures SplitLines(JoinLines(lines) + rest) == lines + SplitLines(rest)
  {
    if lines == [] {
      assert JoinLines(lines) + rest == rest;
    } else {
      var init, last := lines[..|lines| - 1], lines[|lines| - 1];
      assert forall l :: l in init ==> l in lines;
      SplitJoinLines(init, last + "\n" + rest);
      SplitJoinStep(init, last, rest);
      assert init + [last] == lines;
    }
  }

  /** One more line: the induction step of `SplitJoinLines`. */
  lemma SplitJoinStep(init: seq<string>, last: string, rest: string)
    requires '\n' !in last
    requires SplitLines(JoinLines(init) + (last + "\n" + rest)) == init + SplitLines(last + "\n" + rest)
    ensures SplitLines(JoinLines(init + [last]) + rest) == (init + [last]) + SplitLines(rest)
  {
    var tail := last + "\n" + rest;
    assert JoinLines(init + [last]) + rest == JoinLines(init) + tail by {
      JoinLinesSnoc(init, last);
      Regroup(JoinLines(init), last, "\n", rest);
    }
    SplitFirstLine(last, rest);
    Regroup(init, [last], SplitLines(rest), []);
  }

  lemma Regroup<T>(a: seq<T>, b: seq<T>, c: seq<T>, d: seq<T>)
    ensures a + b + c + d == a + (b + c + d)
  {
  }
}
