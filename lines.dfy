/** Line splitting as Python's `str.splitlines` does it, restricted to the
    line feed '\n' as the only line boundary. */
module Lines {

  /** Index of the first '\n' in `s`, or `|s|` when there is none. */
  function NewlineIndex(s: string): (k: nat)
    ensures k <= |s|
    ensures k < |s| ==> s[k] == '\n'
    ensures forall j :: 0 <= j < k ==> s[j] != '\n'
  {
    if s == [] || s[0] == '\n' then 0 else 1 + NewlineIndex(s[1..])
  }

  /** `s.splitlines()`: the lines of `s` without their terminators; a final
      '\n' does not start another (empty) line, and "" has no lines. */
  function SplitLines(s: string): (r: seq<string>)
    ensures s == [] <==> r == []
    ensures forall k :: 0 <= k < |r| ==> '\n' !in r[k]
    decreases |s|
  {
    if s == [] then []
    else
      var k := NewlineIndex(s);
      if k == |s| then [s] else [s[..k]] + SplitLines(s[k + 1..])
  }

  /** Every line followed by a '\n'. */
  function JoinLines(lines: seq<string>): string
  {
    if lines == [] then [] else lines[0] + "\n" + JoinLines(lines[1..])
  }

  lemma NewlineAfter(a: string, b: string)
    requires '\n' !in a
    ensures NewlineIndex(a + "\n" + b) == |a|
  {
    var s := a + "\n" + b;
    assert s[|a|] == '\n';
    assert forall j :: 0 <= j < |a| ==> s[j] == a[j];
  }

  /** Splitting undoes joining, for lines that hold no line feed. */
  lemma {:induction false} SplitJoin(lines: seq<string>)
    requires forall k :: 0 <= k < |lines| ==> '\n' !in lines[k]
    ensures SplitLines(JoinLines(lines)) == lines
  {
    if lines != [] {
      var rest := JoinLines(lines[1..]);
      var s := lines[0] + "\n" + rest;
      NewlineAfter(lines[0], rest);
      assert s[..|lines[0]|] == lines[0];
      assert s[|lines[0]| + 1..] == rest;
      SplitJoin(lines[1..]);
    }
  }

  /** Joining undoes splitting, up to the terminator of the last line. */
  lemma {:induction false} JoinSplit(s: string)
    ensures JoinLines(SplitLines(s)) == if s == [] || s[|s| - 1] == '\n' then s else s + "\n"
    decreases |s|
  {
    if s != [] {
      var k := NewlineIndex(s);
      if k == |s| {
        JoinCons(s, []);
        assert s[|s| - 1] != '\n';
      } else {
        var t := s[k + 1..];
        assert SplitLines(s) == [s[..k]] + SplitLines(t);
        JoinSplit(t);
        JoinCons(s[..k], SplitLines(t));
        SplitAround(s, k);
        if t != [] && t[|t| - 1] != '\n' {
          assert s[..k] + "\n" + (t + "\n") == s[..k] + "\n" + t + "\n";
        }
      }
    }
  }

  // Proof hints for `JoinSplit`: one step of joining, and a text cut at a
  // line feed.

  lemma JoinCons(line: string, lines: seq<string>)
    ensures JoinLines([line] + lines) == line + "\n" + JoinLines(lines)
  {
    assert ([line] + lines)[1..] == lines;
  }

  /** `s` cut at the line feed at index `k`. */
  lemma SplitAround(s: string, k: nat)
    requires k < |s| && s[k] == '\n'
    ensures s == s[..k] + "\n" + s[k + 1..]
    ensures k + 1 == |s| ==> s[|s| - 1] == '\n'
    ensures k + 1 < |s| ==> s[|s| - 1] == s[k + 1..][|s| - k - 2]
  {
  }
}
