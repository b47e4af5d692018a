/** Lines of a text file as Python's file iteration yields them, and the
    bounded tail of them that the snapshot keeps. */
module Lines {

  /** `NUM_LINES`: how many lines the snapshot keeps. */
  const NUM_LINES: nat := 1000

  /** Length of the first line of `s`, its '\n' included. */
  function LineLength(s: string): (n: nat)
    ensures n <= |s|
    ensures s != [] ==> n > 0
    ensures forall i :: 0 <= i < n - 1 ==> s[i] != '\n'
    ensures 0 < n < |s| ==> s[n - 1] == '\n'
  {
    if s == [] then 0
    else if s[0] == '\n' then 1
    else 1 + LineLength(s[1..])
  }

  /** The lines of `s`: each keeps its '\n'; only the last may lack one. */
  function SplitLines(s: string): (lines: seq<string>)
    ensures lines == [] <==> s == []
    decreases |s|
  {
    if s == [] then []
    else
      var n := LineLength(s);
      [s[..n]] + SplitLines(s[n..])
  }

  /** A line is never empty, holds no '\n' but its last letter, and every
      line but the last ends with '\n'. */
  predicate IsLine(line: string, last: bool) {
    line != [] &&
    (forall j :: 0 <= j < |line| - 1 ==> line[j] != '\n') &&
    (!last ==> line[|line| - 1] == '\n')
  }

  lemma {:induction false} SplitLinesShape(s: string)
    ensures var lines := SplitLines(s);
      forall i :: 0 <= i < |lines| ==> IsLine(lines[i], i == |lines| - 1)
    decreases |s|
  {
    if s != [] {
      var n := LineLength(s);
      SplitLinesShape(s[n..]);
      var lines := SplitLines(s);
      assert lines[1..] == SplitLines(s[n..]);
      if n == |s| {
        assert s[n..] == [];
      }
    }
  }

  /** Bookkeeping of a line-by-line read: the lines read so far and the
      lines of what is left make up the same `total`. */
  lemma ConsumeLine(consumed: seq<string>, line: string, before: string, after: string, total: seq<string>)
    requires consumed + SplitLines(before) == total
    requires line == [] ==> before == [] && after == []
    requires line != [] ==> SplitLines(before) == [line] + SplitLines(after)
    ensures line != [] ==> (consumed + [line]) + SplitLines(after) == total
    ensures line == [] ==> consumed == total
  {
    if line != [] {
      assert (consumed + [line]) + SplitLines(after) == consumed + ([line] + SplitLines(after));
    } else {
      assert consumed + [] == consumed;
    }
  }

  function Concat(lines: seq<string>): string {
    if lines == [] then "" else lines[0] + Concat(lines[1..])
  }

  lemma {:induction false} ConcatAppend(a: seq<string>, b: seq<string>)
    ensures Concat(a + b) == Concat(a) + Concat(b)
  {
    if a != [] {
      assert (a + b)[1..] == a[1..] + b;
      ConcatAppend(a[1..], b);
    } else {
      assert a + b == b;
    }
  }

  /** Splitting into lines loses and adds nothing: the lines concatenate to the text. */
  lemma {:induction false} SplitLinesConcat(s: string)
    ensures Concat(SplitLines(s)) == s
    decreases |s|
  {
    if s != [] {
      var n := LineLength(s);
      SplitLinesConcat(s[n..]);
      assert ([s[..n]] + SplitLines(s[n..]))[1..] == SplitLines(s[n..]);
      assert s[..n] + s[n..] == s;
    }
  }

  function Min(a: nat, b: nat): nat {
    if a <= b then a else b
  }

  /** The last `n` items of `s`, or all of them when there are fewer. */
  function LastN<T>(s: seq<T>, n: nat): seq<T> {
    s[|s| - Min(|s|, n)..]
  }

  /** One more item: the window slides by one once it is full. */
  lemma LastNSnoc<T>(s: seq<T>, x: T, n: nat)
    ensures LastN(s + [x], n) ==
      if n == 0 then []
      else if |LastN(s, n)| == n then LastN(s, n)[1..] + [x]
      else LastN(s, n) + [x]
  {
    var t := s + [x];
    if n > 0 && |s| >= n {
      assert t[|t| - n..] == s[|s| - n..][1..] + [x];
    } else if n > 0 {
      assert t[|t| - Min(|t|, n)..] == t;
    }
  }

  /** The lines the snapshot keeps: the last `NUM_LINES` lines of the text. */
  function LastLines(text: string): seq<string> {
    LastN(SplitLines(text), NUM_LINES)
  }

  /** The snapshot keeps the last min(n, 1000) lines, in order, and they are
      exactly the end of the text; with at most 1000 lines, the whole text. */
  lemma SnapshotIsTextTail(text: string)
    ensures |LastLines(text)| == Min(|SplitLines(text)|, NUM_LINES)
    ensures var kept := Concat(LastLines(text)); |kept| <= |text| && kept == text[|text| - |kept|..]
    ensures |SplitLines(text)| <= NUM_LINES ==> Concat(LastLines(text)) == text
  {
    var lines := SplitLines(text);
    var k := |lines| - Min(|lines|, NUM_LINES);
    assert lines == lines[..k] + lines[k..];
    ConcatAppend(lines[..k], lines[k..]);
    SplitLinesConcat(text);
  }

  /** `' '.join(lines)`. */
  function JoinWithSpace(lines: seq<string>): (r: string)
    ensures lines != [] ==> lines[0] <= r
    ensures lines != [] ==> var last := lines[|lines| - 1]; |last| <= |r| && r[|r| - |last|..] == last
    ensures |lines| > 1 ==> |lines[0]| < |r| && r[|lines[0]|] == ' '
  {
    if |lines| == 0 then ""
    else if |lines| == 1 then lines[0]
    else
      var rest := JoinWithSpace(lines[1..]);
      assert lines[1..][|lines| - 2] == lines[|lines| - 1];
      var r := lines[0] + " " + rest;
      assert r[|r| - |rest|..] == rest;
      r
  }

  /** Joining puts one space between neighbours: k lines gain k - 1 letters. */
  lemma {:induction false} JoinWithSpaceLength(lines: seq<string>)
    requires lines != []
    ensures |JoinWithSpace(lines)| == |Concat(lines)| + |lines| - 1
  {
    if |lines| > 1 {
      JoinWithSpaceLength(lines[1..]);
    }
  }

  /** Joining two non-empty runs of lines puts exactly one space between
      them, so every neighbouring pair is separated by one space. */
  lemma {:induction false} JoinWithSpaceAppend(a: seq<string>, b: seq<string>)
    requires a != [] && b != []
    ensures JoinWithSpace(a + b) == JoinWithSpace(a) + " " + JoinWithSpace(b)
    decreases |a|
  {
    if |a| == 1 {
      assert a + b == [a[0]] + b;
      JoinWithSpaceCons(a[0], b);
    } else {
      assert a + b == [a[0]] + (a[1..] + b);
      assert a == [a[0]] + a[1..];
      JoinWithSpaceAppend(a[1..], b);
      JoinWithSpaceCons(a[0], a[1..] + b);
      JoinWithSpaceCons(a[0], a[1..]);
      SpacedAssoc(a[0], JoinWithSpace(a[1..]), JoinWithSpace(b));
    }
  }

  lemma SpacedAssoc(x: string, y: string, z: string)
    ensures x + " " + (y + " " + z) == (x + " " + y) + " " + z
  {
  }

  /** A line before a non-empty run is followed by one space. */
  lemma JoinWithSpaceCons(x: string, rest: seq<string>)
    requires rest != []
    ensures JoinWithSpace([x] + rest) == x + " " + JoinWithSpace(rest)
  {
    assert ([x] + rest)[1..] == rest;
  }

  /** The terminators stay inside the joined text: two lines `a\n` and `b\n`
      give `a\n b\n`. */
  lemma JoinKeepsTerminators()
    ensures JoinWithSpace(["a\n", "b\n"]) == "a\n b\n"
  {
    assert ["a\n", "b\n"][1..] == ["b\n"];
  }
}
