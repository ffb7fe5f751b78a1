/** Text as the fiducial readers and the file-list helpers see it: a file is
    cut into lines at `'\n'`, a line into fields at a separator character.
    Both cuts are exact: joining the pieces back gives the original text. */
module Text {

  /** One line of a file: its characters without the newline, and whether a
      newline ended it (only the last line of a file can lack one). */
  datatype Line = Line(text: string, terminated: bool)

  /** The first position of `c` in `s`. */
  function IndexOf(s: string, c: char): (k: nat)
    requires c in s
    ensures k < |s| && s[k] == c && c !in s[..k]
  {
    if s[0] == c then 0
    else
      var k := 1 + IndexOf(s[1..], c);
      assert s[..k] == [s[0]] + s[1..][..k - 1];
      k
  }

  /** Puts a file back together from its lines. */
  function JoinLines(ls: seq<Line>): string
  {
    if ls == [] then ""
    else ls[0].text + (if ls[0].terminated then "\n" else "") + JoinLines(ls[1..])
  }

  /** Cuts a file into lines, as `std::getline` and Python's `readlines` do:
      every `'\n'` ends a line, and trailing text without one is a last,
      unterminated line.  An empty file has no lines. */
  function SplitLines(s: string): (ls: seq<Line>)
    ensures JoinLines(ls) == s
    ensures forall j | 0 <= j < |ls| :: '\n' !in ls[j].text
    ensures forall j | 0 <= j < |ls| - 1 :: ls[j].terminated
    ensures s == [] <==> ls == []
    ensures |ls| > 0 ==> (ls[|ls| - 1].terminated <==> s[|s| - 1] == '\n')
    decreases |s|
  {
    if s == [] then []
    else if '\n' in s then
      var k := IndexOf(s, '\n');
      var rest := SplitLines(s[k + 1..]);
      ConsLine(s, k, rest);
      [Line(s[..k], true)] + rest
    else [Line(s, false)]
  }

  /** A line ended by the first newline, in front of the lines of the text
      after it, gives the lines of the whole text. */
  lemma ConsLine(s: string, k: nat, rest: seq<Line>)
    requires k < |s| && s[k] == '\n' && '\n' !in s[..k]
    requires JoinLines(rest) == s[k + 1..]
    requires forall j | 0 <= j < |rest| :: '\n' !in rest[j].text
    requires forall j | 0 <= j < |rest| - 1 :: rest[j].terminated
    requires s[k + 1..] == [] <==> rest == []
    requires |rest| > 0 ==> (rest[|rest| - 1].terminated <==> s[|s| - 1] == '\n')
    ensures var ls := [Line(s[..k], true)] + rest;
      && JoinLines(ls) == s
      && (forall j | 0 <= j < |ls| :: '\n' !in ls[j].text)
      && (forall j | 0 <= j < |ls| - 1 :: ls[j].terminated)
      && (ls[|ls| - 1].terminated <==> s[|s| - 1] == '\n')
  {
    var ls := [Line(s[..k], true)] + rest;
    assert ls[1..] == rest;
    assert s == s[..k] + "\n" + s[k + 1..];
    assert forall j | 1 <= j < |ls| :: ls[j] == rest[j - 1];
    if rest != [] {
      assert s[|s| - 1] == s[k + 1..][|s[k + 1..]| - 1];
    }
  }

  /** Cutting the text of lines that carry no newline gives those lines
      back: `SplitLines` is the inverse of `JoinLines` on well-formed line
      lists. */
  lemma {:induction false} SplitJoin(ls: seq<Line>)
    requires forall j | 0 <= j < |ls| :: '\n' !in ls[j].text
    requires forall j | 0 <= j < |ls| - 1 :: ls[j].terminated
    requires |ls| > 0 ==> ls[|ls| - 1].terminated || ls[|ls| - 1].text != []
    ensures SplitLines(JoinLines(ls)) == ls
  {
    if ls != [] {
      var t := ls[0].text;
      if |ls| == 1 && !ls[0].terminated {
        SplitJoinLast(t);
        assert ls == [Line(t, false)];
      } else {
        assert ls[0].terminated;
        var rest := ls[1..];
        assert forall j | 0 <= j < |rest| :: rest[j] == ls[j + 1];
        SplitJoin(rest);
        assert JoinLines(ls) == t + "\n" + JoinLines(rest);
        SplitAfterFirstLine(t, JoinLines(rest));
        assert ls == [Line(t, true)] + rest;
      }
    }
  }

  /** A last line without a newline is cut back out whole. */
  lemma SplitJoinLast(t: string)
    requires '\n' !in t && t != []
    ensures SplitLines(JoinLines([Line(t, false)])) == [Line(t, false)]
  {
    var ls := [Line(t, false)];
    assert ls[1..] == [];
    assert JoinLines(ls) == t + "" + JoinLines(ls[1..]);
    assert JoinLines(ls) == t;
    assert SplitLines(t) == ls;
  }

  /** A first line free of newlines, once terminated, is cut off whole. */
  lemma SplitAfterFirstLine(t: string, r: string)
    requires '\n' !in t
    ensures SplitLines(t + "\n" + r) == [Line(t, true)] + SplitLines(r)
  {
    var s := t + "\n" + r;
    assert s[..|t|] == t;
    assert s[|t|] == '\n';
    IndexOfFirst(s, t, '\n');
    assert s[|t| + 1..] == r;
  }

  /** The first `c` in `s` comes right after a prefix `t` free of `c`. */
  lemma IndexOfFirst(s: string, t: string, c: char)
    requires |t| < |s| && s[..|t|] == t && s[|t|] == c && c !in t
    ensures c in s && IndexOf(s, c) == |t|
  {
    assert s[|t|] in s;
    var k := IndexOf(s, c);
    forall j | 0 <= j < k
      ensures s[j] != c
    {
      assert s[..k][j] == s[j];
    }
    forall j | 0 <= j < |t|
      ensures s[j] != c
    {
      assert s[..|t|][j] == t[j];
    }
  }

  /** Puts fields back together with `d` between them. */
  function JoinWith(fs: seq<string>, d: char): string
  {
    if fs == [] then ""
    else if |fs| == 1 then fs[0]
    else fs[0] + [d] + JoinWith(fs[1..], d)
  }

  /** The number of occurrences of `c` in `s`. */
  function Count(s: string, c: char): nat
  {
    if s == [] then 0 else (if s[0] == c then 1 else 0) + Count(s[1..], c)
  }

  lemma {:induction false} CountAppend(a: string, b: string, c: char)
    ensures Count(a + b, c) == Count(a, c) + Count(b, c)
  {
    if a != [] {
      assert (a + b)[0] == a[0] && (a + b)[1..] == a[1..] + b;
      CountAppend(a[1..], b, c);
    } else {
      assert a + b == b;
    }
  }

  lemma {:induction false} CountAbsent(s: string, c: char)
    requires c !in s
    ensures Count(s, c) == 0
  {
    if s != [] {
      assert c !in s[1..] by {
        forall k | 0 <= k < |s| - 1
          ensures s[1..][k] != c
        {
          assert s[1..][k] == s[k + 1];
        }
      }
      CountAbsent(s[1..], c);
    }
  }

  /** Python's `s.split(d)` and repeated `std::getline(iss, val, d)`: the
      fields between separators. */
  function Split(s: string, d: char): (fs: seq<string>)
    ensures |fs| >= 1
    decreases |s|
  {
    if d in s then
      var k := IndexOf(s, d);
      [s[..k]] + Split(s[k + 1..], d)
    else [s]
  }

  /** The fields hold no separator, there is one more field than there are
      separators, and joining them back with `d` gives the text. */
  lemma {:induction false} SplitJoinWith(s: string, d: char)
    ensures JoinWith(Split(s, d), d) == s
    ensures forall j | 0 <= j < |Split(s, d)| :: d !in Split(s, d)[j]
    ensures |Split(s, d)| == Count(s, d) + 1
    decreases |s|
  {
    var fs := Split(s, d);
    if d in s {
      var k := IndexOf(s, d);
      var rest := Split(s[k + 1..], d);
      SplitJoinWith(s[k + 1..], d);
      assert fs == [s[..k]] + rest;
      assert fs[1..] == rest;
      assert s == s[..k] + ([d] + s[k + 1..]);
      assert Count([d], d) == 1;
      CountAbsent(s[..k], d);
      CountAppend(s[..k], [d] + s[k + 1..], d);
      CountAppend([d], s[k + 1..], d);
    } else {
      CountAbsent(s, d);
    }
  }
}
