/** The three functions of Go's `strings` package that the handlers use on
    request paths and decoded fields: TrimSpace, TrimPrefix and Split (with a
    one-character separator, the only kind the handlers pass). Strings are
    sequences of Unicode code points. */
module Strings {

  /** Go's unicode.IsSpace: the Latin-1 spaces and the White_Space code points above them. */
  predicate IsSpace(c: char) {
    var n := c as int;
    (0x09 <= n <= 0x0D) || n == 0x20 || n == 0x85 || n == 0xA0 ||
    n == 0x1680 || (0x2000 <= n <= 0x200A) || n == 0x2028 || n == 0x2029 ||
    n == 0x202F || n == 0x205F || n == 0x3000
  }

  /** Every character of s is white space (the empty string included). */
  predicate IsBlank(s: string) {
    forall i :: 0 <= i < |s| ==> IsSpace(s[i])
  }

  /** Drops the leading white space: the result is a suffix of s, what is
      dropped is white space, what is left is empty or starts with a
      non-space. */
  function TrimLeftSpace(s: string): (r: string)
    ensures |r| <= |s| && r == s[|s| - |r|..]
    ensures forall k :: 0 <= k < |s| - |r| ==> IsSpace(s[k])
    ensures r == [] || !IsSpace(r[0])
  {
    if |s| > 0 && IsSpace(s[0]) then
      var r := TrimLeftSpace(s[1..]);
      assert forall k :: 1 <= k < |s| - |r| ==> s[k] == s[1..][k - 1];
      r
    else
      s
  }

  /** Drops the trailing white space: the result is a prefix of s, what is
      dropped is white space, what is left is empty or ends with a
      non-space. */
  function TrimRightSpace(s: string): (r: string)
    ensures |r| <= |s| && r == s[..|r|]
    ensures forall k :: |r| <= k < |s| ==> IsSpace(s[k])
    ensures r == [] || !IsSpace(r[|r| - 1])
  {
    if |s| > 0 && IsSpace(s[|s| - 1]) then
      var r := TrimRightSpace(s[..|s| - 1]);
      assert forall k :: |r| <= k < |s| - 1 ==> s[k] == s[..|s| - 1][k];
      r
    else
      s
  }

  /** r is s[i..j] and everything of s outside that window is white space. */
  predicate BlankAround(s: string, i: int, j: int, r: string) {
    && 0 <= i <= j <= |s| && r == s[i..j]
    && (forall k :: 0 <= k < i ==> IsSpace(s[k]))
    && (forall k :: j <= k < |s| ==> IsSpace(s[k]))
  }

  /** strings.TrimSpace: s is the result with white space around it, and the
      result neither starts nor ends with white space. */
  function TrimSpace(s: string): (r: string)
    ensures exists i, j :: BlankAround(s, i, j, r)
    ensures r == [] || (!IsSpace(r[0]) && !IsSpace(r[|r| - 1]))
  {
    var left := TrimLeftSpace(s);
    var r := TrimRightSpace(left);
    var i := |s| - |left|;
    assert r == s[i..i + |r|];
    forall k | i + |r| <= k < |s|
      ensures IsSpace(s[k])
    {
      assert s[k] == left[k - i];
    }
    assert BlankAround(s, i, i + |r|, r);
    r
  }

  /** What the handlers test with `strings.TrimSpace(x) == ""`: the trimmed
      string is empty exactly when every character is white space. */
  lemma TrimSpaceEmptyIffBlank(s: string)
    ensures TrimSpace(s) == [] <==> IsBlank(s)
  {
    if TrimSpace(s) == [] {
      var i, j :| BlankAround(s, i, j, TrimSpace(s));
      assert i == j;
    }
  }

  /** The handlers' blank-field test, `strings.TrimSpace(s) == ""`. */
  function TrimsToEmpty(s: string): (b: bool)
    ensures b <==> IsBlank(s)
  {
    TrimSpaceEmptyIffBlank(s);
    TrimSpace(s) == ""
  }

  /** strings.TrimPrefix: the prefix is removed when s starts with it, otherwise
      s is returned as it is. */
  function TrimPrefix(s: string, prefix: string): (r: string)
    ensures prefix <= s ==> prefix + r == s
    ensures !(prefix <= s) ==> r == s
  {
    if prefix <= s then s[|prefix|..] else s
  }

  /** The segments glued back together with the separator between them. */
  function Join(parts: seq<string>, sep: char): string
    requires |parts| >= 1
  {
    if |parts| == 1 then parts[0] else parts[0] + [sep] + Join(parts[1..], sep)
  }

  /** strings.Split with a one-character separator: at least one segment, no
      segment contains the separator, and joining the segments with it gives s
      back. */
  function Split(s: string, sep: char): (parts: seq<string>)
    ensures |parts| >= 1
    ensures forall i :: 0 <= i < |parts| ==> sep !in parts[i]
    ensures Join(parts, sep) == s
  {
    if |s| == 0 then
      [""]
    else
      var rest := Split(s[1..], sep);
      if s[0] == sep then
        assert ([""] + rest)[1..] == rest;
        [""] + rest
      else
        var parts := [[s[0]] + rest[0]] + rest[1..];
        JoinConsFirst(s[0], rest, sep);
        assert [s[0]] + s[1..] == s;
        parts
  }

  /** Prepending a character to the first segment prepends it to the join. */
  lemma JoinConsFirst(c: char, parts: seq<string>, sep: char)
    requires |parts| >= 1
    ensures Join([[c] + parts[0]] + parts[1..], sep) == [c] + Join(parts, sep)
  {
    var ps := [[c] + parts[0]] + parts[1..];
    assert ps[1..] == parts[1..];
  }

  /** Splitting a separator-free string gives the string alone. */
  lemma {:induction false} SplitNoSeparator(s: string, sep: char)
    requires sep !in s
    ensures Split(s, sep) == [s]
  {
    if |s| > 0 {
      SplitNoSeparator(s[1..], sep);
      assert [s[0]] + s[1..] == s;
    }
  }

  /** A separator-free first segment followed by the separator splits off as one segment. */
  lemma {:induction false} SplitAfterSegment(x: string, sep: char, y: string)
    requires sep !in x
    ensures Split(x + [sep] + y, sep) == [x] + Split(y, sep)
  {
    var s := x + [sep] + y;
    if |x| == 0 {
      assert s[1..] == y;
    } else {
      assert s[1..] == x[1..] + [sep] + y;
      SplitAfterSegment(x[1..], sep, y);
      assert [x[0]] + x[1..] == x;
    }
  }

  /** The other round trip: joining separator-free segments and splitting the
      result gives the segments back. */
  lemma {:induction false} SplitJoin(parts: seq<string>, sep: char)
    requires |parts| >= 1
    requires forall i :: 0 <= i < |parts| ==> sep !in parts[i]
    ensures Split(Join(parts, sep), sep) == parts
  {
    if |parts| == 1 {
      SplitNoSeparator(parts[0], sep);
    } else {
      SplitJoin(parts[1..], sep);
      SplitAfterSegment(parts[0], sep, Join(parts[1..], sep));
      assert [parts[0]] + parts[1..] == parts;
    }
  }

  /** The split has exactly the two segments x and y precisely when s is x, the
      separator, then y, with no separator in x or y. */
  lemma SplitIntoTwo(s: string, sep: char, x: string, y: string)
    ensures Split(s, sep) == [x, y] <==> (sep !in x && sep !in y && s == x + [sep] + y)
  {
    if sep !in x && sep !in y && s == x + [sep] + y {
      SplitJoin([x, y], sep);
      assert Join([x, y], sep) == x + [sep] + y by {
        assert [x, y][1..] == [y];
      }
    }
    if Split(s, sep) == [x, y] {
      assert [x, y][1..] == [y];
      assert Join([x, y], sep) == x + [sep] + y;
      assert sep !in [x, y][0] && sep !in [x, y][1];
    }
  }
}
