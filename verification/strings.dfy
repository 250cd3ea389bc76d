/** The handful of Python `str` operations the generator and its tests rely on,
    restricted to ASCII where case matters: `in`, `startswith`, `split`,
    `join`, `rsplit(sep, 1)`, `replace` and `title`. */
module Strings {
  import opened Wrappers

  /** Python `sub in s` for two strings. */
  predicate IsSubstring(sub: string, s: string) {
    exists i | 0 <= i <= |s| - |sub| :: OccursAt(sub, s, i)
  }

  predicate OccursAt(sub: string, s: string, i: int)
    requires 0 <= i <= |s| - |sub|
  {
    s[i..i + |sub|] == sub
  }

  predicate StartsWith(s: string, prefix: string) {
    |prefix| <= |s| && s[..|prefix|] == prefix
  }

  predicate EndsWith(s: string, suffix: string) {
    |suffix| <= |s| && s[|s| - |suffix|..] == suffix
  }

  /** `sep.join(parts)`. */
  function Join(parts: seq<string>, sep: string): string {
    if |parts| == 0 then ""
    else if |parts| == 1 then parts[0]
    else parts[0] + sep + Join(parts[1..], sep)
  }

  /** `s.split(c)` for a one-character separator: never empty, and an empty
      string or two adjacent separators give empty components. */
  function Split(s: string, c: char): (parts: seq<string>)
    ensures |parts| >= 1
    ensures forall i :: 0 <= i < |parts| ==> c !in parts[i]
  {
    if |s| == 0 then [""]
    else
      var rest := Split(s[1..], c);
      if s[0] == c then [""] + rest
      else [[s[0]] + rest[0]] + rest[1..]
  }

  /** Joining the pieces of a split with the same separator gives back the input. */
  lemma {:induction false} JoinSplit(s: string, c: char)
    ensures Join(Split(s, c), [c]) == s
  {
    if |s| > 0 {
      var rest := Split(s[1..], c);
      JoinSplit(s[1..], c);
      if s[0] == c {
        assert Split(s, c) == [""] + rest;
        assert ([""] + rest)[1..] == rest;
      } else {
        var parts := [[s[0]] + rest[0]] + rest[1..];
        assert Split(s, c) == parts;
        if |rest| == 1 {
          assert Join(rest, [c]) == rest[0];
        } else {
          assert parts[1..] == rest[1..];
          assert Join(rest, [c]) == rest[0] + [c] + Join(rest[1..], [c]);
        }
      }
    }
  }

  lemma {:induction false} SplitNoSeparator(a: string, c: char)
    requires c !in a
    ensures Split(a, c) == [a]
  {
    if |a| > 0 {
      SplitNoSeparator(a[1..], c);
      assert [a[0]] + a[1..] == a;
    }
  }

  lemma {:induction false} SplitAtSeparator(a: string, b: string, c: char)
    requires c !in a
    ensures Split(a + [c] + b, c) == [a] + Split(b, c)
  {
    if |a| == 0 {
      assert a + [c] + b == [c] + b;
      assert ([c] + b)[1..] == b;
    } else {
      SplitAtSeparator(a[1..], b, c);
      assert (a + [c] + b)[1..] == a[1..] + [c] + b;
      assert [a[0]] + a[1..] == a;
    }
  }

  /** Splitting a join of separator-free pieces gives back the pieces. */
  lemma {:induction false} SplitJoin(parts: seq<string>, c: char)
    requires |parts| >= 1
    requires forall i :: 0 <= i < |parts| ==> c !in parts[i]
    ensures Split(Join(parts, [c]), c) == parts
  {
    if |parts| == 1 {
      SplitNoSeparator(parts[0], c);
    } else {
      SplitJoin(parts[1..], c);
      SplitAtSeparator(parts[0], Join(parts[1..], [c]), c);
      assert [parts[0]] + parts[1..] == parts;
    }
  }

  /** A join contains a character only if a piece or the separator does. */
  lemma {:induction false} JoinAvoids(parts: seq<string>, sep: string, c: char)
    requires c !in sep
    requires forall i :: 0 <= i < |parts| ==> c !in parts[i]
    ensures c !in Join(parts, sep)
  {
    if |parts| > 1 {
      JoinAvoids(parts[1..], sep, c);
    }
  }

  /** `s.rfind(c)`, with `None` for -1. */
  function LastIndexOf(s: string, c: char): (r: Option<nat>)
    ensures r.None? <==> c !in s
    ensures r.Some? ==> r.value < |s| && s[r.value] == c && c !in s[r.value + 1..]
  {
    if |s| == 0 then None
    else if s[|s| - 1] == c then Some(|s| - 1)
    else
      var r := LastIndexOf(s[..|s| - 1], c);
      assert r.Some? ==> s[r.value + 1..] == s[..|s| - 1][r.value + 1..] + [s[|s| - 1]];
      r
  }

  /** `s.rsplit(c, 1)` when `c` occurs in `s`: the text before and after the last `c`. */
  function RSplitOnce(s: string, c: char): (r: Option<(string, string)>)
    ensures r.None? <==> c !in s
    ensures r.Some? ==> r.value.0 + [c] + r.value.1 == s && c !in r.value.1
  {
    match LastIndexOf(s, c)
    case None => None
    case Some(i) =>
      assert s[..i] + [c] + s[i + 1..] == s;
      Some((s[..i], s[i + 1..]))
  }

  /** `s.replace(c, '')`. */
  function RemoveChar(s: string, c: char): (r: string)
    ensures c !in r
    ensures forall x :: x != c ==> (x in r <==> x in s)
    ensures |r| <= |s|
  {
    if |s| == 0 then ""
    else (if s[0] == c then "" else [s[0]]) + RemoveChar(s[1..], c)
  }

  /** `s.replace(a, b)` for single characters. */
  function ReplaceChar(s: string, a: char, b: char): (r: string)
    ensures |r| == |s|
  {
    if |s| == 0 then ""
    else [if s[0] == a then b else s[0]] + ReplaceChar(s[1..], a, b)
  }

  predicate IsUpper(ch: char) { 'A' <= ch <= 'Z' }

  predicate IsLower(ch: char) { 'a' <= ch <= 'z' }

  /** Cased in the sense of `str.title`, restricted to ASCII letters. */
  predicate IsCased(ch: char) { IsUpper(ch) || IsLower(ch) }

  function ToUpper(ch: char): (r: char)
    ensures IsLower(ch) ==> IsUpper(r)
    ensures !IsLower(ch) ==> r == ch
  {
    if IsLower(ch) then (ch as int - 32) as char else ch
  }

  function ToLower(ch: char): (r: char)
    ensures IsUpper(ch) ==> IsLower(r)
    ensures !IsUpper(ch) ==> r == ch
  {
    if IsUpper(ch) then (ch as int + 32) as char else ch
  }

  /** `str.title` continued after a character that was (or was not) cased:
      a character following a cased one is lower-cased, every other one is
      upper-cased; uncased characters are left alone. */
  function TitleFrom(s: string, afterCased: bool): (r: string)
    ensures |r| == |s|
    ensures forall i :: 0 <= i < |s| ==>
      r[i] == (if (if i == 0 then afterCased else IsCased(s[i - 1])) then ToLower(s[i]) else ToUpper(s[i]))
  {
    if |s| == 0 then ""
    else
      var rest := TitleFrom(s[1..], IsCased(s[0]));
      [if afterCased then ToLower(s[0]) else ToUpper(s[0])] + rest
  }

  /** Python `s.title()` on ASCII text. */
  function Title(s: string): string {
    TitleFrom(s, false)
  }

  /** A word with its first letter upper-cased. */
  function Capitalize(w: string): string {
    if |w| == 0 then "" else [ToUpper(w[0])] + w[1..]
  }

  predicate IsLowerWord(w: string) {
    |w| > 0 && forall i :: 0 <= i < |w| ==> IsLower(w[i])
  }

  /** A lower-case word at the start of a title-cased text is capitalized,
      and a `-` after it starts the next word afresh. */
  lemma TitleWordThenDash(w: string, rest: string)
    requires IsLowerWord(w)
    ensures Title(w + "-" + rest) == Capitalize(w) + "-" + Title(rest)
  {
    var s := w + "-" + rest;
    var lhs := Title(s);
    var cap := Capitalize(w);
    var tr := Title(rest);
    var rhs := cap + "-" + tr;
    assert |lhs| == |rhs|;
    forall i | 0 <= i < |s|
      ensures lhs[i] == rhs[i]
    {
      if i == 0 {
        assert s[0] == w[0];
        assert rhs[0] == cap[0] == ToUpper(w[0]);
      } else if i < |w| {
        assert s[i] == w[i] && s[i - 1] == w[i - 1];
        assert IsLower(w[i - 1]) && IsLower(w[i]);
        assert rhs[i] == cap[i] == w[i];
      } else if i == |w| {
        assert s[i] == '-' && s[i - 1] == w[i - 1];
        assert IsLower(w[i - 1]);
        assert rhs[i] == '-';
      } else {
        var j := i - |w| - 1;
        assert s[i] == rest[j];
        assert rhs[i] == tr[j];
        if j > 0 {
          assert s[i - 1] == rest[j - 1];
        } else {
          assert s[i - 1] == '-';
        }
      }
    }
  }

  /** A lone lower-case word is capitalized. */
  lemma TitleWord(w: string)
    requires IsLowerWord(w)
    ensures Title(w) == Capitalize(w)
  {
    var lhs := Title(w);
    var rhs := Capitalize(w);
    forall i | 0 <= i < |w|
      ensures lhs[i] == rhs[i]
    {
      if i > 0 {
        assert IsLower(w[i - 1]) && IsLower(w[i]);
        assert rhs[i] == w[i];
      }
    }
  }

  /** Removing `c` from `a` + `c` + `b`, where `a` has no `c`. */
  lemma {:induction false} RemoveCharAfter(a: string, b: string, c: char)
    requires c !in a
    ensures RemoveChar(a + [c] + b, c) == a + RemoveChar(b, c)
  {
    var s := a + [c] + b;
    if |a| == 0 {
      assert s[0] == c && s[1..] == b;
    } else {
      RemoveCharAfter(a[1..], b, c);
      assert s[0] == a[0] && s[1..] == a[1..] + [c] + b;
      assert [a[0]] + a[1..] == a;
    }
  }

  /** Removing a character that does not occur changes nothing. */
  lemma {:induction false} RemoveCharAbsent(s: string, c: char)
    requires c !in s
    ensures RemoveChar(s, c) == s
  {
    if |s| > 0 {
      RemoveCharAbsent(s[1..], c);
      assert [s[0]] + s[1..] == s;
    }
  }

  /** Replacing a character distributes over concatenation. */
  lemma {:induction false} ReplaceCharConcat(x: string, y: string, a: char, b: char)
    ensures ReplaceChar(x + y, a, b) == ReplaceChar(x, a, b) + ReplaceChar(y, a, b)
  {
    if |x| > 0 {
      ReplaceCharConcat(x[1..], y, a, b);
      assert (x + y)[0] == x[0];
      assert (x + y)[1..] == x[1..] + y;
    } else {
      assert x + y == y;
    }
  }

  /** Replacing every `.` by `/` in `a.b`, where `a` has no dot. */
  lemma ReplaceAfterFirstDot(a: string, b: string)
    requires '.' !in a
    ensures ReplaceChar(a + "." + b, '.', '/') == a + "/" + ReplaceChar(b, '.', '/')
  {
    ReplaceCharConcat(a + ".", b, '.', '/');
    ReplaceCharConcat(a, ".", '.', '/');
    ReplaceCharAbsent(a, '.', '/');
    assert ReplaceChar(".", '.', '/') == "/";
  }

  /** Replacing `.` by `/` in dot-joined parts that contain no dot joins
      them with `/` instead. */
  lemma {:induction false} ReplaceDotsInJoin(parts: seq<string>)
    requires forall i :: 0 <= i < |parts| ==> '.' !in parts[i]
    ensures ReplaceChar(Join(parts, "."), '.', '/') == Join(parts, "/")
  {
    if |parts| == 1 {
      ReplaceCharAbsent(parts[0], '.', '/');
    } else if |parts| > 1 {
      ReplaceDotsInJoin(parts[1..]);
      ReplaceAfterFirstDot(parts[0], Join(parts[1..], "."));
    }
  }

  /** Replacing a character that does not occur changes nothing. */
  lemma {:induction false} ReplaceCharAbsent(s: string, a: char, b: char)
    requires a !in s
    ensures ReplaceChar(s, a, b) == s
  {
    if |s| > 0 {
      ReplaceCharAbsent(s[1..], a, b);
      assert [s[0]] + s[1..] == s;
    }
  }

  /** Concatenation of a sequence of strings. */
  function Concat(parts: seq<string>): string {
    if |parts| == 0 then "" else parts[0] + Concat(parts[1..])
  }
}
