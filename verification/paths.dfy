/** The parts of `pathlib` the generator uses on a final path component:
    `suffix`, `stem`, `with_suffix`, and joining with `/`. */
module Paths {
  import opened Wrappers
  import Strings

  /** Position of the dot that starts the suffix: the last `.`, unless it is
      the first character (a hidden file such as `.json` has no suffix) or
      the last one. */
  function SuffixDot(name: string): (r: Option<nat>)
    ensures r.Some? ==> 0 < r.value < |name| - 1 && name[r.value] == '.'
    ensures r.Some? ==> '.' !in name[r.value + 1..]
  {
    match Strings.LastIndexOf(name, '.')
    case Some(i) => if 0 < i < |name| - 1 then Some(i) else None
    case None => None
  }

  /** `PurePath(name).suffix`. */
  function Suffix(name: string): (r: string)
    ensures r == "" || (r[0] == '.' && '.' !in r[1..] && |r| >= 2)
  {
    match SuffixDot(name)
    case Some(i) => name[i..]
    case None => ""
  }

  /** `PurePath(name).stem`: the name with its suffix cut off. */
  function Stem(name: string): (r: string)
    ensures r + Suffix(name) == name
    ensures |name| > 0 ==> |r| > 0
  {
    match SuffixDot(name)
    case Some(i) =>
      assert name[..i] + name[i..] == name;
      name[..i]
    case None => name
  }

  /** `PurePath(name).with_suffix(suffix)`. */
  function WithSuffix(name: string, suffix: string): string {
    Stem(name) + suffix
  }

  /** `dir / name` for a name without `/`. */
  function Child(dir: string, name: string): string {
    dir + "/" + name
  }

  /** The stem of a `*.json` name is the name without `.json`, unless the
      whole name is `.json`, which has no suffix at all. */
  lemma StemOfJson(name: string)
    requires Strings.EndsWith(name, ".json")
    ensures |name| > 5 ==> Stem(name) + ".json" == name
    ensures |name| == 5 ==> Stem(name) == ".json"
  {
    var i := |name| - 5;
    assert name[i..] == ".json";
    assert name[i] == '.';
    assert '.' !in name[i + 1..] by {
      assert name[i + 1..] == "json";
    }
    var last := Strings.LastIndexOf(name, '.');
    assert last.Some?;
    assert last.value == i;
    if |name| > 5 {
      assert SuffixDot(name) == Some(i);
      assert name[..i] + ".json" == name;
    }
  }

  /** Replacing the suffix of a name that has a stem, then reading the stem
      back, gives the original stem. */
  lemma StemOfWithSuffix(name: string)
    requires |name| > 0
    ensures Stem(WithSuffix(name, ".json")) == Stem(name)
  {
    var s := Stem(name);
    var n := s + ".json";
    assert Strings.EndsWith(n, ".json") by {
      assert n[|n| - 5..] == ".json";
    }
    StemOfJson(n);
    assert Stem(n) + ".json" == s + ".json";
  }

  /** The stem of `m.c` is `m` when `c` is a non-empty text without `.` and
      `m` is non-empty: the suffix is the last dotted part. */
  lemma StemOfDotted(m: string, c: string)
    requires |m| > 0 && |c| > 0 && '.' !in c
    ensures Stem(m + "." + c) == m
  {
    var s := m + "." + c;
    assert s[|m|] == '.';
    assert s[|m| + 1..] == c;
    assert SuffixDot(s) == Some(|m|);
    assert s[..|m|] == m;
  }
}
