/** Version directory names (`v3_12`), their integer-sequence sort keys, and the
    choice of the newest version: the key and selection logic of
    `create_latest_symlinks` in scripts/generate.py. */
module Versions {
  import opened Wrappers
  import Strings

  predicate IsDigit(c: char) { '0' <= c <= '9' }

  /** A non-empty ASCII digit string: the only component text `int()` is
      modelled on. */
  predicate IsDigits(s: string) {
    |s| > 0 && forall i :: 0 <= i < |s| ==> IsDigit(s[i])
  }

  /** Decimal value of a digit string, most significant digit first. */
  function DigitsValue(s: string): nat
    requires forall i :: 0 <= i < |s| ==> IsDigit(s[i])
  {
    if |s| == 0 then 0
    else
      assert IsDigit(s[|s| - 1]);
      DigitsValue(s[..|s| - 1]) * 10 + (s[|s| - 1] as int - '0' as int)
  }

  /** `int(x)` for one version component; anything but a digit string (the
      empty component of `v3__1`, or `env` from a `venv` directory) raises. */
  function ParseComponent(s: string): (r: Option<nat>)
    ensures r.Some? <==> IsDigits(s)
  {
    if IsDigits(s) then Some(DigitsValue(s)) else None
  }

  function DigitChar(d: nat): (c: char)
    requires d < 10
    ensures IsDigit(c) && c as int - '0' as int == d
  {
    ('0' as int + d) as char
  }

  /** `str(n)` for a natural number. */
  function NatToString(n: nat): (s: string)
    ensures IsDigits(s)
  {
    if n < 10 then [DigitChar(n)] else NatToString(n / 10) + [DigitChar(n % 10)]
  }

  /** Printing a number and parsing it back gives the number. */
  lemma {:induction false} ParsePrinted(n: nat)
    ensures ParseComponent(NatToString(n)) == Some(n)
  {
    var s := NatToString(n);
    if n >= 10 {
      var prefix := NatToString(n / 10);
      ParsePrinted(n / 10);
      assert s == prefix + [DigitChar(n % 10)];
      assert s[..|s| - 1] == prefix;
      assert DigitsValue(s) == DigitsValue(prefix) * 10 + n % 10;
    } else {
      assert s[..0] == [];
      assert DigitsValue(s) == DigitsValue(s[..0]) * 10 + n;
    }
  }

  /** `[int(x) for x in parts]`, failing on the first component `int` rejects. */
  function ParseAll(parts: seq<string>): (r: Option<seq<nat>>)
    ensures r.Some? <==> forall i :: 0 <= i < |parts| ==> IsDigits(parts[i])
    ensures r.Some? ==> |r.value| == |parts|
    ensures r.Some? ==> forall i :: 0 <= i < |parts| ==> ParseComponent(parts[i]) == Some(r.value[i])
  {
    if |parts| == 0 then Some([])
    else
      match ParseComponent(parts[0])
      case None => None
      case Some(x) =>
        match ParseAll(parts[1..])
        case None => None
        case Some(xs) => Some([x] + xs)
  }

  /** The sort key of a version (a directory name without its leading `v`):
      the `_`-separated components read as integers. */
  function VersionKey(v: string): Option<seq<nat>> {
    ParseAll(Strings.Split(v, '_'))
  }

  /** The canonical version text for a key: components printed and joined by `_`. */
  function VersionName(key: seq<nat>): string {
    Strings.Join(PrintAll(key), "_")
  }

  function PrintAll(key: seq<nat>): (parts: seq<string>)
    ensures |parts| == |key|
    ensures forall i :: 0 <= i < |key| ==> parts[i] == NatToString(key[i])
  {
    if |key| == 0 then [] else [NatToString(key[0])] + PrintAll(key[1..])
  }

  lemma {:induction false} ParsePrintAll(key: seq<nat>)
    ensures ParseAll(PrintAll(key)) == Some(key)
  {
    if |key| > 0 {
      ParsePrinted(key[0]);
      ParsePrintAll(key[1..]);
      assert PrintAll(key)[1..] == PrintAll(key[1..]);
      assert [key[0]] + key[1..] == key;
    }
  }

  /** Every non-empty key is the key of its canonical version name. */
  lemma VersionKeyOfName(key: seq<nat>)
    requires |key| > 0
    ensures VersionKey(VersionName(key)) == Some(key)
  {
    var parts := PrintAll(key);
    forall i | 0 <= i < |parts|
      ensures '_' !in parts[i]
    {
      assert IsDigits(parts[i]);
      assert forall j :: 0 <= j < |parts[i]| ==> parts[i][j] != '_';
    }
    Strings.SplitJoin(parts, '_');
    ParsePrintAll(key);
  }

  /** Python's `<=` on lists of integers: lexicographic, a proper prefix first. */
  predicate KeyLe(a: seq<nat>, b: seq<nat>) {
    if |a| == 0 then true
    else if |b| == 0 then false
    else a[0] < b[0] || (a[0] == b[0] && KeyLe(a[1..], b[1..]))
  }

  predicate KeyLt(a: seq<nat>, b: seq<nat>) {
    KeyLe(a, b) && a != b
  }

  lemma {:induction false} KeyLeReflexive(a: seq<nat>)
    ensures KeyLe(a, a)
  {
    if |a| > 0 {
      KeyLeReflexive(a[1..]);
    }
  }

  lemma {:induction false} KeyLeAntisymmetric(a: seq<nat>, b: seq<nat>)
    requires KeyLe(a, b) && KeyLe(b, a)
    ensures a == b
  {
    if |a| > 0 {
      KeyLeAntisymmetric(a[1..], b[1..]);
      assert a == [a[0]] + a[1..];
      assert b == [b[0]] + b[1..];
    }
  }

  lemma {:induction false} KeyLeTransitive(a: seq<nat>, b: seq<nat>, c: seq<nat>)
    requires KeyLe(a, b) && KeyLe(b, c)
    ensures KeyLe(a, c)
  {
    if |a| > 0 && |b| > 0 && |c| > 0 && a[0] == b[0] == c[0] {
      KeyLeTransitive(a[1..], b[1..], c[1..]);
    }
  }

  lemma {:induction false} KeyLeTotal(a: seq<nat>, b: seq<nat>)
    ensures KeyLe(a, b) || KeyLe(b, a)
  {
    if |a| > 0 && |b| > 0 && a[0] == b[0] {
      KeyLeTotal(a[1..], b[1..]);
    }
  }

  /** Every version in the list has a key, so `sorted` does not raise. */
  predicate AllParse(vs: seq<string>) {
    forall i :: 0 <= i < |vs| ==> VersionKey(vs[i]).Some?
  }

  /** `i` is the first version whose key `int` rejects: the one whose
      `ValueError` escapes, because keys are computed in list order before any
      comparison. */
  predicate FirstUnparsable(vs: seq<string>, i: int) {
    0 <= i < |vs| && VersionKey(vs[i]).None? && AllParse(vs[..i])
  }

  /** `vs[k]` is what `sorted(vs, key=..., reverse=True)[0]` picks: its key is
      at least every other key, and no earlier version has the same key
      (the sort is stable, also in reverse). */
  predicate IsLatestAt(vs: seq<string>, k: int)
    requires AllParse(vs)
  {
    && 0 <= k < |vs|
    && (forall j :: 0 <= j < |vs| ==> KeyLe(VersionKey(vs[j]).value, VersionKey(vs[k]).value))
    && (forall j :: 0 <= j < k ==> VersionKey(vs[j]).value != VersionKey(vs[k]).value)
  }

  /** At most one position qualifies as the latest. */
  lemma LatestUnique(vs: seq<string>, k1: int, k2: int)
    requires AllParse(vs)
    requires IsLatestAt(vs, k1) && IsLatestAt(vs, k2)
    ensures k1 == k2
  {
    KeyLeAntisymmetric(VersionKey(vs[k1]).value, VersionKey(vs[k2]).value);
  }

  /** The version `create_latest_symlinks` links to: a failure naming the first
      unparsable version, `None` for an empty list, otherwise the latest one. */
  method SelectLatest(vs: seq<string>) returns (r: Result<Option<string>, string>)
    ensures r.Failure? <==> !AllParse(vs)
    ensures r.Failure? ==> exists i :: FirstUnparsable(vs, i) && r.error == vs[i]
    ensures r.Success? ==> (r.value.None? <==> |vs| == 0)
    ensures r.Success? && r.value.Some? ==> exists k :: IsLatestAt(vs, k) && r.value.value == vs[k]
  {
    var keys: seq<seq<nat>> := [];
    var i := 0;
    while i < |vs|
      invariant 0 <= i <= |vs|
      invariant |keys| == i
      invariant forall j :: 0 <= j < i ==> VersionKey(vs[j]) == Some(keys[j])
    {
      match VersionKey(vs[i]) {
        case None =>
          assert FirstUnparsable(vs, i);
          return Failure(vs[i]);
        case Some(key) =>
          keys := keys + [key];
      }
      i := i + 1;
    }
    if |vs| == 0 {
      return Success(None);
    }
    var best := 0;
    i := 1;
    KeyLeReflexive(keys[0]);
    while i < |vs|
      invariant 1 <= i <= |vs|
      invariant 0 <= best < i
      invariant forall j :: 0 <= j < i ==> KeyLe(keys[j], keys[best])
      invariant forall j :: 0 <= j < best ==> keys[j] != keys[best]
    {
      if KeyLt(keys[best], keys[i]) {
        forall j | 0 <= j < i
          ensures KeyLe(keys[j], keys[i]) && keys[j] != keys[i]
        {
          KeyLeTransitive(keys[j], keys[best], keys[i]);
          if keys[j] == keys[i] {
            KeyLeAntisymmetric(keys[best], keys[i]);
          }
        }
        best := i;
        KeyLeReflexive(keys[i]);
      } else {
        KeyLeTotal(keys[best], keys[i]);
      }
      i := i + 1;
    }
    assert IsLatestAt(vs, best);
    return Success(Some(vs[best]));
  }

  lemma KeyOfPair(a: string, b: string)
    requires IsDigits(a) && IsDigits(b)
    ensures VersionKey(a + "_" + b) == Some([DigitsValue(a), DigitsValue(b)])
  {
    assert '_' !in a by { assert forall j :: 0 <= j < |a| ==> IsDigit(a[j]); }
    assert '_' !in b by { assert forall j :: 0 <= j < |b| ==> IsDigit(b[j]); }
    Strings.SplitAtSeparator(a, b, '_');
    Strings.SplitNoSeparator(b, '_');
    assert Strings.Split(a + "_" + b, '_') == [a, b];
    ParsePair(a, b);
  }

  lemma ParsePair(a: string, b: string)
    requires IsDigits(a) && IsDigits(b)
    ensures ParseAll([a, b]) == Some([DigitsValue(a), DigitsValue(b)])
  {
    assert ParseComponent(a) == Some(DigitsValue(a));
    assert ParseComponent(b) == Some(DigitsValue(b));
    assert [b][1..] == [];
    assert ParseAll([b][1..]) == Some([]);
    assert [DigitsValue(b)] + [] == [DigitsValue(b)];
    assert ParseAll([b]) == Some([DigitsValue(b)]);
    assert [a, b][1..] == [b];
    assert [DigitsValue(a)] + [DigitsValue(b)] == [DigitsValue(a), DigitsValue(b)];
  }

  /** `v3_12` is newer than `v3_9` and `v3_2`: components compare as numbers,
      although `"3_12" < "3_2" < "3_9"` as text. */
  lemma NumericOrder(vs: seq<string>)
    requires vs == ["3_2", "3_12", "3_9"]
    ensures AllParse(vs)
    ensures IsLatestAt(vs, 1)
  {
    ExampleKeys(vs);
    var k0, k1, k2 := [3, 2], [3, 12], [3, 9];
    KeyLeReflexive(k1);
    assert KeyLe(k0, k1) by { assert k0[1..] == [2]; assert k1[1..] == [12]; }
    assert KeyLe(k2, k1) by { assert k2[1..] == [9]; assert k1[1..] == [12]; }
    forall j | 0 <= j < |vs|
      ensures VersionKey(vs[j]).Some? && KeyLe(VersionKey(vs[j]).value, k1)
    {
      assert j == 0 || j == 1 || j == 2;
    }
    assert VersionKey(vs[0]).value != k1;
  }

  lemma ExampleKeys(vs: seq<string>)
    requires vs == ["3_2", "3_12", "3_9"]
    ensures VersionKey(vs[0]) == Some([3, 2])
    ensures VersionKey(vs[1]) == Some([3, 12])
    ensures VersionKey(vs[2]) == Some([3, 9])
  {
    var three, two, twelve, nine := "3", "2", "12", "9";
    ExampleDigits(three, two, twelve, nine);
    assert vs[0] == three + "_" + two;
    assert vs[1] == three + "_" + twelve;
    assert vs[2] == three + "_" + nine;
    KeyOfPair(three, two);
    KeyOfPair(three, twelve);
    KeyOfPair(three, nine);
  }

  lemma ExampleDigits(three: string, two: string, twelve: string, nine: string)
    requires three == "3" && two == "2" && twelve == "12" && nine == "9"
    ensures IsDigits(three) && IsDigits(two) && IsDigits(twelve) && IsDigits(nine)
    ensures DigitsValue(three) == 3 && DigitsValue(two) == 2
    ensures DigitsValue(twelve) == 12 && DigitsValue(nine) == 9
  {
    assert three[..0] == "" && two[..0] == "" && nine[..0] == "";
    assert twelve[..1] == "1";
    assert "1"[..0] == "";
  }

  /** `[p.name[1:] for p in Path('schemas').glob('v*')]`: every listed entry whose
      name starts with `v`, without that `v`, in listing order. */
  function VersionsOf(entries: seq<string>): (vs: seq<string>)
    ensures |vs| <= |entries|
    ensures forall v :: v in vs <==> ['v'] + v in entries
  {
    if |entries| == 0 then []
    else
      var e := entries[0];
      var rest := VersionsOf(entries[1..]);
      assert forall v :: ['v'] + v in entries <==> ['v'] + v == e || ['v'] + v in entries[1..];
      if Strings.StartsWith(e, "v") then
        assert e == ['v'] + e[1..];
        [e[1..]] + rest
      else
        rest
  }
}
