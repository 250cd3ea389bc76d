/** Already-parsed JSON values, and the two Python operations the generator and
    its tests apply to them: the `in` operator and `d[key]` subscripting. */
module Json {
  import opened Wrappers
  import Strings

  /** A JSON value as `json.load` returns it. Objects are keyed maps (their key
      order is not modelled) and numbers are integers. */
  datatype Json =
    | JNull
    | JBool(b: bool)
    | JInt(i: int)
    | JStr(s: string)
    | JArr(items: seq<Json>)
    | JObj(fields: map<string, Json>)

  /** The number a `bool` or an `int` stands for in Python arithmetic and
      comparison: `True` is `1` and `False` is `0`. */
  function Numeric(v: Json): Option<int> {
    match v
    case JBool(b) => Some(if b then 1 else 0)
    case JInt(i) => Some(i)
    case _ => None
  }

  /** Python `==` between two JSON values: lists compare element by element,
      dicts by their keys and the values under them, and a `bool` equals the
      `int` it stands for, at any depth. */
  predicate PyEq(a: Json, b: Json)
    decreases a
  {
    match a
    case JNull => b.JNull?
    case JBool(_) => Numeric(b).Some? && Numeric(a) == Numeric(b)
    case JInt(_) => Numeric(b).Some? && Numeric(a) == Numeric(b)
    case JStr(s) => b == JStr(s)
    case JArr(xs) =>
      b.JArr? && |xs| == |b.items| && forall i :: 0 <= i < |xs| ==> PyEq(xs[i], b.items[i])
    case JObj(m) =>
      b.JObj? && m.Keys == b.fields.Keys && forall k :: k in m ==> PyEq(m[k], b.fields[k])
  }

  predicate Hashable(v: Json) {
    !v.JArr? && !v.JObj?
  }

  /** Python `item in container`; `None` stands for the `TypeError` Python raises
      (an unhashable key for a dict, a non-string needle for a string, or a
      container that supports no membership test at all). */
  function PyIn(item: Json, container: Json): Option<bool>
  {
    match container
    case JObj(m) =>
      if item.JStr? then Some(item.s in m)
      else if Hashable(item) then Some(false)
      else None
    case JArr(xs) =>
      Some(exists i | 0 <= i < |xs| :: PyEq(item, xs[i]))
    case JStr(s) =>
      if item.JStr? then Some(Strings.IsSubstring(item.s, s)) else None
    case _ => None
  }

  /** Python `container[key]` with a string key: only a dict holding the key
      answers; a missing key is a `KeyError`, any other container a `TypeError`. */
  function Subscript(container: Json, key: string): Option<Json>
  {
    if container.JObj? && key in container.fields then Some(container.fields[key]) else None
  }

  /** `key in container` when the answer is a clean `True`. */
  predicate HasKey(container: Json, key: string) {
    PyIn(JStr(key), container) == Some(true)
  }

  /** Every value equals itself. */
  lemma {:induction false} PyEqReflexive(a: Json)
    ensures PyEq(a, a)
    decreases a
  {
    match a
    case JArr(xs) =>
      forall i | 0 <= i < |xs|
        ensures PyEq(xs[i], xs[i])
      {
        PyEqReflexive(xs[i]);
      }
    case JObj(m) =>
      forall k | k in m
        ensures PyEq(m[k], m[k])
      {
        PyEqReflexive(m[k]);
      }
    case _ =>
  }

  /** Python `==` is symmetric on JSON values. */
  lemma {:induction false} PyEqSymmetric(a: Json, b: Json)
    requires PyEq(a, b)
    ensures PyEq(b, a)
    decreases a
  {
    match a
    case JArr(xs) =>
      forall i | 0 <= i < |xs|
        ensures PyEq(b.items[i], xs[i])
      {
        PyEqSymmetric(xs[i], b.items[i]);
      }
    case JObj(m) =>
      forall k | k in b.fields
        ensures PyEq(b.fields[k], m[k])
      {
        PyEqSymmetric(m[k], b.fields[k]);
      }
    case _ =>
  }

  /** `in` on a dict and `d[key]` agree: a string key is in a dict exactly
      when subscripting the dict with it does not raise. */
  lemma InIffSubscript(d: map<string, Json>, key: string)
    ensures PyIn(JStr(key), JObj(d)) == Some(Subscript(JObj(d), key).Some?)
  {
  }

  /** A list contains each of its elements. */
  lemma ElementIn(xs: seq<Json>, x: Json, ys: seq<Json>)
    ensures PyIn(x, JArr(xs + [x] + ys)) == Some(true)
  {
    PyEqReflexive(x);
    assert (xs + [x] + ys)[|xs|] == x;
  }

  /** A string contains every string that occurs in it. */
  lemma InfixIn(p: string, a: string, q: string)
    ensures PyIn(JStr(a), JStr(p + a + q)) == Some(true)
  {
    var s := p + a + q;
    assert s[|p|..|p| + |a|] == a;
    assert Strings.OccursAt(a, s, |p|);
  }

  /** A list or a dict as the needle of `in` on a dict is unhashable: Python
      raises `TypeError`. */
  lemma UnhashableKeyRaises(item: Json, d: map<string, Json>)
    requires item.JArr? || item.JObj?
    ensures PyIn(item, JObj(d)).None?
  {
  }

  /** `True == 1` reaches inside lists: `[1] in [[True]]` is `True`. */
  lemma NestedBoolEqualsInt(one: Json, yes: Json)
    requires one == JArr([JInt(1)]) && yes == JArr([JArr([JBool(true)])])
    ensures PyIn(one, yes) == Some(true)
  {
    assert PyEq(one, yes.items[0]) by {
      assert PyEq(one.items[0], yes.items[0].items[0]);
    }
  }
}
