/** Decoded JSON values and the few Python operations the scripts apply to
    them: `key in v`, `v[key]`, `v.get(key, default)`, truthiness and
    iteration. Each operation raises exactly where Python raises. */
module Json {
  import opened Wrappers

  datatype Value =
    | Null
    | Bool(b: bool)
    | Int(i: int)
    | Real(r: real)
    | Str(s: string)
    | List(items: seq<Value>)
    | Object(fields: map<string, Value>)

  /** `sub in s` for two Python strings. */
  predicate IsSubstring(sub: string, s: string) {
    |sub| <= |s| && (s[..|sub|] == sub || IsSubstring(sub, s[1..]))
  }

  /** `key in v`: membership for a dict, element equality for a list,
      substring search for a string; a TypeError for anything else. */
  function Contains(v: Value, key: string): (r: Result<bool>)
    ensures r.Raised? <==> !(v.Object? || v.List? || v.Str?)
    ensures v.Object? ==> r == Ok(key in v.fields)
    ensures v.List? ==> r == Ok(exists k | 0 <= k < |v.items| :: v.items[k] == Str(key))
  {
    match v
    case Object(m) => Ok(key in m)
    case List(xs) => Ok(Str(key) in xs)
    case Str(s) => Ok(IsSubstring(key, s))
    case _ => Raised
  }

  /** `v[key]` with a string key: only a dict that has the key answers;
      a missing key is a KeyError, a list or string a TypeError. */
  function Index(v: Value, key: string): (r: Result<Value>)
    ensures r.Ok? <==> v.Object? && key in v.fields
    ensures r.Ok? ==> r.value == v.fields[key]
  {
    if v.Object? && key in v.fields then Ok(v.fields[key]) else Raised
  }

  /** `v.get(key, default)`: an AttributeError unless `v` is a dict. */
  function Get(v: Value, key: string, default: Value): (r: Result<Value>)
    ensures r.Raised? <==> !v.Object?
    ensures v.Object? && key in v.fields ==> r == Ok(v.fields[key])
    ensures v.Object? && key !in v.fields ==> r == Ok(default)
  {
    match v
    case Object(m) => Ok(if key in m then m[key] else default)
    case _ => Raised
  }

  /** `m.get(key, default)` on a value already known to be a dict. */
  function GetOr(m: map<string, Value>, key: string, default: Value): Value {
    if key in m then m[key] else default
  }

  /** `bool(v)`: None, False, zero and empty containers are falsy. */
  predicate Truthy(v: Value) {
    match v
    case Null => false
    case Bool(b) => b
    case Int(i) => i != 0
    case Real(r) => r != 0.0
    case Str(s) => |s| > 0
    case List(xs) => |xs| > 0
    case Object(m) => |m| > 0
  }

  /** The value as a Python number: bools are the integers 0 and 1. */
  function AsNumber(v: Value): Option<real> {
    match v
    case Bool(b) => Some(if b then 1.0 else 0.0)
    case Int(i) => Some(i as real)
    case Real(r) => Some(r)
    case _ => None
  }

  /** `v == True` under Python's equality: True, 1 and 1.0 all compare equal to it. */
  predicate EqualsTrue(v: Value) {
    v == Bool(true) || v == Int(1) || v == Real(1.0)
  }

  /** `v[0]`: the first element of a list, the first character of a string. */
  function First(v: Value): (r: Result<Value>)
    ensures v.List? && |v.items| > 0 ==> r == Ok(v.items[0])
    ensures r.Ok? ==> v.List? || v.Str?
  {
    match v
    case List(xs) => if |xs| == 0 then Raised else Ok(xs[0])
    case Str(s) => if |s| == 0 then Raised else Ok(Str([s[0]]))
    case _ => Raised
  }

  /** The elements a `for` loop visits, which exist exactly where `len`
      does not raise: a list's items, a string's characters, a dict's keys.
      A map keeps no insertion order, so the keys come in code-point order;
      every loop the scripts run over iterated keys either raises on one of
      them or treats each key alike as a non-dict, which no order changes. */
  function Members(v: Value): (r: Option<seq<Value>>)
    ensures r.Some? <==> v.List? || v.Str? || v.Object?
    ensures v.List? ==> r == Some(v.items)
    ensures v.Str? ==> (r.Some? && |r.value| == |v.s| &&
      forall k | 0 <= k < |v.s| :: r.value[k] == Str([v.s[k]]))
    ensures v.Object? ==> (r.Some? && |r.value| == |v.fields| &&
      forall key: string :: Str(key) in r.value <==> key in v.fields)
    ensures r.Some? ==> forall k | 0 <= k < |r.value| :: v.List? || r.value[k].Str?
  {
    match v
    case List(xs) => Some(xs)
    case Str(s) => Some(seq(|s|, k requires 0 <= k < |s| => Str([s[k]])))
    case Object(m) =>
      var ks := Keys(m.Keys);
      var members := seq(|ks|, k requires 0 <= k < |ks| => Str(ks[k]));
      assert forall key: string :: Str(key) in members <==> key in ks by {
        forall key: string | key in ks
          ensures Str(key) in members
        {
          var k :| 0 <= k < |ks| && ks[k] == key;
          assert members[k] == Str(key);
        }
      }
      Some(members)
    case _ => None
  }

  /** `a` comes no later than `b` in code-point order. */
  predicate KeyBefore(a: string, b: string) {
    a == [] || (b != [] && (a[0] < b[0] || (a[0] == b[0] && KeyBefore(a[1..], b[1..]))))
  }

  lemma {:induction false} KeyBeforeTotal(a: string, b: string)
    ensures KeyBefore(a, b) || KeyBefore(b, a)
  {
    if a != [] && b != [] && a[0] == b[0] {
      KeyBeforeTotal(a[1..], b[1..]);
    }
  }

  lemma {:induction false} KeyBeforeAntisymmetric(a: string, b: string)
    requires KeyBefore(a, b) && KeyBefore(b, a)
    ensures a == b
  {
    if a != [] && b != [] {
      KeyBeforeAntisymmetric(a[1..], b[1..]);
      assert a == [a[0]] + a[1..] && b == [b[0]] + b[1..];
    }
  }

  lemma {:induction false} KeyBeforeTransitive(a: string, b: string, c: string)
    requires KeyBefore(a, b) && KeyBefore(b, c)
    ensures KeyBefore(a, c)
  {
    if a != [] && b != [] && c != [] && a[0] == b[0] && b[0] == c[0] {
      KeyBeforeTransitive(a[1..], b[1..], c[1..]);
    }
  }

  /** Whether `k` is the first of `keys` in code-point order. */
  predicate Least(k: string, keys: set<string>) {
    k in keys && forall j | j in keys :: KeyBefore(k, j)
  }

  lemma {:induction false} LeastExists(keys: set<string>)
    requires keys != {}
    ensures exists k :: Least(k, keys)
    decreases |keys|
  {
    var x :| x in keys;
    if keys == {x} {
      KeyBeforeTotal(x, x);
      assert Least(x, keys);
    } else {
      LeastExists(keys - {x});
      var k :| Least(k, keys - {x});
      KeyBeforeTotal(k, x);
      if KeyBefore(k, x) {
        assert Least(k, keys);
      } else {
        forall j | j in keys
          ensures KeyBefore(x, j)
        {
          if j != x {
            KeyBeforeTransitive(x, k, j);
          } else {
            KeyBeforeTotal(x, x);
          }
        }
        assert Least(x, keys);
      }
    }
  }

  lemma LeastUnique(keys: set<string>)
    ensures forall a, b | Least(a, keys) && Least(b, keys) :: a == b
  {
    forall a, b | Least(a, keys) && Least(b, keys)
      ensures a == b
    {
      KeyBeforeAntisymmetric(a, b);
    }
  }

  /** The keys of a dict, each once, in code-point order. */
  function Keys(keys: set<string>): (ks: seq<string>)
    ensures |ks| == |keys|
    ensures forall key :: key in ks <==> key in keys
    decreases |keys|
  {
    if keys == {} then []
    else
      LeastExists(keys);
      LeastUnique(keys);
      var k :| Least(k, keys);
      [k] + Keys(keys - {k})
  }
}
