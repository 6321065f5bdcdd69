/** The asbestos label of a building record: the search over a fixed list
    of field names, the coercion of what it finds to an integer and the
    label statistics printed at the end of a run. The search and the
    coercion are written out identically in every labelling script
    (MapParser/download_buildings_with_labels.py,
    MapParser/download_buildings_with_labels_multithreaded.py,
    no_not_delete/adam.py). */
module Labels {
  import opened Wrappers
  import opened Json
  import Text
  import opened Seqs

  /** The field names tried, in order. */
  const LabelKeys: seq<string> :=
    ["asbestos", "has_asbestos", "azbest", "contains_asbestos", "isAsbestos", "asbestosPresent"]

  /** `properties = building.get('properties', building)`. */
  function Properties(building: map<string, Value>): Value {
    GetOr(building, "properties", Object(building))
  }

  /** The loop over `keys`: for each key, `key in properties` (which raises
      for a value that is no container) and then `properties[key]` (which
      raises for a list or string that contains the key), else
      `key in building` and `building[key]`; the first hit ends the loop.
      Null when no key is present, which the scripts cannot tell apart from
      a present null. */
  function Search(building: map<string, Value>, properties: Value, keys: seq<string>): (r: Result<Value>)
    ensures keys != [] && !(properties.Object? || properties.List? || properties.Str?) ==> r.Raised?
    decreases |keys|
  {
    if keys == [] then Ok(Null)
    else
      var inProperties :- Contains(properties, keys[0]);
      if inProperties then Index(properties, keys[0])
      else if keys[0] in building then Ok(building[keys[0]])
      else Search(building, properties, keys[1..])
  }

  /** The label value a building record carries, before coercion. */
  function Label(building: map<string, Value>): Result<Value> {
    Search(building, Properties(building), LabelKeys)
  }

  /** The `for key in [...]` loop with its two `break`s. */
  method FindLabel(building: map<string, Value>) returns (r: Result<Value>)
    ensures r == Label(building)
  {
    var properties := Properties(building);
    var keys := LabelKeys;
    var hasAsbestos := Null;
    var n := 0;
    while n < |keys|
      invariant 0 <= n <= |keys|
      invariant Search(building, properties, keys) == Search(building, properties, keys[n..])
    {
      var key := keys[n];
      var inProperties := Contains(properties, key);
      if inProperties.Raised? {
        return Raised;
      }
      if inProperties.value {
        r := Index(properties, key);
        return;
      }
      if key in building {
        hasAsbestos := building[key];
        return Ok(hasAsbestos);
      }
      assert keys[n..][1..] == keys[n + 1..];
      n := n + 1;
    }
    return Ok(hasAsbestos);
  }

  /** With `properties` a dict, the first key present in either record
      decides, and for a key present in both the properties' value wins. */
  lemma {:induction false} FirstKeyWins(building: map<string, Value>, properties: map<string, Value>,
                                       keys: seq<string>, k: nat)
    requires k < |keys| && (keys[k] in properties || keys[k] in building)
    requires forall j | 0 <= j < k :: keys[j] !in properties && keys[j] !in building
    ensures Search(building, Object(properties), keys) ==
      Ok(if keys[k] in properties then properties[keys[k]] else building[keys[k]])
    decreases k
  {
    if k > 0 {
      assert keys[0] !in properties && keys[0] !in building;
      assert forall j | 0 <= j < k - 1 :: keys[1..][j] == keys[j + 1];
      FirstKeyWins(building, properties, keys[1..], k - 1);
    }
  }

  /** With `properties` a dict and no key present anywhere, the search
      gives None. */
  lemma {:induction false} NoKeyPresent(building: map<string, Value>, properties: map<string, Value>, keys: seq<string>)
    requires forall j | 0 <= j < |keys| :: keys[j] !in properties && keys[j] !in building
    ensures Search(building, Object(properties), keys) == Ok(Null)
    decreases |keys|
  {
    if keys != [] {
      assert forall j | 0 <= j < |keys| - 1 :: keys[1..][j] == keys[j + 1];
      NoKeyPresent(building, properties, keys[1..]);
    }
  }

  /** A present null ends the search: a later key holding `True` is never
      read, and the label is 0. */
  lemma NullStopsSearch()
    ensures var building := map["asbestos" := Null, "azbest" := Bool(true)];
      Label(building) == Ok(Null) && Coerce(Null) == Ok(0)
  {
    var building := map["asbestos" := Null, "azbest" := Bool(true)];
    assert Properties(building) == Object(building);
    FirstKeyWins(building, building, LabelKeys, 0);
  }

  /** A `properties` value that is a string holding a key name makes the
      index raise, as `'abc'['asbestos']` does in Python. */
  lemma StringPropertiesRaise()
    ensures Label(map["properties" := Str("asbestos")]) == Raised
  {
    assert Text.LowerChar('a') == 'a';
    var s := "asbestos";
    assert s[..|"asbestos"|] == "asbestos";
  }

  /** `int(x)` for a float: truncation toward zero. */
  function Truncate(x: real): (t: int)
    ensures x >= 0.0 ==> t as real <= x < t as real + 1.0
    ensures x < 0.0 ==> t as real - 1.0 < x <= t as real
  {
    if x >= 0.0 then x.Floor else -((-x).Floor)
  }

  /** The words that make a string label 1. */
  const TrueWords: set<string> := {"true", "yes", "tak", "1"}

  /** The conversion chain after the search: None gives 0, a bool 0 or 1, a
      string 1 exactly when its lower case is one of the true words, and any
      other value `int(value) if value else 0`, which raises for a non-empty
      list or dict. */
  function Coerce(v: Value): (r: Result<int>)
    ensures r.Raised? <==> (v.List? || v.Object?) && Truthy(v)
    ensures v.Null? || v.Bool? || v.Str? ==> r.Ok? && 0 <= r.value <= 1
    ensures v.Bool? ==> (r.value == 1 <==> v.b)
    ensures v.Str? ==> (r.value == 1 <==> Text.Lower(v.s) in TrueWords)
    ensures v.Int? ==> r == Ok(v.i)
    ensures v.Real? ==> r.Ok? && r.value == Truncate(v.r)
    ensures !Truthy(v) ==> r == Ok(0)
  {
    match v
    case Null => Ok(0)
    case Bool(b) => Ok(if b then 1 else 0)
    case Str(s) => Ok(if Text.Lower(s) in TrueWords then 1 else 0)
    case Int(i) => Ok(i)
    case Real(x) => Ok(if x != 0.0 then Truncate(x) else 0)
    case List(xs) => if |xs| > 0 then Raised else Ok(0)
    case Object(m) => if |m| > 0 then Raised else Ok(0)
  }

  /** Upper-case spellings count: "TAK" and "Yes" are labels 1. */
  lemma CoerceIgnoresCase()
    ensures Coerce(Str("TAK")) == Ok(1) && Coerce(Str("Yes")) == Ok(1) && Coerce(Str("no")) == Ok(0)
  {
    assert Text.Lower("TAK") == "tak";
    assert Text.Lower("Yes") == "yes";
    assert Text.Lower("no") == "no";
  }

  // ---------------------------------------------------------------------
  // The statistics printed after a run.

  predicate IsOne(l: int) { l == 1 }
  predicate IsZero(l: int) { l == 0 }
  predicate IsBinary(l: int) { l == 0 || l == 1 }

  /** `asbestos_count` and `no_asbestos_count` over the saved labels. */
  function Statistics(labels: seq<int>): (r: (nat, nat)) {
    (Count(labels, IsOne), Count(labels, IsZero))
  }

  /** The two counts never exceed the rows, and add up to them exactly when
      every label is 0 or 1; a label such as 2 or -1, which a numeric field
      can give, is in neither count. */
  lemma {:induction false} StatisticsCover(labels: seq<int>)
    ensures Statistics(labels).0 + Statistics(labels).1 == Count(labels, IsBinary)
    ensures Statistics(labels).0 + Statistics(labels).1 <= |labels|
    ensures Statistics(labels).0 + Statistics(labels).1 == |labels| <==>
      forall k | 0 <= k < |labels| :: IsBinary(labels[k])
  {
    if labels != [] {
      StatisticsCover(labels[..|labels| - 1]);
    }
    CountAll(labels, IsBinary);
  }
}
