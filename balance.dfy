/** The class-balancing script (MapParser/usuwanie_balansowanie.py): the
    features of a GeoJSON document are split by their
    `asbestosPixelCount`, both groups are shuffled and cut to the size of
    the smaller one, and the union is shuffled and written out as a new
    feature collection. Reading and writing the files is not modelled; the
    document is the decoded JSON value. */
module Balance {
  import opened Wrappers
  import opened Json
  import opened Seqs
  import Shuffling

  /** `f['properties'].get('asbestosPixelCount', 0)` as a number: the
      lookups raise for a feature that is no dict or has no dict
      `properties`, and the comparison with 0 raises for a count that is no
      number. */
  function PixelCount(f: Value): (r: Result<real>)
    ensures r.Ok? <==> (f.Object? && "properties" in f.fields && f.fields["properties"].Object? &&
      AsNumber(GetOr(f.fields["properties"].fields, "asbestosPixelCount", Int(0))).Some?)
    ensures r.Ok? ==> Some(r.value) == AsNumber(GetOr(f.fields["properties"].fields, "asbestosPixelCount", Int(0)))
    ensures (f.Object? && "properties" in f.fields && f.fields["properties"].Object? &&
             "asbestosPixelCount" !in f.fields["properties"].fields) ==> r == Ok(0.0)
  {
    var properties :- Index(f, "properties");
    var count :- Get(properties, "asbestosPixelCount", Int(0));
    match AsNumber(count) case Some(x) => Ok(x) case None => Raised
  }

  predicate WithAsbestos(f: Value) { PixelCount(f).Ok? && PixelCount(f).value > 0.0 }
  predicate WithoutAsbestos(f: Value) { PixelCount(f).Ok? && PixelCount(f).value == 0.0 }
  predicate NegativeCount(f: Value) { PixelCount(f).Ok? && PixelCount(f).value < 0.0 }

  /** `data['features']`, which the comprehensions then iterate. */
  function Features(data: Value): (r: Result<seq<Value>>)
    ensures r.Ok? <==> data.Object? && "features" in data.fields && Members(data.fields["features"]).Some?
    ensures r.Ok? ==> r.value == Members(data.fields["features"]).value
  {
    var features :- Index(data, "features");
    match Members(features) case Some(fs) => Ok(fs) case None => Raised
  }

  /** The two comprehensions: the first one visits every feature, so one
      count it cannot compare ends the script there. */
  function Groups(data: Value): (r: Result<(seq<Value>, seq<Value>)>)
    ensures r.Ok? <==> (Features(data).Ok? &&
      forall k | 0 <= k < |Features(data).value| :: PixelCount(Features(data).value[k]).Ok?)
  {
    var features :- Features(data);
    if forall k | 0 <= k < |features| :: PixelCount(features[k]).Ok? then
      Ok((Filter(features, WithAsbestos), Filter(features, WithoutAsbestos)))
    else Raised
  }

  /** Every feature is in one group or has a negative count, which puts it
      in neither; the two groups hold different features of the input. */
  lemma Partition(data: Value)
    requires Groups(data).Ok?
    ensures var features, g := Features(data).value, Groups(data).value;
      |g.0| + |g.1| + Count(features, NegativeCount) == |features| &&
      multiset(g.0) + multiset(g.1) <= multiset(features)
  {
    var features := Features(data).value;
    FilterCount(features, WithAsbestos);
    FilterCount(features, WithoutAsbestos);
    ThreeWay(features);
    FiltersDisjoint(features, WithAsbestos, WithoutAsbestos);
  }

  lemma {:induction false} ThreeWay(features: seq<Value>)
    requires forall k | 0 <= k < |features| :: PixelCount(features[k]).Ok?
    ensures Count(features, WithAsbestos) + Count(features, WithoutAsbestos) + Count(features, NegativeCount) == |features|
  {
    if features != [] {
      var init := features[..|features| - 1];
      assert forall k | 0 <= k < |init| :: init[k] == features[k];
      ThreeWay(init);
    }
  }

  /** The document written out: the type and name are fixed, the `crs` is
      the input's (None when it has none). */
  function Document(data: map<string, Value>, balanced: seq<Value>): (d: Value)
    ensures d.Object? && d.fields.Keys == {"type", "name", "crs", "features"}
    ensures d.fields["type"] == Str("FeatureCollection") && d.fields["name"] == Str("buildings")
    ensures d.fields["crs"] == (if "crs" in data then data["crs"] else Null)
    ensures d.fields["features"] == List(balanced)
  {
    Object(map["type" := Str("FeatureCollection"), "name" := Str("buildings"),
               "crs" := GetOr(data, "crs", Null), "features" := List(balanced)])
  }

  function Min(a: nat, b: nat): nat { if a <= b then a else b }

  /** `balanced` holds exactly `m` features of each group, none twice and
      none that the input lacks. */
  predicate IsBalanced(features: seq<Value>, balanced: seq<Value>, m: nat) {
    |balanced| == 2 * m &&
    Count(balanced, WithAsbestos) == m && Count(balanced, WithoutAsbestos) == m &&
    multiset(balanced) <= multiset(features)
  }

  method ToArray(s: seq<Value>) returns (a: array<Value>)
    ensures fresh(a) && a[..] == s
  {
    a := new Value[|s|](k requires 0 <= k < |s| => s[k]);
  }

  /** The whole script after `json.load`: three shuffles, each with its own
      random draws. */
  method BalanceFeatures(data: Value, pickWith: nat -> nat, pickWithout: nat -> nat, pickAll: nat -> nat)
    returns (r: Result<Value>)
    ensures r.Raised? <==> Groups(data).Raised?
    ensures r.Ok? ==> (data.Object? && Groups(data).Ok? &&
      var g := Groups(data).value;
      exists balanced | r.value == Document(data.fields, balanced) ::
        IsBalanced(Features(data).value, balanced, Min(|g.0|, |g.1|)))
  {
    var groups := Groups(data);
    if groups.Raised? {
      return Raised;
    }
    var features := Features(data).value;
    var buildingsWith := ToArray(groups.value.0);
    var buildingsWithout := ToArray(groups.value.1);
    Shuffling.Shuffle(buildingsWith, pickWith);
    Shuffling.Shuffle(buildingsWithout, pickWithout);
    var minCount := Min(buildingsWith.Length, buildingsWithout.Length);
    var chosenWith, chosenWithout := buildingsWith[..minCount], buildingsWithout[..minCount];
    var balancedFeatures := ToArray(chosenWith + chosenWithout);
    Shuffling.Shuffle(balancedFeatures, pickAll);
    BalancedCounts(features, groups.value.0, groups.value.1, buildingsWith[..], buildingsWithout[..],
                   minCount, balancedFeatures[..]);
    r := Ok(Document(data.fields, balancedFeatures[..]));
  }

  /** The counting argument behind `BalanceFeatures`: the first `m` of a
      shuffled group are `m` members of that group, and a shuffle of the
      union keeps every count. */
  lemma BalancedCounts(features: seq<Value>, w: seq<Value>, wo: seq<Value>, sw: seq<Value>, swo: seq<Value>,
                       m: nat, balanced: seq<Value>)
    requires w == Filter(features, WithAsbestos) && wo == Filter(features, WithoutAsbestos)
    requires multiset(sw) == multiset(w) && multiset(swo) == multiset(wo)
    requires m <= |sw| && m <= |swo|
    requires multiset(balanced) == multiset(sw[..m] + swo[..m])
    ensures IsBalanced(features, balanced, m)
  {
    var both := sw[..m] + swo[..m];
    MembersKeep(w, sw, WithAsbestos);
    MembersKeep(wo, swo, WithoutAsbestos);
    HeadCounts(sw, swo, m);
    CountPermutation(balanced, both, WithAsbestos);
    CountPermutation(balanced, both, WithoutAsbestos);
    assert |balanced| == |multiset(balanced)| == |multiset(both)| == |both|;
    PrefixSub(sw, m);
    PrefixSub(swo, m);
    FiltersDisjoint(features, WithAsbestos, WithoutAsbestos);
    assert multiset(both) == multiset(sw[..m]) + multiset(swo[..m]);
  }

  /** `m` features with asbestos followed by `m` without hold `m` of each. */
  lemma HeadCounts(sw: seq<Value>, swo: seq<Value>, m: nat)
    requires m <= |sw| && m <= |swo|
    requires forall k | 0 <= k < |sw| :: WithAsbestos(sw[k])
    requires forall k | 0 <= k < |swo| :: WithoutAsbestos(swo[k])
    ensures Count(sw[..m] + swo[..m], WithAsbestos) == m
    ensures Count(sw[..m] + swo[..m], WithoutAsbestos) == m
  {
    var a, b := sw[..m], swo[..m];
    forall k | 0 <= k < m
      ensures WithAsbestos(a[k]) && !WithoutAsbestos(a[k]) && WithoutAsbestos(b[k]) && !WithAsbestos(b[k])
    {
      assert a[k] == sw[k] && b[k] == swo[k];
    }
    CountSplit(a, b, WithAsbestos, WithoutAsbestos);
  }

  /** A permutation of a sequence whose elements all have `p` has only
      such elements. */
  lemma MembersKeep(s: seq<Value>, t: seq<Value>, p: Value -> bool)
    requires forall k | 0 <= k < |s| :: p(s[k])
    requires multiset(t) == multiset(s)
    ensures forall k | 0 <= k < |t| :: p(t[k])
  {
    forall k | 0 <= k < |t|
      ensures p(t[k])
    {
      assert t[k] in multiset(s);
      var j :| 0 <= j < |s| && s[j] == t[k];
    }
  }

  lemma PrefixSub(s: seq<Value>, m: nat)
    requires m <= |s|
    ensures multiset(s[..m]) <= multiset(s)
  {
    assert s == s[..m] + s[m..];
  }
}
