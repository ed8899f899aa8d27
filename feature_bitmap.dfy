/**
 * Cluster feature bitmaps: a set of feature flags held as an object whose
 * keys are feature codes or names and whose values are booleans.
 * `FeatureBitmap` normalises a list of flag names (or nothing) into such an
 * object; `TranslateBitmap` renames the keys of a bitmap from feature codes
 * to feature names through the cluster's feature map.
 */
module ClusterVariance {
  import opened Wrappers
  import opened ObjectEntries

  /** A list of feature names, `string[]`. */
  type FeatureFlags = seq<string>

  /** A feature bitmap object `{ [name: string]: boolean }`, as its entries in property order. */
  type Bitmap = seq<Entry>

  /** The argument of `FeatureBitmap`: either a list of names or a bitmap object. */
  datatype FeatureInput = FlagList(flags: FeatureFlags) | BitmapObject(bitmap: Bitmap)

  /** `flags.map(name => [name, true])`. */
  function FlagEntries(flags: FeatureFlags): (es: seq<Entry>)
    ensures Names(es) == flags
  {
    seq(|flags|, i requires 0 <= i < |flags| => Entry(flags[i], true))
  }

  /**
   * `FeatureBitmap(bitmap = {})`: `None` is the omitted argument. A list
   * becomes an object with one `true` key per distinct name, in order of
   * first occurrence; a bitmap object is returned as it is.
   */
  function FeatureBitmap(arg: Option<FeatureInput>): (r: Bitmap)
    ensures arg.None? ==> r == []
    ensures arg.Some? && arg.value.BitmapObject? ==> r == arg.value.bitmap
    ensures arg.Some? && arg.value.FlagList? ==>
              var flags := arg.value.flags;
              && IsObject(r)
              && Names(r) == Dedup(flags)
              && (forall name :: Get(r, name) == if name in flags then Some(true) else None)
              && |r| <= |flags|
              && (|r| == |flags| <==> Distinct(flags))
  {
    match arg
    case None => []
    case Some(BitmapObject(bitmap)) => bitmap
    case Some(FlagList(flags)) =>
      var es := FlagEntries(flags);
      FromEntriesSpec(es);
      forall name ensures LastValue(es, name) == if name in flags then Some(true) else None {
        LastValueDefined(es, name);
        if name in flags {
          var v := LastValue(es, name).value;
          LastValueIsLast(es, name, v);
        }
      }
      FromEntries(es)
  }

  /**
   * The part of a cluster model the translation reads: `featureMap.get(DatatypeModel, code)`
   * as a partial map from feature code to the feature's optional description.
   */
  datatype ClusterModel = ClusterModel(featureMap: map<string, Option<string>>)

  /** `camelize(text, upperFirst)`, whose definition is not part of this model. */
  type Camelize = (string, bool) -> string

  /**
   * The new key of feature code `code`: `camelize(feature?.description ?? code, false)`.
   * Only a missing feature or a missing description falls back to the code;
   * an empty description is still used. The fallback is camelized too.
   */
  function FeatureName(cluster: ClusterModel, camelize: Camelize, code: string): (name: string)
    ensures code in cluster.featureMap && cluster.featureMap[code].Some? ==>
              name == camelize(cluster.featureMap[code].value, false)
    ensures code !in cluster.featureMap || cluster.featureMap[code].None? ==>
              name == camelize(code, false)
  {
    var feature := if code in cluster.featureMap then cluster.featureMap[code] else None;
    var text := if feature.Some? then feature.value else code;
    camelize(text, false)
  }

  /** `Object.entries(bitmap).map(([k, v]) => [FeatureName(k), v])`. */
  function Renamed(bitmap: Bitmap, cluster: ClusterModel, camelize: Camelize): (es: seq<Entry>)
    ensures Names(es) == seq(|bitmap|, i requires 0 <= i < |bitmap| => FeatureName(cluster, camelize, bitmap[i].name))
  {
    seq(|bitmap|, i requires 0 <= i < |bitmap| => Entry(FeatureName(cluster, camelize, bitmap[i].name), bitmap[i].value))
  }

  /**
   * `translateBitmap(bitmap, cluster)`: `Object.fromEntries` of the renamed
   * entries, so the result is an object again and never has more keys than
   * the input.
   */
  function TranslateBitmap(bitmap: Bitmap, cluster: ClusterModel, camelize: Camelize): (r: Bitmap)
    ensures IsObject(r)
    ensures |r| <= |bitmap|
    ensures bitmap == [] ==> r == []
  {
    var es := Renamed(bitmap, cluster, camelize);
    FromEntriesSpec(es);
    FromEntries(es)
  }

  /** The keys of the result are exactly the translated keys of the input. */
  lemma TranslateKeys(bitmap: Bitmap, cluster: ClusterModel, camelize: Camelize, name: string)
    ensures name in Names(TranslateBitmap(bitmap, cluster, camelize)) <==>
              exists i :: 0 <= i < |bitmap| && FeatureName(cluster, camelize, bitmap[i].name) == name
  {
    var es := Renamed(bitmap, cluster, camelize);
    FromEntriesSpec(es);
    if name in Names(es) {
      var i :| 0 <= i < |es| && Names(es)[i] == name;
      assert FeatureName(cluster, camelize, bitmap[i].name) == name;
    }
    if exists i :: 0 <= i < |bitmap| && FeatureName(cluster, camelize, bitmap[i].name) == name {
      var i :| 0 <= i < |bitmap| && FeatureName(cluster, camelize, bitmap[i].name) == name;
      assert Names(es)[i] == name;
    }
  }

  /** No new values: each value of the result is the value of an input key translating to its key. */
  lemma TranslateValues(bitmap: Bitmap, cluster: ClusterModel, camelize: Camelize, name: string, v: bool)
    requires Get(TranslateBitmap(bitmap, cluster, camelize), name) == Some(v)
    ensures exists i :: 0 <= i < |bitmap| && FeatureName(cluster, camelize, bitmap[i].name) == name && bitmap[i].value == v
  {
    var es := Renamed(bitmap, cluster, camelize);
    FromEntriesGet(es, name);
    LastValueIsLast(es, name, v);
    var i :| 0 <= i < |es| && es[i] == Entry(name, v) && forall j :: i < j < |es| ==> es[j].name != name;
    assert FeatureName(cluster, camelize, bitmap[i].name) == name && bitmap[i].value == v;
  }

  /** The result has as many keys as the input exactly when the translated keys are distinct. */
  lemma TranslateSize(bitmap: Bitmap, cluster: ClusterModel, camelize: Camelize)
    ensures |TranslateBitmap(bitmap, cluster, camelize)| == |bitmap| <==>
              forall i, j :: 0 <= i < j < |bitmap| ==>
                FeatureName(cluster, camelize, bitmap[i].name) != FeatureName(cluster, camelize, bitmap[j].name)
  {
    var es := Renamed(bitmap, cluster, camelize);
    FromEntriesSpec(es);
    assert forall i :: 0 <= i < |bitmap| ==> Names(es)[i] == FeatureName(cluster, camelize, bitmap[i].name);
  }

  /**
   * When several keys translate to the same name the later entry wins: a key
   * no later entry collides with keeps its value under its new name.
   */
  lemma TranslateLaterWins(bitmap: Bitmap, cluster: ClusterModel, camelize: Camelize, i: nat)
    requires i < |bitmap|
    requires forall j :: i < j < |bitmap| ==>
               FeatureName(cluster, camelize, bitmap[j].name) != FeatureName(cluster, camelize, bitmap[i].name)
    ensures Get(TranslateBitmap(bitmap, cluster, camelize), FeatureName(cluster, camelize, bitmap[i].name)) ==
              Some(bitmap[i].value)
  {
    var es := Renamed(bitmap, cluster, camelize);
    var name := FeatureName(cluster, camelize, bitmap[i].name);
    assert es[i] == Entry(name, bitmap[i].value);
    assert forall j :: i < j < |es| ==> es[j].name != name by {
      forall j | i < j < |es| ensures es[j].name != name {
        assert es[j].name == FeatureName(cluster, camelize, bitmap[j].name);
      }
    }
    FromEntriesGet(es, name);
    LastValueIsLast(es, name, bitmap[i].value);
  }

  /**
   * When the translation is one-to-one on the bitmap's keys, nothing is lost:
   * the result has as many keys as the input and every key's value moves to
   * its new name unchanged.
   */
  lemma TranslateInjective(bitmap: Bitmap, cluster: ClusterModel, camelize: Camelize)
    requires forall i, j :: 0 <= i < |bitmap| && 0 <= j < |bitmap| && i != j ==>
               FeatureName(cluster, camelize, bitmap[i].name) != FeatureName(cluster, camelize, bitmap[j].name)
    ensures |TranslateBitmap(bitmap, cluster, camelize)| == |bitmap|
    ensures forall i :: 0 <= i < |bitmap| ==>
              Get(TranslateBitmap(bitmap, cluster, camelize), FeatureName(cluster, camelize, bitmap[i].name)) ==
              Some(bitmap[i].value)
  {
    TranslateSize(bitmap, cluster, camelize);
    forall i | 0 <= i < |bitmap|
      ensures Get(TranslateBitmap(bitmap, cluster, camelize), FeatureName(cluster, camelize, bitmap[i].name)) ==
              Some(bitmap[i].value)
    {
      TranslateLaterWins(bitmap, cluster, camelize, i);
    }
  }
}
