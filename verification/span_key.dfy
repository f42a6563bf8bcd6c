/**
 The equivalence key of an annotation (the private class `AnnotationSpan`
 built by `createAnnotationSpan`): two annotations are merged exactly when
 their keys are equal as values.
 */
module SpanKey {
  import opened Annotations

  /** The tuple `(start, end, comparisonName, keyFeatures)`. Java's `equals`
      compares all four fields, the map by its entries, which is Dafny's
      structural equality on this datatype. */
  datatype Key<V> = Key(
    start: int,
    end: int,
    compareName: string,
    keyFeatures: map<string, V>)

  /** The identity features of `a`: its whole feature map when every feature
      counts, otherwise the configured names `a` carries, with `a`'s values. */
  function KeyFeatures<V>(cfg: Config, a: Annotation<V>): (kf: map<string, V>)
    ensures forall name {:trigger name in kf} :: name in kf <==> name in a.features && IsIdentityFeature(cfg, name)
    ensures forall name {:trigger kf[name]} :: name in kf ==> kf[name] == a.features[name]
  {
    if cfg.byAllAnnotFeatures then a.features
    else map name | name in cfg.bySpecificAnnotFeatures && name in a.features :: a.features[name]
  }

  /** The key of `a` under `cfg` (`createAnnotationSpan`). */
  function KeyOf<V>(cfg: Config, a: Annotation<V>): (k: Key<V>)
    ensures k.start == a.start && k.end == a.end
    ensures cfg.bySameAnnotName ==> k.compareName == a.typeName
    ensures !cfg.bySameAnnotName ==> k.compareName == DefaultAnnotationCompareName
    ensures forall name {:trigger name in k.keyFeatures} :: name in k.keyFeatures <==> name in a.features && IsIdentityFeature(cfg, name)
    ensures forall name {:trigger k.keyFeatures[name]} :: name in k.keyFeatures ==> k.keyFeatures[name] == a.features[name]
  {
    var compareName := if cfg.bySameAnnotName then a.typeName else DefaultAnnotationCompareName;
    Key(a.start, a.end, compareName, KeyFeatures(cfg, a))
  }

  /** With every feature in the key, the key carries the whole feature map,
      and without any configured name it carries none. */
  lemma KeyFeaturesExtremes<V>(cfg: Config, a: Annotation<V>)
    ensures cfg.byAllAnnotFeatures ==> KeyOf(cfg, a).keyFeatures == a.features
    ensures !cfg.byAllAnnotFeatures && cfg.bySpecificAnnotFeatures == {} ==> KeyOf(cfg, a).keyFeatures == map[]
  {
  }

  /** `createAnnotationSpan` as written: copy the whole feature map, or walk
      the configured names and copy those the annotation carries. */
  method CreateAnnotationSpan<V>(cfg: Config, a: Annotation<V>) returns (k: Key<V>)
    ensures k == KeyOf(cfg, a)
  {
    var featuresTmp: map<string, V> := map[];
    if cfg.byAllAnnotFeatures {
      featuresTmp := a.features;
    } else {
      var remaining := cfg.bySpecificAnnotFeatures;
      while remaining != {}
        invariant remaining <= cfg.bySpecificAnnotFeatures
        invariant forall name :: name in featuresTmp <==>
          name in cfg.bySpecificAnnotFeatures - remaining && name in a.features
        invariant forall name :: name in featuresTmp ==> featuresTmp[name] == a.features[name]
        decreases remaining
      {
        var name :| name in remaining;
        if name in a.features {
          featuresTmp := featuresTmp[name := a.features[name]];
        }
        remaining := remaining - {name};
      }
    }
    if cfg.bySameAnnotName {
      k := Key(a.start, a.end, a.typeName, featuresTmp);
    } else {
      k := Key(a.start, a.end, DefaultAnnotationCompareName, featuresTmp);
    }
  }

  /** Two annotations are merged together. */
  predicate Equivalent<V(==)>(cfg: Config, a: Annotation<V>, b: Annotation<V>) {
    KeyOf(cfg, a) == KeyOf(cfg, b)
  }

  /** What "same annotation" means: same span, same type when types are
      compared, and the same identity features with the same values. */
  lemma EquivalentIff<V>(cfg: Config, a: Annotation<V>, b: Annotation<V>)
    ensures Equivalent(cfg, a, b) <==>
      && a.start == b.start
      && a.end == b.end
      && (cfg.bySameAnnotName ==> a.typeName == b.typeName)
      && (forall name :: IsIdentityFeature(cfg, name) ==> (name in a.features <==> name in b.features))
      && (forall name :: IsIdentityFeature(cfg, name) && name in a.features && name in b.features ==>
            a.features[name] == b.features[name])
  {
    var ka, kb := KeyOf(cfg, a), KeyOf(cfg, b);
    if
      && a.start == b.start
      && a.end == b.end
      && (cfg.bySameAnnotName ==> a.typeName == b.typeName)
      && (forall name :: IsIdentityFeature(cfg, name) ==> (name in a.features <==> name in b.features))
      && (forall name :: IsIdentityFeature(cfg, name) && name in a.features && name in b.features ==>
            a.features[name] == b.features[name])
    {
      assert ka.keyFeatures.Keys == kb.keyFeatures.Keys;
      assert ka.keyFeatures == kb.keyFeatures;
    }
    if ka == kb {
      forall name | IsIdentityFeature(cfg, name) && name in a.features
        ensures name in b.features && a.features[name] == b.features[name]
      {
        assert name in ka.keyFeatures && ka.keyFeatures[name] == a.features[name];
        assert name in kb.keyFeatures && kb.keyFeatures[name] == b.features[name];
      }
      forall name | IsIdentityFeature(cfg, name) && name in b.features
        ensures name in a.features
      {
        assert name in kb.keyFeatures;
        assert name in ka.keyFeatures;
      }
    }
  }

  /** Key equality is an equivalence relation on annotations. */
  lemma EquivalenceRelation<V>(cfg: Config, a: Annotation<V>, b: Annotation<V>, c: Annotation<V>)
    ensures Equivalent(cfg, a, a)
    ensures Equivalent(cfg, a, b) ==> Equivalent(cfg, b, a)
    ensures Equivalent(cfg, a, b) && Equivalent(cfg, b, c) ==> Equivalent(cfg, a, c)
  {
  }
}
