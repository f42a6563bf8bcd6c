/**
 Combining the feature maps of one group's members into the feature map of
 the merged annotation (the `switch` on the merge mode inside `execute`).
 The members are visited in an order the caller chooses, standing for the
 iteration order of the group's `HashSet`.
 */
module FeatureMerge {
  import opened Annotations
  import opened SpanKey

  /** The `FeatureMap` built for one group. */
  type Merged<V> = map<string, FeatureValue<V>>

  /** The feature names some member carries. */
  function FeatureNames<V(==)>(members: seq<Annotation<V>>): set<string> {
    set a, name | a in members && name in a.features :: name
  }

  /** The values the members carry for `name`. */
  function ValuesOf<V(==)>(members: seq<Annotation<V>>, name: string): set<V> {
    set a | a in members && name in a.features :: a.features[name]
  }

  /** `members[i]` is the first member, in visiting order, carrying `name`. */
  ghost predicate IsFirstWith<V>(members: seq<Annotation<V>>, name: string, i: int) {
    && 0 <= i < |members|
    && name in members[i].features
    && forall j :: 0 <= j < i ==> name !in members[j].features
  }

  /** The index of the first member, in visiting order, carrying `name`;
      `|members|` when none does. */
  function FirstCarrier<V>(members: seq<Annotation<V>>, name: string): (i: nat)
    ensures i <= |members|
    ensures i < |members| ==> IsFirstWith(members, name, i)
    ensures i == |members| ==> forall j :: 0 <= j < |members| ==> name !in members[j].features
    decreases |members|
  {
    if |members| == 0 then 0
    else if name in members[0].features then 0
    else 1 + FirstCarrier(members[1..], name)
  }

  /** Under MERGE a non-identity feature only ever holds a set of values, so
      the cast to `Collection` in the source always succeeds. */
  ghost predicate Shaped<V>(cfg: Config, fm: Merged<V>) {
    forall name :: name in fm && !IsIdentityFeature(cfg, name) ==> fm[name].Many?
  }

  /** The entries of one annotation folded into `fm` under MERGE: an identity
      feature keeps the value seen first; a non-identity feature collects its
      values in a set. The entries of one map have distinct names, so their
      order does not matter. */
  function MergeAnnotation<V(==)>(cfg: Config, fm: Merged<V>, a: Annotation<V>): (r: Merged<V>)
    requires Shaped(cfg, fm)
    ensures Shaped(cfg, r)
    ensures r.Keys == fm.Keys + a.features.Keys
  {
    map name | name in fm.Keys + a.features.Keys ::
      if name !in a.features then fm[name]
      else if IsIdentityFeature(cfg, name) then
        (if name in fm then fm[name] else Single(a.features[name]))
      else if name in fm then Many(fm[name].values + {a.features[name]})
      else Many({a.features[name]})
  }

  /** The entries of one annotation folded into `fm` under SELECT_ONE: a name
      already present keeps its value. */
  function SelectAnnotation<V(==)>(fm: Merged<V>, a: Annotation<V>): (r: Merged<V>)
    ensures r.Keys == fm.Keys + a.features.Keys
    ensures forall name :: name in fm ==> r[name] == fm[name]
  {
    map name | name in fm.Keys + a.features.Keys ::
      if name in fm then fm[name] else Single(a.features[name])
  }

  /** The MERGE loop over the members in visiting order. */
  function MergeAll<V(==)>(cfg: Config, members: seq<Annotation<V>>): (fm: Merged<V>)
    ensures Shaped(cfg, fm)
    decreases |members|
  {
    if |members| == 0 then map[]
    else MergeAnnotation(cfg, MergeAll(cfg, members[..|members| - 1]), members[|members| - 1])
  }

  /** The SELECT_ONE loop over the members in visiting order. */
  function SelectAll<V(==)>(members: seq<Annotation<V>>): (fm: Merged<V>)
    ensures forall name :: name in fm ==> fm[name].Single?
    decreases |members|
  {
    if |members| == 0 then map[]
    else SelectAnnotation(SelectAll(members[..|members| - 1]), members[|members| - 1])
  }

  lemma FeatureNamesSnoc<V>(members: seq<Annotation<V>>, a: Annotation<V>)
    ensures FeatureNames(members + [a]) == FeatureNames(members) + a.features.Keys
  {
    var all := members + [a];
    forall name | name in FeatureNames(all) ensures name in FeatureNames(members) + a.features.Keys {
      var b :| b in all && name in b.features;
      if b != a {
        assert b in members;
      }
    }
    forall name | name in FeatureNames(members) + a.features.Keys ensures name in FeatureNames(all) {
      if name !in a.features {
        var b :| b in members && name in b.features;
        assert b in all;
      } else {
        assert a in all;
      }
    }
  }

  lemma ValuesOfSnoc<V>(members: seq<Annotation<V>>, a: Annotation<V>, name: string)
    ensures ValuesOf(members + [a], name) ==
      ValuesOf(members, name) + (if name in a.features then {a.features[name]} else {})
  {
    var all := members + [a];
    forall v | v in ValuesOf(all, name)
      ensures v in ValuesOf(members, name) + (if name in a.features then {a.features[name]} else {})
    {
      var b :| b in all && name in b.features && b.features[name] == v;
      if b != a {
        assert b in members;
      }
    }
    forall v | v in ValuesOf(members, name) ensures v in ValuesOf(all, name) {
      var b :| b in members && name in b.features && b.features[name] == v;
      assert b in all;
    }
    assert name in a.features ==> a in all;
  }

  /** A name first carried by the last member was carried by no earlier one. */
  lemma FirstAtEnd<V>(members: seq<Annotation<V>>, a: Annotation<V>, name: string)
    requires IsFirstWith(members + [a], name, |members|)
    ensures name !in FeatureNames(members)
  {
    forall b | b in members ensures name !in b.features {
      var j :| 0 <= j < |members| && members[j] == b;
      assert (members + [a])[j] == b;
    }
  }

  /** One MERGE step adds a carried value to a non-identity feature's set. */
  lemma MergeStepCollects<V>(cfg: Config, prev: Merged<V>, a: Annotation<V>, name: string, values: set<V>)
    requires Shaped(cfg, prev) && !IsIdentityFeature(cfg, name)
    requires name in prev ==> prev[name] == Many(values)
    requires name !in prev ==> values == {}
    requires name in prev || name in a.features
    ensures MergeAnnotation(cfg, prev, a)[name] ==
      Many(values + (if name in a.features then {a.features[name]} else {}))
  {
  }

  /** One MERGE step keeps an identity feature already present, and takes
      the carried value of one not yet present. */
  lemma MergeStepIdentity<V>(cfg: Config, prev: Merged<V>, a: Annotation<V>, name: string)
    requires Shaped(cfg, prev) && IsIdentityFeature(cfg, name)
    requires name in prev || name in a.features
    ensures name in prev ==> MergeAnnotation(cfg, prev, a)[name] == prev[name]
    ensures name !in prev ==> MergeAnnotation(cfg, prev, a)[name] == Single(a.features[name])
  {
  }

  /** MERGE, stated without the loop: the result names exactly the members'
      features; a non-identity feature holds the set of all values members
      carry for it; an identity feature holds the value of its first
      carrier, never a set. */
  lemma {:induction false} MergeAllSpec<V>(cfg: Config, members: seq<Annotation<V>>)
    ensures MergeAll(cfg, members).Keys == FeatureNames(members)
    ensures forall name :: name in MergeAll(cfg, members) && !IsIdentityFeature(cfg, name) ==>
      MergeAll(cfg, members)[name] == Many(ValuesOf(members, name))
    ensures forall name, i :: IsFirstWith(members, name, i) && IsIdentityFeature(cfg, name) ==>
      MergeAll(cfg, members)[name] == Single(members[i].features[name])
    decreases |members|
  {
    if |members| > 0 {
      var p, a := members[..|members| - 1], members[|members| - 1];
      assert members == p + [a];
      MergeAllSpec(cfg, p);
      FeatureNamesSnoc(p, a);
      var prev, r := MergeAll(cfg, p), MergeAll(cfg, members);
      assert r == MergeAnnotation(cfg, prev, a);
      forall name | name in r && !IsIdentityFeature(cfg, name)
        ensures r[name] == Many(ValuesOf(members, name))
      {
        ValuesOfSnoc(p, a, name);
        MergeStepCollects(cfg, prev, a, name, ValuesOf(p, name));
      }
      forall name, i | IsFirstWith(members, name, i) && IsIdentityFeature(cfg, name)
        ensures r[name] == Single(members[i].features[name])
      {
        if i < |p| {
          assert members[i] == p[i];
          assert IsFirstWith(p, name, i);
          assert name in prev by {
            assert p[i] in p;
          }
        } else {
          FirstAtEnd(p, a, name);
        }
        MergeStepIdentity(cfg, prev, a, name);
      }
    }
  }

  /** SELECT_ONE, stated without the loop: the result names exactly the
      members' features, each holding the value of its first carrier. */
  lemma {:induction false} SelectAllSpec<V>(members: seq<Annotation<V>>)
    ensures SelectAll(members).Keys == FeatureNames(members)
    ensures forall name, i :: IsFirstWith(members, name, i) ==>
      SelectAll(members)[name] == Single(members[i].features[name])
    decreases |members|
  {
    if |members| > 0 {
      var p, a := members[..|members| - 1], members[|members| - 1];
      assert members == p + [a];
      SelectAllSpec(p);
      FeatureNamesSnoc(p, a);
      var r := SelectAll(members);
      forall name, i | IsFirstWith(members, name, i)
        ensures r[name] == Single(members[i].features[name])
      {
        if i < |p| {
          assert members[i] == p[i];
          assert IsFirstWith(p, name, i);
        } else {
          FirstAtEnd(p, a, name);
        }
      }
    }
  }

  /** The feature map of one group under the configured mode. In both modes
      it names exactly the features some member carries. */
  function MergeGroup<V(==)>(cfg: Config, members: seq<Annotation<V>>): (fm: Merged<V>)
    ensures fm.Keys == FeatureNames(members)
  {
    match cfg.featureMergeMode
    case Merge => MergeAllSpec(cfg, members); MergeAll(cfg, members)
    case SelectOne => SelectAllSpec(members); SelectAll(members)
  }

  /** SELECT_ONE on a group: each feature holds the value of the first member
      in visiting order that carries it, no set is introduced, and every name
      of the result has such a first carrier. */
  lemma SelectOneFirstWins<V>(cfg: Config, members: seq<Annotation<V>>)
    requires cfg.featureMergeMode == SelectOne
    ensures forall name, i :: IsFirstWith(members, name, i) ==>
      name in MergeGroup(cfg, members) && MergeGroup(cfg, members)[name] == Single(members[i].features[name])
    ensures forall name :: name in MergeGroup(cfg, members) ==> MergeGroup(cfg, members)[name].Single?
    ensures forall name :: name in MergeGroup(cfg, members) ==> IsFirstWith(members, name, FirstCarrier(members, name))
  {
    SelectAllSpec(members);
    forall name, i | IsFirstWith(members, name, i) ensures name in FeatureNames(members) {
      assert members[i] in members;
    }
    forall name | name in MergeGroup(cfg, members)
      ensures FirstCarrier(members, name) < |members|
    {
      assert name in FeatureNames(members);
      var a :| a in members && name in a.features;
      var j :| 0 <= j < |members| && members[j] == a;
    }
  }

  /** The identity features of a group's merged map are exactly those of the
      group's key, each holding the key's value verbatim, in both modes. */
  lemma IdentityFeaturesKept<V>(cfg: Config, members: seq<Annotation<V>>, k: Key<V>)
    requires |members| > 0
    requires forall a :: a in members ==> KeyOf(cfg, a) == k
    ensures forall name :: IsIdentityFeature(cfg, name) ==>
      (name in MergeGroup(cfg, members) <==> name in k.keyFeatures)
    ensures forall name :: name in k.keyFeatures ==>
      name in MergeGroup(cfg, members) && MergeGroup(cfg, members)[name] == Single(k.keyFeatures[name])
  {
    var r := MergeGroup(cfg, members);
    forall name | IsIdentityFeature(cfg, name) && name in r ensures name in k.keyFeatures {
      var b :| b in members && name in b.features;
      assert KeyOf(cfg, b) == k;
    }
    forall name | name in k.keyFeatures ensures name in r && r[name] == Single(k.keyFeatures[name]) {
      var first := members[0];
      assert KeyOf(cfg, first) == k;
      assert IsFirstWith(members, name, 0);
      assert name in FeatureNames(members);
      match cfg.featureMergeMode
      case Merge => MergeAllSpec(cfg, members);
      case SelectOne => SelectAllSpec(members);
    }
  }

  /** Every member carrying an identity feature carries the value the merged
      map holds for it. */
  lemma IdentityValueShared<V>(cfg: Config, members: seq<Annotation<V>>, k: Key<V>, a: Annotation<V>, name: string)
    requires forall b :: b in members ==> KeyOf(cfg, b) == k
    requires a in members && name in a.features && IsIdentityFeature(cfg, name)
    ensures name in MergeGroup(cfg, members) && MergeGroup(cfg, members)[name] == Single(a.features[name])
  {
    assert KeyOf(cfg, a) == k;
    IdentityFeaturesKept(cfg, members, k);
  }

  /** Feature names and value sets depend only on which members there are. */
  lemma SameMembers<V>(xs: seq<Annotation<V>>, ys: seq<Annotation<V>>, name: string)
    requires forall a :: a in xs ==> a in ys
    requires forall a :: a in ys ==> a in xs
    ensures FeatureNames(xs) == FeatureNames(ys)
    ensures ValuesOf(xs, name) == ValuesOf(ys, name)
  {
  }

  /** Under MERGE the merged map of a group does not depend on the order in
      which its members are visited. */
  lemma MergeIgnoresOrder<V>(cfg: Config, xs: seq<Annotation<V>>, ys: seq<Annotation<V>>, k: Key<V>)
    requires cfg.featureMergeMode == Merge
    requires forall a :: a in xs ==> a in ys
    requires forall a :: a in ys ==> a in xs
    requires forall a :: a in xs ==> KeyOf(cfg, a) == k
    ensures MergeGroup(cfg, xs) == MergeGroup(cfg, ys)
  {
    var rx, ry := MergeGroup(cfg, xs), MergeGroup(cfg, ys);
    SameMembers(xs, ys, "");
    assert rx.Keys == ry.Keys;
    forall name | name in rx ensures rx[name] == ry[name] {
      if IsIdentityFeature(cfg, name) {
        var b :| b in xs && name in b.features;
        IdentityValueShared(cfg, xs, k, b, name);
        IdentityValueShared(cfg, ys, k, b, name);
      } else {
        MergeNonIdentity(cfg, xs, name);
        MergeNonIdentity(cfg, ys, name);
        SameMembers(xs, ys, name);
      }
    }
  }

  /** Under MERGE a non-identity feature holds the set of its values. */
  lemma MergeNonIdentity<V>(cfg: Config, members: seq<Annotation<V>>, name: string)
    requires cfg.featureMergeMode == Merge
    requires name in MergeGroup(cfg, members) && !IsIdentityFeature(cfg, name)
    ensures MergeGroup(cfg, members)[name] == Many(ValuesOf(members, name))
  {
    MergeAllSpec(cfg, members);
  }

  /** MERGE on a group of one: identity features verbatim, every other
      feature as a one-element set. */
  lemma MergeSingleton<V>(cfg: Config, a: Annotation<V>)
    requires cfg.featureMergeMode == Merge
    ensures MergeGroup(cfg, [a]).Keys == a.features.Keys
    ensures forall name :: name in a.features && IsIdentityFeature(cfg, name) ==>
      MergeGroup(cfg, [a])[name] == Single(a.features[name])
    ensures forall name :: name in a.features && !IsIdentityFeature(cfg, name) ==>
      MergeGroup(cfg, [a])[name] == Many({a.features[name]})
  {
    assert [a][..0] == [];
    assert MergeAll(cfg, [a][..0]) == map[];
    assert MergeGroup(cfg, [a]) == MergeAll(cfg, [a]);
    assert MergeAll(cfg, [a]) == MergeAnnotation(cfg, map[], a);
  }
}
