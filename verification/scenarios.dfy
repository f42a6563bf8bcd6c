/**
 Worked examples of the merger on small documents.
 */
module Scenarios {
  import opened Annotations
  import opened SpanKey
  import opened Grouping
  import opened FeatureMerge

  /** Feature values of the examples. */
  datatype Value = Text(s: string) | Number(n: int)

  const Bob: Annotation<Value> := Annotation(1, "Person", 0, 5, map["name" := Text("Bob")])
  const BobAged: Annotation<Value> :=
    Annotation(2, "Person", 0, 5, map["name" := Text("Bob"), "age" := Number(30)])

  /** Two people on one span with no identity features share one key. */
  lemma TwoPeopleShareKey()
    ensures KeyOf(DefaultConfig, Bob) == KeyOf(DefaultConfig, BobAged)
  {
  }

  /** Under MERGE every feature of that group becomes the set of its values. */
  lemma MergeTwoPeople()
    ensures MergeGroup(DefaultConfig, [Bob, BobAged]) ==
      map["name" := Many({Text("Bob")}), "age" := Many({Number(30)})]
  {
    var cfg := DefaultConfig;
    var members := [Bob, BobAged];
    assert members[..1] == [Bob] && [Bob][..0] == [];
    var first := MergeAnnotation(cfg, map[], Bob);
    assert first == map["name" := Many({Text("Bob")})] by {
      assert first.Keys == {"name"};
    }
    assert MergeAll(cfg, [Bob]) == first;
    var second := MergeAnnotation(cfg, first, BobAged);
    assert second.Keys == {"name", "age"};
    assert second["name"] == Many({Text("Bob")});
    assert second["age"] == Many({Number(30)});
    assert MergeGroup(cfg, members) == second;
  }

  /** The same group under SELECT_ONE keeps plain values. */
  lemma SelectTwoPeople()
    ensures MergeGroup(DefaultConfig.(featureMergeMode := SelectOne), [Bob, BobAged]) ==
      map["name" := Single(Text("Bob")), "age" := Single(Number(30))]
  {
    var members := [Bob, BobAged];
    SelectAllSpec(members);
    assert Bob in members && BobAged in members;
    assert FeatureNames(members) == {"name", "age"};
    assert IsFirstWith(members, "name", 0);
    assert IsFirstWith(members, "age", 1);
  }

  /** Different values of an identity feature keep annotations apart. */
  lemma IdentityFeatureSeparates()
    ensures
      var cfg := DefaultConfig.(bySpecificAnnotFeatures := {"id"});
      var red := Annotation(1, "Thing", 3, 7, map["id" := Number(1), "color" := Text("red")]);
      var blue := Annotation(2, "Thing", 3, 7, map["id" := Number(2), "color" := Text("blue")]);
      KeyOf(cfg, red) != KeyOf(cfg, blue)
  {
    var cfg := DefaultConfig.(bySpecificAnnotFeatures := {"id"});
    var red := Annotation(1, "Thing", 3, 7, map["id" := Number(1), "color" := Text("red")]);
    var blue := Annotation(2, "Thing", 3, 7, map["id" := Number(2), "color" := Text("blue")]);
    assert KeyOf(cfg, red).keyFeatures["id"] == Number(1);
  }

  /** Without type comparison, annotations of different types merge. */
  lemma TypesMergeWithoutTypeComparison()
    ensures
      var cfg := DefaultConfig.(bySameAnnotName := false);
      KeyOf(cfg, Annotation(1, "Person", 10, 20, map["name" := Text("Ann")]))
        == KeyOf(cfg, Annotation(2, "Organization", 10, 20, map["name" := Text("Acme")]))
  {
  }
}
