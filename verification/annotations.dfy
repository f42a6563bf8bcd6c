/**
 The plain data the annotation merger works on: annotations, the run-time
 configuration of the merger, the two feature-merge modes and the shape of a
 merged feature value.
 */
module Annotations {

  /** An optional value, used for the failure of a run. */
  datatype Option<T> = None | Some(value: T)

  /** An annotation of the input document: a typed, half-open character span
      `[start, end)` with a feature map. Feature values are opaque (`V`). */
  datatype Annotation<V> = Annotation(
    id: int,
    typeName: string,
    start: int,
    end: int,
    features: map<string, V>)

  /** The feature-merge policy (the enum `EFeatureMergeMode`). */
  datatype MergeMode = Merge | SelectOne

  /** The run-time parameters of the merger that the merging logic reads. */
  datatype Config = Config(
    inputAnnotNames: set<string>,          // type filter; empty: accept every type
    bySameAnnotName: bool,                 // the annotation type is part of the key
    byAllAnnotFeatures: bool,              // every feature is part of the key
    bySpecificAnnotFeatures: set<string>,  // key features when byAllAnnotFeatures is false
    featureMergeMode: MergeMode,
    outputAnnotName: string)               // empty: DefaultOutputAnnotationName

  /** The type of the emitted annotations when none is configured. */
  const DefaultOutputAnnotationName: string := "MyAnnotationMerged"

  /** The comparison name shared by all keys when types are not compared. */
  const DefaultAnnotationCompareName: string := "DEFAULT_ANNOTATION_COMPARE_NAME"

  /** The parameter defaults declared by the resource. */
  const DefaultConfig: Config :=
    Config({}, true, false, {}, Merge, DefaultOutputAnnotationName)

  /** A value of a merged feature map: a value taken over verbatim, or the set
      of values collected for a non-identity feature under MERGE. */
  datatype FeatureValue<V> = Single(value: V) | Many(values: set<V>)

  /** A feature whose value is part of the equivalence key. */
  predicate IsIdentityFeature(cfg: Config, name: string) {
    cfg.byAllAnnotFeatures || name in cfg.bySpecificAnnotFeatures
  }

  /** The type filter: an empty filter accepts every annotation. */
  predicate Accepts<V>(cfg: Config, a: Annotation<V>) {
    |cfg.inputAnnotNames| == 0 || a.typeName in cfg.inputAnnotNames
  }

  /** The type given to every emitted annotation. */
  function OutputAnnotationName(cfg: Config): (name: string)
    ensures name != []
    ensures cfg.outputAnnotName != [] ==> name == cfg.outputAnnotName
    ensures cfg.outputAnnotName == [] ==> name == DefaultOutputAnnotationName
  {
    if |cfg.outputAnnotName| == 0 then DefaultOutputAnnotationName else cfg.outputAnnotName
  }

  /** `order` lists the elements of `s`, each exactly once (an iteration of a
      Java `HashMap`/`HashSet` in some unknown order). */
  ghost predicate Enumerates<T>(order: seq<T>, s: set<T>) {
    && (forall x :: x in order ==> x in s)
    && (forall x :: x in s ==> x in order)
    && (forall i, j :: 0 <= i < j < |order| ==> order[i] != order[j])
  }

  /** An enumeration has as many entries as the set has elements. */
  lemma {:induction false} EnumerationSize<T>(order: seq<T>, s: set<T>)
    requires Enumerates(order, s)
    ensures |order| == |s|
    decreases |order|
  {
    if |order| > 0 {
      var last := order[|order| - 1];
      var rest := order[..|order| - 1];
      assert forall x :: x in rest ==> x in order;
      assert last !in rest by {
        forall i | 0 <= i < |rest| ensures rest[i] != last {
          assert rest[i] == order[i];
        }
      }
      assert forall x :: x in rest <==> x in s - {last} by {
        forall x ensures x in rest <==> x in s - {last} {
          if x in s - {last} {
            assert x in order;
            var i :| 0 <= i < |order| && order[i] == x;
            assert i != |order| - 1;
            assert rest[i] == x;
          }
        }
      }
      EnumerationSize(rest, s - {last});
    }
  }
}
