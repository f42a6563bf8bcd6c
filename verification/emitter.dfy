/**
 The whole run of the merger (`execute`): collect the groups, then for each
 group, in the order the groups are visited, merge its members' features and
 add one new annotation spanning the group key's offsets to the output set.
 */
module Emitter {
  import opened Annotations
  import opened SpanKey
  import opened Grouping
  import opened FeatureMerge

  /** An annotation handed to the output annotation set. */
  datatype NewAnnotation<V> = NewAnnotation(
    start: int,
    end: int,
    typeName: string,
    features: Merged<V>)

  /** The execution failure raised when the output set rejects an offset. */
  datatype ExecutionFailure = InvalidOffset(start: int, end: int)

  /** What a run leaves behind: the annotations added, in order, and the
      failure that stopped it, if any. Added annotations are not rolled back. */
  datatype Outcome<V> = Outcome(added: seq<NewAnnotation<V>>, failure: Option<ExecutionFailure>)

  /** The output set accepts a span that lies within the document text. */
  predicate ValidOffsets(start: int, end: int, docLength: int) {
    0 <= start <= end <= docLength
  }

  /** `execute` from the collected groups on. `keyOrder` is the iteration
      order of the groups map and `memberOrder[k]` that of group `k`. */
  method Execute<V(==)>(
    cfg: Config,
    input: seq<Annotation<V>>,
    docLength: int,
    keyOrder: seq<Key<V>>,
    memberOrder: map<Key<V>, seq<Annotation<V>>>)
    returns (out: Outcome<V>)
    requires Enumerates(keyOrder, Collect(cfg, input).Keys)
    requires forall k :: k in Collect(cfg, input) ==>
      k in memberOrder && Enumerates(memberOrder[k], Collect(cfg, input)[k])
    ensures |out.added| <= |keyOrder| <= |Accepted(cfg, input)|
    ensures forall i :: 0 <= i < |out.added| ==>
      && out.added[i].start == keyOrder[i].start
      && out.added[i].end == keyOrder[i].end
      && ValidOffsets(keyOrder[i].start, keyOrder[i].end, docLength)
      && out.added[i].typeName == OutputAnnotationName(cfg)
      && out.added[i].features == MergeGroup(cfg, memberOrder[keyOrder[i]])
    ensures out.failure.None? <==> |out.added| == |keyOrder|
    ensures out.failure.Some? ==>
      var k := keyOrder[|out.added|];
      !ValidOffsets(k.start, k.end, docLength) && out.failure.value == InvalidOffset(k.start, k.end)
  {
    var groups := Collect(cfg, input);
    EnumerationSize(keyOrder, groups.Keys);
    GroupCountBound(cfg, input);
    var outputName := OutputAnnotationName(cfg);
    var added: seq<NewAnnotation<V>> := [];
    var i := 0;
    while i < |keyOrder|
      invariant 0 <= i <= |keyOrder|
      invariant |added| == i
      invariant forall j :: 0 <= j < i ==>
        && added[j].start == keyOrder[j].start
        && added[j].end == keyOrder[j].end
        && ValidOffsets(keyOrder[j].start, keyOrder[j].end, docLength)
        && added[j].typeName == outputName
        && added[j].features == MergeGroup(cfg, memberOrder[keyOrder[j]])
    {
      var k := keyOrder[i];
      assert k in groups;
      var fm := MergeGroup(cfg, memberOrder[k]);
      if !ValidOffsets(k.start, k.end, docLength) {
        return Outcome(added, Some(InvalidOffset(k.start, k.end)));
      }
      added := added + [NewAnnotation(k.start, k.end, outputName, fm)];
      i := i + 1;
    }
    return Outcome(added, None);
  }

  /** The members of a collected group, in any visiting order, share the
      group's key and there is at least one. */
  lemma {:induction false} GroupMembers<V>(cfg: Config, input: seq<Annotation<V>>, k: Key<V>, members: seq<Annotation<V>>)
    requires k in Collect(cfg, input)
    requires Enumerates(members, Collect(cfg, input)[k])
    ensures |members| > 0
    ensures forall a :: a in members ==> a in input && Accepts(cfg, a) && KeyOf(cfg, a) == k
  {
    CollectMembers(cfg, input);
    var a :| a in Collect(cfg, input)[k];
    assert a in members;
  }

  /** The annotation emitted for a group carries, for the identity features,
      exactly the group key's features with their values, never a set. */
  lemma {:induction false} EmittedIdentityFeatures<V>(cfg: Config, input: seq<Annotation<V>>, k: Key<V>, members: seq<Annotation<V>>)
    requires k in Collect(cfg, input)
    requires Enumerates(members, Collect(cfg, input)[k])
    ensures forall name :: IsIdentityFeature(cfg, name) ==>
      (name in MergeGroup(cfg, members) <==> name in k.keyFeatures)
    ensures forall name :: name in k.keyFeatures ==>
      name in MergeGroup(cfg, members) && MergeGroup(cfg, members)[name] == Single(k.keyFeatures[name])
  {
    GroupMembers(cfg, input, k, members);
    IdentityFeaturesKept(cfg, members, k);
  }

  /** Under MERGE the annotation emitted for a group is the same whichever
      order the group's set is iterated in. */
  lemma {:induction false} EmittedMergeIgnoresMemberOrder<V>(
    cfg: Config, input: seq<Annotation<V>>, k: Key<V>, xs: seq<Annotation<V>>, ys: seq<Annotation<V>>)
    requires cfg.featureMergeMode == Merge
    requires k in Collect(cfg, input)
    requires Enumerates(xs, Collect(cfg, input)[k])
    requires Enumerates(ys, Collect(cfg, input)[k])
    ensures MergeGroup(cfg, xs) == MergeGroup(cfg, ys)
  {
    GroupMembers(cfg, input, k, xs);
    MergeIgnoresOrder(cfg, xs, ys, k);
  }
}
