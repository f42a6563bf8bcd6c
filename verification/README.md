# My Annotation Merger — a Dafny model of the merging core

The GATE processing resource "My Annotation Merger" reads the annotations of a
document, puts annotations it considers "the same" into one group, and adds one
new annotation per group to an output annotation set. The new annotation spans
the group's offsets, and its features combine the features of the group's
members.

The model follows the four stages of `MyAnnotationMerger.execute`. Each stage
is written as pure functions over immutable data, with lemmas that state what
the stage promises:

| file | module | stage |
|---|---|---|
| `annotations.dfy` | `Annotations` | annotations, configuration, merge mode, merged values, constants |
| `span_key.dfy` | `SpanKey` | the equivalence key `AnnotationSpan` and `createAnnotationSpan` |
| `grouping.dfy` | `Grouping` | the type filter and `addIntoInputAnnEqualGroups` over all input annotations |
| `feature_merge.dfy` | `FeatureMerge` | the MERGE and SELECT_ONE feature combination of one group |
| `emitter.dfy` | `Emitter` | the whole run: one new annotation per group, or an offset failure |
| `scenarios.dfy` | `Scenarios` | worked examples on small inputs |

Modelling choices:

- An annotation is a record `(id, typeName, start, end, features)`.
  Feature names are strings. Feature values have an opaque type `V`, standing for Java's `Object`.
- A merged value is `Single(v)` or `Many(set of v)`. These are the only two shapes the merger produces.
- The input is one sequence of annotations: the annotation sets that `execute` reads, one after another.
- Java's `HashMap` and `HashSet` visit entries in an order the program does not fix.
  That order is a parameter here. `keyOrder` is the order in which the groups are visited.
  `memberOrder[k]` is the order in which the members of group `k` are visited.
  Both must list their set exactly once (`Enumerates`).
- The output annotation set is a sequence of added annotations.
  It accepts a span `[start, end)` when `0 <= start <= end <= docLength`.
  A rejected span stops the run with `InvalidOffset`. The annotations added before it stay.
- The merge mode is a two-constructor datatype.
  The source's `default:` branch ("Unknown option") therefore cannot be reached, and it is not modelled.
- Under MERGE the source casts the value already stored for a non-identity feature to `Collection`.
  The model keeps the invariant `Shaped`: a non-identity feature only ever holds `Many`.
  So that cast always succeeds, and the model needs no `ClassCastException` path.
- The source loops over one annotation's feature entries. The model folds them in as one map update.
  The names in one map are distinct, so the order of those entries cannot change the result.

Under MERGE a non-identity feature always holds a set, a one-element set when one value was seen (`MyAnnotationMerger.java:330-339`, `MergeSingleton`).

## Model

| member | source | states |
|---|---|---|
| `Annotations.OutputAnnotationName` | src/uk/ac/ox/cs/nlp/gate/MyAnnotationMerger.java:315-317 | the emitted type is never empty: it is the configured name, or `"MyAnnotationMerged"` when none is configured |
| `SpanKey.KeyFeatures` | src/uk/ac/ox/cs/nlp/gate/MyAnnotationMerger.java:250-261 | a name is a key feature exactly when the annotation carries it and it is an identity feature (every feature, or a configured name); its value is the annotation's; configured names the annotation lacks are skipped |
| `SpanKey.KeyOf` | src/uk/ac/ox/cs/nlp/gate/MyAnnotationMerger.java:247-267 | the key copies start and end verbatim; its comparison name is the type when types are compared and the fixed sentinel otherwise; its features are exactly the annotation's identity features |
| `SpanKey.KeyFeaturesExtremes` | src/uk/ac/ox/cs/nlp/gate/MyAnnotationMerger.java:250-261 | with every feature in the key, the key carries the whole feature map; with none configured, it carries an empty map |
| `SpanKey.CreateAnnotationSpan` | src/uk/ac/ox/cs/nlp/gate/MyAnnotationMerger.java:249-267 | the loop over the configured names builds the same key as `KeyOf` |
| `SpanKey.EquivalentIff` | src/uk/ac/ox/cs/nlp/gate/MyAnnotationMerger.java:101-125 | two annotations have equal keys if and only if they have the same start and end, the same type when types are compared, and the same identity features with equal values |
| `SpanKey.EquivalenceRelation` | src/uk/ac/ox/cs/nlp/gate/MyAnnotationMerger.java:101-125 | key equality is reflexive, symmetric and transitive on annotations |
| `Grouping.AddInto` | src/uk/ac/ox/cs/nlp/gate/MyAnnotationMerger.java:269-281 | a rejected annotation leaves the groups unchanged; an accepted one is added, as a set element, to the group of its key, which is created if missing; every other group is unchanged; groups whose members all sit under their own key keep that property |
| `Grouping.AddIntoPresent` | src/uk/ac/ox/cs/nlp/gate/MyAnnotationMerger.java:273-279 | adding an annotation that is already in its group leaves the groups unchanged |
| `Grouping.Collect` | src/uk/ac/ox/cs/nlp/gate/MyAnnotationMerger.java:293-310 | after all inputs are visited, every member sits in the group of its own key and passed the type filter, and no group is empty |
| `Grouping.CollectMembers` | src/uk/ac/ox/cs/nlp/gate/MyAnnotationMerger.java:271-279 | an annotation is in a group exactly when it is an accepted input, and then it is in the group of its own key |
| `Grouping.TypeFilter` | src/uk/ac/ox/cs/nlp/gate/MyAnnotationMerger.java:271-272 | with a non-empty filter, an annotation of another type is in no group; with an empty filter, every input annotation is grouped |
| `Grouping.CollectIgnoresOrder` | src/uk/ac/ox/cs/nlp/gate/MyAnnotationMerger.java:293-310 | the groups depend only on which annotations are visited, not on their order or repetition |
| `Grouping.CollectTwice` | src/uk/ac/ox/cs/nlp/gate/MyAnnotationMerger.java:294-304 | reading the same annotation set twice gives the same groups as reading it once |
| `Grouping.CollectKeys` | src/uk/ac/ox/cs/nlp/gate/MyAnnotationMerger.java:273-279 | the groups are indexed by exactly the keys of the accepted inputs |
| `Grouping.GroupCountBound` | src/uk/ac/ox/cs/nlp/gate/MyAnnotationMerger.java:273-279 | there are at most as many groups as accepted input annotations |
| `Grouping.GroupCountCollapse` | src/uk/ac/ox/cs/nlp/gate/MyAnnotationMerger.java:273-279 | a group with two distinct members means strictly fewer groups than accepted inputs |
| `FeatureMerge.MergeAnnotation` | src/uk/ac/ox/cs/nlp/gate/MyAnnotationMerger.java:324-341 | folding one annotation in under MERGE adds exactly its feature names and keeps non-identity features set-valued |
| `FeatureMerge.SelectAnnotation` | src/uk/ac/ox/cs/nlp/gate/MyAnnotationMerger.java:347-351 | folding one annotation in under SELECT_ONE adds exactly its feature names and never changes a name already present |
| `FeatureMerge.MergeAll` | src/uk/ac/ox/cs/nlp/gate/MyAnnotationMerger.java:322-344 | the MERGE loop only ever stores sets under non-identity features, so the cast to `Collection` cannot fail |
| `FeatureMerge.SelectAll` | src/uk/ac/ox/cs/nlp/gate/MyAnnotationMerger.java:345-354 | the SELECT_ONE loop introduces no sets |
| `FeatureMerge.MergeAllSpec` | src/uk/ac/ox/cs/nlp/gate/MyAnnotationMerger.java:322-344 | under MERGE the result names exactly the members' features; a non-identity feature holds the set of all values members carry for it; an identity feature holds the value of its first carrier |
| `FeatureMerge.SelectAllSpec` | src/uk/ac/ox/cs/nlp/gate/MyAnnotationMerger.java:345-354 | under SELECT_ONE the result names exactly the members' features, each holding the value of the first member in visiting order that carries it |
| `FeatureMerge.MergeGroup` | src/uk/ac/ox/cs/nlp/gate/MyAnnotationMerger.java:319-357 | in both modes the merged map's names are the union of the members' feature names |
| `FeatureMerge.FirstCarrier` | src/uk/ac/ox/cs/nlp/gate/MyAnnotationMerger.java:345-354 | the index of the first member in visiting order that carries a name, or the group's size when no member carries it |
| `FeatureMerge.SelectOneFirstWins` | src/uk/ac/ox/cs/nlp/gate/MyAnnotationMerger.java:345-354 | under SELECT_ONE every feature holds the value of its first carrier in visiting order, no value is a set, and every name of the result has a first carrier, so no other names appear |
| `FeatureMerge.IdentityFeaturesKept` | src/uk/ac/ox/cs/nlp/gate/MyAnnotationMerger.java:322-354 | for a non-empty group sharing key `k`, in both modes the identity features of the merged map are exactly `k`'s key features, each holding the key's value, never a set |
| `FeatureMerge.IdentityValueShared` | src/uk/ac/ox/cs/nlp/gate/MyAnnotationMerger.java:325-329 | every member carrying an identity feature carries the single value the merged map holds for it |
| `FeatureMerge.MergeNonIdentity` | src/uk/ac/ox/cs/nlp/gate/MyAnnotationMerger.java:330-340 | under MERGE a non-identity feature holds exactly the set of values the members carry for it |
| `FeatureMerge.MergeIgnoresOrder` | src/uk/ac/ox/cs/nlp/gate/MyAnnotationMerger.java:322-344 | under MERGE a group sharing one key gives the same merged map in every visiting order |
| `FeatureMerge.MergeSingleton` | src/uk/ac/ox/cs/nlp/gate/MyAnnotationMerger.java:322-344 | under MERGE a group of one keeps its identity features verbatim and wraps every other feature in a one-element set |
| `Emitter.Execute` | src/uk/ac/ox/cs/nlp/gate/MyAnnotationMerger.java:312-368 | the i-th added annotation spans the i-th group key's offsets, has the output type and the group's merged features; the run adds one annotation per group unless a span is rejected, in which case it stops at that group with `InvalidOffset` and keeps the earlier ones; at most as many annotations are added as inputs were accepted |
| `Emitter.GroupMembers` | src/uk/ac/ox/cs/nlp/gate/MyAnnotationMerger.java:273-279 | a collected group, in any visiting order, is non-empty and all its members are accepted inputs with the group's key |
| `Emitter.EmittedIdentityFeatures` | src/uk/ac/ox/cs/nlp/gate/MyAnnotationMerger.java:319-364 | the annotation emitted for a group holds, for identity features, exactly the group key's features and values |
| `Emitter.EmittedMergeIgnoresMemberOrder` | src/uk/ac/ox/cs/nlp/gate/MyAnnotationMerger.java:319-344 | under MERGE the features emitted for a group do not depend on the iteration order of the group's set |
| `Scenarios.TwoPeopleShareKey` | src/uk/ac/ox/cs/nlp/gate/MyAnnotationMerger.java:249-267 | two `Person` annotations on `[0,5)` with no identity features have one key, whatever their other features |
| `Scenarios.MergeTwoPeople` | src/uk/ac/ox/cs/nlp/gate/MyAnnotationMerger.java:322-344 | under MERGE, `{name:"Bob"}` and `{name:"Bob", age:30}` merge to `{name:{"Bob"}, age:{30}}` |
| `Scenarios.SelectTwoPeople` | src/uk/ac/ox/cs/nlp/gate/MyAnnotationMerger.java:345-354 | under SELECT_ONE the same pair merges to `{name:"Bob", age:30}` |
| `Scenarios.IdentityFeatureSeparates` | src/uk/ac/ox/cs/nlp/gate/MyAnnotationMerger.java:254-260 | with identity feature `id`, annotations with `id=1` and `id=2` on one span have different keys |
| `Scenarios.TypesMergeWithoutTypeComparison` | src/uk/ac/ox/cs/nlp/gate/MyAnnotationMerger.java:262-266 | without type comparison, a `Person` and an `Organization` on one span share a key |

## Left out

- `AnnotationSpan.hashCode` and `toString` (lines 90-99 and 127-131): Dafny's structural equality and value maps take their place.
- The CREOLE parameter getters and setters, their null-to-empty coercions, `init` and `reInit`: the configuration is a plain record (`Config`), and its declared defaults are `DefaultConfig`.
- The check for a missing document (lines 288-289): this is the host's input validation.
- The choice of input annotation sets (lines 293-310), including a null set name reading the default set: the input is the concatenation of the sets read.
- The choice of output annotation set by `outputASName` (lines 312-314): the output is one sequence of added annotations.
- The identifiers GATE gives new annotations: the model does not track them.
- The offset test inside GATE's `AnnotationSet.add`: GATE's document classes are not part of this model. The model uses the rule `0 <= start <= end <= docLength`.
- The `default:` branch of the mode switch (lines 355-356): it cannot be reached with a two-constructor mode.
- Java `long` offsets are unbounded integers here. Offsets are copied, never computed, so no overflow can arise.
- Feature names that are not strings: a non-string name can never equal a configured specific name. The model uses string names throughout.
- The display names of `EFeatureMergeMode` ("Merge", "SelectOne"): they play no part in merging.
