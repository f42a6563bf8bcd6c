/**
 Collecting the accepted annotations into groups indexed by their key
 (`addIntoInputAnnEqualGroups` and the input loops of `execute`).
 */
module Grouping {
  import opened Annotations
  import opened SpanKey

  /** The `HashMap<AnnotationSpan, Set<Annotation>>` of `execute`. */
  type Groups<V(==)> = map<Key<V>, set<Annotation<V>>>

  /** Every member sits in the group of its own key and passed the filter. */
  ghost predicate Indexed<V>(cfg: Config, groups: Groups<V>) {
    forall k, b :: k in groups && b in groups[k] ==> Accepts(cfg, b) && KeyOf(cfg, b) == k
  }

  /** The accepted annotations of `input`. */
  function Accepted<V(==)>(cfg: Config, input: seq<Annotation<V>>): (s: set<Annotation<V>>)
    ensures forall a :: a in s ==> a in input && Accepts(cfg, a)
    ensures forall a :: a in input && Accepts(cfg, a) ==> a in s
  {
    set a | a in input && Accepts(cfg, a)
  }

  /** `addIntoInputAnnEqualGroups`: a rejected annotation changes nothing; an
      accepted one joins the group of its key, created on first use. */
  function AddInto<V(==)>(cfg: Config, a: Annotation<V>, groups: Groups<V>): (r: Groups<V>)
    ensures !Accepts(cfg, a) ==> r == groups
    ensures Accepts(cfg, a) ==> r.Keys == groups.Keys + {KeyOf(cfg, a)}
    ensures Accepts(cfg, a) ==>
      r[KeyOf(cfg, a)] == (if KeyOf(cfg, a) in groups then groups[KeyOf(cfg, a)] else {}) + {a}
    ensures forall k :: k in groups && k != KeyOf(cfg, a) ==> r[k] == groups[k]
    ensures Indexed(cfg, groups) ==> Indexed(cfg, r)
  {
    if Accepts(cfg, a) then
      var k := KeyOf(cfg, a);
      var group := if k in groups then groups[k] else {};
      groups[k := group + {a}]
    else
      groups
  }

  /** Adding an annotation that is already grouped leaves the groups as they
      are (the groups are sets). */
  lemma AddIntoPresent<V>(cfg: Config, a: Annotation<V>, groups: Groups<V>, k: Key<V>)
    requires Indexed(cfg, groups)
    requires k in groups && a in groups[k]
    ensures AddInto(cfg, a, groups) == groups
  {
    assert KeyOf(cfg, a) == k;
    assert groups[k] + {a} == groups[k];
  }

  /** The input loops of `execute`: every annotation of the visited annotation
      sets, in order, offered to `AddInto`. */
  function Collect<V(==)>(cfg: Config, input: seq<Annotation<V>>): (groups: Groups<V>)
    ensures Indexed(cfg, groups)
    ensures forall k :: k in groups ==> groups[k] != {}
    decreases |input|
  {
    if |input| == 0 then map[]
    else
      var previous := Collect(cfg, input[..|input| - 1]);
      AddInto(cfg, input[|input| - 1], previous)
  }

  /** Every accepted input is in the group of its own key. */
  lemma {:induction false} CollectComplete<V>(cfg: Config, input: seq<Annotation<V>>, a: Annotation<V>)
    requires a in input && Accepts(cfg, a)
    ensures KeyOf(cfg, a) in Collect(cfg, input) && a in Collect(cfg, input)[KeyOf(cfg, a)]
    decreases |input|
  {
    var rest, last := input[..|input| - 1], input[|input| - 1];
    assert Collect(cfg, input) == AddInto(cfg, last, Collect(cfg, rest));
    if a != last {
      assert a in rest by {
        assert input == rest + [last];
      }
      CollectComplete(cfg, rest, a);
    }
  }

  /** Every group member is an input. */
  lemma {:induction false} CollectSound<V>(cfg: Config, input: seq<Annotation<V>>, k: Key<V>, a: Annotation<V>)
    requires k in Collect(cfg, input) && a in Collect(cfg, input)[k]
    ensures a in input
    decreases |input|
  {
    var rest, last := input[..|input| - 1], input[|input| - 1];
    var prev := Collect(cfg, rest);
    assert Collect(cfg, input) == AddInto(cfg, last, prev);
    if a != last {
      assert k in prev && a in prev[k];
      CollectSound(cfg, rest, k, a);
      assert input == rest + [last];
    }
  }

  /** Grouping invariant: an annotation is a member of some group exactly when
      it is an accepted input, and then of the group of its own key. */
  lemma CollectMembers<V>(cfg: Config, input: seq<Annotation<V>>)
    ensures forall a :: a in input && Accepts(cfg, a) ==>
      KeyOf(cfg, a) in Collect(cfg, input) && a in Collect(cfg, input)[KeyOf(cfg, a)]
    ensures forall k, a :: k in Collect(cfg, input) && a in Collect(cfg, input)[k] ==>
      a in input && Accepts(cfg, a) && KeyOf(cfg, a) == k
  {
    forall a | a in input && Accepts(cfg, a)
      ensures KeyOf(cfg, a) in Collect(cfg, input) && a in Collect(cfg, input)[KeyOf(cfg, a)]
    {
      CollectComplete(cfg, input, a);
    }
    forall k, a | k in Collect(cfg, input) && a in Collect(cfg, input)[k]
      ensures a in input
    {
      CollectSound(cfg, input, k, a);
    }
  }

  /** A rejected type is in no group; with an empty filter every input
      annotation is grouped. */
  lemma TypeFilter<V>(cfg: Config, input: seq<Annotation<V>>, a: Annotation<V>)
    ensures |cfg.inputAnnotNames| > 0 && a.typeName !in cfg.inputAnnotNames ==>
      forall k :: k in Collect(cfg, input) ==> a !in Collect(cfg, input)[k]
    ensures |cfg.inputAnnotNames| == 0 && a in input ==>
      KeyOf(cfg, a) in Collect(cfg, input) && a in Collect(cfg, input)[KeyOf(cfg, a)]
  {
    CollectMembers(cfg, input);
  }

  /** Every group member of `xs` is, in the same group, a member for `ys`
      when `ys` visits at least the annotations `xs` visits. */
  lemma CollectMonotone<V>(cfg: Config, xs: seq<Annotation<V>>, ys: seq<Annotation<V>>)
    requires forall a :: a in xs ==> a in ys
    ensures forall k, a :: k in Collect(cfg, xs) && a in Collect(cfg, xs)[k] ==>
      k in Collect(cfg, ys) && a in Collect(cfg, ys)[k]
  {
    CollectMembers(cfg, xs);
    CollectMembers(cfg, ys);
  }

  /** The groups depend only on which annotations were visited: neither the
      visiting order nor a repeated annotation set changes them. */
  lemma CollectIgnoresOrder<V>(cfg: Config, xs: seq<Annotation<V>>, ys: seq<Annotation<V>>)
    requires forall a :: a in xs ==> a in ys
    requires forall a :: a in ys ==> a in xs
    ensures Collect(cfg, xs) == Collect(cfg, ys)
  {
    var gx, gy := Collect(cfg, xs), Collect(cfg, ys);
    CollectMonotone(cfg, xs, ys);
    CollectMonotone(cfg, ys, xs);
    assert gx.Keys == gy.Keys by {
      forall k | k in gx ensures k in gy {
        var a :| a in gx[k];
      }
      forall k | k in gy ensures k in gx {
        var a :| a in gy[k];
      }
    }
    forall k | k in gx ensures gx[k] == gy[k] {
      assert gx[k] <= gy[k];
      assert gy[k] <= gx[k];
    }
  }

  /** Reading the same annotation set twice gives the same groups. */
  lemma CollectTwice<V>(cfg: Config, input: seq<Annotation<V>>)
    ensures Collect(cfg, input + input) == Collect(cfg, input)
  {
    CollectIgnoresOrder(cfg, input + input, input);
  }

  /** The keys of `s`. */
  function KeysOf<V(==)>(cfg: Config, s: set<Annotation<V>>): set<Key<V>> {
    set a | a in s :: KeyOf(cfg, a)
  }

  lemma {:induction false} KeysOfSize<V>(cfg: Config, s: set<Annotation<V>>)
    ensures |KeysOf(cfg, s)| <= |s|
    decreases s
  {
    if s != {} {
      var x :| x in s;
      KeysOfSize(cfg, s - {x});
      KeysOfRemove(cfg, s, x);
    }
  }

  lemma KeysOfRemove<V>(cfg: Config, s: set<Annotation<V>>, x: Annotation<V>)
    requires x in s
    ensures KeysOf(cfg, s) == KeysOf(cfg, s - {x}) + {KeyOf(cfg, x)}
  {
  }

  /** The groups are indexed by exactly the keys of the accepted inputs. */
  lemma CollectKeys<V>(cfg: Config, input: seq<Annotation<V>>)
    ensures Collect(cfg, input).Keys == KeysOf(cfg, Accepted(cfg, input))
  {
    CollectMembers(cfg, input);
    var g := Collect(cfg, input);
    forall k | k in g ensures k in KeysOf(cfg, Accepted(cfg, input)) {
      var a :| a in g[k];
      assert a in Accepted(cfg, input) && KeyOf(cfg, a) == k;
    }
  }

  /** There are at most as many groups as accepted input annotations. */
  lemma {:induction false} GroupCountBound<V>(cfg: Config, input: seq<Annotation<V>>)
    ensures |Collect(cfg, input).Keys| <= |Accepted(cfg, input)|
  {
    CollectKeys(cfg, input);
    KeysOfSize(cfg, Accepted(cfg, input));
  }

  /** Two different annotations with one key have fewer keys than members. */
  lemma KeysOfCollapse<V>(cfg: Config, s: set<Annotation<V>>, a: Annotation<V>, b: Annotation<V>)
    requires a in s && b in s && a != b
    requires KeyOf(cfg, a) == KeyOf(cfg, b)
    ensures |KeysOf(cfg, s)| < |s|
  {
    KeysOfRemove(cfg, s, b);
    assert KeyOf(cfg, b) in KeysOf(cfg, s - {b}) by {
      assert a in s - {b};
    }
    assert KeysOf(cfg, s) == KeysOf(cfg, s - {b});
    KeysOfSize(cfg, s - {b});
  }

  /** A group with two different members leaves strictly fewer groups than
      accepted inputs. */
  lemma {:induction false} GroupCountCollapse<V>(
    cfg: Config, input: seq<Annotation<V>>, k: Key<V>, a: Annotation<V>, b: Annotation<V>)
    requires k in Collect(cfg, input)
    requires a in Collect(cfg, input)[k] && b in Collect(cfg, input)[k] && a != b
    ensures |Collect(cfg, input).Keys| < |Accepted(cfg, input)|
  {
    CollectSound(cfg, input, k, a);
    CollectSound(cfg, input, k, b);
    assert a in Accepted(cfg, input) && b in Accepted(cfg, input);
    CollectKeys(cfg, input);
    KeysOfCollapse(cfg, Accepted(cfg, input), a, b);
  }
}
