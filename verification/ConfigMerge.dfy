/** The deep merge of configuration trees, `mergeDeep` (tokenRegistry/src/scripts/utils.ts). */
module ConfigMerge {
  import opened Prelude

  /** A JSON value: null, a scalar, or an object, which may be an array. */
  datatype Tree = Null | Scalar(text: string, truthy: bool) | Object(isArray: bool, props: map<string, Tree>)
  {
    predicate Truthy() {
      Object? || (Scalar? && truthy)
    }

    /** An object proper, neither null nor an array. */
    predicate IsObject() {
      Object? && !isArray
    }
  }

  const EMPTY: Tree := Object(false, map[])

  /** The value of a property that a merge goes into: an empty object takes the place of a missing or falsy one. */
  function Child(t: Tree, key: string): (c: Tree)
    ensures c.Truthy()
  {
    if t.Object? && key in t.props && t.props[key].Truthy() then t.props[key] else EMPTY
  }

  /** `mergeDeep(t, s)`: what it leaves in `t`. */
  function Merge(t: Tree, s: Tree): (r: Tree)
    ensures t.IsObject() ==> r.IsObject()
    decreases s
  {
    if !t.IsObject() || !s.IsObject() then t
    else
      Object(false, map k | k in t.props.Keys + s.props.Keys ::
        if k !in s.props then t.props[k]
        else if s.props[k].IsObject() then Merge(Child(t, k), s.props[k])
        else s.props[k])
  }

  /** The merge, property by property. */
  lemma MergeIs(t: Tree, s: Tree, r: Tree)
    requires t.IsObject() && s.IsObject() && r.IsObject()
    requires r.props.Keys == t.props.Keys + s.props.Keys
    requires forall k | k in r.props :: r.props[k] == if k !in s.props then t.props[k]
                                                      else if s.props[k].IsObject() then Merge(Child(t, k), s.props[k])
                                                      else s.props[k]
    ensures Merge(t, s) == r
  {
    var m := Merge(t, s).props;
    forall k | k in m ensures m[k] == r.props[k] {
      if k !in s.props {
        assert m[k] == t.props[k];
      } else if s.props[k].IsObject() {
        assert m[k] == Merge(Child(t, k), s.props[k]);
      }
    }
    SameProps(m, r.props);
  }

  lemma SameProps(p: map<string, Tree>, q: map<string, Tree>)
    requires p.Keys == q.Keys && forall k | k in p :: p[k] == q[k]
    ensures p == q
  {
  }

  /** `mergeDeep` with one source, key by key. */
  method MergeOne(target: Tree, source: Tree) returns (result: Tree)
    ensures result == Merge(target, source)
    decreases source
  {
    if !target.IsObject() || !source.IsObject() { return target; }
    var props := target.props;
    var keys := source.props.Keys;
    while keys != {}
      invariant keys <= source.props.Keys
      invariant props.Keys == target.props.Keys + (source.props.Keys - keys)
      invariant forall k | k in props ::
                  props[k] ==
                    if k in source.props && k !in keys then Merge(target, source).props[k] else target.props[k]
    {
      var key :| key in keys;
      if source.props[key].IsObject() {
        if key !in props || !props[key].Truthy() {
          props := props[key := EMPTY];
        }
        var merged := MergeOne(props[key], source.props[key]);
        props := props[key := merged];
      } else {
        props := props[key := source.props[key]];
      }
      keys := keys - {key};
    }
    result := Object(false, props);
    assert props == Merge(target, source).props;
  }

  function MergeAll(t: Tree, sources: seq<Tree>): Tree
    decreases |sources|
  {
    if sources == [] then t else MergeAll(Merge(t, sources[0]), sources[1..])
  }

  /** `mergeDeep`: the sources are shifted off one after the other. */
  method MergeDeep(target: Tree, sources: seq<Tree>) returns (result: Tree)
    ensures result == MergeAll(target, sources)
    decreases |sources|
  {
    if |sources| == 0 { return target; }
    var merged := MergeOne(target, sources[0]);
    result := MergeDeep(merged, sources[1..]);
  }

  // ---------- Merging is an action of override trees on configurations ----------

  lemma {:induction false} MergeIntoEmpty(s: Tree)
    requires s.IsObject()
    ensures Merge(EMPTY, s) == s
    decreases s
  {
    forall k | k in s.props && s.props[k].IsObject()
      ensures Merge(EMPTY, s.props[k]) == s.props[k]
    {
      MergeIntoEmpty(s.props[k]);
    }
    assert Merge(EMPTY, s).props == s.props;
  }

  /** Merging the same overrides again changes nothing. */
  lemma {:induction false} MergeTwice(b: Tree, o: Tree)
    ensures Merge(Merge(b, o), o) == Merge(b, o)
    decreases o
  {
    if b.IsObject() && o.IsObject() {
      var r := Merge(b, o);
      forall k | k in o.props && o.props[k].IsObject()
        ensures Merge(Child(r, k), o.props[k]) == r.props[k]
      {
        MergeTwice(Child(b, k), o.props[k]);
        assert r.props[k] == Merge(Child(b, k), o.props[k]);
        MergeStaysTruthy(Child(b, k), o.props[k]);
      }
      assert Merge(r, o).props == r.props;
    }
  }

  lemma MergeStaysTruthy(b: Tree, o: Tree)
    requires b.Truthy()
    ensures Merge(b, o).Truthy()
  {
  }

  /**
   * Wherever the later overrides go into an object, the earlier ones say nothing there or something truthy:
   * a falsy value, such as null, 0, false or the empty string, would be forgotten by their merge.
   */
  predicate Composable(o1: Tree, o2: Tree)
    decreases o2
  {
    o1.IsObject() && o2.IsObject() ==>
      forall k | k in o1.props && k in o2.props && o2.props[k].IsObject() ::
        o1.props[k].Truthy() && Composable(o1.props[k], o2.props[k])
  }

  /** One key of the action law. */
  lemma {:induction false} ComposeAt(b: Tree, o1: Tree, o2: Tree, k: string)
    requires b.IsObject() && o1.IsObject() && o2.IsObject() && Composable(o1, o2)
    requires k in o2.props && o2.props[k].IsObject()
    ensures Merge(Child(Merge(b, o1), k), o2.props[k]) ==
            (if Merge(o1, o2).props[k].IsObject() then Merge(Child(b, k), Merge(o1, o2).props[k])
             else Merge(o1, o2).props[k])
    decreases o2, 0
  {
    var cb, deep := Child(b, k), o2.props[k];
    if k !in o1.props {
      MergeIntoEmpty(deep);
      assert Child(Merge(b, o1), k) == cb;
    } else if o1.props[k].IsObject() {
      MergeStaysTruthy(cb, o1.props[k]);
      ComposeWhenComposable(cb, o1.props[k], deep);
    }
  }

  lemma {:induction false} ComposeWhenComposable(b: Tree, o1: Tree, o2: Tree)
    requires o1.IsObject() && o2.IsObject() && Composable(o1, o2)
    ensures Merge(Merge(b, o1), o2) == Merge(b, Merge(o1, o2))
    decreases o2
  {
    if b.IsObject() {
      forall k | k in o2.props && o2.props[k].IsObject()
        ensures Merge(Merge(b, o1), o2).props[k] == Merge(b, Merge(o1, o2)).props[k]
      {
        ComposeAt(b, o1, o2, k);
      }
      assert Merge(Merge(b, o1), o2).props == Merge(b, Merge(o1, o2)).props;
    }
  }

  /** A configuration on which two overrides that are not composable do not act as their merge does. */
  lemma {:induction false} Separating(o1: Tree, o2: Tree) returns (b: Tree)
    requires o1.IsObject() && o2.IsObject() && !Composable(o1, o2)
    ensures b.IsObject() && Merge(Merge(b, o1), o2) != Merge(b, Merge(o1, o2))
    decreases o2
  {
    var k :| k in o1.props && k in o2.props && o2.props[k].IsObject() &&
             !(o1.props[k].Truthy() && Composable(o1.props[k], o2.props[k]));
    var deep := o2.props[k];
    if !o1.props[k].Truthy() {
      MergeIntoEmpty(deep);
      b := Object(false, map[k := Scalar("set", true)]);
      assert Merge(Merge(b, o1), o2).props[k] == deep;
      assert Merge(b, Merge(o1, o2)).props[k] == Scalar("set", true);
    } else {
      var inner := Separating(o1.props[k], deep);
      b := Object(false, map[k := inner]);
      assert Child(b, k) == inner;
      MergeStaysTruthy(inner, o1.props[k]);
      assert Merge(Merge(b, o1), o2).props[k] == Merge(Merge(inner, o1.props[k]), deep);
      assert Merge(b, Merge(o1, o2)).props[k] == Merge(inner, Merge(o1.props[k], deep));
    }
  }

  ghost predicate ActAsOne(o1: Tree, o2: Tree) {
    forall b :: Merge(Merge(b, o1), o2) == Merge(b, Merge(o1, o2))
  }

  /** Two overrides act on every configuration as their merge does exactly when they are composable. */
  lemma ActionLaw(o1: Tree, o2: Tree)
    requires o1.IsObject() && o2.IsObject()
    ensures ActAsOne(o1, o2) <==> Composable(o1, o2)
  {
    if Composable(o1, o2) {
      forall b ensures Merge(Merge(b, o1), o2) == Merge(b, Merge(o1, o2)) {
        ComposeWhenComposable(b, o1, o2);
      }
    } else {
      var b := Separating(o1, o2);
    }
  }

  /** Every source can be merged into what the sources before it, merged into `acc`, have made. */
  predicate ComposableChain(acc: Tree, sources: seq<Tree>)
    decreases |sources|
  {
    sources == [] ||
    (sources[0].IsObject() && Composable(acc, sources[0]) && ComposableChain(Merge(acc, sources[0]), sources[1..]))
  }

  /** Merging several sources in turn is merging one: what they make of each other. */
  lemma {:induction false} FoldIsOneMerge(b: Tree, acc: Tree, sources: seq<Tree>)
    requires acc.IsObject() && ComposableChain(acc, sources)
    ensures MergeAll(Merge(b, acc), sources) == Merge(b, MergeAll(acc, sources))
    decreases |sources|
  {
    if sources != [] {
      ComposeWhenComposable(b, acc, sources[0]);
      FoldIsOneMerge(b, Merge(acc, sources[0]), sources[1..]);
    }
  }

  // ---------- What is read back, path by path ----------

  function Get(t: Tree, path: seq<string>): Option<Tree>
    decreases |path|
  {
    if path == [] then Some(t)
    else if t.Object? && path[0] in t.props then Get(t.props[path[0]], path[1..])
    else None
  }

  /** Every step of the path but the last leads through an object of `b`, or through nothing or a falsy value. */
  predicate Open(b: Tree, path: seq<string>)
    decreases |path|
  {
    |path| > 0 ==> b.IsObject() && (|path| > 1 ==> Open(Child(b, path[0]), path[1..]))
  }

  /** `path` leads in `o` to something that is written as a whole: a scalar, null or an array. */
  predicate Leaf(o: Tree, path: seq<string>)
    decreases |path|
  {
    |path| > 0 && o.IsObject() && path[0] in o.props &&
    if |path| == 1 then !o.props[path[0]].IsObject()
    else Leaf(o.props[path[0]], path[1..])
  }

  /** `path` leaves `o` at a property that `o` does not have. */
  predicate Misses(o: Tree, path: seq<string>)
    decreases |path|
  {
    |path| > 0 && o.IsObject() &&
    (path[0] !in o.props || (o.props[path[0]].IsObject() && Misses(o.props[path[0]], path[1..])))
  }

  /** Every leaf of the overrides is read back, unless a scalar or an array of the base stands in its way. */
  lemma {:induction false} LeavesAreReadBack(b: Tree, o: Tree, path: seq<string>)
    requires Leaf(o, path)
    requires Open(b, path)
    ensures Get(Merge(b, o), path) == Get(o, path) && Get(o, path).Some?
    decreases |path|
  {
    if |path| == 1 {
      assert path[1..] == [];
    } else {
      LeavesAreReadBack(Child(b, path[0]), o.props[path[0]], path[1..]);
    }
  }

  /** Every path that the overrides miss reads as before. */
  lemma {:induction false} MissedPathsAreKept(b: Tree, o: Tree, path: seq<string>)
    requires Misses(o, path)
    ensures Get(Merge(b, o), path) == Get(b, path)
    decreases |path|
  {
    if b.IsObject() && path[0] in o.props {
      MissedPathsAreKept(Child(b, path[0]), o.props[path[0]], path[1..]);
    }
  }

  /** Where a scalar or an array stands in the way, it stays, and the override below it is lost. */
  lemma {:induction false} BlockedPathsAreKept(b: Tree, o: Tree, path: seq<string>)
    requires Leaf(o, path) && !Open(b, path)
    ensures Get(Merge(b, o), path) == Get(b, path)
    decreases |path|
  {
    if b.IsObject() {
      BlockedPathsAreKept(Child(b, path[0]), o.props[path[0]], path[1..]);
    }
  }

  lemma {:induction false} AllMiss(b: Tree, sources: seq<Tree>, path: seq<string>)
    requires forall i | 0 <= i < |sources| :: Misses(sources[i], path)
    ensures Get(MergeAll(b, sources), path) == Get(b, path)
    decreases |sources|
  {
    if sources != [] {
      MissedPathsAreKept(b, sources[0], path);
      assert forall i | 0 <= i < |sources[1..]| :: sources[1..][i] == sources[i + 1];
      AllMiss(Merge(b, sources[0]), sources[1..], path);
    }
  }

  /** Of several sources, the last that has a leaf at a path decides it, if nothing stands in its way by then. */
  lemma {:induction false} LastSourceWins(b: Tree, sources: seq<Tree>, k: nat, path: seq<string>)
    requires k < |sources| && Leaf(sources[k], path) && Open(MergeAll(b, sources[..k]), path)
    requires forall i | k < i < |sources| :: Misses(sources[i], path)
    ensures Get(MergeAll(b, sources), path) == Get(sources[k], path) && Get(sources[k], path).Some?
    decreases |sources|
  {
    assert forall i | 0 <= i < |sources[1..]| :: sources[1..][i] == sources[i + 1];
    if k == 0 {
      LeavesAreReadBack(b, sources[0], path);
      AllMiss(Merge(b, sources[0]), sources[1..], path);
    } else {
      assert sources[..k][1..] == sources[1..][..k - 1];
      LastSourceWins(Merge(b, sources[0]), sources[1..], k - 1, path);
    }
  }
}
