/**
 * The overrides of the connect configuration, `override` (connect/src/config.ts), and how it compares with
 * `mergeDeep`.
 */
module ConfigOverride {
  import opened Prelude
  import opened ConfigMerge

  /** `override(base, o)`: the tree it returns, or the exception when an override cannot be entered or written. */
  function Override(base: Option<Tree>, o: Tree): Result<Tree, ()>
    decreases o, 1
  {
    var b := if base.Some? && base.value.Truthy() then base.value else EMPTY;
    if !o.Object? then Err(())
    else if o.props == map[] then Ok(b)
    else if !b.Object? then Err(())
    else if exists k | k in o.props :: Entered(o.props[k]) && Override(Some(Child(b, k)), o.props[k]).Err? then Err(())
    else
      Ok(Object(b.isArray, map k | k in b.props.Keys + o.props.Keys ::
        if k !in o.props then b.props[k]
        else if Entered(o.props[k]) then Override(Some(Child(b, k)), o.props[k]).value
        else o.props[k]))
  }

  /** The overrides that `override` recurses into; null counts as an object there. */
  predicate Entered(o: Tree) {
    o.Null? || o.IsObject()
  }

  /** The value that an override leaves under its key, or the exception. */
  function Overridden(b: Tree, o: Tree, key: string): Result<Tree, ()>
    requires o.Object? && key in o.props
    decreases o, 0
  {
    if Entered(o.props[key]) then Override(Some(Child(b, key)), o.props[key]) else Ok(o.props[key])
  }

  /** The overrides outside `keys` have been written into `base`, which was `b`. */
  ghost predicate Written(base: Tree, b: Tree, o: Tree, keys: set<string>) {
    && base.Object? && b.Object? && o.Object? && keys <= o.props.Keys
    && base.isArray == b.isArray
    && base.props.Keys == b.props.Keys + (o.props.Keys - keys)
    && (forall k | k in o.props && k !in keys :: Overridden(b, o, k) == Ok(base.props[k]))
    && (forall k | k in b.props && (k !in o.props || k in keys) :: base.props[k] == b.props[k])
  }

  lemma OverrideFails(b: Tree, o: Tree, key: string)
    requires b.Object? && o.Object? && key in o.props && Overridden(b, o, key).Err?
    ensures Override(Some(b), o).Err?
  {
  }

  lemma AllWritten(base: Tree, b: Tree, o: Tree)
    requires Written(base, b, o, {})
    ensures Override(Some(b), o) == Ok(base)
  {
    if o.props == map[] {
      assert base.props == b.props;
    } else {
      assert forall k | k in o.props :: Overridden(b, o, k).Ok?;
      assert Override(Some(b), o).Ok?;
      var r := Override(Some(b), o).value;
      assert r.props.Keys == base.props.Keys;
      forall k | k in base.props ensures r.props[k] == base.props[k] {
        if k in o.props {
          assert Overridden(b, o, k) == Ok(base.props[k]);
        }
      }
      assert r.props == base.props;
    }
  }

  /** `override`, key by key; when it throws, the tree is left as far as it got. */
  method OverrideTree(start: Option<Tree>, overrides: Tree) returns (base: Tree, threw: bool)
    ensures threw <==> Override(start, overrides).Err?
    ensures !threw ==> Override(start, overrides) == Ok(base)
    ensures start.Some? && start.value.IsObject() ==> base.IsObject()
    decreases overrides
  {
    base := if start.Some? && start.value.Truthy() then start.value else EMPTY;
    ghost var b := base;
    assert Override(start, overrides) == Override(Some(b), overrides);
    if !overrides.Object? { return base, true; }
    if overrides.props == map[] { return base, false; }
    if !base.Object? { return base, true; }
    var keys := overrides.props.Keys;
    while keys != {}
      invariant Written(base, b, overrides, keys)
    {
      var key :| key in keys;
      var value := overrides.props[key];
      if Entered(value) {
        var child := if key in base.props then Some(base.props[key]) else None;
        SameChild(base, b, key, value);
        var inner, failed := OverrideTree(child, value);
        if failed {
          OverrideFails(b, overrides, key);
          if child.Some? && child.value.Truthy() { base := base.(props := base.props[key := inner]); }
          return base, true;
        }
        value := inner;
      }
      base := base.(props := base.props[key := value]);
      keys := keys - {key};
    }
    AllWritten(base, b, overrides);
    return base, false;
  }

  /** A missing, falsy or empty child are all overridden alike. */
  lemma SameChild(t: Tree, b: Tree, key: string, o: Tree)
    requires t.Object? && b.Object?
    requires key in b.props ==> key in t.props && t.props[key] == b.props[key]
    requires key !in b.props ==> key !in t.props
    ensures Override(if key in t.props then Some(t.props[key]) else None, o) == Override(Some(Child(b, key)), o)
  {
  }

  /** An override that returns has written every key, and nothing else. */
  lemma ReturnsWritten(b: Tree, o: Tree)
    requires b.Object? && o.IsObject() && Override(Some(b), o).Ok?
    ensures Written(Override(Some(b), o).value, b, o, {})
  {
    if o.props != map[] {
      var r := Override(Some(b), o).value;
      forall k | k in o.props ensures Overridden(b, o, k) == Ok(r.props[k]) {
        assert Entered(o.props[k]) ==> Override(Some(Child(b, k)), o.props[k]).Ok?;
      }
    }
  }

  /** What comes out of a truthy base is truthy, and an object proper where the base is one. */
  lemma StaysTruthy(b: Tree, o: Tree)
    requires b.Truthy() && o.IsObject() && Override(Some(b), o).Ok?
    ensures Override(Some(b), o).value.Truthy()
    ensures b.Object? ==> Override(Some(b), o).value.Object? && Override(Some(b), o).value.isArray == b.isArray
  {
  }

  // ---------- When it throws ----------

  /** No override is null, and none goes into a truthy scalar of the base. */
  predicate Compatible(t: Tree, s: Tree)
    decreases s
  {
    s.IsObject() && s.props != map[] ==>
      t.Object? && forall k | k in s.props :: !s.props[k].Null? && Compatible(Child(t, k), s.props[k])
  }

  /** An override throws exactly when it is not compatible with the base. */
  lemma {:induction false} ThrowsIff(t: Tree, s: Tree)
    requires t.Truthy() && s.IsObject()
    ensures Override(Some(t), s).Err? <==> !Compatible(t, s)
    decreases s
  {
    if s.props != map[] && t.Object? {
      forall k | k in s.props
        ensures Overridden(t, s, k).Err? <==> s.props[k].Null? || !Compatible(Child(t, k), s.props[k])
      {
        if s.props[k].IsObject() {
          ThrowsIff(Child(t, k), s.props[k]);
        }
      }
      if Override(Some(t), s).Ok? {
        ReturnsWritten(t, s);
      } else {
        var k :| k in s.props && Entered(s.props[k]) && Override(Some(Child(t, k)), s.props[k]).Err?;
        assert Overridden(t, s, k).Err?;
      }
    }
  }

  // ---------- Overriding is an action, too ----------

  /** An override that some base takes is what an empty base becomes. */
  lemma {:induction false} OverrideEmpty(t: Tree, s: Tree)
    requires t.Truthy() && s.IsObject() && Override(Some(t), s).Ok?
    ensures Override(Some(EMPTY), s) == Ok(s)
    decreases s
  {
    if s.props != map[] {
      ReturnsWritten(t, s);
      forall k | k in s.props ensures Overridden(EMPTY, s, k) == Ok(s.props[k]) {
        assert Overridden(t, s, k).Ok?;
        if s.props[k].IsObject() {
          OverrideEmpty(Child(t, k), s.props[k]);
        }
      }
      AllWritten(s, EMPTY, s);
    }
  }

  /** The first overrides are applied, then the second. */
  function OverrideBoth(b: Tree, o1: Tree, o2: Tree): Result<Tree, ()> {
    var first := Override(Some(b), o1);
    if first.Err? then first else Override(Some(first.value), o2)
  }

  /** What the second overrides make of the first is applied. */
  function OverrideOnce(b: Tree, o1: Tree, o2: Tree): Result<Tree, ()> {
    var merged := Override(Some(o1), o2);
    if merged.Err? then merged else Override(Some(b), merged.value)
  }

  /** One key of the action law. */
  lemma {:induction false} OverridesComposeAt(b: Tree, o1: Tree, o2: Tree, m: Tree, r: Tree, k: string)
    requires b.Object? && o1.IsObject() && o2.IsObject() && Composable(o1, o2)
    requires Written(m, b, o1, {}) && Written(r, m, o2, {}) && k in o2.props
    ensures Overridden(o1, o2, k).Ok?
    ensures var w := Overridden(o1, o2, k).value;
            (if Entered(w) then Override(Some(Child(b, k)), w) else Ok(w)) == Ok(r.props[k])
    decreases o2, 0
  {
    assert Overridden(m, o2, k) == Ok(r.props[k]);
    if Entered(o2.props[k]) {
      var deep := o2.props[k];
      if k !in o1.props {
        OverrideEmpty(Child(m, k), deep);
        assert Child(m, k) == Child(b, k);
      } else {
        assert Overridden(b, o1, k) == Ok(m.props[k]);
        if o1.props[k].IsObject() {
          StaysTruthy(Child(b, k), o1.props[k]);
          OverridesCompose(Child(b, k), o1.props[k], deep);
          StaysTruthy(o1.props[k], deep);
        } else if o1.props[k].Object? {
          StaysTruthy(o1.props[k], deep);
        }
      }
    }
  }

  /** Whenever two overrides succeed in turn and are composable, their merge succeeds and does the same. */
  lemma {:induction false} OverridesCompose(b: Tree, o1: Tree, o2: Tree)
    requires b.Truthy() && o1.IsObject() && o2.IsObject() && Composable(o1, o2)
    requires OverrideBoth(b, o1, o2).Ok?
    ensures OverrideOnce(b, o1, o2) == OverrideBoth(b, o1, o2)
    decreases o2
  {
    var m := Override(Some(b), o1).value;
    StaysTruthy(b, o1);
    if o1.props == map[] {
      OverrideEmpty(m, o2);
      assert o1 == EMPTY;
    } else if o2.props != map[] {
      var r := Override(Some(m), o2).value;
      ReturnsWritten(b, o1);
      ReturnsWritten(m, o2);
      OverridesComposeDeep(b, o1, o2, m, r);
    }
  }

  lemma {:induction false} OverridesComposeDeep(b: Tree, o1: Tree, o2: Tree, m: Tree, r: Tree)
    requires b.Object? && o1.IsObject() && o2.IsObject() && Composable(o1, o2)
    requires Written(m, b, o1, {}) && Written(r, m, o2, {})
    ensures OverrideOnce(b, o1, o2) == Ok(r)
    decreases o2, 1
  {
    var keys := o1.props.Keys + o2.props.Keys;
    forall k | k in o2.props
      ensures Overridden(o1, o2, k).Ok?
      ensures var w := Overridden(o1, o2, k).value;
              (if Entered(w) then Override(Some(Child(b, k)), w) else Ok(w)) == Ok(r.props[k])
    {
      OverridesComposeAt(b, o1, o2, m, r, k);
    }
    var merged :=
      Object(false, map k | k in keys :: if k in o2.props then Overridden(o1, o2, k).value else o1.props[k]);
    AllWritten(merged, o1, o2);
    forall k | k in merged.props ensures Overridden(b, merged, k) == Ok(r.props[k]) {
      if k !in o2.props {
        assert Overridden(b, o1, k) == Ok(m.props[k]);
      }
    }
    AllWritten(r, b, merged);
  }

  /**
   * A base that takes two overrides in turn but not as one, when they are not composable: an empty array where the
   * first puts something falsy and the second goes in.
   */
  lemma {:induction false} SeparatingOverride(o1: Tree, o2: Tree) returns (b: Tree)
    requires o1.IsObject() && o2.IsObject() && !Composable(o1, o2)
    requires Override(Some(EMPTY), o1).Ok? && Override(Some(o1), o2).Ok?
    ensures b.IsObject() && OverrideBoth(b, o1, o2).Ok? && OverrideOnce(b, o1, o2) != OverrideBoth(b, o1, o2)
    decreases o2
  {
    var k :| k in o1.props && k in o2.props && o2.props[k].IsObject() &&
             !(o1.props[k].Truthy() && Composable(o1.props[k], o2.props[k]));
    var deep := o2.props[k];
    ReturnsWritten(EMPTY, o1);
    ReturnsWritten(o1, o2);
    assert Overridden(EMPTY, o1, k).Ok? && Overridden(o1, o2, k).Ok?;
    var inner: Tree;
    if o1.props[k].Truthy() {
      inner := SeparatingOverride(o1.props[k], deep);
    } else {
      inner := Object(true, map[]);
      OverrideEmpty(Child(o1, k), deep);
      ThrowsIff(inner, deep);
      ThrowsIff(EMPTY, deep);
      CompatibleWithEmptyArray(deep);
      StaysTruthy(inner, deep);
    }
    b := Object(false, map[k := inner]);
    SeparatesAt(b, o1, o2, k, inner);
  }

  lemma CompatibleWithEmptyArray(s: Tree)
    ensures Compatible(Object(true, map[]), s) <==> Compatible(EMPTY, s)
  {
    assert forall k :: Child(Object(true, map[]), k) == Child(EMPTY, k);
  }

  /** A base with one key alone, under overrides that have it: what they say, but for that key. */
  lemma OneKeyWritten(b: Tree, o1: Tree, k: string, inner: Tree)
    requires b == Object(false, map[k := inner]) && inner.Truthy()
    requires o1.IsObject() && k in o1.props && Override(Some(EMPTY), o1).Ok?
    requires o1.props[k].Truthy() ==> o1.props[k].IsObject() && Override(Some(inner), o1.props[k]).Ok?
    requires !o1.props[k].Truthy() ==> o1.props[k].Scalar?
    ensures var below := if o1.props[k].Truthy() then Override(Some(inner), o1.props[k]).value else o1.props[k];
            Override(Some(b), o1) == Ok(Object(false, o1.props[k := below]))
  {
    var below := if o1.props[k].Truthy() then Override(Some(inner), o1.props[k]).value else o1.props[k];
    var m := Object(false, o1.props[k := below]);
    ReturnsWritten(EMPTY, o1);
    forall j | j in o1.props ensures Overridden(b, o1, j) == Ok(m.props[j]) {
      if j != k {
        assert Overridden(EMPTY, o1, j).Ok? && Child(b, j) == EMPTY;
        if Entered(o1.props[j]) {
          OverrideEmpty(EMPTY, o1.props[j]);
        }
      }
    }
    AllWritten(m, b, o1);
  }

  /** Overrides on two bases that differ in one key alone. */
  lemma OneKeyDiffers(m: Tree, o1: Tree, o2: Tree, k: string, below: Tree)
    requires o1.IsObject() && k in o1.props && m == Object(false, o1.props[k := below])
    requires o2.IsObject() && k in o2.props && Override(Some(o1), o2).Ok? && Overridden(m, o2, k).Ok?
    ensures var merged := Override(Some(o1), o2).value;
            merged.IsObject() &&
            Override(Some(m), o2) == Ok(Object(false, merged.props[k := Overridden(m, o2, k).value]))
  {
    var merged := Override(Some(o1), o2).value;
    var r := Object(false, merged.props[k := Overridden(m, o2, k).value]);
    ReturnsWritten(o1, o2);
    forall j | j in o2.props ensures Overridden(m, o2, j) == Ok(r.props[j]) {
      assert Overridden(o1, o2, j) == Ok(merged.props[j]);
      assert j != k ==> Child(m, j) == Child(o1, j);
    }
    AllWritten(r, m, o2);
  }

  /** What tells two overrides apart below a key tells them apart from above. */
  lemma SeparatesAt(b: Tree, o1: Tree, o2: Tree, k: string, inner: Tree)
    requires b == Object(false, map[k := inner]) && inner.Truthy()
    requires o1.IsObject() && o2.IsObject() && k in o1.props && k in o2.props && o2.props[k].IsObject()
    requires Override(Some(EMPTY), o1).Ok? && Override(Some(o1), o2).Ok?
    requires if o1.props[k].Truthy()
             then o1.props[k].IsObject() && OverrideBoth(inner, o1.props[k], o2.props[k]).Ok?
                  && OverrideOnce(inner, o1.props[k], o2.props[k]) != OverrideBoth(inner, o1.props[k], o2.props[k])
             else o1.props[k].Scalar? && Override(Some(inner), o2.props[k]) != Override(Some(EMPTY), o2.props[k])
                  && Override(Some(EMPTY), o2.props[k]) == Ok(o2.props[k])
    ensures OverrideBoth(b, o1, o2).Ok? && OverrideOnce(b, o1, o2) != OverrideBoth(b, o1, o2)
  {
    var deep, merged := o2.props[k], Override(Some(o1), o2).value;
    var below := if o1.props[k].Truthy() then Override(Some(inner), o1.props[k]).value else o1.props[k];
    var m := Object(false, o1.props[k := below]);
    OneKeyWritten(b, o1, k, inner);
    if o1.props[k].Truthy() {
      StaysTruthy(inner, o1.props[k]);
    }
    OneKeyDiffers(m, o1, o2, k, below);
    ReturnsWritten(o1, o2);
    StaysTruthy(Child(o1, k), deep);
    if OverrideOnce(b, o1, o2).Ok? {
      OverrideOnceAt(b, o1, o2, k);
    }
  }

  /** The value that one override by the merge leaves under a key is the override of the value there. */
  lemma OverrideOnceAt(b: Tree, o1: Tree, o2: Tree, k: string)
    requires b.Object? && o1.IsObject() && o2.IsObject() && k in o2.props && OverrideOnce(b, o1, o2).Ok?
    ensures Overridden(o1, o2, k).Ok?
    ensures OverrideOnce(b, o1, o2).value.Object? && k in OverrideOnce(b, o1, o2).value.props
    ensures var w := Overridden(o1, o2, k).value;
            (if Entered(w) then Override(Some(Child(b, k)), w) else Ok(w)) == Ok(OverrideOnce(b, o1, o2).value.props[k])
  {
    ReturnsWritten(o1, o2);
    ReturnsWritten(b, Override(Some(o1), o2).value);
  }

  /** Overrides that some base takes in turn can be merged. */
  lemma {:induction false} TakenAreMergeable(b: Tree, o1: Tree, o2: Tree)
    requires b.Truthy() && o1.IsObject() && o2.IsObject() && OverrideBoth(b, o1, o2).Ok?
    ensures Override(Some(EMPTY), o1).Ok? && Override(Some(o1), o2).Ok?
    decreases o2
  {
    var m := Override(Some(b), o1).value;
    OverrideEmpty(b, o1);
    StaysTruthy(b, o1);
    if o1.props == map[] {
      OverrideEmpty(m, o2);
      assert o1 == EMPTY;
    } else if o2.props != map[] {
      ReturnsWritten(b, o1);
      ReturnsWritten(m, o2);
      forall k | k in o2.props ensures Overridden(o1, o2, k).Ok? {
        assert Overridden(m, o2, k).Ok?;
        if k !in o1.props && Entered(o2.props[k]) {
          OverrideEmpty(Child(m, k), o2.props[k]);
        } else if k in o1.props && Entered(o2.props[k]) {
          assert Overridden(b, o1, k) == Ok(m.props[k]);
          if o1.props[k].IsObject() {
            StaysTruthy(Child(b, k), o1.props[k]);
            TakenAreMergeable(Child(b, k), o1.props[k], o2.props[k]);
          }
        }
      }
      assert forall k | k in o2.props && Entered(o2.props[k]) :: Override(Some(Child(o1, k)), o2.props[k]).Ok? by {
        assert forall k | k in o2.props && Entered(o2.props[k]) :: Overridden(o1, o2, k).Ok?;
      }
    }
  }

  ghost predicate OverridesActAsOne(o1: Tree, o2: Tree) {
    forall b: Tree | b.Truthy() && OverrideBoth(b, o1, o2).Ok? :: OverrideOnce(b, o1, o2) == OverrideBoth(b, o1, o2)
  }

  /** The first overrides hold no null, and the second can be merged into them. */
  predicate Mergeable(o1: Tree, o2: Tree) {
    Override(Some(EMPTY), o1).Ok? && Override(Some(o1), o2).Ok?
  }

  /**
   * Two overrides act on every base that takes them in turn as their merge does exactly when they are composable, or
   * not mergeable: then no base takes them.
   */
  lemma OverrideActionLaw(o1: Tree, o2: Tree)
    requires o1.IsObject() && o2.IsObject()
    ensures OverridesActAsOne(o1, o2) <==> Composable(o1, o2) || !Mergeable(o1, o2)
    ensures Mergeable(o1, o2) <==> exists b: Tree :: b.Truthy() && OverrideBoth(b, o1, o2).Ok?
  {
    forall b: Tree | b.Truthy() && OverrideBoth(b, o1, o2).Ok?
      ensures Mergeable(o1, o2) && (Composable(o1, o2) ==> OverrideOnce(b, o1, o2) == OverrideBoth(b, o1, o2))
    {
      TakenAreMergeable(b, o1, o2);
      if Composable(o1, o2) {
        OverridesCompose(b, o1, o2);
      }
    }
    if Mergeable(o1, o2) {
      OverrideEmpty(EMPTY, o1);
      assert OverrideBoth(EMPTY, o1, o2).Ok?;
      if !Composable(o1, o2) {
        var b := SeparatingOverride(o1, o2);
      }
    }
  }

  /** Overrides that succeed succeed a second time and change nothing. */
  lemma {:induction false} OverrideTwice(t: Tree, s: Tree)
    requires t.Truthy() && s.IsObject() && Override(Some(t), s).Ok?
    ensures Override(Some(Override(Some(t), s).value), s) == Override(Some(t), s)
    decreases s
  {
    if s.props != map[] {
      var r := Override(Some(t), s).value;
      ReturnsWritten(t, s);
      forall k | k in s.props ensures Overridden(r, s, k) == Ok(r.props[k]) {
        assert Overridden(t, s, k) == Ok(r.props[k]);
        if s.props[k].IsObject() {
          OverrideTwice(Child(t, k), s.props[k]);
          StaysTruthy(Child(t, k), s.props[k]);
        }
      }
      AllWritten(r, r, s);
    }
  }

  // ---------- What is read back, path by path ----------

  /** Every leaf of overrides that succeed is read back. */
  lemma {:induction false} OverrideLeavesAreReadBack(b: Tree, o: Tree, path: seq<string>)
    requires b.Truthy() && Override(Some(b), o).Ok? && Leaf(o, path)
    ensures Get(Override(Some(b), o).value, path) == Get(o, path) && Get(o, path).Some?
    decreases |path|
  {
    ReturnsWritten(b, o);
    var r, k := Override(Some(b), o).value, path[0];
    assert Overridden(b, o, k) == Ok(r.props[k]);
    if |path| == 1 {
      assert path[1..] == [];
    } else {
      OverrideLeavesAreReadBack(Child(b, k), o.props[k], path[1..]);
    }
  }

  /** And every path that they miss reads as before. */
  lemma {:induction false} OverrideMissedPathsAreKept(b: Tree, o: Tree, path: seq<string>)
    requires b.Truthy() && Override(Some(b), o).Ok? && Misses(o, path)
    ensures Get(Override(Some(b), o).value, path) == Get(b, path)
    decreases |path|
  {
    if o.props != map[] {
      ReturnsWritten(b, o);
      var r, k := Override(Some(b), o).value, path[0];
      if k in o.props {
        assert Overridden(b, o, k) == Ok(r.props[k]);
        OverrideMissedPathsAreKept(Child(b, k), o.props[k], path[1..]);
      }
    }
  }

  // ---------- The two merges compared ----------

  /** Everything that the overrides would write is there already. */
  predicate NoOp(t: Tree, s: Tree)
    decreases s
  {
    s.IsObject() &&
    (s.props == map[] ||
     (t.Object? && forall k | k in s.props ::
        k in t.props && if Entered(s.props[k]) then t.props[k].Truthy() && NoOp(t.props[k], s.props[k])
                        else t.props[k] == s.props[k]))
  }

  /** Overrides leave a base as it is exactly when all they would write is there. */
  lemma {:induction false} ChangesNothingIff(t: Tree, s: Tree)
    requires t.Truthy() && s.IsObject()
    ensures Override(Some(t), s) == Ok(t) <==> NoOp(t, s)
    decreases s
  {
    if s.props != map[] && t.Object? {
      forall k | k in s.props && k in t.props
        ensures Overridden(t, s, k) == Ok(t.props[k])
                <==> if Entered(s.props[k]) then t.props[k].Truthy() && NoOp(t.props[k], s.props[k])
                     else t.props[k] == s.props[k]
      {
        if s.props[k].IsObject() {
          ChangesNothingIff(Child(t, k), s.props[k]);
          if Overridden(t, s, k).Ok? {
            StaysTruthy(Child(t, k), s.props[k]);
          }
        }
      }
      if Override(Some(t), s) == Ok(t) {
        ReturnsWritten(t, s);
        assert forall k | k in s.props :: k in t.props && Overridden(t, s, k) == Ok(t.props[k]);
      }
      if NoOp(t, s) {
        AllWritten(t, t, s);
      }
    }
  }

  /**
   * No override is null, none goes into a truthy scalar, and where they go into an array, which `mergeDeep` does not,
   * all they would write is there.
   */
  predicate SameEffect(t: Tree, s: Tree)
    decreases s
  {
    s.IsObject() &&
    (s.props == map[] ||
     (t.Object? &&
      if t.isArray then NoOp(t, s)
      else
        forall k | k in s.props && Entered(s.props[k]) ::
          s.props[k].IsObject() && SameEffect(Child(t, k), s.props[k])))
  }

  /**
   * `override` and `mergeDeep` leave the same tree exactly under that condition, whatever the base and the overrides.
   */
  lemma {:induction false} OverrideIsMergeIff(t: Tree, s: Tree)
    requires t.Truthy() && s.IsObject()
    ensures Override(Some(t), s) == Ok(Merge(t, s)) <==> SameEffect(t, s)
    decreases s
  {
    if s.props == map[] {
      assert t.IsObject() ==> Merge(t, s).props == t.props;
    } else if t.Object? && t.isArray {
      ChangesNothingIff(t, s);
    } else if t.Object? {
      var m := Merge(t, s);
      forall k | k in s.props
        ensures Overridden(t, s, k) == Ok(m.props[k])
                <==> (Entered(s.props[k]) ==> s.props[k].IsObject() && SameEffect(Child(t, k), s.props[k]))
      {
        if s.props[k].IsObject() {
          OverrideIsMergeIff(Child(t, k), s.props[k]);
        }
      }
      if Override(Some(t), s) == Ok(m) {
        ReturnsWritten(t, s);
        assert forall k | k in s.props :: Overridden(t, s, k) == Ok(m.props[k]);
      }
      if SameEffect(t, s) {
        AllWritten(m, t, s);
      }
    }
  }

  /**
   * `mergeDeep` leaves an array as it is, whatever it is to go into; `override` does so only if nothing is to be
   * written.
   */
  lemma ArraysTellThemApart(t: Tree, s: Tree)
    requires t.Object? && t.isArray && s.IsObject()
    ensures Merge(t, s) == t
    ensures Override(Some(t), s) == Ok(t) <==> NoOp(t, s)
    ensures Compatible(t, s) && !NoOp(t, s) ==> Override(Some(t), s).Ok? && Override(Some(t), s).value != Merge(t, s)
  {
    ChangesNothingIff(t, s);
    ThrowsIff(t, s);
  }

  // ---------- The configurations of the process ----------

  /** `CONFIG`: one tree per network, shared by every `Wormhole` of the process. */
  class Configs {
    var byNetwork: map<string, Tree>

    ghost predicate Valid()
      reads this
    {
      forall n | n in byNetwork :: byNetwork[n].IsObject()
    }

    constructor (defaults: map<string, Tree>)
      requires forall n | n in defaults :: defaults[n].IsObject()
      ensures Valid() && byNetwork == defaults
    {
      byNetwork := defaults;
    }

    /** `applyWormholeConfigOverrides`: the overrides are written into the shared tree itself. */
    method ApplyOverrides(network: string, overrides: Option<Tree>) returns (config: Tree, threw: bool)
      requires Valid() && network in byNetwork
      requires overrides.Some? ==> overrides.value.IsObject()
      modifies this
      ensures Valid()
      ensures byNetwork == old(byNetwork)[network := config]
      ensures overrides.None? ==> !threw && config == old(byNetwork[network])
      ensures overrides.Some? ==> (threw <==> !Compatible(old(byNetwork[network]), overrides.value))
      ensures overrides.Some? && !threw ==> Override(Some(old(byNetwork[network])), overrides.value) == Ok(config)
      ensures overrides.Some? && !threw ==>
                (config == Merge(old(byNetwork[network]), overrides.value)
                 <==> SameEffect(old(byNetwork[network]), overrides.value))
    {
      var base := byNetwork[network];
      if overrides.None? {
        return base, false;
      }
      config, threw := OverrideTree(Some(base), overrides.value);
      byNetwork := byNetwork[network := config];
      ThrowsIff(base, overrides.value);
      OverrideIsMergeIff(base, overrides.value);
    }
  }
}
