/** The reconciliation pattern both overlay effects follow: remove every entity whose
    `type` property is the layer's tag, stop if the layer is hidden, otherwise add one
    entity per qualifying record, in order. The scene refuses an entity whose id is already
    present; the effect then stops at that entity, as the exception it throws ends it. */
module Reconcile {
  import opened Js
  import opened Scene

  /** `e.properties && e.properties.type && e.properties.type.getValue() === tag` */
  predicate IsTagged(e: Entity, tag: string) {
    TypeTag(e.properties) == Some(tag)
  }

  /** The entities of `es` tagged `tag`, in order (the effect's `toRemove` list). */
  function WithTag(es: seq<Entity>, tag: string): (r: seq<Entity>)
    ensures |r| <= |es|
  {
    if es == [] then []
    else (if IsTagged(es[0], tag) then [es[0]] else []) + WithTag(es[1..], tag)
  }

  /** The entities of `es` not tagged `tag`, in order. */
  function WithoutTag(es: seq<Entity>, tag: string): (r: seq<Entity>)
    ensures |r| <= |es|
  {
    if es == [] then []
    else (if IsTagged(es[0], tag) then [] else [es[0]]) + WithoutTag(es[1..], tag)
  }

  /** The two filters split `es`: each keeps exactly the entities on its side of the tag. */
  lemma {:induction false} FilterMembers(es: seq<Entity>, tag: string)
    ensures forall e :: e in WithTag(es, tag) <==> e in es && IsTagged(e, tag)
    ensures forall e :: e in WithoutTag(es, tag) <==> e in es && !IsTagged(e, tag)
  {
    if es != [] {
      FilterMembers(es[1..], tag);
    }
  }

  ghost predicate AllTagged(es: seq<Entity>, tag: string) {
    forall i :: 0 <= i < |es| ==> IsTagged(es[i], tag)
  }

  function IdSet(es: seq<Entity>): set<string> {
    set e | e in es :: e.id
  }

  lemma {:induction false} WithTagConcat(a: seq<Entity>, b: seq<Entity>, tag: string)
    ensures WithTag(a + b, tag) == WithTag(a, tag) + WithTag(b, tag)
  {
    if a == [] {
      assert a + b == b;
    } else {
      assert (a + b)[0] == a[0] && (a + b)[1..] == a[1..] + b;
      WithTagConcat(a[1..], b, tag);
      var head := if IsTagged(a[0], tag) then [a[0]] else [];
      var x, y := WithTag(a[1..], tag), WithTag(b, tag);
      assert WithTag(a + b, tag) == head + (x + y);
      assert WithTag(a, tag) == head + x;
      assert head + (x + y) == (head + x) + y;
    }
  }

  lemma {:induction false} WithoutTagConcat(a: seq<Entity>, b: seq<Entity>, tag: string)
    ensures WithoutTag(a + b, tag) == WithoutTag(a, tag) + WithoutTag(b, tag)
  {
    if a == [] {
      assert a + b == b;
    } else {
      assert (a + b)[0] == a[0] && (a + b)[1..] == a[1..] + b;
      WithoutTagConcat(a[1..], b, tag);
      var head := if IsTagged(a[0], tag) then [] else [a[0]];
      var x, y := WithoutTag(a[1..], tag), WithoutTag(b, tag);
      assert WithoutTag(a + b, tag) == head + (x + y);
      assert WithoutTag(a, tag) == head + x;
      assert head + (x + y) == (head + x) + y;
    }
  }

  lemma {:induction false} AllTaggedFilters(es: seq<Entity>, tag: string)
    requires AllTagged(es, tag)
    ensures WithTag(es, tag) == es && WithoutTag(es, tag) == []
  {
    if es != [] {
      AllTaggedFilters(es[1..], tag);
    }
  }

  /** Filtering out a tag keeps entities of every other tag exactly as they were, and
      filtering twice is filtering once. */
  lemma {:induction false} WithoutTagFilters(es: seq<Entity>, tag: string, other: string)
    ensures tag != other ==> WithTag(WithoutTag(es, tag), other) == WithTag(es, other)
    ensures WithoutTag(WithoutTag(es, tag), tag) == WithoutTag(es, tag)
    ensures WithTag(WithoutTag(es, tag), tag) == []
  {
    if es != [] {
      WithoutTagFilters(es[1..], tag, other);
      var rest := WithoutTag(es[1..], tag);
      if IsTagged(es[0], tag) {
        assert WithoutTag(es, tag) == rest;
      } else {
        var r := WithoutTag(es, tag);
        assert r == [es[0]] + rest;
        assert r[0] == es[0] && r[1..] == rest;
      }
    }
  }

  /** Removing, one by one, the ids of the entities that carry `tag` leaves exactly the
      entities that do not: ids are unique, so no untagged entity shares an id with a
      tagged one. */
  lemma RemoveTaggedIds(es: seq<Entity>, tag: string)
    requires DistinctIds(es)
    ensures WithoutIds(es, IdSet(WithTag(es, tag))) == WithoutTag(es, tag)
  {
    var ids := IdSet(WithTag(es, tag));
    FilterMembers(es, tag);
    forall e | e in es ensures e.id in ids <==> IsTagged(e, tag) {
      if e.id in ids {
        var t :| t in WithTag(es, tag) && t.id == e.id;
        var i :| 0 <= i < |es| && es[i] == e;
        var j :| 0 <= j < |es| && es[j] == t;
        assert i == j;
      }
    }
    RemoveMatchingIds(es, tag, ids);
  }

  lemma {:induction false} RemoveMatchingIds(es: seq<Entity>, tag: string, ids: set<string>)
    requires forall e :: e in es ==> (e.id in ids <==> IsTagged(e, tag))
    ensures WithoutIds(es, ids) == WithoutTag(es, tag)
  {
    if es != [] {
      assert es[0] in es;
      forall e | e in es[1..] ensures e in es { }
      RemoveMatchingIds(es[1..], tag, ids);
    }
  }

  lemma IdSetSnoc(es: seq<Entity>, i: int)
    requires 0 <= i < |es|
    ensures IdSet(es[..i + 1]) == IdSet(es[..i]) + {es[i].id}
  {
    assert es[..i + 1] == es[..i] + [es[i]];
  }

  // ---------------------------------------------------------------------------
  // Adding entities one after another

  /** The entities after a run of adds, and the id the scene refused, if it refused one. */
  datatype PassResult = PassResult(entities: seq<Entity>, rejected: Option<string>)

  /** Adds `adds` to `base` in order, stopping at the first entity whose id is already
      present. */
  function AddAll(base: seq<Entity>, adds: seq<Entity>): PassResult
    decreases |adds|
  {
    if adds == [] then PassResult(base, None)
    else
      var prev := AddAll(base, adds[..|adds| - 1]);
      var e := adds[|adds| - 1];
      if prev.rejected.Some? then prev
      else if HasId(prev.entities, e.id) then PassResult(prev.entities, Some(e.id))
      else PassResult(prev.entities + [e], None)
  }

  /** One more add after an unrefused run: refused when its id is present, else appended. */
  lemma AddAllStep(base: seq<Entity>, adds: seq<Entity>, e: Entity)
    requires AddAll(base, adds).rejected.None?
    ensures AddAll(base, adds + [e]) ==
      if HasId(AddAll(base, adds).entities, e.id) then PassResult(AddAll(base, adds).entities, Some(e.id))
      else PassResult(AddAll(base, adds).entities + [e], None)
  {
    assert (adds + [e])[..|adds + [e]| - 1] == adds;
  }

  /** A run of adds keeps a prefix of `adds`; when it is refused, the refused id is that of
      the first entity left out, and that id was already present. */
  lemma {:induction false} AddAllPrefix(base: seq<Entity>, adds: seq<Entity>) returns (k: nat)
    ensures k <= |adds| && AddAll(base, adds).entities == base + adds[..k]
    ensures AddAll(base, adds).rejected.None? ==> k == |adds|
    ensures AddAll(base, adds).rejected.Some? ==>
              k < |adds| && AddAll(base, adds).rejected == Some(adds[k].id)
              && HasId(base + adds[..k], adds[k].id)
    decreases |adds|
  {
    if adds == [] {
      k := 0;
    } else {
      var n := |adds| - 1;
      k := AddAllPrefix(base, adds[..n]);
      assert adds[..n][..k] == adds[..k];
      var prev := AddAll(base, adds[..n]);
      if prev.rejected.None? && !HasId(prev.entities, adds[n].id) {
        assert adds[..n + 1] == adds;
        k := n + 1;
      }
    }
  }

  /** Once a run of adds is refused, later adds change nothing. */
  lemma {:induction false} AddAllAfterRefusal(base: seq<Entity>, a: seq<Entity>, b: seq<Entity>)
    requires AddAll(base, a).rejected.Some?
    ensures AddAll(base, a + b) == AddAll(base, a)
    decreases |b|
  {
    if b == [] {
      assert a + b == a;
    } else {
      var n := |b| - 1;
      assert (a + b)[..|a + b| - 1] == a + b[..n];
      AddAllAfterRefusal(base, a, b[..n]);
    }
  }

  /** A run of adds succeeds exactly when the result would have no duplicate id; it then
      appends every entity. */
  lemma {:induction false} AddAllSucceeds(base: seq<Entity>, adds: seq<Entity>)
    requires DistinctIds(base)
    ensures AddAll(base, adds).rejected.None? <==> DistinctIds(base + adds)
    ensures AddAll(base, adds).rejected.None? ==> AddAll(base, adds).entities == base + adds
    decreases |adds|
  {
    if adds != [] {
      var n := |adds| - 1;
      AddAllSucceeds(base, adds[..n]);
      assert base + adds == (base + adds[..n]) + [adds[n]];
      var prev := AddAll(base, adds[..n]);
      if prev.rejected.Some? {
        assert !DistinctIds(base + adds) by {
          var i, j :| 0 <= i < j < |base + adds[..n]| && (base + adds[..n])[i].id == (base + adds[..n])[j].id;
          assert (base + adds)[i] == (base + adds[..n])[i] && (base + adds)[j] == (base + adds[..n])[j];
        }
      } else if HasId(prev.entities, adds[n].id) {
        var i :| 0 <= i < |prev.entities| && prev.entities[i].id == adds[n].id;
        assert (base + adds)[i] == prev.entities[i] && (base + adds)[|base + adds| - 1] == adds[n];
      } else {
        var whole := base + adds;
        forall i, j | 0 <= i < j < |whole| ensures whole[i].id != whole[j].id {
          if j < |whole| - 1 {
            assert whole[i] == prev.entities[i] && whole[j] == prev.entities[j];
          } else {
            assert whole[i] == prev.entities[i];
          }
        }
      }
    }
  }

  /** Two new entities with the same id make the run of adds refuse one of them. */
  lemma RepeatedAddRefused(base: seq<Entity>, adds: seq<Entity>, k: nat, l: nat)
    requires DistinctIds(base) && k < l < |adds| && adds[k].id == adds[l].id
    ensures AddAll(base, adds).rejected.Some?
  {
    AddAllSucceeds(base, adds);
    assert (base + adds)[|base| + k] == adds[k] && (base + adds)[|base| + l] == adds[l];
  }

  /** A new entity whose id is already present makes the run of adds refuse an entity. */
  lemma PresentIdRefused(base: seq<Entity>, adds: seq<Entity>, a: nat, b: nat)
    requires DistinctIds(base) && a < |base| && b < |adds| && base[a].id == adds[b].id
    ensures AddAll(base, adds).rejected.Some?
  {
    AddAllSucceeds(base, adds);
    assert (base + adds)[a] == base[a] && (base + adds)[|base| + b] == adds[b];
  }

  /** A run of adds never introduces a duplicate id. */
  lemma {:induction false} AddAllKeepsDistinct(base: seq<Entity>, adds: seq<Entity>)
    requires DistinctIds(base)
    ensures DistinctIds(AddAll(base, adds).entities)
    decreases |adds|
  {
    if adds != [] {
      var n := |adds| - 1;
      AddAllKeepsDistinct(base, adds[..n]);
      var prev := AddAll(base, adds[..n]).entities;
      var e := adds[n];
      if AddAll(base, adds[..n]).rejected.None? && !HasId(prev, e.id) {
        var next := prev + [e];
        forall i, j | 0 <= i < j < |next| ensures next[i].id != next[j].id {
          assert next[i] == prev[i];
          if j < |prev| {
            assert next[j] == prev[j];
          }
        }
      }
    }
  }

  // ---------------------------------------------------------------------------
  // One reconciliation pass

  /** Remove every entity tagged `tag`; if the layer is visible, add `adds` in order. */
  function Pass(es: seq<Entity>, tag: string, visible: bool, adds: seq<Entity>): PassResult {
    var kept := WithoutTag(es, tag);
    if !visible then PassResult(kept, None) else AddAll(kept, adds)
  }

  /** A pass leaves every entity of another layer, or of none, exactly as it was, in order. */
  lemma PassKeepsUntagged(es: seq<Entity>, tag: string, visible: bool, adds: seq<Entity>)
    requires AllTagged(adds, tag)
    ensures WithoutTag(Pass(es, tag, visible, adds).entities, tag) == WithoutTag(es, tag)
  {
    WithoutTagFilters(es, tag, tag);
    if visible {
      var base := WithoutTag(es, tag);
      var k := AddAllPrefix(base, adds);
      WithoutTagConcat(base, adds[..k], tag);
      AllTaggedFilters(adds[..k], tag);
      assert WithoutTag(base, tag) + [] == WithoutTag(base, tag);
    }
  }

  /** After a pass the layer's entities are exactly the new ones: none when the layer is
      hidden; a prefix of `adds`, and all of them unless the scene refused one, when shown.
      So no entity tagged before the pass survives unless it is rebuilt identically. */
  lemma PassTaggedPart(es: seq<Entity>, tag: string, visible: bool, adds: seq<Entity>)
    requires AllTagged(adds, tag)
    ensures !visible ==> WithTag(Pass(es, tag, visible, adds).entities, tag) == []
    ensures visible ==> |WithTag(Pass(es, tag, visible, adds).entities, tag)| <= |adds|
    ensures visible ==> adds[..|WithTag(Pass(es, tag, visible, adds).entities, tag)|]
                        == WithTag(Pass(es, tag, visible, adds).entities, tag)
    ensures visible && Pass(es, tag, visible, adds).rejected.None? ==>
              WithTag(Pass(es, tag, visible, adds).entities, tag) == adds
  {
    WithoutTagFilters(es, tag, tag);
    if visible {
      var base := WithoutTag(es, tag);
      var k := AddAllPrefix(base, adds);
      WithTagConcat(base, adds[..k], tag);
      AllTaggedFilters(adds[..k], tag);
      assert [] + adds[..k] == adds[..k];
      if Pass(es, tag, visible, adds).rejected.None? {
        assert adds[..k] == adds;
      }
    }
  }

  /** A pass does not touch the entities of any other tag. */
  lemma PassKeepsOtherTags(es: seq<Entity>, tag: string, visible: bool, adds: seq<Entity>, other: string)
    requires AllTagged(adds, tag) && other != tag
    ensures WithTag(Pass(es, tag, visible, adds).entities, other) == WithTag(es, other)
  {
    WithoutTagFilters(es, tag, other);
    if visible {
      var base := WithoutTag(es, tag);
      var k := AddAllPrefix(base, adds);
      WithTagConcat(base, adds[..k], other);
      NoneTaggedOther(adds[..k], tag, other);
      assert WithTag(base, other) + [] == WithTag(base, other);
    }
  }

  lemma {:induction false} NoneTaggedOther(es: seq<Entity>, tag: string, other: string)
    requires AllTagged(es, tag) && other != tag
    ensures WithTag(es, other) == []
  {
    if es != [] {
      NoneTaggedOther(es[1..], tag, other);
    }
  }

  /** Only the last pass counts: a pass run over the result of an earlier pass of the same
      layer gives what it gives on the state before that earlier pass. In particular
      running a pass twice with the same snapshot and flag is running it once, and hiding
      then showing a layer rebuilds it from the latest snapshot. */
  lemma LastPassWins(es: seq<Entity>, tag: string, v1: bool, a1: seq<Entity>, v2: bool, a2: seq<Entity>)
    requires AllTagged(a1, tag)
    ensures Pass(Pass(es, tag, v1, a1).entities, tag, v2, a2) == Pass(es, tag, v2, a2)
  {
    PassKeepsUntagged(es, tag, v1, a1);
  }

  /** A pass keeps entity ids unique. */
  lemma PassKeepsDistinct(es: seq<Entity>, tag: string, visible: bool, adds: seq<Entity>)
    requires DistinctIds(es)
    ensures DistinctIds(Pass(es, tag, visible, adds).entities)
  {
    WithoutTagKeepsDistinct(es, tag);
    if visible {
      AddAllKeepsDistinct(WithoutTag(es, tag), adds);
    }
  }

  lemma {:induction false} WithoutTagKeepsDistinct(es: seq<Entity>, tag: string)
    requires DistinctIds(es)
    ensures DistinctIds(WithoutTag(es, tag))
  {
    if es != [] {
      WithoutTagKeepsDistinct(es[1..], tag);
      var rest := WithoutTag(es[1..], tag);
      FilterMembers(es[1..], tag);
      forall e | e in rest ensures e.id != es[0].id {
        var j :| 0 <= j < |es[1..]| && es[1..][j] == e;
        assert es[j + 1] == e;
      }
    }
  }

  // ---------------------------------------------------------------------------
  // Building the entities of a snapshot

  /** One entity per record that `keep` accepts, in snapshot order
      (`records.forEach((r) => { if (!keep(r)) return; entities.add(make(r)) })`). */
  function Build<R>(rs: seq<R>, keep: R -> bool, make: R -> Entity): (r: seq<Entity>)
    ensures |r| <= |rs|
    decreases |rs|
  {
    if rs == [] then []
    else Build(rs[..|rs| - 1], keep, make) + (if keep(rs[|rs| - 1]) then [make(rs[|rs| - 1])] else [])
  }

  /** Building over one more record. */
  lemma BuildStep<R>(rs: seq<R>, j: nat, keep: R -> bool, make: R -> Entity)
    requires j < |rs|
    ensures Build(rs[..j + 1], keep, make) ==
      Build(rs[..j], keep, make) + (if keep(rs[j]) then [make(rs[j])] else [])
  {
    assert rs[..j + 1][..j] == rs[..j] && rs[..j + 1][j] == rs[j];
  }

  /** The positions, in increasing order, of the records `keep` accepts. */
  function KeptIndices<R>(rs: seq<R>, keep: R -> bool): (r: seq<nat>)
    ensures forall k :: 0 <= k < |r| ==> r[k] < |rs|
    ensures forall k, l :: 0 <= k < l < |r| ==> r[k] < r[l]
    ensures forall i :: 0 <= i < |rs| ==> (keep(rs[i]) <==> i in r)
    decreases |rs|
  {
    if rs == [] then []
    else
      var n := |rs| - 1;
      var prev := KeptIndices(rs[..n], keep);
      assert forall i :: 0 <= i < n ==> rs[..n][i] == rs[i];
      prev + (if keep(rs[n]) then [n] else [])
  }

  /** The k-th built entity is made from the k-th accepted record: exactly one entity per
      accepted record, in snapshot order, and none for a rejected record. */
  lemma {:induction false} BuildByIndex<R>(rs: seq<R>, keep: R -> bool, make: R -> Entity)
    ensures |Build(rs, keep, make)| == |KeptIndices(rs, keep)|
    ensures forall k :: 0 <= k < |Build(rs, keep, make)| ==>
              Build(rs, keep, make)[k] == make(rs[KeptIndices(rs, keep)[k]])
    decreases |rs|
  {
    if rs != [] {
      var n := |rs| - 1;
      BuildByIndex(rs[..n], keep, make);
      var prev, pidx := Build(rs[..n], keep, make), KeptIndices(rs[..n], keep);
      var b, idx := Build(rs, keep, make), KeptIndices(rs, keep);
      assert b == prev + (if keep(rs[n]) then [make(rs[n])] else []);
      assert idx == pidx + (if keep(rs[n]) then [n] else []);
      forall k | 0 <= k < |b| ensures b[k] == make(rs[idx[k]]) {
        if k < |prev| {
          assert b[k] == prev[k] && idx[k] == pidx[k];
          assert rs[..n][pidx[k]] == rs[pidx[k]];
        } else {
          assert b[k] == make(rs[n]) && idx[k] == n;
        }
      }
    }
  }

  lemma {:induction false} BuildConcat<R>(a: seq<R>, b: seq<R>, keep: R -> bool, make: R -> Entity)
    ensures Build(a + b, keep, make) == Build(a, keep, make) + Build(b, keep, make)
    decreases |b|
  {
    if b == [] {
      assert a + b == a;
    } else {
      var n := |b| - 1;
      assert (a + b)[..|a + b| - 1] == a + b[..n];
      assert (a + b)[|a + b| - 1] == b[n];
      BuildConcat(a, b[..n], keep, make);
    }
  }

  lemma {:induction false} BuildAllTagged<R>(rs: seq<R>, keep: R -> bool, make: R -> Entity, tag: string)
    requires forall r :: IsTagged(make(r), tag)
    ensures AllTagged(Build(rs, keep, make), tag)
    decreases |rs|
  {
    if rs != [] {
      BuildAllTagged(rs[..|rs| - 1], keep, make, tag);
    }
  }

  /** An entity is built exactly when some accepted record makes it. */
  lemma {:induction false} BuildMembers<R>(rs: seq<R>, keep: R -> bool, make: R -> Entity, e: Entity)
    ensures e in Build(rs, keep, make) <==> exists i :: 0 <= i < |rs| && keep(rs[i]) && make(rs[i]) == e
    decreases |rs|
  {
    if rs != [] {
      var n := |rs| - 1;
      BuildMembers(rs[..n], keep, make, e);
      if e in Build(rs[..n], keep, make) {
        var i :| 0 <= i < n && keep(rs[..n][i]) && make(rs[..n][i]) == e;
        assert rs[..n][i] == rs[i];
      }
      if exists i :: 0 <= i < |rs| && keep(rs[i]) && make(rs[i]) == e {
        var i :| 0 <= i < |rs| && keep(rs[i]) && make(rs[i]) == e;
        if i < n {
          assert rs[..n][i] == rs[i];
        }
      }
    }
  }

  /** When every record is accepted, the k-th entity is made from the k-th record. */
  lemma {:induction false} BuildAllKept<R>(rs: seq<R>, keep: R -> bool, make: R -> Entity)
    requires forall i :: 0 <= i < |rs| ==> keep(rs[i])
    ensures |Build(rs, keep, make)| == |rs|
    ensures forall i :: 0 <= i < |rs| ==> Build(rs, keep, make)[i] == make(rs[i])
    decreases |rs|
  {
    if rs != [] {
      var n := |rs| - 1;
      assert forall i :: 0 <= i < n ==> rs[..n][i] == rs[i];
      BuildAllKept(rs[..n], keep, make);
    }
  }

  /** Records that make distinct ids build entities with distinct ids. */
  lemma BuildDistinct<R>(rs: seq<R>, keep: R -> bool, make: R -> Entity)
    requires forall i, j :: 0 <= i < j < |rs| && keep(rs[i]) && keep(rs[j]) ==> make(rs[i]).id != make(rs[j]).id
    ensures DistinctIds(Build(rs, keep, make))
  {
    BuildByIndex(rs, keep, make);
    var b, idx := Build(rs, keep, make), KeptIndices(rs, keep);
    forall k, l | 0 <= k < l < |b| ensures b[k].id != b[l].id {
      assert idx[k] < idx[l] < |rs|;
      assert idx[k] in idx && idx[l] in idx;
    }
  }

  /** Two id-distinct sequences that share no id concatenate to an id-distinct sequence. */
  lemma DisjointConcat(a: seq<Entity>, b: seq<Entity>)
    requires DistinctIds(a) && DistinctIds(b)
    requires forall i, j :: 0 <= i < |a| && 0 <= j < |b| ==> a[i].id != b[j].id
    ensures DistinctIds(a + b)
  {
    var c := a + b;
    forall i, j | 0 <= i < j < |c| ensures c[i].id != c[j].id {
      if j < |a| {
        assert c[i] == a[i] && c[j] == a[j];
      } else if i < |a| {
        assert c[i] == a[i] && c[j] == b[j - |a|];
      } else {
        assert c[i] == b[i - |a|] && c[j] == b[j - |a|];
      }
    }
  }
}
