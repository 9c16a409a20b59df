/** The globe component's state as its effects and its click handler change it: the viewer's
    entity collection (absent until the viewer is built) and the selected entity. */
module GlobeComponent {
  import opened Js
  import opened Scene
  import opened Reconcile
  import opened Overlay

  /** What `scene.pick` returns when it hits something: an object whose `id` is the picked
      entity, if the object belongs to one. */
  datatype Pick = Pick(id: Option<Entity>)

  /** The selection a left click leaves: the picked entity when the pick hit an object that
      belongs to an entity, and nothing otherwise. */
  function SelectionAfterClick(picked: Option<Pick>): (r: Option<Entity>)
    ensures r.Some? <==> picked.Some? && picked.value.id.Some?
    ensures r.Some? ==> r == picked.value.id
  {
    match picked
    case Some(Pick(Some(e))) => Some(e)
    case _ => None
  }

  /** `toRemove.forEach((e) => viewer.entities.remove(e))` where `toRemove` holds the
      entities tagged `tag`. */
  method RemoveTagged(v: EntityCollection, tag: string)
    requires v.Valid()
    modifies v
    ensures v.Valid()
    ensures v.values == WithoutTag(old(v.values), tag)
  {
    var toRemove := WithTag(v.values, tag);
    ghost var start := v.values;
    var i := 0;
    WithoutIdsNone(start);
    assert IdSet(toRemove[..0]) == {};
    while i < |toRemove|
      invariant 0 <= i <= |toRemove|
      invariant v.Valid()
      invariant v.values == WithoutIds(start, IdSet(toRemove[..i]))
    {
      WithoutIdsUnion(start, IdSet(toRemove[..i]), toRemove[i].id);
      IdSetSnoc(toRemove, i);
      var _ := v.Remove(toRemove[i]);
      i := i + 1;
    }
    assert toRemove[..|toRemove|] == toRemove;
    RemoveTaggedIds(start, tag);
  }

  /** `records.forEach((r) => { if (!keep(r)) return; viewer.entities.add(make(r)) })`:
      the first id the collection refuses ends the loop, as the exception would. */
  method AddEach<R>(v: EntityCollection, records: seq<R>, keep: R -> bool, make: R -> Entity)
    returns (thrown: Option<string>)
    requires v.Valid()
    modifies v
    ensures v.Valid()
    ensures PassResult(v.values, thrown) == AddAll(old(v.values), Build(records, keep, make))
  {
    ghost var base := v.values;
    var j := 0;
    while j < |records|
      invariant 0 <= j <= |records|
      invariant v.Valid()
      invariant AddAll(base, Build(records[..j], keep, make)) == PassResult(v.values, None)
    {
      var r := records[j];
      BuildStep(records, j, keep, make);
      if keep(r) {
        var e := make(r);
        AddAllStep(base, Build(records[..j], keep, make), e);
        var ok := v.Add(e);
        if !ok {
          RestRefused(base, records, j + 1, keep, make);
          return Some(e.id);
        }
      } else {
        assert Build(records[..j], keep, make) + [] == Build(records[..j], keep, make);
      }
      j := j + 1;
    }
    assert records[..|records|] == records;
    return None;
  }

  /** Once the adds over a prefix of the records are refused, the rest changes nothing. */
  lemma RestRefused<R>(base: seq<Entity>, records: seq<R>, n: nat, keep: R -> bool, make: R -> Entity)
    requires n <= |records| && AddAll(base, Build(records[..n], keep, make)).rejected.Some?
    ensures AddAll(base, Build(records, keep, make)) == AddAll(base, Build(records[..n], keep, make))
  {
    assert records == records[..n] + records[n..];
    BuildConcat(records[..n], records[n..], keep, make);
    AddAllAfterRefusal(base, Build(records[..n], keep, make), Build(records[n..], keep, make));
  }

  class Globe {
    /** `viewerRef.current`: null until the viewer is built. */
    var viewer: EntityCollection?
    /** The selection written through `setSelectedEntity`. */
    var selectedEntity: Option<Entity>

    ghost predicate Valid()
      reads this, viewer
    {
      viewer != null ==> viewer.Valid()
    }

    constructor (v: EntityCollection?)
      requires v != null ==> v.Valid()
      ensures Valid() && viewer == v && selectedEntity == None
    {
      viewer := v;
      selectedEntity := None;
    }

    /** The aircraft effect: remove the aircraft layer, then, when it is shown, add one
        billboard per placed state vector among the first 500. It returns the id the scene
        refused, if it refused one. */
    method AircraftEffect(aircraft: seq<StateVector>, showAircraft: bool) returns (thrown: Option<string>)
      requires Valid()
      modifies viewer
      ensures Valid()
      ensures viewer == null ==> thrown == None
      ensures viewer != null ==>
        PassResult(viewer.values, thrown) == AircraftPass(old(viewer.values), aircraft, showAircraft)
    {
      var v := viewer;
      if v == null {
        return None;
      }
      RemoveTagged(v, AircraftTag);
      if !showAircraft {
        return None;
      }
      thrown := AddEach(v, FirstAircraft(aircraft), Placed, AircraftEntity);
    }

    /** The satellite effect: remove the satellite layer, then, when it is shown, add one
        point per positioned satellite. It returns the id the scene refused, if any. */
    method SatelliteEffect(satellites: seq<SatelliteRecord>, showSatellites: bool) returns (thrown: Option<string>)
      requires Valid()
      modifies viewer
      ensures Valid()
      ensures viewer == null ==> thrown == None
      ensures viewer != null ==>
        PassResult(viewer.values, thrown) == SatellitePass(old(viewer.values), satellites, showSatellites)
    {
      var v := viewer;
      if v == null {
        return None;
      }
      RemoveTagged(v, SatelliteTag);
      if !showSatellites {
        return None;
      }
      thrown := AddEach(v, satellites, Positioned, SatelliteEntity);
    }

    /** The left-click handler: the selection becomes the picked entity, or nothing. */
    method OnClick(picked: Option<Pick>)
      requires Valid()
      modifies this
      ensures Valid() && viewer == old(viewer)
      ensures selectedEntity == SelectionAfterClick(picked)
    {
      if picked.Some? && picked.value.id.Some? {
        selectedEntity := picked.value.id;
      } else {
        selectedEntity := None;
      }
    }
  }
}
