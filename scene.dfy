/** The scene the overlay draws into, as far as the globe component uses it: the entities
    it adds (an id, a position, a billboard or point style and a property bag) and the
    viewer's entity collection, which keeps entities in insertion order, refuses a second
    entity with an id it already holds, and removes entities by id. */
module Scene {
  import opened Js

  /** Where an entity stands: geodetic degrees and metres, left unconverted
      (`Cartesian3.fromDegrees(lon, lat, height)`), or scene coordinates given as they are. */
  datatype Position =
    | FromDegrees(lon: real, lat: real, height: real)
    | Cartesian(x: real, y: real, z: real)

  /** A CSS colour string with an alpha (`Color.fromCssColorString(css).withAlpha(alpha)`). */
  datatype Color = Color(css: string, alpha: real)

  /** `new NearFarScalar(near, nearValue, far, farValue)`, kept as its four constants. */
  datatype NearFar = NearFar(near: real, nearValue: real, far: real, farValue: real)

  /** The aircraft symbol drawn by `createAircraftIcon(color)`; the canvas drawing itself is
      not modelled, only that the image is determined by its colour. */
  datatype Icon = AircraftIcon(color: string)

  /** How an entity is drawn. `Other` stands for whatever entities this component did not add. */
  datatype Graphics =
    | Billboard(image: Icon, rotationDegrees: real, width: int, height: int,
                scaleByDistance: NearFar, translucencyByDistance: NearFar)
    | Point(pixelSize: int, color: Color, outlineColor: Color, outlineWidth: int,
            scaleByDistance: NearFar)
    | Other

  /** The property bag attached to an entity. The aircraft and satellite bags are the ones
      the overlay creates; `Tagged` is any other bag, with the value of its `type` property
      if it has one; `NoProperties` is an entity without a bag. */
  datatype Properties =
    | AircraftProperties(icao24: string, callsign: string, altitude: int, velocity: int,
                         heading: int, isMilitary: bool)
    | SatelliteProperties(name: Option<string>, satId: string, satAltitude: Option<real>,
                          satVelocity: Option<real>)
    | Tagged(typeTag: Option<string>)
    | NoProperties

  /** The value of `properties.type`, if the entity has one. */
  function TypeTag(p: Properties): Option<string> {
    match p
    case AircraftProperties(_, _, _, _, _, _) => Some("aircraft")
    case SatelliteProperties(_, _, _, _) => Some("satellite")
    case Tagged(t) => t
    case NoProperties => None
  }

  datatype Entity = Entity(id: string, position: Option<Position>, graphics: Graphics,
                           properties: Properties)

  /** No two entities share an id. */
  ghost predicate DistinctIds(es: seq<Entity>) {
    forall i, j :: 0 <= i < j < |es| ==> es[i].id != es[j].id
  }

  /** Some entity in `es` has id `id`. */
  predicate HasId(es: seq<Entity>, id: string) {
    exists i :: 0 <= i < |es| && es[i].id == id
  }

  /** The entities of `es` whose ids are not in `ids`, in their order. */
  function WithoutIds(es: seq<Entity>, ids: set<string>): (r: seq<Entity>)
    ensures |r| <= |es|
    ensures forall e :: e in r <==> e in es && e.id !in ids
  {
    if es == [] then []
    else (if es[0].id in ids then [] else [es[0]]) + WithoutIds(es[1..], ids)
  }

  lemma {:induction false} WithoutIdsKeepsDistinct(es: seq<Entity>, ids: set<string>)
    requires DistinctIds(es)
    ensures DistinctIds(WithoutIds(es, ids))
  {
    if es != [] {
      WithoutIdsKeepsDistinct(es[1..], ids);
      var rest := WithoutIds(es[1..], ids);
      forall e | e in rest ensures e.id != es[0].id {
        var j :| 0 <= j < |es[1..]| && es[1..][j] == e;
        assert es[j + 1] == e;
      }
    }
  }

  lemma {:induction false} WithoutIdsNone(es: seq<Entity>)
    ensures WithoutIds(es, {}) == es
  {
    if es != [] {
      WithoutIdsNone(es[1..]);
      assert es == [es[0]] + es[1..];
    }
  }

  lemma {:induction false} WithoutIdsUnion(es: seq<Entity>, ids: set<string>, id: string)
    ensures WithoutIds(WithoutIds(es, ids), {id}) == WithoutIds(es, ids + {id})
  {
    if es != [] {
      WithoutIdsUnion(es[1..], ids, id);
      var rest := WithoutIds(es[1..], ids);
      if es[0].id in ids {
        assert WithoutIds(es, ids) == rest;
      } else {
        var r := WithoutIds(es, ids);
        assert r == [es[0]] + rest;
        assert r[0] == es[0] && r[1..] == rest;
      }
    }
  }

  /** `viewer.entities`: the entities on the globe, in the order they were added. */
  class EntityCollection {
    var values: seq<Entity>

    ghost predicate Valid()
      reads this
    {
      DistinctIds(values)
    }

    constructor ()
      ensures Valid() && values == []
    {
      values := [];
    }

    /** `entities.add(entity)`: refused (in the scene library, by throwing) when an entity
        with the same id is already present; otherwise appended. */
    method Add(e: Entity) returns (ok: bool)
      requires Valid()
      modifies this
      ensures Valid()
      ensures ok <==> !HasId(old(values), e.id)
      ensures values == if ok then old(values) + [e] else old(values)
    {
      ok := !HasId(values, e.id);
      if ok {
        values := values + [e];
      }
    }

    /** `entities.remove(entity)`: removes the entity with that id, if there is one. */
    method Remove(e: Entity) returns (removed: bool)
      requires Valid()
      modifies this
      ensures Valid()
      ensures removed <==> HasId(old(values), e.id)
      ensures values == WithoutIds(old(values), {e.id})
    {
      removed := HasId(values, e.id);
      WithoutIdsKeepsDistinct(values, {e.id});
      values := WithoutIds(values, {e.id});
    }
  }
}
