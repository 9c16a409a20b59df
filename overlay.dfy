/** What the two overlay effects draw: one billboard per placed aircraft among the first 500
    state vectors of the snapshot, one point per positioned satellite, each tagged with its
    layer so that the next pass can find and remove it. */
module Overlay {
  import opened Js
  import opened Classifier
  import opened Scene
  import opened Reconcile

  // ---------------------------------------------------------------------------
  // Aircraft

  /** The fields of an OpenSky state vector the aircraft effect reads: `icao24` (index 0),
      `callsign` (1), `longitude` (5), `latitude` (6), `baro_altitude` (7), `velocity` (9)
      and `true_track` (10). Every field but the transponder address may be missing. */
  datatype StateVector = StateVector(
    icao24: string, callsign: Option<string>, longitude: Option<real>, latitude: Option<real>,
    baroAltitude: Option<real>, velocity: Option<real>, trueTrack: Option<real>)

  const AircraftTag: string := "aircraft"
  const MaxAircraft: nat := 500
  const MilitaryColor: string := "#ff3355"
  const CivilColor: string := "#00d4ff"
  const AircraftScale: NearFar := NearFar(10000.0, 1.5, 20000000.0, 0.3)
  const AircraftFade: NearFar := NearFar(1000000.0, 1.0, 20000000.0, 0.5)

  /** `` `aircraft-${icao24}` `` */
  function AircraftId(icao24: string): string {
    "aircraft-" + icao24
  }

  /** The guard `if (!lat || !lon) return`: both coordinates present and non-zero. */
  predicate Placed(ac: StateVector) {
    NumberTruthy(ac.latitude) && NumberTruthy(ac.longitude)
  }

  /** The callsign property: the trimmed callsign when it is a non-empty string,
      `'UNKNOWN'` otherwise. */
  function DisplayCallsign(callsign: Option<string>): string {
    if StringTruthy(callsign) then Trim(callsign.value) else "UNKNOWN"
  }

  /** The entity the aircraft effect adds for one state vector. */
  function AircraftEntity(ac: StateVector): Entity {
    var military := DetectMilitary(ac.callsign);
    var color := if military then MilitaryColor else CivilColor;
    var size := if military then 24 else 16;
    var altitude := OrZero(ac.baroAltitude);
    var heading := OrZero(ac.trueTrack);
    Entity(
      AircraftId(ac.icao24),
      Some(FromDegrees(OrZero(ac.longitude), OrZero(ac.latitude), altitude)),
      Billboard(AircraftIcon(color), -heading, size, size, AircraftScale, AircraftFade),
      AircraftProperties(ac.icao24, DisplayCallsign(ac.callsign), Round(altitude),
                         Round(OrZero(ac.velocity)), Round(heading), military))
  }

  /** `aircraft.slice(0, 500)` */
  function FirstAircraft(snapshot: seq<StateVector>): (r: seq<StateVector>)
    ensures |r| <= MaxAircraft && |r| <= |snapshot| && r == snapshot[..|r|]
    ensures |snapshot| <= MaxAircraft ==> r == snapshot
    ensures |snapshot| >= MaxAircraft ==> |r| == MaxAircraft
  {
    if |snapshot| <= MaxAircraft then snapshot else snapshot[..MaxAircraft]
  }

  /** The aircraft entities a visible layer adds, in the order it adds them. */
  function AircraftEntities(snapshot: seq<StateVector>): seq<Entity> {
    Build(FirstAircraft(snapshot), Placed, AircraftEntity)
  }

  /** The aircraft effect on the entities of the scene. */
  function AircraftPass(es: seq<Entity>, snapshot: seq<StateVector>, visible: bool): PassResult {
    Pass(es, AircraftTag, visible, AircraftEntities(snapshot))
  }

  /** Every field of an aircraft entity, as the effect derives it from the state vector:
      the classifier decides colour and size, a missing callsign is shown as `UNKNOWN` and
      a present one trimmed, and missing or zero numbers count as 0 before rounding. */
  lemma AircraftEntityFields(ac: StateVector)
    ensures var e := AircraftEntity(ac);
      && e.id == AircraftId(ac.icao24)
      && IsTagged(e, AircraftTag)
      && e.graphics.Billboard? && e.properties.AircraftProperties?
      && e.properties.icao24 == ac.icao24
      && e.properties.isMilitary == DetectMilitary(ac.callsign)
      && e.graphics.width == e.graphics.height
      && (e.graphics.width == 24 <==> DetectMilitary(ac.callsign))
      && (e.graphics.width == 16 <==> !DetectMilitary(ac.callsign))
      && (e.graphics.image == AircraftIcon(MilitaryColor) <==> DetectMilitary(ac.callsign))
      && (e.graphics.image == AircraftIcon(CivilColor) <==> !DetectMilitary(ac.callsign))
      && (StringTruthy(ac.callsign) ==> e.properties.callsign == Trim(ac.callsign.value))
      && (!StringTruthy(ac.callsign) ==> e.properties.callsign == "UNKNOWN")
      && (!NumberTruthy(ac.baroAltitude) ==> e.properties.altitude == 0)
      && (!NumberTruthy(ac.velocity) ==> e.properties.velocity == 0)
      && (!NumberTruthy(ac.trueTrack) ==> e.properties.heading == 0 && e.graphics.rotationDegrees == 0.0)
      && (ac.baroAltitude.Some? ==>
            ac.baroAltitude.value - 0.5 < e.properties.altitude as real <= ac.baroAltitude.value + 0.5)
      && (ac.velocity.Some? ==>
            ac.velocity.value - 0.5 < e.properties.velocity as real <= ac.velocity.value + 0.5)
      && (ac.trueTrack.Some? ==>
            ac.trueTrack.value - 0.5 < e.properties.heading as real <= ac.trueTrack.value + 0.5
            && e.graphics.rotationDegrees == -ac.trueTrack.value)
      && (Placed(ac) ==>
            e.position == Some(FromDegrees(ac.longitude.value, ac.latitude.value, OrZero(ac.baroAltitude))))
  {
  }

  /** A callsign made only of whitespace is present, so it is shown trimmed, as the empty
      string, and is not military. */
  lemma BlankCallsignShownEmpty(ac: StateVector)
    requires ac.callsign.Some? && ac.callsign.value != [] && AllWhitespace(ac.callsign.value)
    ensures AircraftEntity(ac).properties.callsign == ""
    ensures !AircraftEntity(ac).properties.isMilitary
  {
  }

  /** The aircraft drawn are exactly the placed ones among the first 500 state vectors. */
  lemma AircraftEntitiesMembers(snapshot: seq<StateVector>, e: Entity)
    ensures e in AircraftEntities(snapshot) <==>
      exists i :: 0 <= i < |snapshot| && i < MaxAircraft && Placed(snapshot[i]) && AircraftEntity(snapshot[i]) == e
  {
    var first := FirstAircraft(snapshot);
    BuildMembers(first, Placed, AircraftEntity, e);
    assert forall i :: 0 <= i < |first| ==> first[i] == snapshot[i];
  }

  /** In order: the k-th aircraft entity comes from the k-th placed state vector among the
      first 500, and there are never more than 500. */
  lemma AircraftEntitiesInOrder(snapshot: seq<StateVector>)
    ensures |AircraftEntities(snapshot)| <= MaxAircraft
    ensures var idx := KeptIndices(FirstAircraft(snapshot), Placed);
      && |AircraftEntities(snapshot)| == |idx|
      && (forall k :: 0 <= k < |idx| ==> idx[k] < |snapshot| && idx[k] < MaxAircraft)
      && (forall k, l :: 0 <= k < l < |idx| ==> idx[k] < idx[l])
      && (forall i :: 0 <= i < |snapshot| && i < MaxAircraft ==> (Placed(snapshot[i]) <==> i in idx))
      && (forall k :: 0 <= k < |idx| ==> AircraftEntities(snapshot)[k] == AircraftEntity(snapshot[idx[k]]))
  {
    var first := FirstAircraft(snapshot);
    BuildByIndex(first, Placed, AircraftEntity);
    assert forall i :: 0 <= i < |first| ==> first[i] == snapshot[i];
  }

  /** A snapshot whose first 500 state vectors are all placed draws exactly those 500 (for
      example, 800 placed state vectors give the first 500). */
  lemma AircraftTruncation(snapshot: seq<StateVector>)
    requires |snapshot| >= MaxAircraft
    requires forall i :: 0 <= i < MaxAircraft ==> Placed(snapshot[i])
    ensures |AircraftEntities(snapshot)| == MaxAircraft
    ensures forall i :: 0 <= i < MaxAircraft ==> AircraftEntities(snapshot)[i] == AircraftEntity(snapshot[i])
  {
    var first := FirstAircraft(snapshot);
    assert forall i :: 0 <= i < |first| ==> first[i] == snapshot[i];
    BuildAllKept(first, Placed, AircraftEntity);
  }

  /** A state vector with a missing or zero coordinate adds nothing wherever it stands. */
  lemma UnplacedAddsNothing(before: seq<StateVector>, ac: StateVector, after: seq<StateVector>)
    requires !Placed(ac) && |before| + 1 + |after| <= MaxAircraft
    ensures AircraftEntities(before + [ac] + after) == AircraftEntities(before + after)
  {
    assert |before + after| <= MaxAircraft;
    BuildConcat(before + [ac], after, Placed, AircraftEntity);
    BuildConcat(before, [ac], Placed, AircraftEntity);
    BuildConcat(before, after, Placed, AircraftEntity);
    assert Build([ac], Placed, AircraftEntity) == Build([], Placed, AircraftEntity);
  }

  /** In a snapshot of any length, an unplaced state vector among the first 500 adds
      nothing: the drawn aircraft are those of the first 500 with it taken out. */
  lemma UnplacedAnyLength(snapshot: seq<StateVector>, i: nat)
    requires i < |snapshot| && i < MaxAircraft && !Placed(snapshot[i])
    ensures AircraftEntities(snapshot)
            == Build(FirstAircraft(snapshot)[..i] + FirstAircraft(snapshot)[i + 1..], Placed, AircraftEntity)
  {
    var f := FirstAircraft(snapshot);
    assert f[i] == snapshot[i];
    assert f == f[..i] + [f[i]] + f[i + 1..];
    BuildConcat(f[..i] + [f[i]], f[i + 1..], Placed, AircraftEntity);
    BuildConcat(f[..i], [f[i]], Placed, AircraftEntity);
    BuildConcat(f[..i], f[i + 1..], Placed, AircraftEntity);
    assert Build([f[i]], Placed, AircraftEntity) == Build([], Placed, AircraftEntity);
  }

  /** State vectors past the 500th are never drawn. */
  lemma AircraftPastLimitIgnored(snapshot: seq<StateVector>, extra: seq<StateVector>)
    requires |snapshot| >= MaxAircraft
    ensures AircraftEntities(snapshot + extra) == AircraftEntities(snapshot)
  {
    assert FirstAircraft(snapshot + extra) == FirstAircraft(snapshot);
  }

  lemma AircraftEntitiesTagged(snapshot: seq<StateVector>)
    ensures AllTagged(AircraftEntities(snapshot), AircraftTag)
  {
    BuildAllTagged(FirstAircraft(snapshot), Placed, AircraftEntity, AircraftTag);
  }

  /** After the aircraft effect: no aircraft entity when the layer is hidden; when it is
      shown, a prefix of the snapshot's aircraft entities, and all of them unless the scene
      refused a duplicate id. Every other entity is left as it was, in order, and in
      particular the satellites are untouched. */
  lemma AircraftPassLayers(es: seq<Entity>, snapshot: seq<StateVector>, visible: bool, other: string)
    requires other != AircraftTag
    ensures var r := AircraftPass(es, snapshot, visible);
      && (!visible ==> WithTag(r.entities, AircraftTag) == [] && r.rejected.None?)
      && (visible ==> |WithTag(r.entities, AircraftTag)| <= |AircraftEntities(snapshot)|
                      && WithTag(r.entities, AircraftTag)
                         == AircraftEntities(snapshot)[..|WithTag(r.entities, AircraftTag)|])
      && (visible && r.rejected.None? ==> WithTag(r.entities, AircraftTag) == AircraftEntities(snapshot))
      && WithoutTag(r.entities, AircraftTag) == WithoutTag(es, AircraftTag)
      && WithTag(r.entities, other) == WithTag(es, other)
  {
    AircraftEntitiesTagged(snapshot);
    PassTaggedPart(es, AircraftTag, visible, AircraftEntities(snapshot));
    PassKeepsUntagged(es, AircraftTag, visible, AircraftEntities(snapshot));
    PassKeepsOtherTags(es, AircraftTag, visible, AircraftEntities(snapshot), other);
  }

  /** No aircraft entity from before the pass survives unless the new snapshot makes it
      again. */
  lemma AircraftPassDropsStale(es: seq<Entity>, snapshot: seq<StateVector>, visible: bool, e: Entity)
    requires e in es && IsTagged(e, AircraftTag) && e !in AircraftEntities(snapshot)
    ensures e !in AircraftPass(es, snapshot, visible).entities
  {
    var r := AircraftPass(es, snapshot, visible).entities;
    AircraftPassLayers(es, snapshot, visible, SatelliteTag);
    FilterMembers(r, AircraftTag);
  }

  /** Running the aircraft effect a second time with the same snapshot and flag changes
      nothing; hiding and showing the layer rebuilds it from the latest snapshot. */
  lemma AircraftPassIdempotent(es: seq<Entity>, s1: seq<StateVector>, v1: bool, s2: seq<StateVector>, v2: bool)
    ensures AircraftPass(AircraftPass(es, s1, v1).entities, s2, v2) == AircraftPass(es, s2, v2)
    ensures AircraftPass(AircraftPass(es, s2, v2).entities, s2, v2) == AircraftPass(es, s2, v2)
  {
    AircraftEntitiesTagged(s1);
    AircraftEntitiesTagged(s2);
    LastPassWins(es, AircraftTag, v1, AircraftEntities(s1), v2, AircraftEntities(s2));
    LastPassWins(es, AircraftTag, v2, AircraftEntities(s2), v2, AircraftEntities(s2));
  }

  lemma AircraftPassKeepsDistinct(es: seq<Entity>, snapshot: seq<StateVector>, visible: bool)
    requires DistinctIds(es)
    ensures DistinctIds(AircraftPass(es, snapshot, visible).entities)
  {
    PassKeepsDistinct(es, AircraftTag, visible, AircraftEntities(snapshot));
  }

  /** The transponder addresses of the placed state vectors among the first 500 are unique. */
  ghost predicate UniqueAddresses(snapshot: seq<StateVector>) {
    forall i, j :: 0 <= i < j < |snapshot| && j < MaxAircraft && Placed(snapshot[i]) && Placed(snapshot[j]) ==>
      snapshot[i].icao24 != snapshot[j].icao24
  }

  /** When the drawn transponder addresses are unique and no entity outside the layer
      holds an `aircraft-` id, the scene refuses nothing and the layer shows every
      aircraft entity of the snapshot. */
  lemma AircraftPassSucceeds(es: seq<Entity>, snapshot: seq<StateVector>)
    requires DistinctIds(es) && UniqueAddresses(snapshot)
    requires forall e :: e in es && !IsTagged(e, AircraftTag) ==> !("aircraft-" <= e.id)
    ensures AircraftPass(es, snapshot, true).rejected.None?
    ensures AircraftPass(es, snapshot, true).entities == WithoutTag(es, AircraftTag) + AircraftEntities(snapshot)
  {
    var base, drawn := WithoutTag(es, AircraftTag), AircraftEntities(snapshot);
    var first := FirstAircraft(snapshot);
    forall i, j | 0 <= i < j < |first| && Placed(first[i]) && Placed(first[j])
      ensures AircraftEntity(first[i]).id != AircraftEntity(first[j]).id
    {
      assert first[i] == snapshot[i] && first[j] == snapshot[j];
      AircraftIdInjective(first[i].icao24, first[j].icao24);
    }
    BuildDistinct(first, Placed, AircraftEntity);
    WithoutTagKeepsDistinct(es, AircraftTag);
    FilterMembers(es, AircraftTag);
    forall i, j | 0 <= i < |base| && 0 <= j < |drawn| ensures base[i].id != drawn[j].id {
      assert base[i] in base;
      assert drawn[j] in drawn;
      AircraftEntitiesMembers(snapshot, drawn[j]);
      var k :| 0 <= k < |snapshot| && k < MaxAircraft && Placed(snapshot[k]) && AircraftEntity(snapshot[k]) == drawn[j];
      assert "aircraft-" <= drawn[j].id;
    }
    DisjointConcat(base, drawn);
    AddAllSucceeds(base, drawn);
  }

  /** Nothing in the effect removes duplicates: a snapshot that lists the same placed
      aircraft twice makes the scene refuse the second entity, which ends the effect. */
  lemma DuplicateAddressRefused(es: seq<Entity>, ac: StateVector)
    requires Placed(ac)
    ensures AircraftPass(es, [ac, ac], true).rejected == Some(AircraftId(ac.icao24))
  {
    var e := AircraftEntity(ac);
    var base := WithoutTag(es, AircraftTag);
    BuildAllKept([ac, ac], Placed, AircraftEntity);
    assert AircraftEntities([ac, ac]) == [e, e];
    var none: seq<Entity> := [];
    assert none + [e] == [e] && [e] + [e] == [e, e];
    AddAllStep(base, none, e);
    var one := AddAll(base, [e]);
    if one.rejected.None? {
      assert one.entities == base + [e];
      assert (base + [e])[|base|].id == e.id;
      AddAllStep(base, [e], e);
    } else {
      AddAllAfterRefusal(base, [e], [e]);
    }
  }

  /** Nothing in the effect removes duplicates: when two placed state vectors among the
      first 500 share a transponder address, the scene refuses an aircraft entity. */
  lemma RepeatedAddressRefused(es: seq<Entity>, snapshot: seq<StateVector>, i: nat, j: nat)
    requires DistinctIds(es)
    requires i < j < |snapshot| && j < MaxAircraft
    requires Placed(snapshot[i]) && Placed(snapshot[j]) && snapshot[i].icao24 == snapshot[j].icao24
    ensures AircraftPass(es, snapshot, true).rejected.Some?
  {
    var first := FirstAircraft(snapshot);
    BuildByIndex(first, Placed, AircraftEntity);
    var drawn, idx := AircraftEntities(snapshot), KeptIndices(first, Placed);
    assert first[i] == snapshot[i] && first[j] == snapshot[j];
    var k :| 0 <= k < |idx| && idx[k] == i;
    var l :| 0 <= l < |idx| && idx[l] == j;
    assert drawn[k] == AircraftEntity(snapshot[i]) && drawn[l] == AircraftEntity(snapshot[j]);
    WithoutTagKeepsDistinct(es, AircraftTag);
    RepeatedAddRefused(WithoutTag(es, AircraftTag), drawn, k, l);
  }


  /** An entity outside the aircraft layer that already holds the id of a drawn aircraft
      makes the scene refuse an aircraft entity. */
  lemma ForeignAircraftIdRefused(es: seq<Entity>, snapshot: seq<StateVector>, e: Entity, i: nat)
    requires DistinctIds(es) && e in es && !IsTagged(e, AircraftTag)
    requires i < |snapshot| && i < MaxAircraft && Placed(snapshot[i])
    requires e.id == AircraftId(snapshot[i].icao24)
    ensures AircraftPass(es, snapshot, true).rejected.Some?
  {
    var base, drawn := WithoutTag(es, AircraftTag), AircraftEntities(snapshot);
    FilterMembers(es, AircraftTag);
    AircraftEntitiesMembers(snapshot, AircraftEntity(snapshot[i]));
    var a :| 0 <= a < |base| && base[a] == e;
    var b :| 0 <= b < |drawn| && drawn[b] == AircraftEntity(snapshot[i]);
    WithoutTagKeepsDistinct(es, AircraftTag);
    PresentIdRefused(base, drawn, a, b);
  }


  lemma AircraftIdInjective(a: string, b: string)
    ensures AircraftId(a) == AircraftId(b) <==> a == b
  {
    if AircraftId(a) == AircraftId(b) {
      assert a == AircraftId(a)[9..] && b == AircraftId(b)[9..];
    }
  }

  // ---------------------------------------------------------------------------
  // Satellites

  /** A propagated satellite as the satellite feed hands it over: a catalogue id, an
      optional name, a scene position when propagation succeeded, and optional kinematics. */
  datatype SatelliteRecord = SatelliteRecord(
    id: string, name: Option<string>, position: Option<Position>,
    altitude: Option<real>, velocity: Option<real>)

  const SatelliteTag: string := "satellite"
  const IssColor: string := "#00ff9d"
  const OtherColor: string := "#8855ff"
  const SatelliteScale: NearFar := NearFar(100000.0, 2.0, 40000000.0, 0.5)

  /** `` `satellite-${sat.id}` `` */
  function SatelliteId(id: string): string {
    "satellite-" + id
  }

  /** The guard `if (!sat.position) return`. */
  predicate Positioned(sat: SatelliteRecord) {
    sat.position.Some?
  }

  /** `sat.name && sat.name.includes('ISS')`, case-sensitive. */
  predicate IsIss(name: Option<string>) {
    StringTruthy(name) && Includes(name.value, "ISS")
  }

  /** The entity the satellite effect adds for one record. */
  function SatelliteEntity(sat: SatelliteRecord): Entity {
    var iss := IsIss(sat.name);
    Entity(
      SatelliteId(sat.id),
      sat.position,
      if iss then Point(8, Color(IssColor, 1.0), Color(IssColor, 0.3), 4, SatelliteScale)
      else Point(4, Color(OtherColor, 0.8), Color(OtherColor, 0.2), 2, SatelliteScale),
      SatelliteProperties(sat.name, sat.id, sat.altitude, sat.velocity))
  }

  /** The satellite entities a visible layer adds, in the order it adds them. */
  function SatelliteEntities(sats: seq<SatelliteRecord>): seq<Entity> {
    Build(sats, Positioned, SatelliteEntity)
  }

  /** The satellite effect on the entities of the scene. */
  function SatellitePass(es: seq<Entity>, sats: seq<SatelliteRecord>, visible: bool): PassResult {
    Pass(es, SatelliteTag, visible, SatelliteEntities(sats))
  }

  /** Every field of a satellite entity: the ISS style exactly when the name contains
      `ISS`, the position and the record's fields passed through. */
  lemma SatelliteEntityFields(sat: SatelliteRecord)
    ensures var e := SatelliteEntity(sat);
      && e.id == SatelliteId(sat.id)
      && IsTagged(e, SatelliteTag)
      && e.position == sat.position
      && e.graphics.Point?
      && (e.graphics.pixelSize == 8 <==> IsIss(sat.name))
      && (e.graphics.outlineWidth == 4 <==> IsIss(sat.name))
      && (e.graphics.pixelSize == 4 <==> !IsIss(sat.name))
      && (e.graphics.outlineWidth == 2 <==> !IsIss(sat.name))
      && (IsIss(sat.name) ==> e.graphics.color == Color(IssColor, 1.0))
      && (!IsIss(sat.name) ==> e.graphics.color == Color(OtherColor, 0.8))
      && (IsIss(sat.name) ==> e.graphics.outlineColor == Color(IssColor, 0.3))
      && (!IsIss(sat.name) ==> e.graphics.outlineColor == Color(OtherColor, 0.2))
      && e.properties == SatelliteProperties(sat.name, sat.id, sat.altitude, sat.velocity)
  {
  }

  /** The ISS style is chosen exactly for a present name with `ISS` somewhere in it. */
  lemma IsIssSpec(name: Option<string>)
    ensures IsIss(name) <==> name.Some? && exists i :: OccursAt(name.value, "ISS", i)
  {
  }

  /** "ISS (ZARYA)" is styled as the ISS. */
  lemma ZaryaIsIss(name: string)
    requires name == "ISS (ZARYA)"
    ensures IsIss(Some(name))
  {
  }

  /** "STARLINK-1130" is styled as an ordinary satellite. */
  lemma StarlinkIsNotIss(name: string)
    requires name == "STARLINK-1130"
    ensures !IsIss(Some(name))
  {
    assert forall k :: 0 <= k < |name| - 1 ==> !(name[k] == 'I' && name[k + 1] == 'S');
    NoIsNoIss(name);
  }

  /** A name where `I` is never followed by `S` does not contain `ISS`. */
  lemma NoIsNoIss(name: string)
    requires forall k :: 0 <= k < |name| - 1 ==> !(name[k] == 'I' && name[k + 1] == 'S')
    ensures !Includes(name, "ISS")
  {
    forall i | 0 <= i <= |name| - 3 ensures !OccursAt(name, "ISS", i) {
      assert name[i..i + 3][0] == name[i] && name[i..i + 3][1] == name[i + 1];
    }
  }

  /** The satellites drawn are exactly the positioned records. */
  lemma SatelliteEntitiesMembers(sats: seq<SatelliteRecord>, e: Entity)
    ensures e in SatelliteEntities(sats) <==>
      exists i :: 0 <= i < |sats| && Positioned(sats[i]) && SatelliteEntity(sats[i]) == e
  {
    BuildMembers(sats, Positioned, SatelliteEntity, e);
  }

  /** In order: the k-th satellite entity comes from the k-th positioned record. */
  lemma SatelliteEntitiesInOrder(sats: seq<SatelliteRecord>)
    ensures |SatelliteEntities(sats)| <= |sats|
    ensures var idx := KeptIndices(sats, Positioned);
      && |SatelliteEntities(sats)| == |idx|
      && (forall i :: 0 <= i < |sats| ==> (Positioned(sats[i]) <==> i in idx))
      && (forall k :: 0 <= k < |idx| ==> SatelliteEntities(sats)[k] == SatelliteEntity(sats[idx[k]]))
  {
  }

  lemma SatelliteEntitiesTagged(sats: seq<SatelliteRecord>)
    ensures AllTagged(SatelliteEntities(sats), SatelliteTag)
  {
    BuildAllTagged(sats, Positioned, SatelliteEntity, SatelliteTag);
  }

  /** After the satellite effect: no satellite entity when the layer is hidden; otherwise a
      prefix of the records' satellite entities, all of them unless the scene refused a
      duplicate id; every other entity, aircraft included, left as it was. */
  lemma SatellitePassLayers(es: seq<Entity>, sats: seq<SatelliteRecord>, visible: bool, other: string)
    requires other != SatelliteTag
    ensures var r := SatellitePass(es, sats, visible);
      && (!visible ==> WithTag(r.entities, SatelliteTag) == [] && r.rejected.None?)
      && (visible ==> |WithTag(r.entities, SatelliteTag)| <= |SatelliteEntities(sats)|
                      && WithTag(r.entities, SatelliteTag)
                         == SatelliteEntities(sats)[..|WithTag(r.entities, SatelliteTag)|])
      && (visible && r.rejected.None? ==> WithTag(r.entities, SatelliteTag) == SatelliteEntities(sats))
      && WithoutTag(r.entities, SatelliteTag) == WithoutTag(es, SatelliteTag)
      && WithTag(r.entities, other) == WithTag(es, other)
  {
    SatelliteEntitiesTagged(sats);
    PassTaggedPart(es, SatelliteTag, visible, SatelliteEntities(sats));
    PassKeepsUntagged(es, SatelliteTag, visible, SatelliteEntities(sats));
    PassKeepsOtherTags(es, SatelliteTag, visible, SatelliteEntities(sats), other);
  }

  /** Running the satellite effect again with the same records and flag changes nothing;
      only the last run counts. */
  lemma SatellitePassIdempotent(es: seq<Entity>, s1: seq<SatelliteRecord>, v1: bool, s2: seq<SatelliteRecord>, v2: bool)
    ensures SatellitePass(SatellitePass(es, s1, v1).entities, s2, v2) == SatellitePass(es, s2, v2)
    ensures SatellitePass(SatellitePass(es, s2, v2).entities, s2, v2) == SatellitePass(es, s2, v2)
  {
    SatelliteEntitiesTagged(s1);
    SatelliteEntitiesTagged(s2);
    LastPassWins(es, SatelliteTag, v1, SatelliteEntities(s1), v2, SatelliteEntities(s2));
    LastPassWins(es, SatelliteTag, v2, SatelliteEntities(s2), v2, SatelliteEntities(s2));
  }

  lemma SatellitePassKeepsDistinct(es: seq<Entity>, sats: seq<SatelliteRecord>, visible: bool)
    requires DistinctIds(es)
    ensures DistinctIds(SatellitePass(es, sats, visible).entities)
  {
    PassKeepsDistinct(es, SatelliteTag, visible, SatelliteEntities(sats));
  }

  lemma SatelliteIdInjective(a: string, b: string)
    ensures SatelliteId(a) == SatelliteId(b) <==> a == b
  {
    if SatelliteId(a) == SatelliteId(b) {
      assert a == SatelliteId(a)[10..] && b == SatelliteId(b)[10..];
    }
  }

  /** The catalogue ids of the positioned records are unique. */
  ghost predicate UniqueSatelliteIds(sats: seq<SatelliteRecord>) {
    forall i, j :: 0 <= i < j < |sats| && Positioned(sats[i]) && Positioned(sats[j]) ==>
      sats[i].id != sats[j].id
  }

  /** When the positioned records have unique catalogue ids and no entity outside the layer
      holds a `satellite-` id, the scene refuses nothing and the layer shows every
      satellite entity of the records. */
  lemma SatellitePassSucceeds(es: seq<Entity>, sats: seq<SatelliteRecord>)
    requires DistinctIds(es) && UniqueSatelliteIds(sats)
    requires forall e :: e in es && !IsTagged(e, SatelliteTag) ==> !("satellite-" <= e.id)
    ensures SatellitePass(es, sats, true).rejected.None?
    ensures SatellitePass(es, sats, true).entities == WithoutTag(es, SatelliteTag) + SatelliteEntities(sats)
  {
    var base, drawn := WithoutTag(es, SatelliteTag), SatelliteEntities(sats);
    forall i, j | 0 <= i < j < |sats| && Positioned(sats[i]) && Positioned(sats[j])
      ensures SatelliteEntity(sats[i]).id != SatelliteEntity(sats[j]).id
    {
      SatelliteIdInjective(sats[i].id, sats[j].id);
    }
    BuildDistinct(sats, Positioned, SatelliteEntity);
    WithoutTagKeepsDistinct(es, SatelliteTag);
    FilterMembers(es, SatelliteTag);
    forall i, j | 0 <= i < |base| && 0 <= j < |drawn| ensures base[i].id != drawn[j].id {
      assert base[i] in base;
      assert drawn[j] in drawn;
      SatelliteEntitiesMembers(sats, drawn[j]);
      var k :| 0 <= k < |sats| && Positioned(sats[k]) && SatelliteEntity(sats[k]) == drawn[j];
      assert "satellite-" <= drawn[j].id;
    }
    DisjointConcat(base, drawn);
    AddAllSucceeds(base, drawn);
  }

  /** Two positioned records with the same catalogue id make the scene refuse a satellite
      entity. */
  lemma RepeatedSatelliteRefused(es: seq<Entity>, sats: seq<SatelliteRecord>, i: nat, j: nat)
    requires DistinctIds(es)
    requires i < j < |sats| && Positioned(sats[i]) && Positioned(sats[j]) && sats[i].id == sats[j].id
    ensures SatellitePass(es, sats, true).rejected.Some?
  {
    BuildByIndex(sats, Positioned, SatelliteEntity);
    var drawn, idx := SatelliteEntities(sats), KeptIndices(sats, Positioned);
    var k :| 0 <= k < |idx| && idx[k] == i;
    var l :| 0 <= l < |idx| && idx[l] == j;
    WithoutTagKeepsDistinct(es, SatelliteTag);
    RepeatedAddRefused(WithoutTag(es, SatelliteTag), drawn, k, l);
  }


  /** An entity outside the satellite layer that already holds the id of a drawn satellite
      makes the scene refuse a satellite entity. */
  lemma ForeignSatelliteIdRefused(es: seq<Entity>, sats: seq<SatelliteRecord>, e: Entity, i: nat)
    requires DistinctIds(es) && e in es && !IsTagged(e, SatelliteTag)
    requires i < |sats| && Positioned(sats[i]) && e.id == SatelliteId(sats[i].id)
    ensures SatellitePass(es, sats, true).rejected.Some?
  {
    var base, drawn := WithoutTag(es, SatelliteTag), SatelliteEntities(sats);
    FilterMembers(es, SatelliteTag);
    SatelliteEntitiesMembers(sats, SatelliteEntity(sats[i]));
    var a :| 0 <= a < |base| && base[a] == e;
    var b :| 0 <= b < |drawn| && drawn[b] == SatelliteEntity(sats[i]);
    WithoutTagKeepsDistinct(es, SatelliteTag);
    PresentIdRefused(base, drawn, a, b);
  }


  /** Aircraft and satellite ids never clash. */
  lemma IdsNeverClash(icao24: string, id: string)
    ensures AircraftId(icao24) != SatelliteId(id)
  {
    assert AircraftId(icao24)[0] == 'a' && SatelliteId(id)[0] == 's';
  }
}
