# Globe overlay reconciliation, modelled in Dafny

The desktop telemetry viewer draws live aircraft and satellite positions on a 3D Cesium
globe. Its globe component shows the two telemetry layers. Each time the aircraft snapshot
or the aircraft layer flag changes, an effect brings the viewer's entity collection up to
date:

1. It removes every entity whose `type` property is `'aircraft'`.
2. It stops if the layer is hidden.
3. Otherwise it adds one billboard per aircraft state vector. It looks only at the first 500
   state vectors and skips any whose latitude or longitude is missing or zero.

The satellite effect works the same way. It adds one point per satellite record that has a
position, and styles the ISS differently.

A military classifier (`detectMilitary`) decides the colour and size of each aircraft
symbol. A left click sets the selection to the picked entity, or clears it.

The project models these parts as follows:

- `js.dfy` (module `Js`) holds the JavaScript semantics the component depends on:
  - truthiness of optional strings and numbers, and `x || 0`;
  - `Math.round`;
  - `String.prototype.trim`, using the ECMAScript whitespace and line-terminator set;
  - `String.prototype.toUpperCase`, as far as it can affect a test for an ASCII prefix;
  - `String.prototype.includes`.
- `classifier.dfy` (module `Classifier`) holds `detectMilitary` and its properties.
- `scene.dfy` (module `Scene`) holds the entities and the viewer's entity collection. The
  collection is a class. `Add` refuses an id it already holds, because Cesium throws in that
  case. `Remove` removes by id.
- `reconcile.dfy` (module `Reconcile`) holds the remove-by-tag, gate-on-flag, rebuild pattern
  that both effects share, stated on values:
  - `WithTag` and `WithoutTag` filter the entities by tag;
  - `AddAll` is a run of adds that stops at the first refused id;
  - `Build` makes one entity per accepted record;
  - `Pass` is one whole effect.
  Its lemmas prove "nothing else changes", "only the last pass counts" (and so idempotence),
  and the order and contents of what is built.
- `overlay.dfy` (module `Overlay`) holds the entity each effect builds for one record and
  the layer-level properties of each pass.
- `globe.dfy` (module `GlobeComponent`) holds the component's state as a class `Globe`. Its
  fields are the viewer's collection and the selection. The two effects are methods that
  loop over the collection in place, as the component does, with removal first and then
  adds. Each method is proved to leave exactly the state the matching pass function
  describes. The click handler is a method too.

Numbers are `real`, and a missing value is `None`. A duplicate id is not ruled out by a
precondition. Instead, the effect returns the refused id and stops, as the exception thrown
by `entities.add` would stop it. `AircraftPassSucceeds` and `SatellitePassSucceeds` give the
conditions under which no id is refused.

Notes on what the code does:

- The aircraft billboard scale is `NearFarScalar(1e4, 1.5, 2e7, 0.3)`, so aircraft symbols
  grow to 1.5 times their size near the camera.
- The satellite point scale is `NearFarScalar(1e5, 2, 4e7, 0.5)`, so points double in size
  near the camera.
- The selection holds the picked entity object (`picked.id` is the entity in Cesium), not
  an id string.
- `entities.add` throws when an entity with the same id is already present, so an effect
  can end with an exception. That happens when two placed state vectors among the first 500
  share a transponder address (`RepeatedAddressRefused`), or when two positioned satellite
  records share a catalogue id (`RepeatedSatelliteRefused`). It also happens when an entity
  outside the layer already holds a drawn `aircraft-…` or `satellite-…` id
  (`ForeignAircraftIdRefused`, `ForeignSatelliteIdRefused`).

## Model

| member | source | states |
|---|---|---|
| Classifier.DetectMilitarySpec | src/components/Globe/Globe.jsx:224-241 | a callsign is military exactly when it is a non-empty string whose trimmed, upper-cased form starts with one of RCH, MCE, SAM, VENUS, CHAOS, SPAR, GAF, RRR, DUKE, STEEL, BARON |
| Classifier.AnyPrefixOf | src/components/Globe/Globe.jsx:227-240 | `patterns.some(p => p.test(s))` for anchored literal patterns holds exactly when some pattern is a prefix of `s` |
| Classifier.DetectMilitaryIgnoresCase | src/components/Globe/Globe.jsx:226 | upper-casing a callsign before classifying it changes nothing |
| Classifier.DetectMilitaryIgnoresWhitespace | src/components/Globe/Globe.jsx:226 | whitespace wrapped around a callsign, or trimming it first, does not change the verdict |
| Classifier.DetectMilitary | src/components/Globe/Globe.jsx:224-241 | `detectMilitary`: false for a missing or empty callsign, else whether its normal form starts with a listed prefix; characterised by `DetectMilitarySpec` |
| Classifier.Normalize | src/components/Globe/Globe.jsx:226 | `callsign.trim().toUpperCase()`; its invariance under case and padding is `NormalizeUpper` and `NormalizeIgnoresWhitespace` |
| Classifier.DetectMilitaryPresent | src/components/Globe/Globe.jsx:225-240 | a present callsign, empty or not, is military exactly when its normal form starts with a listed prefix |
| Classifier.DetectMilitaryCongruence | src/components/Globe/Globe.jsx:226-240 | callsigns with the same trimmed, upper-cased form get the same verdict |
| Classifier.NormalizeUpper | src/components/Globe/Globe.jsx:226 | the normal form of an upper-cased callsign is the callsign's normal form |
| Classifier.NormalizeIgnoresWhitespace | src/components/Globe/Globe.jsx:226 | whitespace around a callsign, or trimming it first, does not change its normal form |
| Classifier.MilitaryCallsignExample | src/components/Globe/Globe.jsx:224-241 | "RCH123" is military |
| Classifier.PaddedLowerCaseExample | src/components/Globe/Globe.jsx:224-241 | " rch456 " is military |
| Classifier.CivilianCallsignExample | src/components/Globe/Globe.jsx:224-241 | "DAL123" is not military, and neither is a missing or empty callsign |
| Js.StringTruthy | src/components/Globe/Globe.jsx:167 | truthiness of a string that may be absent: false for `null`, `undefined` and `""` |
| Js.NumberTruthy | src/components/Globe/Globe.jsx:146 | truthiness of a number that may be absent: false for `null`, `undefined` and `0` |
| Js.OrZero | src/components/Globe/Globe.jsx:148 | the logical-or default to 0: the number when it is truthy, else 0 |
| Js.Round | src/components/Globe/Globe.jsx:168-170 | `Math.round(x)` lies within half a unit of `x`, rounding halves up |
| Js.IsWhitespace | src/components/Globe/Globe.jsx:226 | the characters `trim()` removes: ECMAScript WhiteSpace and LineTerminator code points; used by `Trim`, `TrimUnwraps` and `TrimIgnoresWhitespace` |
| Js.Trim | src/components/Globe/Globe.jsx:226 | `trim()` returns the piece of the string between whitespace-only ends, with no whitespace at either edge |
| Js.TrimUnwraps | src/components/Globe/Globe.jsx:167 | trimming whitespace wrapped around an edge-clean string gives that string back |
| Js.TrimIdempotent | src/components/Globe/Globe.jsx:226 | trimming twice is trimming once |
| Js.TrimIgnoresWhitespace | src/components/Globe/Globe.jsx:226 | extra whitespace around a string does not change its trimmed form |
| Js.ToUpperCase | src/components/Globe/Globe.jsx:226 | `toUpperCase()` leaves no ASCII lower-case letter |
| Js.ToUpperCaseAscii | src/components/Globe/Globe.jsx:226 | on ASCII text `toUpperCase()` keeps the length and maps each character by itself: a lower-case letter to its capital, anything else to itself |
| Js.ToUpperCaseIdempotent | src/components/Globe/Globe.jsx:226 | upper-casing twice is upper-casing once |
| Js.TrimToUpperCase | src/components/Globe/Globe.jsx:226 | trimming and upper-casing commute |
| Js.Includes | src/components/Globe/Globe.jsx:191 | `s.includes(sub)` holds exactly when `sub` occurs in `s` at some index |
| Scene.TypeTag | src/components/Globe/Globe.jsx:131 | `e.properties.type.getValue()`: `aircraft` or `satellite` for the bags the overlay makes, the stored value for any other bag, none without a bag |
| Scene.WithoutIds | src/components/Globe/Globe.jsx:133 | the entities left after removing a set of ids are exactly those whose id is not in the set |
| Scene.WithoutIdsUnion | src/components/Globe/Globe.jsx:133 | removing one more id after a set of ids is removing the union |
| Scene.EntityCollection.Valid | src/components/Globe/Globe.jsx:130-133 | `viewer.entities` holds no two entities with the same id |
| Scene.EntityCollection.constructor | src/components/Globe/Globe.jsx:130 | a new collection is empty and valid |
| Scene.EntityCollection.Add | src/components/Globe/Globe.jsx:152-173 | `entities.add` appends the entity when its id is new and refuses it, changing nothing, when the id is taken; ids stay unique |
| Scene.EntityCollection.Remove | src/components/Globe/Globe.jsx:133 | `entities.remove` removes the entity with that id, if present; ids stay unique |
| Reconcile.IsTagged | src/components/Globe/Globe.jsx:130-132 | the `toRemove` test: the entity has a property bag whose `type` is the tag; stated by `FilterMembers` |
| Reconcile.WithTag | src/components/Globe/Globe.jsx:130-132 | the `toRemove` list: the entities whose `type` is the tag, in order and never more than there are; membership is `FilterMembers` |
| Reconcile.WithoutTag | src/components/Globe/Globe.jsx:130-133 | the entities whose `type` is not the tag, in order and never more than there are; membership is `FilterMembers` |
| Reconcile.AddAll | src/components/Globe/Globe.jsx:152-174 | a run of `entities.add` calls that stops at the first refused id; its outcomes are `AddAllPrefix`, `AddAllSucceeds` and `AddAllAfterRefusal` |
| Reconcile.Build | src/components/Globe/Globe.jsx:137-174 | one entity per accepted record, in order, never more than the records; indexed by `BuildByIndex` |
| Reconcile.Pass | src/components/Globe/Globe.jsx:130-174 | one effect: remove the tagged entities, stop when hidden, else add the built entities; its properties are `PassKeepsUntagged`, `PassTaggedPart` and `LastPassWins` |
| Reconcile.FilterMembers | src/components/Globe/Globe.jsx:130-132 | the `toRemove` filter keeps exactly the entities typed with the tag, the rest exactly the others |
| Reconcile.RemoveTaggedIds | src/components/Globe/Globe.jsx:130-133 | removing the ids of the tagged entities one by one leaves exactly the untagged entities, in order, when ids are unique |
| Reconcile.AddAllPrefix | src/components/Globe/Globe.jsx:152-173 | a run of adds keeps a prefix of the new entities; when refused, the refused id is that of the first entity left out and it was already present |
| Reconcile.AddAllSucceeds | src/components/Globe/Globe.jsx:152-173 | a run of adds is refused exactly when the result would hold a duplicate id; otherwise every entity is appended |
| Reconcile.AddAllAfterRefusal | src/components/Globe/Globe.jsx:137-174 | once an add throws, the later records of the loop change nothing |
| Reconcile.RepeatedAddRefused | src/components/Globe/Globe.jsx:152-153 | two new entities with the same id make a run of adds refuse one |
| Reconcile.PresentIdRefused | src/components/Globe/Globe.jsx:152-153 | a new entity whose id is already in the scene makes a run of adds refuse one |
| Reconcile.AddAllKeepsDistinct | src/components/Globe/Globe.jsx:152-173 | adds never introduce a duplicate id |
| Reconcile.PassKeepsUntagged | src/components/Globe/Globe.jsx:130-135 | a pass leaves every entity not typed with its tag exactly as it was, in order |
| Reconcile.PassTaggedPart | src/components/Globe/Globe.jsx:130-174 | after a pass the tagged entities are none when hidden, and a prefix of (or, without a refusal, exactly) the newly built entities when shown |
| Reconcile.PassKeepsOtherTags | src/components/Globe/Globe.jsx:130-133 | a pass does not change the entities of any other tag |
| Reconcile.LastPassWins | src/components/Globe/Globe.jsx:130-174 | a pass over the result of an earlier pass of the same layer gives what it gives on the state before that earlier pass |
| Reconcile.PassKeepsDistinct | src/components/Globe/Globe.jsx:130-174 | a pass keeps entity ids unique |
| Reconcile.KeptIndices | src/components/Globe/Globe.jsx:137-146 | the positions of the accepted records, strictly increasing and in range, and exactly those of accepted records |
| Reconcile.BuildByIndex | src/components/Globe/Globe.jsx:137-174 | the k-th built entity is made from the k-th accepted record |
| Reconcile.BuildMembers | src/components/Globe/Globe.jsx:137-174 | an entity is built exactly when some accepted record makes it |
| Reconcile.BuildAllKept | src/components/Globe/Globe.jsx:137-174 | when every record is accepted, the k-th entity is made from the k-th record |
| Reconcile.BuildDistinct | src/components/Globe/Globe.jsx:153 | records that make distinct ids build entities with distinct ids |
| Reconcile.BuildConcat | src/components/Globe/Globe.jsx:137 | building over two pieces of a snapshot is building over each |
| Overlay.AircraftId | src/components/Globe/Globe.jsx:153 | the entity id `aircraft-<icao24>`; stated by `AircraftIdInjective`, `IdsNeverClash` and `AircraftEntityFields` |
| Overlay.Placed | src/components/Globe/Globe.jsx:146 | the guard that returns when `lat` or `lon` is falsy: a state vector is drawn only when both coordinates are present and non-zero |
| Overlay.DisplayCallsign | src/components/Globe/Globe.jsx:167 | the shown callsign: trimmed when it is a non-empty string, `UNKNOWN` otherwise |
| Overlay.AircraftEntity | src/components/Globe/Globe.jsx:146-173 | the entity added for one state vector; every field is stated by `AircraftEntityFields` |
| Overlay.AircraftEntities | src/components/Globe/Globe.jsx:137-174 | the entities a visible aircraft layer adds, in order; stated by `AircraftEntitiesInOrder` and `AircraftEntitiesMembers` |
| Overlay.AircraftPass | src/components/Globe/Globe.jsx:126-175 | the aircraft effect on the entities of the scene; stated by `AircraftPassLayers` and `AircraftPassIdempotent` |
| Overlay.FirstAircraft | src/components/Globe/Globe.jsx:137 | `slice(0, 500)` is the prefix of the snapshot of length min(length, 500) |
| Overlay.AircraftEntityFields | src/components/Globe/Globe.jsx:146-173 | id `aircraft-<icao24>`; type `aircraft`; size 24 and red icon exactly when military, else 16 and cyan; `isMilitary` is the classifier's verdict; callsign trimmed, or `UNKNOWN` when missing or empty; missing or zero altitude, velocity and heading become 0 before rounding; rounded values within half a unit of the inputs; rotation is the negated heading; position at the record's coordinates |
| Overlay.BlankCallsignShownEmpty | src/components/Globe/Globe.jsx:167 | a whitespace-only callsign is shown as the empty string, not `UNKNOWN`, and is not military |
| Overlay.AircraftEntitiesMembers | src/components/Globe/Globe.jsx:137-146 | the aircraft drawn are exactly those made from placed state vectors among the first 500 |
| Overlay.AircraftEntitiesInOrder | src/components/Globe/Globe.jsx:137-174 | at most 500 aircraft; the k-th comes from the k-th placed state vector among the first 500, in snapshot order |
| Overlay.AircraftTruncation | src/components/Globe/Globe.jsx:137 | when the first 500 state vectors are all placed, exactly those 500 are drawn, in order (e.g. 800 placed records give the first 500) |
| Overlay.UnplacedAddsNothing | src/components/Globe/Globe.jsx:146 | in a snapshot of at most 500 state vectors, one with a missing or zero coordinate adds nothing wherever it stands |
| Overlay.UnplacedAnyLength | src/components/Globe/Globe.jsx:137-146 | in a snapshot of any length, an unplaced state vector among the first 500 adds nothing: what is drawn is the build of the first 500 with it taken out |
| Overlay.AircraftPastLimitIgnored | src/components/Globe/Globe.jsx:137 | state vectors past the 500th are never drawn |
| Overlay.AircraftPassLayers | src/components/Globe/Globe.jsx:130-174 | after the aircraft effect: no aircraft when hidden; the snapshot's aircraft (a prefix if refused) when shown; every non-aircraft entity, satellites included, unchanged |
| Overlay.AircraftPassDropsStale | src/components/Globe/Globe.jsx:130-133 | no aircraft entity from before the pass survives unless the new snapshot makes it again |
| Overlay.AircraftPassIdempotent | src/components/Globe/Globe.jsx:130-174 | a second aircraft pass with the same snapshot and flag changes nothing; only the last pass counts |
| Overlay.AircraftPassKeepsDistinct | src/components/Globe/Globe.jsx:130-174 | the aircraft pass keeps ids unique |
| Overlay.AircraftPassSucceeds | src/components/Globe/Globe.jsx:152-173 | with unique drawn transponder addresses and no foreign `aircraft-` id, nothing is refused and the layer is exactly the snapshot's aircraft after the untouched entities |
| Overlay.RepeatedAddressRefused | src/components/Globe/Globe.jsx:137-153 | when two placed state vectors among the first 500 share a transponder address, the scene refuses an aircraft entity |
| Overlay.DuplicateAddressRefused | src/components/Globe/Globe.jsx:152-153 | the two-record snapshot `[ac, ac]` of a placed aircraft makes the scene refuse exactly `aircraft-<icao24>` |
| Overlay.ForeignAircraftIdRefused | src/components/Globe/Globe.jsx:130-153 | an entity outside the aircraft layer that already holds a drawn aircraft's id makes the scene refuse an aircraft entity |
| Overlay.AircraftIdInjective | src/components/Globe/Globe.jsx:153 | distinct transponder addresses give distinct entity ids |
| Overlay.IdsNeverClash | src/components/Globe/Globe.jsx:153-194 | an aircraft id never equals a satellite id |
| Overlay.SatelliteId | src/components/Globe/Globe.jsx:194 | the entity id `satellite-<id>`; stated by `SatelliteIdInjective`, `IdsNeverClash` and `SatelliteEntityFields` |
| Overlay.Positioned | src/components/Globe/Globe.jsx:189 | the guard `!sat.position`: a record is drawn only when it has a position |
| Overlay.IsIss | src/components/Globe/Globe.jsx:191 | `sat.name && sat.name.includes('ISS')`; stated by `IsIssSpec` |
| Overlay.SatelliteEntity | src/components/Globe/Globe.jsx:193-214 | the entity added for one record; every field is stated by `SatelliteEntityFields` |
| Overlay.SatelliteEntities | src/components/Globe/Globe.jsx:188-215 | the entities a visible satellite layer adds, in order; stated by `SatelliteEntitiesInOrder` and `SatelliteEntitiesMembers` |
| Overlay.SatellitePass | src/components/Globe/Globe.jsx:177-216 | the satellite effect on the entities of the scene; stated by `SatellitePassLayers` and `SatellitePassIdempotent` |
| Overlay.SatelliteEntityFields | src/components/Globe/Globe.jsx:191-213 | id `satellite-<id>`; type `satellite`; the record's position; pixel size 8 and outline width 4 exactly when ISS, else 4 and 2; fill `#00ff9d` at alpha 1 and outline at 0.3 for the ISS, else fill `#8855ff` at 0.8 and outline at 0.2; name, id, altitude and velocity passed through |
| Overlay.IsIssSpec | src/components/Globe/Globe.jsx:191 | the ISS style applies exactly to a present name in which `ISS` occurs, case-sensitively |
| Overlay.ZaryaIsIss | src/components/Globe/Globe.jsx:191 | "ISS (ZARYA)" is styled as the ISS |
| Overlay.StarlinkIsNotIss | src/components/Globe/Globe.jsx:191 | "STARLINK-1130" is styled as an ordinary satellite |
| Overlay.SatelliteEntitiesMembers | src/components/Globe/Globe.jsx:188-189 | the satellites drawn are exactly those made from records with a position |
| Overlay.SatelliteEntitiesInOrder | src/components/Globe/Globe.jsx:188-215 | the k-th satellite entity comes from the k-th positioned record |
| Overlay.SatellitePassLayers | src/components/Globe/Globe.jsx:181-215 | after the satellite effect: no satellites when hidden; the records' satellites (a prefix if refused) when shown; every other entity, aircraft included, unchanged |
| Overlay.SatellitePassIdempotent | src/components/Globe/Globe.jsx:181-215 | a second satellite pass with the same records and flag changes nothing; only the last pass counts |
| Overlay.SatellitePassKeepsDistinct | src/components/Globe/Globe.jsx:181-215 | the satellite pass keeps ids unique |
| Overlay.SatelliteIdInjective | src/components/Globe/Globe.jsx:194 | distinct catalogue ids give distinct entity ids |
| Overlay.SatellitePassSucceeds | src/components/Globe/Globe.jsx:188-214 | with unique catalogue ids among the positioned records and no foreign `satellite-` id, nothing is refused and the layer is exactly the records' satellites after the untouched entities |
| Overlay.ForeignSatelliteIdRefused | src/components/Globe/Globe.jsx:181-194 | an entity outside the satellite layer that already holds a drawn satellite's id makes the scene refuse a satellite entity |
| Overlay.RepeatedSatelliteRefused | src/components/Globe/Globe.jsx:188-194 | two positioned records with the same catalogue id make the scene refuse a satellite entity |
| GlobeComponent.SelectionAfterClick | src/components/Globe/Globe.jsx:108-115 | the selection is the picked entity exactly when the pick and its `id` are both defined, and nothing otherwise |
| GlobeComponent.RemoveTagged | src/components/Globe/Globe.jsx:130-133 | removing the tagged entities one by one leaves exactly the untagged entities, in order |
| GlobeComponent.AddEach | src/components/Globe/Globe.jsx:137-174 | the add loop leaves the collection that `AddAll` over the built entities describes, and returns the refused id if any |
| GlobeComponent.Globe.AircraftEffect | src/components/Globe/Globe.jsx:126-175 | the aircraft effect leaves exactly the collection and refusal `AircraftPass` describes; without a viewer it does nothing |
| GlobeComponent.Globe.SatelliteEffect | src/components/Globe/Globe.jsx:177-216 | the satellite effect leaves exactly the collection and refusal `SatellitePass` describes; without a viewer it does nothing |
| GlobeComponent.Globe.OnClick | src/components/Globe/Globe.jsx:108-115 | the click handler stores `SelectionAfterClick` of the pick and leaves the viewer alone |

## Left out

- `createAircraftIcon` (canvas drawing through the browser's 2D context) is not modelled. The icon is a value determined by its colour.
- Viewer construction, imagery loading with its fallback, the camera pose and teardown are not modelled. They configure the Cesium library and fetch tiles over the network. (The fallback's `catch` block logs an undefined name, so it would itself throw.)
- Geometry is not modelled. `Cartesian3.fromDegrees` is kept as its three arguments. The billboard rotation is kept as the negated heading in degrees, before `Math.toRadians`. `alignedAxis` is left out.
- The `NearFarScalar` and `withAlpha` constants are recorded as values only.
- Floating point is not modelled. Numbers are exact reals, so NaN, infinities and `-0` are left out. A NaN coordinate, which JavaScript treats as falsy, has no counterpart.
- Js.ToUpperCase: only ASCII letters, plus the characters whose upper-case form starts with an ASCII letter (ß, ı, ſ, ǰ, ẖ–ẚ, ﬀ–ﬆ), are mapped. Every other character is kept as it is. That is enough for the classifier's ASCII prefix test but is not the full Unicode mapping.
- A transponder address or satellite id that is not a string is not modelled. The model does not format a number, `null` or `undefined` into an entity id.
- A satellite record's position is taken as the scene position the satellite feed computed. Propagation lives in the feed hooks, which are not part of this model.
- The store (`useMDASStore`), the feed hooks, `src/App.jsx` and `electron/main.js` are not modelled. Snapshots and layer flags are method parameters, and the selection is a field.
- React's scheduling of effects and its handling of a thrown exception are not modelled. An effect returns the refused id instead of throwing.
- The `icao24` argument of `detectMilitary` is not modelled, since the function never reads it.
