/**
 * `ArchiveActivity`: the screen of one fishing day. It shows one weight field per
 * species (six fields), filled from the day's landed catches, locks them once any of
 * the day's catches has been uploaded, stores a field's weight when it loses focus,
 * and on submit stores every field and posts the day.
 *
 * A failing Kotlin expression (an index past the sixth field, a cast of a missing
 * tag, an exception from the database) ends the activity; a method reports it by
 * returning `ok == false`, and its contract says how far it got.
 */
module Archive {
  import opened Common
  import opened Landed
  import FishingDao
  import TrackLog
  import Period
  import Numerals
  import Application
  import Batches

  /** The number of species rows on the screen (`species_1` to `species_6`). */
  const FieldCount: nat := 6
  /** The request code of the location-permission request. */
  const LocationRequestCode: int := 568
  /** `PackageManager.PERMISSION_GRANTED`. */
  const PermissionGranted: int := 0

  /** The answer to a permission request grants the location request. */
  predicate Granted(requestCode: int, grantResults: seq<int>) {
    requestCode == LocationRequestCode && |grantResults| > 0 && grantResults[0] == PermissionGranted
  }

  /**
   * The `landed_id_key` tag of a weight field: not set yet, `false` (the species has
   * no landed catch in the period), or the id of the catch row the field shows.
   */
  datatype LandedTag = Untagged | NoLanded | LandedId(id: int)

  /** One label and weight field pair, with the weight field's two tags and its enabled state. */
  datatype Field = Field(speciesLabel: string, text: string, landedTag: LandedTag, speciesTag: Option<int>, enabled: bool)

  /** A field as the layout creates it. */
  const BlankField := Field("", "", Untagged, None, true)

  /** `disableField`: the field no longer accepts input; nothing else changes. */
  function Disabled(f: Field): (r: Field)
    ensures !r.enabled && r.(enabled := f.enabled) == f
  {
    f.(enabled := false)
  }

  /**
   * The first row of a join result whose species is `speciesId`, if any: the row the
   * species' field shows.
   */
  function FirstLanded(lws: seq<CatchWithSpecies>, speciesId: int): (r: Option<Catch>)
    requires forall k :: 0 <= k < |lws| ==> lws[k].species != []
    ensures r.None? <==> forall k :: 0 <= k < |lws| ==> lws[k].species[0].id != speciesId
    ensures r.Some? ==> exists k :: 0 <= k < |lws| && lws[k].species[0].id == speciesId && lws[k].aCatch == r.value
                                    && forall j :: 0 <= j < k ==> lws[j].species[0].id != speciesId
  {
    if lws == [] then None
    else
      var n := |lws| - 1;
      var front := FirstLanded(lws[..n], speciesId);
      assert forall k :: 0 <= k < n ==> lws[..n][k] == lws[k];
      if front.Some? then front
      else if lws[n].species[0].id == speciesId then Some(lws[n].aCatch)
      else None
  }

  /** Whether any row of a join result has been uploaded. */
  predicate AnyUploaded(lws: seq<CatchWithSpecies>) {
    exists k :: 0 <= k < |lws| && lws[k].aCatch.uploaded.Some?
  }

  /**
   * The field of a species after binding: the species name as label, its species id
   * as tag, and either the first landed catch of that species (its id as tag, its
   * weight as text) or the `false` tag with the text left as it was.
   */
  function BoundField(f: Field, s: Species, lws: seq<CatchWithSpecies>, render: real -> string): (r: Field)
    requires forall k :: 0 <= k < |lws| ==> lws[k].species != []
    ensures r.speciesLabel == s.name && r.speciesTag == Some(s.id) && r.enabled == f.enabled
    ensures r.landedTag == NoLanded <==> FirstLanded(lws, s.id).None?
    ensures r.landedTag != NoLanded ==> r.landedTag == LandedId(FirstLanded(lws, s.id).value.id)
  {
    var m := FirstLanded(lws, s.id);
    if m.Some? then f.(speciesLabel := s.name, text := render(m.value.weight), landedTag := LandedId(m.value.id), speciesTag := Some(s.id))
    else f.(speciesLabel := s.name, landedTag := NoLanded, speciesTag := Some(s.id))
  }

  /** The field after the binding loop has seen the first rows of the result. */
  function PartlyBound(f: Field, s: Species, lws: seq<CatchWithSpecies>, render: real -> string): Field
    requires forall k :: 0 <= k < |lws| ==> lws[k].species != []
  {
    var m := FirstLanded(lws, s.id);
    if m.Some? then f.(speciesLabel := s.name, text := render(m.value.weight), landedTag := LandedId(m.value.id))
    else f.(speciesLabel := s.name)
  }

  /**
   * What `doLandedFields` leaves in field `i`: bound to species `i` when there is one,
   * then disabled when the binding completed and the day is locked.
   */
  function ShownField(i: nat, f: Field, species: seq<Species>, lws: seq<CatchWithSpecies>,
                      render: real -> string, locked: bool): Field
    requires forall k :: 0 <= k < |lws| ==> lws[k].species != []
  {
    var bound := if i < |species| then BoundField(f, species[i], lws, render) else f;
    if locked then Disabled(bound) else bound
  }

  /** The day is locked when it has a species and one of its catches was uploaded. */
  predicate Locked(species: seq<Species>, lws: seq<CatchWithSpecies>) {
    species != [] && AnyUploaded(lws)
  }

  /** The join result of a day, as `getLandedsForPeriod` returns it. */
  function DayLandeds(db: FishingDao.FishingDb, day: Period.Day): seq<CatchWithSpecies>
    reads db
  {
    Related(Join(db.species, db.catches, day.start, day.finish), db.species)
  }

  /** A field whose text is a weight is stored: it carries the id of its catch row. */
  predicate Submitted(f: Field) {
    Numerals.MatchesWeight(f.text) ==> f.landedTag.LandedId?
  }

  class ArchiveActivity {
    const app: Application.FishingApplication
    const db: FishingDao.FishingDb
    const track: TrackLog.PositionTable
    /** The six weight fields, with their labels. */
    const landeds: array<Field>
    /** Whether an auth state was restored; `postData` sends nothing without one. */
    const authorised: bool
    /** The fishing day shown, noon to noon. */
    var day: Period.Day
    /** The time given to the catches stored from this screen: midnight inside the day. */
    var timestamp: int
    /** Whether the submit button is shown. */
    var submitVisible: bool

    ghost predicate Valid()
      reads this, db, track
    {
      landeds.Length == FieldCount && db.Valid() && track.Valid()
    }

    /** The first part of `onCreate`: blank fields, the submit button, the day of the picked midnight. */
    constructor (app: Application.FishingApplication, db: FishingDao.FishingDb, track: TrackLog.PositionTable,
                 authorised: bool, midnight: int, zone: int)
      requires db.Valid() && track.Valid()
      ensures Valid() && fresh(landeds)
      ensures this.app == app && this.db == db && this.track == track && this.authorised == authorised
      ensures forall i :: 0 <= i < FieldCount ==> landeds[i] == BlankField
      ensures submitVisible
      ensures day == Period.PeriodBoundaries(midnight, zone) && timestamp == Period.Stamp(day)
    {
      this.app, this.db, this.track, this.authorised := app, db, track, authorised;
      landeds := new Field[FieldCount](_ => BlankField);
      var d := Period.GetPeriodBoundaries(Some(midnight), midnight, zone);
      day, timestamp := d, Period.Stamp(d);
      submitVisible := true;
    }

    /**
     * `setDayAndTime()`: the day around the `midnight` extra, and a timestamp twelve
     * hours after its start.
     */
    method SetDayAndTime(midnight: int, zone: int)
      modifies this`day, this`timestamp
      ensures day == Period.PeriodBoundaries(midnight, zone)
      ensures day.start <= midnight < day.finish && day.finish == day.start + Period.DayMs
      ensures timestamp == Period.Stamp(day) && day.start <= timestamp < day.finish
    {
      day := Period.GetPeriodBoundaries(Some(midnight), midnight, zone);
      timestamp := Period.Stamp(day);
    }

    /** `onRequestPermissionsResult`: a granted location request starts tracking; nothing else changes. */
    method OnRequestPermissionsResult(requestCode: int, grantResults: seq<int>)
      modifies app
      ensures Granted(requestCode, grantResults) ==> app.trackingLocation
      ensures !Granted(requestCode, grantResults) ==> app.trackingLocation == old(app.trackingLocation)
    {
      if requestCode == LocationRequestCode {
        if |grantResults| > 0 && grantResults[0] == PermissionGranted {
          app.StartTrackingLocation();
        }
        return;
      }
    }

    /**
     * `doLandedFields()`. Field `i` shows species `i` (in id order) and the first of
     * the day's catches of that species; a species without one gets the `false` tag.
     * With more than six species the seventh has no field and the activity fails,
     * after the first six were bound. Otherwise, when any of the day's catches was
     * uploaded, every field is disabled and the submit button hidden.
     * `render` stands for `Double.toString`.
     */
    method DoLandedFields(render: real -> string) returns (ok: bool)
      requires Valid()
      modifies landeds, this`submitVisible
      ensures Valid()
      ensures ok <==> |db.species| <= FieldCount
      ensures forall k :: 0 <= k < |DayLandeds(db, day)| ==> DayLandeds(db, day)[k].species != []
      ensures forall i :: 0 <= i < FieldCount ==>
        landeds[i] == ShownField(i, old(landeds[i]), db.species, DayLandeds(db, day), render,
                                 ok && Locked(db.species, DayLandeds(db, day)))
      ensures submitVisible == (old(submitVisible) && !(ok && Locked(db.species, DayLandeds(db, day))))
    {
      var speciesList, landedsList := DayQuery(db, day);
      var uploaded;
      ok, uploaded := BindAll(landeds, speciesList, landedsList, render);
      if !ok {
        return;
      }
      if uploaded {
        DisableAll(landeds);
        submitVisible := false;
      }
      ok := true;
    }

    /**
     * `submitLanded(field)` for field `i`. Text that is not a weight is ignored. A field
     * showing a catch row updates that row's weight and time. Any other field inserts a
     * new catch of its species, tagged with the new row's id; a field without a species
     * tag, or a species the database does not have, makes the activity fail.
     */
    method SubmitLanded(i: nat) returns (ok: bool)
      requires Valid() && i < FieldCount
      modifies db, landeds
      ensures Valid()
      ensures db.species == old(db.species)
      ensures !Numerals.MatchesWeight(old(landeds[i].text)) ==>
        ok && db.catches == old(db.catches) && db.lastId == old(db.lastId) && landeds[..] == old(landeds[..])
      ensures Numerals.MatchesWeight(old(landeds[i].text)) && old(landeds[i].landedTag).LandedId? ==>
        && ok && landeds[..] == old(landeds[..]) && db.lastId == old(db.lastId)
        && db.catches == Updated(old(db.catches), old(landeds[i].landedTag).id,
                                 Numerals.DecimalValue(old(landeds[i].text)), timestamp)
      ensures Numerals.MatchesWeight(old(landeds[i].text)) && !old(landeds[i].landedTag).LandedId? ==>
        (ok <==> old(landeds[i].speciesTag).Some? && HasSpecies(db.species, old(landeds[i].speciesTag).value))
      ensures Numerals.MatchesWeight(old(landeds[i].text)) && !old(landeds[i].landedTag).LandedId? && !ok ==>
        db.catches == old(db.catches) && db.lastId == old(db.lastId) && landeds[..] == old(landeds[..])
      ensures Numerals.MatchesWeight(old(landeds[i].text)) && !old(landeds[i].landedTag).LandedId? && ok ==>
        && db.lastId == old(db.lastId) + 1
        && db.catches == old(db.catches) + [Catch(db.lastId, old(landeds[i].speciesTag).value,
                                                  Numerals.DecimalValue(old(landeds[i].text)), timestamp, None)]
        && landeds[..] == old(landeds[..])[i := old(landeds[i]).(landedTag := LandedId(ToInt32(db.lastId)))]
    {
      var field := landeds[i];
      if Numerals.MatchesWeight(field.text) {
        if field.landedTag.LandedId? {
          db.UpdateLanded(field.landedTag.id, Numerals.DecimalValue(field.text), timestamp);
        } else {
          if field.speciesTag.None? {
            return false;
          }
          var r := db.InsertLanded(NewCatch(field.speciesTag.value, Numerals.DecimalValue(field.text), timestamp));
          if r.Err? {
            return false;
          }
          landeds[i] := field.(landedTag := LandedId(ToInt32(r.value)));
        }
      }
      ok := true;
    }

    /**
     * `submitData()`: stores the six fields in turn, then posts the day with `postData`
     * as written (999-id marking batches); as it answers true, every field is then
     * disabled and the submit button hidden. Every field holding a weight then carries
     * the id of its catch row. Acknowledged catches are stamped only when fewer than 999
     * were acknowledged, positions only when both counts are below 999; otherwise the
     * track is left as it was.
     */
    method SubmitData(deviceId: string, outcome: Application.Outcome, now: int)
      returns (ok: bool, request: Option<Application.Payload>)
      requires Valid()
      modifies db, track, landeds, this`submitVisible
      ensures Valid()
      ensures db.species == old(db.species)
      ensures ok ==> !submitVisible && forall i :: 0 <= i < FieldCount ==> !landeds[i].enabled && Submitted(landeds[i])
      ensures ok && request.Some? && outcome.Success? && |outcome.captureIds| < Batches.SourceBatchSize ==>
        forall c :: c in db.catches && c.id in outcome.captureIds ==> c.uploaded == Some(now)
      ensures ok && request.Some? && outcome.Success? && |outcome.captureIds| < Batches.SourceBatchSize
              && |outcome.positionIds| < Batches.SourceBatchSize ==>
        forall p :: p in track.positions && p.id in outcome.positionIds ==> p.uploaded == Some(now)
      ensures ok && request.Some? && outcome.Success? && |outcome.captureIds| >= Batches.SourceBatchSize ==>
        track.positions == old(track.positions)
      ensures ok && request.Some? && outcome.Success? && |outcome.positionIds| >= Batches.SourceBatchSize ==>
        track.positions == old(track.positions)
      ensures ok && (request.None? || outcome.Failure?) ==> track.positions == old(track.positions)
      ensures !ok ==> request.None? && track.positions == old(track.positions) && submitVisible == old(submitVisible)
    {
      request := None;
      var i := 0;
      while i < FieldCount
        invariant 0 <= i <= FieldCount && Valid()
        invariant db.species == old(db.species) && track.positions == old(track.positions)
        invariant submitVisible == old(submitVisible)
        invariant forall j :: 0 <= j < i ==> Submitted(landeds[j])
      {
        var submitted := SubmitLanded(i);
        if !submitted {
          return false, None;
        }
        i := i + 1;
      }
      ghost var mid := db.catches;
      var success;
      success, request := app.PostDataAsWritten(day, authorised, db, track, deviceId, outcome, now);
      if success {
        DisableAll(landeds);
        submitVisible := false;
      }
      ok := true;
      if request.Some? && outcome.Success? && |outcome.captureIds| < Batches.SourceBatchSize {
        MarkedStamped(mid, outcome.captureIds, now);
        if |outcome.positionIds| < Batches.SourceBatchSize {
          PositionsMarkedStamped(old(track.positions), outcome.positionIds, now);
        }
      }
    }
  }

  /** `disableField` on every weight field. */
  method DisableAll(landeds: array<Field>)
    modifies landeds
    ensures forall i :: 0 <= i < landeds.Length ==> landeds[i] == Disabled(old(landeds[i]))
  {
    forall i | 0 <= i < landeds.Length {
      landeds[i] := Disabled(landeds[i]);
    }
  }

  /** The two queries of `doLandedFields`: the species in id order and the day's join result. */
  method DayQuery(db: FishingDao.FishingDb, day: Period.Day) returns (speciesList: seq<Species>, landedsList: seq<CatchWithSpecies>)
    requires db.Valid()
    ensures speciesList == db.species && landedsList == DayLandeds(db, day)
    ensures forall k :: 0 <= k < |landedsList| ==> landedsList[k].species != []
  {
    speciesList := db.GetSpecies();
    landedsList := db.GetLandedsForPeriod(day.start, day.finish);
  }

  /**
   * The species loop of `doLandedFields`: field `i` is bound to species `i`; it fails
   * on a seventh species, after the six fields were bound. `uploaded` reports whether
   * the loop saw an uploaded row, which it can only do when there is a species.
   */
  method BindAll(landeds: array<Field>, speciesList: seq<Species>, landedsList: seq<CatchWithSpecies>, render: real -> string)
    returns (ok: bool, uploaded: bool)
    requires landeds.Length == FieldCount
    requires forall k :: 0 <= k < |landedsList| ==> landedsList[k].species != []
    modifies landeds
    ensures ok <==> |speciesList| <= FieldCount
    ensures forall i :: 0 <= i < FieldCount ==>
      landeds[i] == if i < |speciesList| then BoundField(old(landeds[i]), speciesList[i], landedsList, render) else old(landeds[i])
    ensures uploaded == Locked(speciesList, landedsList)
  {
    uploaded := false;
    var index := 0;
    while index < |speciesList|
      invariant 0 <= index <= |speciesList| && index <= FieldCount
      invariant forall i :: 0 <= i < FieldCount ==>
        landeds[i] == if i < index then BoundField(old(landeds[i]), speciesList[i], landedsList, render) else old(landeds[i])
      invariant uploaded == (index > 0 && AnyUploaded(landedsList))
    {
      if index == FieldCount {
        return false, uploaded;
      }
      var seen := BindSpecies(landeds, index, speciesList[index], landedsList, render);
      uploaded := uploaded || seen;
      index := index + 1;
    }
    ok := true;
  }

  /**
   * One turn of the species loop of `doLandedFields`: label and tag the field of
   * species `index` from the first matching row, and report whether any row of the
   * result was uploaded.
   */
  method BindSpecies(landeds: array<Field>, index: nat, s: Species, lws: seq<CatchWithSpecies>, render: real -> string)
    returns (seen: bool)
    requires index < landeds.Length
    requires forall k :: 0 <= k < |lws| ==> lws[k].species != []
    modifies landeds
    ensures forall i :: 0 <= i < landeds.Length && i != index ==> landeds[i] == old(landeds[i])
    ensures landeds[index] == BoundField(old(landeds[index]), s, lws, render)
    ensures seen == AnyUploaded(lws)
  {
    var g;
    g, seen := ScanSpecies(landeds[index], s, lws, render);
    landeds[index] := g;
  }

  /** The loop over the result rows of that turn, on the field's value. */
  method ScanSpecies(f: Field, s: Species, lws: seq<CatchWithSpecies>, render: real -> string)
    returns (g: Field, seen: bool)
    requires forall k :: 0 <= k < |lws| ==> lws[k].species != []
    ensures g == BoundField(f, s, lws, render)
    ensures seen == AnyUploaded(lws)
  {
    g := f.(speciesLabel := s.name);
    var empty := true;
    seen := false;
    var j := 0;
    while j < |lws|
      invariant 0 <= j <= |lws|
      invariant g == PartlyBound(f, s, lws[..j], render)
      invariant empty == FirstLanded(lws[..j], s.id).None?
      invariant seen == AnyUploaded(lws[..j])
    {
      assert lws[..j + 1][..j] == lws[..j];
      if empty && lws[j].species[0].id == s.id {
        g := g.(landedTag := LandedId(lws[j].aCatch.id), text := render(lws[j].aCatch.weight));
        empty := false;
      }
      if lws[j].aCatch.uploaded.Some? {
        seen := true;
      }
      AnyUploadedStep(lws, j);
      j := j + 1;
    }
    assert lws[..j] == lws;
    if empty {
      g := g.(landedTag := NoLanded);
    }
    g := g.(speciesTag := Some(s.id));
  }

  lemma AnyUploadedStep(lws: seq<CatchWithSpecies>, j: nat)
    requires j < |lws|
    ensures AnyUploaded(lws[..j + 1]) <==> AnyUploaded(lws[..j]) || lws[j].aCatch.uploaded.Some?
  {
    if AnyUploaded(lws[..j + 1]) {
      var k :| 0 <= k < j + 1 && lws[..j + 1][k].aCatch.uploaded.Some?;
      if k < j {
        assert lws[..j][k] == lws[k];
      }
    }
    if AnyUploaded(lws[..j]) {
      var k :| 0 <= k < j && lws[..j][k].aCatch.uploaded.Some?;
      assert lws[..j + 1][k] == lws[k];
    }
  }

  /** Each row of a day's join result is a catch of the day, with its species row first. */
  lemma DayLandedsRows(db: FishingDao.FishingDb, day: Period.Day)
    requires db.Valid()
    ensures forall k :: 0 <= k < |DayLandeds(db, day)| ==>
      DayLandeds(db, day)[k].species != [] && DayLandeds(db, day)[k].species[0].id == DayLandeds(db, day)[k].aCatch.speciesId
    ensures forall c :: (exists k :: 0 <= k < |DayLandeds(db, day)| && DayLandeds(db, day)[k].aCatch == c) <==>
      c in db.catches && InPeriod(c, day.start, day.finish)
  {
    JoinRows(db.species, db.catches, day.start, day.finish, DayLandeds(db, day));
  }

  /** The same over the table contents. */
  lemma JoinRows(species: seq<Species>, catches: seq<Catch>, start: int, finish: int, lws: seq<CatchWithSpecies>)
    requires SpeciesIdsIncreasing(species) && SpeciesReferenced(catches, species)
    requires lws == Related(Join(species, catches, start, finish), species)
    ensures forall k :: 0 <= k < |lws| ==> lws[k].species != [] && lws[k].species[0].id == lws[k].aCatch.speciesId
    ensures forall c :: (exists k :: 0 <= k < |lws| && lws[k].aCatch == c) <==> c in catches && InPeriod(c, start, finish)
  {
    var rows := Join(species, catches, start, finish);
    JoinMembers(species, catches, start, finish);
    FishingDao.RelatedHaveOneSpecies(rows, species, catches);
    RelatedMembers(rows, species, lws);
  }

  /** A catch is in a relation result exactly when it is in the rows related. */
  lemma RelatedMembers(rows: seq<Catch>, species: seq<Species>, lws: seq<CatchWithSpecies>)
    requires lws == Related(rows, species)
    ensures forall c :: (exists k :: 0 <= k < |lws| && lws[k].aCatch == c) <==> c in rows
  {
    forall c | c in rows ensures exists k :: 0 <= k < |lws| && lws[k].aCatch == c {
      var k :| 0 <= k < |rows| && rows[k] == c;
      assert lws[k].aCatch == c;
    }
  }

  /**
   * The day is locked exactly when there is a species and some catch of the day has
   * been uploaded: the foreign key puts every catch of the period in the join.
   */
  lemma LockedIffDayUploaded(db: FishingDao.FishingDb, day: Period.Day)
    requires db.Valid()
    ensures Locked(db.species, DayLandeds(db, day)) <==>
      db.species != [] && exists c :: c in db.catches && InPeriod(c, day.start, day.finish) && c.uploaded.Some?
  {
    JoinRows(db.species, db.catches, day.start, day.finish, DayLandeds(db, day));
    AnyUploadedIffRow(DayLandeds(db, day), db.catches, day.start, day.finish);
  }

  /** Over rows that are exactly the period's catches, some row is uploaded iff some catch of the period is. */
  lemma AnyUploadedIffRow(lws: seq<CatchWithSpecies>, catches: seq<Catch>, start: int, finish: int)
    requires forall c :: (exists k :: 0 <= k < |lws| && lws[k].aCatch == c) <==> c in catches && InPeriod(c, start, finish)
    ensures AnyUploaded(lws) <==> exists c :: c in catches && InPeriod(c, start, finish) && c.uploaded.Some?
  {
    if exists c :: c in catches && InPeriod(c, start, finish) && c.uploaded.Some? {
      var c :| c in catches && InPeriod(c, start, finish) && c.uploaded.Some?;
      var k :| 0 <= k < |lws| && lws[k].aCatch == c;
    }
    if AnyUploaded(lws) {
      var k :| 0 <= k < |lws| && lws[k].aCatch.uploaded.Some?;
      assert exists j :: 0 <= j < |lws| && lws[j].aCatch == lws[k].aCatch;
    }
  }

  /**
   * A species' field shows a catch exactly when the day has a catch of that species,
   * and what it shows is one of them.
   */
  lemma FirstLandedOfDay(db: FishingDao.FishingDb, day: Period.Day, speciesId: int)
    requires db.Valid()
    ensures forall k :: 0 <= k < |DayLandeds(db, day)| ==> DayLandeds(db, day)[k].species != []
    ensures FirstLanded(DayLandeds(db, day), speciesId).Some? <==>
      exists c :: c in db.catches && c.speciesId == speciesId && InPeriod(c, day.start, day.finish)
    ensures FirstLanded(DayLandeds(db, day), speciesId).Some? ==>
      var c := FirstLanded(DayLandeds(db, day), speciesId).value;
      c in db.catches && c.speciesId == speciesId && InPeriod(c, day.start, day.finish)
  {
    DayLandedsRows(db, day);
    FirstLandedRow(DayLandeds(db, day), speciesId);
  }

  /** Over rows whose first species is their own, the first match is a row of that species. */
  lemma FirstLandedRow(lws: seq<CatchWithSpecies>, speciesId: int)
    requires forall k :: 0 <= k < |lws| ==> lws[k].species != [] && lws[k].species[0].id == lws[k].aCatch.speciesId
    ensures FirstLanded(lws, speciesId).Some? <==> exists k :: 0 <= k < |lws| && lws[k].aCatch.speciesId == speciesId
    ensures FirstLanded(lws, speciesId).Some? ==>
      FirstLanded(lws, speciesId).value.speciesId == speciesId
      && exists k :: 0 <= k < |lws| && lws[k].aCatch == FirstLanded(lws, speciesId).value
  {
  }

  /**
   * A second submit of a field whose insert was given id `c.id` updates that new row
   * and nothing else: the id is larger than every other, so no other row carries it.
   */
  lemma ResubmitUpdatesInsertedRow(rows: seq<Catch>, c: Catch, weight: real, timestamp: int)
    requires forall k :: 0 <= k < |rows| ==> rows[k].id < c.id
    ensures Updated(rows + [c], c.id, weight, timestamp) == rows + [c.(weight := weight, timestamp := timestamp)]
  {
    var u := Updated(rows + [c], c.id, weight, timestamp);
    forall k | 0 <= k < |rows| ensures u[k] == rows[k] {
      assert (rows + [c])[k] == rows[k];
    }
  }

  /** After marking, every listed catch carries the marking time. */
  lemma MarkedStamped(rows: seq<Catch>, ids: seq<int>, t: int)
    ensures forall c :: c in Marked(rows, ids, t) && c.id in ids ==> c.uploaded == Some(t)
  {
    var m := Marked(rows, ids, t);
    forall c | c in m && c.id in ids ensures c.uploaded == Some(t) {
      var k :| 0 <= k < |m| && m[k] == c;
    }
  }

  /** After marking, every listed position carries the marking time. */
  lemma PositionsMarkedStamped(rows: seq<TrackLog.Position>, ids: seq<int>, t: int)
    ensures forall p :: p in TrackLog.PositionsMarked(rows, ids, t) && p.id in ids ==> p.uploaded == Some(t)
  {
    var m := TrackLog.PositionsMarked(rows, ids, t);
    forall p | p in m && p.id in ids ensures p.uploaded == Some(t) {
      var k :| 0 <= k < |m| && m[k] == p;
    }
  }
}
