/**
 * `FishingApplication`: the process-wide tracking flag and `postData`, which sends
 * the day's unuploaded catches and all unuploaded positions in one request and
 * marks what the server acknowledges as uploaded.
 */
module Application {
  import opened Common
  import opened Landed
  import FishingDao
  import TrackLog
  import Batches
  import Period

  /** One element of the request's `captures` array. */
  datatype CaptureRecord = CaptureRecord(id: int, species: string, weight: real, timestamp: int)

  /** One element of the request's `positions` array. */
  datatype PositionRecord = PositionRecord(id: int, latitude: real, longitude: real, accuracy: real, timestamp: int)

  /** The request body: the device id and the two arrays. */
  datatype Payload = Payload(device: string, captures: seq<CaptureRecord>, positions: seq<PositionRecord>)

  /** What came back for the request: the ids the server acknowledged, or an error response. */
  datatype Outcome = Success(captureIds: seq<int>, positionIds: seq<int>) | Failure

  /** The JSON object of one landed catch; `species.first()` needs a related species row. */
  function CaptureOf(lws: CatchWithSpecies): (r: CaptureRecord)
    requires lws.species != []
    ensures r.id == lws.aCatch.id && r.weight == lws.aCatch.weight && r.timestamp == lws.aCatch.timestamp
    ensures r.species == lws.species[0].name
  {
    CaptureRecord(lws.aCatch.id, lws.species[0].name, lws.aCatch.weight, lws.aCatch.timestamp)
  }

  /** The JSON object of one position. */
  function PositionOf(p: TrackLog.Position): (r: PositionRecord)
    ensures r.id == p.id && r.timestamp == p.timestamp
    ensures r.latitude == p.latitude && r.longitude == p.longitude && r.accuracy == p.accuracy
  {
    PositionRecord(p.id, p.latitude, p.longitude, p.accuracy, p.timestamp)
  }

  /** The `id` fields of the rows, in order. */
  function CatchIds(rows: seq<Catch>): (ids: seq<int>)
    ensures |ids| == |rows| && forall k :: 0 <= k < |rows| ==> ids[k] == rows[k].id
  {
    if rows == [] then [] else CatchIds(rows[..|rows| - 1]) + [rows[|rows| - 1].id]
  }

  function PositionIds(rows: seq<TrackLog.Position>): (ids: seq<int>)
    ensures |ids| == |rows| && forall k :: 0 <= k < |rows| ==> ids[k] == rows[k].id
  {
    if rows == [] then [] else PositionIds(rows[..|rows| - 1]) + [rows[|rows| - 1].id]
  }

  function CaptureIds(records: seq<CaptureRecord>): (ids: seq<int>)
    ensures |ids| == |records| && forall k :: 0 <= k < |records| ==> ids[k] == records[k].id
  {
    if records == [] then [] else CaptureIds(records[..|records| - 1]) + [records[|records| - 1].id]
  }

  function PositionRecordIds(records: seq<PositionRecord>): (ids: seq<int>)
    ensures |ids| == |records| && forall k :: 0 <= k < |records| ==> ids[k] == records[k].id
  {
    if records == [] then [] else PositionRecordIds(records[..|records| - 1]) + [records[|records| - 1].id]
  }

  /** The `landedsJson` loop: one capture object per landed, in query order. */
  method CapturesJson(landeds: seq<CatchWithSpecies>) returns (r: seq<CaptureRecord>)
    requires forall k :: 0 <= k < |landeds| ==> landeds[k].species != []
    ensures |r| == |landeds|
    ensures forall k :: 0 <= k < |landeds| ==> r[k] == CaptureOf(landeds[k])
    ensures CaptureIds(r) == CatchIds(CatchesOf(landeds))
  {
    r := [];
    var i := 0;
    while i < |landeds|
      invariant 0 <= i <= |landeds|
      invariant |r| == i
      invariant forall k :: 0 <= k < i ==> r[k] == CaptureOf(landeds[k])
    {
      r := r + [CaptureOf(landeds[i])];
      i := i + 1;
    }
  }

  /** The `positionsJson` loop: one position object per position, in query order. */
  method PositionsJson(positions: seq<TrackLog.Position>) returns (r: seq<PositionRecord>)
    ensures |r| == |positions|
    ensures forall k :: 0 <= k < |positions| ==> r[k] == PositionOf(positions[k])
    ensures PositionRecordIds(r) == PositionIds(positions)
  {
    r := [];
    var i := 0;
    while i < |positions|
      invariant 0 <= i <= |positions|
      invariant |r| == i
      invariant forall k :: 0 <= k < i ==> r[k] == PositionOf(positions[k])
    {
      r := r + [PositionOf(positions[i])];
      i := i + 1;
    }
  }

  /**
   * The catch table after the landed half of the marking step with batches of `size`:
   * the ids of the batches before the first one that does not fit are marked.
   */
  function LandedsMarkedInBatches(rows: seq<Catch>, ids: seq<int>, size: nat, now: int): seq<Catch>
    requires size > 0
  {
    var batches := Batches.MarkBatches(ids, size);
    Marked(rows, Batches.Flatten(batches[..Batches.Completed(batches)]), now)
  }

  /** The position table after the position half of the marking step with batches of `size`. */
  function PositionsMarkedInBatches(rows: seq<TrackLog.Position>, ids: seq<int>, size: nat, now: int): seq<TrackLog.Position>
    requires size > 0
  {
    var batches := Batches.MarkBatches(ids, size);
    TrackLog.PositionsMarked(rows, Batches.Flatten(batches[..Batches.Completed(batches)]), now)
  }

  /** With batches that fit, the marking step marks exactly the acknowledged ids. */
  lemma FittingBatchesMarkAll(rows: seq<Catch>, positions: seq<TrackLog.Position>, ids: seq<int>, now: int)
    ensures LandedsMarkedInBatches(rows, ids, Batches.MarkBatchSize, now) == Marked(rows, ids, now)
    ensures PositionsMarkedInBatches(positions, ids, Batches.MarkBatchSize, now) == TrackLog.PositionsMarked(positions, ids, now)
  {
    Batches.MarkBatchesFit(ids);
    var batches := Batches.MarkBatches(ids, Batches.MarkBatchSize);
    assert batches[..|batches|] == batches;
  }

  /**
   * With the source's batches of 999: fewer than 999 ids are all marked, while 999 or
   * more leave the table exactly as it was.
   */
  lemma SourceBatchesMarking(rows: seq<Catch>, positions: seq<TrackLog.Position>, ids: seq<int>, now: int)
    ensures |ids| < Batches.SourceBatchSize ==>
      LandedsMarkedInBatches(rows, ids, Batches.SourceBatchSize, now) == Marked(rows, ids, now)
      && PositionsMarkedInBatches(positions, ids, Batches.SourceBatchSize, now) == TrackLog.PositionsMarked(positions, ids, now)
    ensures |ids| >= Batches.SourceBatchSize ==>
      LandedsMarkedInBatches(rows, ids, Batches.SourceBatchSize, now) == rows
      && PositionsMarkedInBatches(positions, ids, Batches.SourceBatchSize, now) == positions
  {
    Batches.SourceMarkingFails(ids);
    Batches.MarkBatchesComplete(ids, Batches.SourceBatchSize);
    var batches := Batches.MarkBatches(ids, Batches.SourceBatchSize);
    if |ids| < Batches.SourceBatchSize {
      assert batches[..|batches|] == batches;
    } else {
      assert batches[..0] == [];
      MarkedNone(rows, now);
      TrackLog.PositionsMarkedNone(positions, now);
    }
  }

  /**
   * The landed half of the marking step: `markLandedsUploaded` on each batch of `size`
   * ids in turn, until one does not fit. Reports whether every statement succeeded.
   */
  method MarkLandeds(db: FishingDao.FishingDb, ids: seq<int>, now: int, size: nat) returns (ok: bool)
    requires db.Valid() && size > 0
    modifies db
    ensures db.Valid()
    ensures db.species == old(db.species) && db.lastId == old(db.lastId)
    ensures ok <==> Batches.StepCompletes(ids, size)
    ensures db.catches == LandedsMarkedInBatches(old(db.catches), ids, size, now)
  {
    var batches := Batches.MarkBatches(ids, size);
    var done := MarkLandedsInBatches(db, batches, now);
    ok := done == |batches|;
  }

  /** The `forEach` over the batches, one statement per batch; the first that fails throws and ends it. */
  method MarkLandedsInBatches(db: FishingDao.FishingDb, batches: seq<seq<int>>, now: int) returns (done: nat)
    requires db.Valid()
    modifies db
    ensures db.Valid()
    ensures db.species == old(db.species) && db.lastId == old(db.lastId)
    ensures done == Batches.Completed(batches)
    ensures db.catches == Marked(old(db.catches), Batches.Flatten(batches[..done]), now)
  {
    ghost var rows := db.catches;
    ghost var marked: seq<int> := [];
    MarkedNone(rows, now);
    var i := 0;
    while i < |batches|
      invariant 0 <= i <= Batches.Completed(batches)
      invariant db.Valid()
      invariant db.species == old(db.species) && db.lastId == old(db.lastId)
      invariant marked == Batches.Flatten(batches[..i])
      invariant db.catches == Marked(rows, marked, now)
    {
      var batch := batches[i];
      var ok := MarkLandedsBatch(db, rows, marked, batch, now);
      if !ok {
        return i;
      }
      assert batches[..i + 1] == batches[..i] + [batch];
      Batches.FlattenAppend(batches[..i], batch);
      marked := marked + batch;
      i := i + 1;
    }
    done := i;
  }

  /** One `markLandedsUploaded` statement of the marking step; a batch that does not fit changes nothing. */
  method MarkLandedsBatch(db: FishingDao.FishingDb, ghost rows: seq<Catch>, ghost marked: seq<int>, batch: seq<int>, now: int)
    returns (ok: bool)
    requires db.Valid() && db.catches == Marked(rows, marked, now)
    modifies db
    ensures db.Valid()
    ensures db.species == old(db.species) && db.lastId == old(db.lastId)
    ensures ok <==> Batches.Fits(batch)
    ensures ok ==> db.catches == Marked(rows, marked + batch, now)
    ensures !ok ==> db.catches == old(db.catches)
  {
    var r := db.MarkLandedsUploaded(batch, now);
    MarkedTwice(rows, marked, batch, now);
    ok := r.Ok?;
  }

  /**
   * The position half of the marking step: `markPositionsUploaded` on each batch of
   * `size` ids in turn, until one does not fit.
   */
  method MarkPositions(track: TrackLog.PositionTable, ids: seq<int>, now: int, size: nat) returns (ok: bool)
    requires track.Valid() && size > 0
    modifies track
    ensures track.Valid()
    ensures ok <==> Batches.StepCompletes(ids, size)
    ensures track.positions == PositionsMarkedInBatches(old(track.positions), ids, size, now)
  {
    var batches := Batches.MarkBatches(ids, size);
    var done := MarkPositionsInBatches(track, batches, now);
    ok := done == |batches|;
  }

  /** The `forEach` over the batches, one statement per batch; the first that fails throws and ends it. */
  method MarkPositionsInBatches(track: TrackLog.PositionTable, batches: seq<seq<int>>, now: int) returns (done: nat)
    requires track.Valid()
    modifies track
    ensures track.Valid()
    ensures done == Batches.Completed(batches)
    ensures track.positions == TrackLog.PositionsMarked(old(track.positions), Batches.Flatten(batches[..done]), now)
  {
    ghost var rows := track.positions;
    ghost var marked: seq<int> := [];
    TrackLog.PositionsMarkedNone(rows, now);
    var i := 0;
    while i < |batches|
      invariant 0 <= i <= Batches.Completed(batches)
      invariant track.Valid()
      invariant marked == Batches.Flatten(batches[..i])
      invariant track.positions == TrackLog.PositionsMarked(rows, marked, now)
    {
      var batch := batches[i];
      var r := track.MarkPositionsUploaded(batch, now);
      if r.Err? {
        return i;
      }
      TrackLog.PositionsMarkedTwice(rows, marked, batch, now);
      assert batches[..i + 1] == batches[..i] + [batch];
      Batches.FlattenAppend(batches[..i], batch);
      marked := marked + batch;
      i := i + 1;
    }
    done := i;
  }

  /**
   * The runnable `onSuccess` hands to its executor: the landed half, then the position
   * half. A failing statement throws on the executor thread, which ends the app
   * process, so when the landed half does not complete, no position is marked.
   */
  method MarkAcknowledged(db: FishingDao.FishingDb, track: TrackLog.PositionTable,
                          captureIds: seq<int>, positionIds: seq<int>, now: int, size: nat)
    requires db.Valid() && track.Valid() && size > 0
    modifies db, track
    ensures db.Valid() && track.Valid()
    ensures db.species == old(db.species) && db.lastId == old(db.lastId)
    ensures db.catches == LandedsMarkedInBatches(old(db.catches), captureIds, size, now)
    ensures track.positions ==
      if Batches.StepCompletes(captureIds, size) then PositionsMarkedInBatches(old(track.positions), positionIds, size, now)
      else old(track.positions)
  {
    var ok := MarkLandeds(db, captureIds, now, size);
    if ok {
      ok := MarkPositions(track, positionIds, now, size);
    }
  }

  /**
   * The snapshot and payload of `postData`: the day's unuploaded landeds and every
   * unuploaded position, read once; no request when both are empty.
   */
  method BuildRequest(day: Period.Day, db: FishingDao.FishingDb, track: TrackLog.PositionTable, deviceId: string)
    returns (request: Option<Payload>)
    requires db.Valid() && track.Valid()
    ensures request.Some? <==>
      Select(db.catches, UnuploadedInPeriod(day.start, day.finish)) != [] || TrackLog.Unuploaded(track.positions) != []
    ensures request.Some? ==> request.value.device == deviceId
    ensures request.Some? ==>
      CaptureIds(request.value.captures) == CatchIds(Select(db.catches, UnuploadedInPeriod(day.start, day.finish)))
    ensures request.Some? ==>
      PositionRecordIds(request.value.positions) == PositionIds(TrackLog.Unuploaded(track.positions))
  {
    var landeds := db.GetUnuploadedLandedsForPeriod(day.start, day.finish);
    var positions := track.GetUnuploadedPositions();
    CatchesOfRelated(Select(db.catches, UnuploadedInPeriod(day.start, day.finish)), db.species);
    if landeds == [] && positions == [] {
      return None;
    }
    var captures := CapturesJson(landeds);
    var fixes := PositionsJson(positions);
    request := Some(Payload(deviceId, captures, fixes));
  }

  class FishingApplication {
    /** Whether the location-tracking service runs. */
    var trackingLocation: bool

    /** A new application instance tracks nothing. */
    constructor ()
      ensures !trackingLocation
    {
      trackingLocation := false;
    }

    /** `startTrackingLocation()`: tracking is on, whatever it was. */
    method StartTrackingLocation()
      modifies this
      ensures trackingLocation
    {
      trackingLocation := true;
    }

    /** `stopTrackingLocation()`: tracking is off, whatever it was. */
    method StopTrackingLocation()
      modifies this
      ensures !trackingLocation
    {
      trackingLocation := false;
    }

    /** `toggleLocationTracking()`: stop when tracking, start otherwise. */
    method ToggleLocationTracking()
      modifies this
      ensures trackingLocation == !old(trackingLocation)
    {
      if trackingLocation {
        StopTrackingLocation();
      } else {
        StartTrackingLocation();
      }
    }

    /**
     * `postData(day, authState)` with marking batches that fit (the corrected
     * version). Without an auth state, or with nothing unuploaded, no request is made;
     * an error response changes nothing, and a success marks exactly the acknowledged
     * ids, at time `now`. The result is always true.
     */
    method PostData(day: Period.Day, authorised: bool, db: FishingDao.FishingDb, track: TrackLog.PositionTable,
                    deviceId: string, outcome: Outcome, now: int)
      returns (success: bool, request: Option<Payload>)
      requires db.Valid() && track.Valid()
      modifies db, track
      ensures success
      ensures db.Valid() && track.Valid()
      ensures db.species == old(db.species) && db.lastId == old(db.lastId)
      ensures RequestFor(request, day, authorised, deviceId, old(db.catches), old(track.positions))
      ensures request.None? || outcome.Failure? ==>
        db.catches == old(db.catches) && track.positions == old(track.positions)
      ensures request.Some? && outcome.Success? ==>
        db.catches == Marked(old(db.catches), outcome.captureIds, now)
        && track.positions == TrackLog.PositionsMarked(old(track.positions), outcome.positionIds, now)
    {
      success := true;
      request := Post(day, authorised, db, track, deviceId, outcome, now, Batches.MarkBatchSize);
      if outcome.Success? {
        FittingBatchesMarkAll(old(db.catches), old(track.positions), outcome.captureIds, now);
        FittingBatchesMarkAll(old(db.catches), old(track.positions), outcome.positionIds, now);
        Batches.MarkBatchesFit(outcome.captureIds);
      }
    }

    /**
     * `postData(day, authState)` as written from the marking step on, with marking
     * batches of 999 ids. Up to 998 acknowledged ids of each kind are all marked. From
     * 999 acknowledged catch ids on, the first statement fails: no catch and no position
     * is marked. With fewer catch ids but 999 or more position ids, the catches are
     * marked and no position is.
     */
    method PostDataAsWritten(day: Period.Day, authorised: bool, db: FishingDao.FishingDb, track: TrackLog.PositionTable,
                             deviceId: string, outcome: Outcome, now: int)
      returns (success: bool, request: Option<Payload>)
      requires db.Valid() && track.Valid()
      modifies db, track
      ensures success
      ensures db.Valid() && track.Valid()
      ensures db.species == old(db.species) && db.lastId == old(db.lastId)
      ensures RequestFor(request, day, authorised, deviceId, old(db.catches), old(track.positions))
      ensures request.None? || outcome.Failure? ==>
        db.catches == old(db.catches) && track.positions == old(track.positions)
      ensures request.Some? && outcome.Success? && |outcome.captureIds| < Batches.SourceBatchSize ==>
        db.catches == Marked(old(db.catches), outcome.captureIds, now)
      ensures request.Some? && outcome.Success? && |outcome.captureIds| < Batches.SourceBatchSize
              && |outcome.positionIds| < Batches.SourceBatchSize ==>
        track.positions == TrackLog.PositionsMarked(old(track.positions), outcome.positionIds, now)
      ensures request.Some? && outcome.Success? && |outcome.captureIds| >= Batches.SourceBatchSize ==>
        db.catches == old(db.catches) && track.positions == old(track.positions)
      ensures request.Some? && outcome.Success? && |outcome.positionIds| >= Batches.SourceBatchSize ==>
        track.positions == old(track.positions)
    {
      success := true;
      request := Post(day, authorised, db, track, deviceId, outcome, now, Batches.SourceBatchSize);
      if outcome.Success? {
        SourceBatchesMarking(old(db.catches), old(track.positions), outcome.captureIds, now);
        SourceBatchesMarking(old(db.catches), old(track.positions), outcome.positionIds, now);
        Batches.SourceMarkingFails(outcome.captureIds);
      }
    }
  }

  /**
   * The request `postData` makes from a snapshot of the two tables: none without an
   * auth state or with nothing unuploaded; otherwise the device id and exactly the
   * day's unuploaded catch ids and the unuploaded position ids, in query order.
   */
  ghost predicate RequestFor(request: Option<Payload>, day: Period.Day, authorised: bool, deviceId: string,
                             catches: seq<Catch>, positions: seq<TrackLog.Position>)
  {
    && (request.Some? <==>
          authorised
          && (Select(catches, UnuploadedInPeriod(day.start, day.finish)) != [] || TrackLog.Unuploaded(positions) != []))
    && (request.Some? ==>
          && request.value.device == deviceId
          && CaptureIds(request.value.captures) == CatchIds(Select(catches, UnuploadedInPeriod(day.start, day.finish)))
          && PositionRecordIds(request.value.positions) == PositionIds(TrackLog.Unuploaded(positions)))
  }

  /**
   * The body of `postData` with marking batches of `size` ids: the snapshot and the
   * request, then on success the marking step of `onSuccess`.
   */
  method Post(day: Period.Day, authorised: bool, db: FishingDao.FishingDb, track: TrackLog.PositionTable,
              deviceId: string, outcome: Outcome, now: int, size: nat)
    returns (request: Option<Payload>)
    requires db.Valid() && track.Valid() && size > 0
    modifies db, track
    ensures db.Valid() && track.Valid()
    ensures db.species == old(db.species) && db.lastId == old(db.lastId)
    ensures RequestFor(request, day, authorised, deviceId, old(db.catches), old(track.positions))
    ensures request.None? || outcome.Failure? ==>
      db.catches == old(db.catches) && track.positions == old(track.positions)
    ensures request.Some? && outcome.Success? ==>
      db.catches == LandedsMarkedInBatches(old(db.catches), outcome.captureIds, size, now)
      && track.positions ==
           if Batches.StepCompletes(outcome.captureIds, size)
           then PositionsMarkedInBatches(old(track.positions), outcome.positionIds, size, now)
           else old(track.positions)
  {
    request := None;
    if !authorised {
      return;
    }
    request := BuildRequest(day, db, track, deviceId);
    if request.None? || outcome.Failure? {
      return;
    }
    MarkAcknowledged(db, track, outcome.captureIds, outcome.positionIds, now, size);
  }

  /**
   * After a successful sync, a row of the day is still waiting for upload exactly when
   * it was waiting before and the server did not acknowledge it.
   */
  lemma SyncLeavesUnacknowledged(rows: seq<Catch>, acked: seq<int>, now: int, day: Period.Day)
    ensures forall c :: c in Select(Marked(rows, acked, now), UnuploadedInPeriod(day.start, day.finish)) <==>
      c in Select(rows, UnuploadedInPeriod(day.start, day.finish)) && c.id !in acked
  {
    MarkedNotUnuploaded(rows, acked, now, day.start, day.finish);
    var m := Marked(rows, acked, now);
    forall c | c in m && c.uploaded.None? && InPeriod(c, day.start, day.finish)
      ensures c in rows
    {
      var k :| 0 <= k < |m| && m[k] == c;
    }
  }
}
