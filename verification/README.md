# android-fishing in Dafny

A model of the core of **android-fishing**, an Android app in which fishers record
their catches and the positions of their boat, and upload both to a server.

**Landed-catch database.** Room manages a `species` table and a `catch` table, with a
foreign key from catch to species, and `FishingDao` runs five kinds of statement on
them:
- inserts;
- the species list;
- the species join of a day's catches, ordered by species id;
- the day's unuploaded catches;
- two `UPDATE`s: one for the weight and time of a row, one that marks rows uploaded.

Each table is a sequence in primary-key order. The DAO is a class over those tables.
Every SQL statement is a function on rows, and lemmas prove what the statement
promises:
- the join returns exactly the period's rows, sorted by species;
- a selection keeps table order;
- marking is idempotent and composes;
- neither `UPDATE` breaks the keys.

**Fishing day and upload.**
- `FishingApplication.getPeriodBoundaries` computes the fishing day, which runs from
  local noon to local noon. The model proves it is the unique such window that holds
  the instant.
- `postData` builds one request from a snapshot of the day's unuploaded catches and of
  every unuploaded position. On success it marks the acknowledged ids, in batches of
  `UPDATE` statements. As written, the batches hold 999 ids, one too many for SQLite's
  parameter limit (see Findings). `PostDataAsWritten` models that version from the
  marking step on; `ArchiveActivity.submitData` calls it.
  `PostData` uses batches of 998 and marks exactly the acknowledged ids.

**Archive and today screens.**
- `ArchiveActivity` binds six weight fields to the species and the day's catches. It
  locks them once anything of the day has been uploaded. It inserts or updates a
  catch when a field holds a weight, and submits the day.
- `TodayActivity` adds the tracking switch.

**Per-string catch entry.**
- `CatchActivity` and `CatchViewModel` store a catch and at most one detail row that
  refers to the catch's new id.
- `postCatches` posts every unsubmitted catch. On HTTP 200 it marks the posted ids
  uploaded.
- The catch form's pure helpers are also modelled: `chkNum` and the conversions
  between decimal degrees and degrees/minutes/seconds.

**Conventions.**
- Times are epoch milliseconds in one fixed time zone.
- Weights and coordinates are exact reals.
- Kotlin's `Long.toInt()` is modelled explicitly (`Common.ToInt32`).
- A Kotlin expression that would throw ends the activity. The methods report that as
  `ok == false`.

Source paths below are relative to the repository root.

## Model

| member | source | states |
|---|---|---|
| Common.ToInt32 | app/src/main/java/uk/ac/standrews/fishing/ArchiveActivity.kt:248 | `Long.toInt()`: the result is a 32-bit `Int` congruent to the input modulo 2^32, and equal to the input when the input already fits |
| DateConverter.FromTimestamp | app/src/main/java/uk/ac/standrews/fishing/AppDatabase.kt:76-80 | null stays null; a stored `Long` becomes the date at that instant |
| DateConverter.DateToTimestamp | app/src/main/java/uk/ac/standrews/fishing/AppDatabase.kt:88-91 | null stays null; a date becomes its millisecond count |
| DateConverter.DateRoundTrip | app/src/main/java/uk/ac/standrews/fishing/AppDatabase.kt:76-91 | storing a (nullable) date and reading it back yields the same date |
| DateConverter.TimestampRoundTrip | app/src/main/java/uk/ac/standrews/fishing/AppDatabase.kt:76-91 | reading a stored timestamp and storing it again yields the same timestamp |
| Landed.NewCatch | app/src/main/java/uk/ac/standrews/fishing/fishing/Catch.kt:28-34 | the data-class defaults: id 0 (the database chooses one) and `uploaded` null unless given |
| Landed.SpeciesWithId | app/src/main/java/uk/ac/standrews/fishing/fishing/CatchWithSpecies.kt:8-9 | the `@Relation` lookup holds exactly the species rows whose id is the catch's `species_id`, and nothing when none exists |
| Landed.SpeciesWithIdUnique | app/src/main/java/uk/ac/standrews/fishing/fishing/CatchWithSpecies.kt:8-9 | with the species primary key, an existing species id relates to exactly one row, and it has that id |
| Landed.Relate | app/src/main/java/uk/ac/standrews/fishing/fishing/CatchWithSpecies.kt:5-10 | a relation row embeds the catch unchanged, with exactly its species rows |
| Landed.Related | app/src/main/java/uk/ac/standrews/fishing/fishing/CatchWithSpecies.kt:5-10 | one relation row per result row, position by position, none dropped or added |
| Landed.CatchesOfRelated | app/src/main/java/uk/ac/standrews/fishing/fishing/CatchWithSpecies.kt:5-10 | the embedded catches of a relation result are exactly the rows it was built from |
| Landed.Select | app/src/main/java/uk/ac/standrews/fishing/fishing/FishingDao.kt:38 | a WHERE clause keeps exactly the rows that satisfy it |
| Landed.SelectCount | app/src/main/java/uk/ac/standrews/fishing/fishing/FishingDao.kt:38 | a selection holds each satisfying row as often as the table does, and no other row |
| Landed.SelectIncreasing | app/src/main/java/uk/ac/standrews/fishing/fishing/FishingDao.kt:38 | a selection from a table in key order is in key order |
| Landed.JoinMembers | app/src/main/java/uk/ac/standrews/fishing/fishing/FishingDao.kt:31 | a catch is in the inner join over a period exactly when it is in the table, in the half-open period, and its species exists |
| Landed.JoinSorted | app/src/main/java/uk/ac/standrews/fishing/fishing/FishingDao.kt:31 | `ORDER BY s.id ASC`: the join result is sorted by species id |
| Landed.JoinCount | app/src/main/java/uk/ac/standrews/fishing/fishing/FishingDao.kt:31 | the join holds each period row with an existing species exactly as often as the table |
| Landed.JoinIsPeriodSelection | app/src/main/java/uk/ac/standrews/fishing/fishing/Catch.kt:15-27 | under the foreign key, the join is a permutation of the period's rows: none is lost to the inner join |
| Landed.Marked | app/src/main/java/uk/ac/standrews/fishing/fishing/FishingDao.kt:41-42 | the listed rows get `uploaded = t`; every other row, and every other column, is unchanged |
| Landed.Updated | app/src/main/java/uk/ac/standrews/fishing/fishing/FishingDao.kt:34-35 | only weight and time of the row with that id change |
| Landed.UpdatesKeepKeys | app/src/main/java/uk/ac/standrews/fishing/fishing/FishingDao.kt:34-42 | neither UPDATE breaks key order or the foreign key |
| Landed.MarkedNotUnuploaded | app/src/main/java/uk/ac/standrews/fishing/fishing/FishingDao.kt:37-42 | after marking, no listed row is returned by the unuploaded query, and every unlisted unuploaded row still is |
| Landed.MarkedIdempotent | app/src/main/java/uk/ac/standrews/fishing/fishing/FishingDao.kt:41-42 | marking the same ids at the same time twice equals marking once |
| Landed.MarkedNone | app/src/main/java/uk/ac/standrews/fishing/fishing/FishingDao.kt:41-42 | an empty id list marks nothing |
| Landed.MarkedTwice | app/src/main/java/uk/ac/standrews/fishing/fishing/FishingDao.kt:41-42 | marking two lists one after the other equals marking their concatenation |
| Keyed.InsertByKey | app/src/main/java/uk/ac/standrews/fishing/fishing/FishingDao.kt:15-22 | the new row goes at the one position that keeps keys ascending; the rest keep their order; a key above all others goes last |
| FishingDao.FishingDb.InsertSpecies | app/src/main/java/uk/ac/standrews/fishing/fishing/FishingDao.kt:18-19 | succeeds iff the id is new; then the table gains exactly that row, otherwise a primary-key error changes nothing |
| FishingDao.FishingDb.InsertSpeciesArray | app/src/main/java/uk/ac/standrews/fishing/fishing/FishingDao.kt:15-16 | succeeds iff the batch's ids are distinct and none is already in the table; then the table gains exactly the batch, otherwise a primary-key error leaves it unchanged |
| FishingDao.FishingDb.InsertLanded | app/src/main/java/uk/ac/standrews/fishing/fishing/FishingDao.kt:21-22 | unknown species is a foreign-key error and a taken id a primary-key error, both changing nothing; otherwise the row goes in and its id is returned: for id 0 the next AUTOINCREMENT id, above every earlier id |
| FishingDao.FishingDb.GetSpecies | app/src/main/java/uk/ac/standrews/fishing/fishing/FishingDao.kt:24-25 | all species rows, in ascending id order |
| FishingDao.FishingDb.GetSpeciesNames | app/src/main/java/uk/ac/standrews/fishing/fishing/FishingDao.kt:27-28 | the names of the species rows, in ascending id order |
| FishingDao.FishingDb.GetLandedsForPeriod | app/src/main/java/uk/ac/standrews/fishing/fishing/FishingDao.kt:30-32 | exactly the period's catches, each once, sorted by species id, each with its one species row |
| FishingDao.FishingDb.GetUnuploadedLandedsForPeriod | app/src/main/java/uk/ac/standrews/fishing/fishing/FishingDao.kt:37-39 | exactly the period's catches with null `uploaded`, in table order, each with its one species row |
| FishingDao.FishingDb.UpdateLanded | app/src/main/java/uk/ac/standrews/fishing/fishing/FishingDao.kt:34-35 | the table becomes `Updated` of the old one; species and the id counter are untouched |
| FishingDao.FishingDb.MarkLandedsUploaded | app/src/main/java/uk/ac/standrews/fishing/fishing/FishingDao.kt:41-42 | succeeds iff the statement's host parameters fit SQLite's limit, then marks exactly the listed rows; otherwise nothing changes |
| FishingDao.InsertCatchRow | app/src/main/java/uk/ac/standrews/fishing/fishing/FishingDao.kt:21-22 | the catch table gains exactly the new row, keeps key order and the foreign key, and a new largest id goes at the end |
| FishingDao.Scan | app/src/main/java/uk/ac/standrews/fishing/fishing/FishingDao.kt:37-39 | one pass over the table returns the related selection |
| FishingDao.JoinScan | app/src/main/java/uk/ac/standrews/fishing/fishing/FishingDao.kt:30-32 | scanning species by species yields the related join |
| FishingDao.JoinedRelated | app/src/main/java/uk/ac/standrews/fishing/fishing/FishingDao.kt:30-32 | the related join is the period's rows reordered, sorted by species, each with one species row |
| FishingDao.RelatedHaveOneSpecies | app/src/main/java/uk/ac/standrews/fishing/fishing/Catch.kt:15-27 | every table row relates to exactly one species, the one it names, so `species.first()` is defined |
| Period.PeriodBoundaries | app/src/main/java/uk/ac/standrews/fishing/FishingApplication.kt:62-78 | the period is one day long, starts at local noon and holds the instant; it starts on the instant's own day in the afternoon and on the day before in the morning |
| Period.GetPeriodBoundaries | app/src/main/java/uk/ac/standrews/fishing/FishingApplication.kt:62-66 | without a timestamp the period holds the current time, otherwise the timestamp |
| Period.PeriodUnique | app/src/main/java/uk/ac/standrews/fishing/FishingApplication.kt:62-78 | the period is the only day-long window starting at local noon that holds the instant |
| Period.PeriodStable | app/src/main/java/uk/ac/standrews/fishing/FishingApplication.kt:62-78 | every instant of a period has that same period |
| Period.Stamp | app/src/main/java/uk/ac/standrews/fishing/ArchiveActivity.kt:128-134 | start plus twelve hours lies inside a day-long period |
| Period.StampInPeriod | app/src/main/java/uk/ac/standrews/fishing/ArchiveActivity.kt:128-134 | the stamp lies in its period, is local midnight, and maps back to the same period |
| Period.PickedMidnight | app/src/main/java/uk/ac/standrews/fishing/ArchiveActivity.kt:157-170 | a picked date's midnight gives the period from noon the day before to noon that day, and its stamp is that midnight |
| Batches.Chunked | app/src/main/java/uk/ac/standrews/fishing/FishingApplication.kt:146 | `chunked(size)`: the pieces concatenate to the list, are non-empty and at most `size`, all but the last exactly `size` |
| Batches.MarkBatchesComplete | app/src/main/java/uk/ac/standrews/fishing/FishingApplication.kt:143-165 | the marking step marks every id in order; an empty list issues no statement; a short list is one statement |
| Batches.MarkBatchesIsChunked | app/src/main/java/uk/ac/standrews/fishing/FishingApplication.kt:144-153 | the two branches together behave as `chunked(size)` in every case |
| Batches.SourceBatchOverflows | app/src/main/java/uk/ac/standrews/fishing/FishingApplication.kt:145-152 | as written, any list of 999 ids or more makes a first statement with more host parameters than SQLite's default limit |
| Batches.MarkBatchesFit | app/src/main/java/uk/ac/standrews/fishing/FishingApplication.kt:145-163 | with batches of 998, every statement fits the limit, all ids are still marked in order, and the marking step completes |
| Batches.Completed | app/src/main/java/uk/ac/standrews/fishing/FishingApplication.kt:146-149 | the number of statements that run: every batch before it fits, and the batch at it (if any) does not, so it throws |
| Batches.SourceMarkingFails | app/src/main/java/uk/ac/standrews/fishing/FishingApplication.kt:144-163 | with 999-id batches, the marking step completes iff fewer than 999 ids are acknowledged; from 999 on, not even its first statement succeeds |
| TrackLog.Unuploaded | app/src/main/java/uk/ac/standrews/fishing/FishingApplication.kt:90 | exactly the positions with null `uploaded`, in table order |
| TrackLog.PositionsMarked | app/src/main/java/uk/ac/standrews/fishing/FishingApplication.kt:159-163 | the listed positions get `uploaded = t`; nothing else changes |
| TrackLog.PositionsMarkedTwice | app/src/main/java/uk/ac/standrews/fishing/FishingApplication.kt:157-160 | marking batch after batch equals marking their concatenation |
| TrackLog.PositionsMarkedUnuploaded | app/src/main/java/uk/ac/standrews/fishing/FishingApplication.kt:155-165 | after marking, the unuploaded positions are exactly the earlier unuploaded ones not listed |
| TrackLog.PositionTable.GetUnuploadedPositions | app/src/main/java/uk/ac/standrews/fishing/FishingApplication.kt:90 | returns `Unuploaded` of the table: exactly the positions not yet uploaded |
| TrackLog.PositionTable.MarkPositionsUploaded | app/src/main/java/uk/ac/standrews/fishing/FishingApplication.kt:159-163 | succeeds iff the host parameters fit, then marks exactly the listed positions; otherwise nothing changes |
| Application.CaptureOf | app/src/main/java/uk/ac/standrews/fishing/FishingApplication.kt:97-104 | a capture object carries the catch's id, weight and time and its first species' name |
| Application.PositionOf | app/src/main/java/uk/ac/standrews/fishing/FishingApplication.kt:107-115 | a position object carries the position's id, coordinates, accuracy and time |
| Application.CapturesJson | app/src/main/java/uk/ac/standrews/fishing/FishingApplication.kt:96-104 | one capture per landed, in query order, so the capture ids are the landed ids |
| Application.PositionsJson | app/src/main/java/uk/ac/standrews/fishing/FishingApplication.kt:106-115 | one position object per position, in query order, with the same ids |
| Application.FittingBatchesMarkAll | app/src/main/java/uk/ac/standrews/fishing/FishingApplication.kt:143-165 | with 998-id batches, the marking step marks exactly the acknowledged catch ids, and exactly the acknowledged position ids |
| Application.SourceBatchesMarking | app/src/main/java/uk/ac/standrews/fishing/FishingApplication.kt:143-165 | with the source's 999-id batches, fewer than 999 ids are all marked, while 999 or more leave the table exactly as it was |
| Application.MarkLandeds | app/src/main/java/uk/ac/standrews/fishing/FishingApplication.kt:144-154 | reports success iff every batch of the given size fits; the catch table has exactly the ids of the batches before the first failing one marked |
| Application.MarkLandedsInBatches | app/src/main/java/uk/ac/standrews/fishing/FishingApplication.kt:146-149 | runs exactly the batches before the first that does not fit, and the catch table is marked with their concatenation |
| Application.MarkLandedsBatch | app/src/main/java/uk/ac/standrews/fishing/FishingApplication.kt:148 | succeeds iff the batch fits SQLite's limit, then extends the marking by that batch; a batch that does not fit changes nothing |
| Application.MarkPositions | app/src/main/java/uk/ac/standrews/fishing/FishingApplication.kt:155-165 | reports success iff every batch fits; the position table has exactly the ids of the batches before the first failing one marked |
| Application.MarkPositionsInBatches | app/src/main/java/uk/ac/standrews/fishing/FishingApplication.kt:157-160 | runs exactly the batches before the first that does not fit, and the position table is marked with their concatenation |
| Application.MarkAcknowledged | app/src/main/java/uk/ac/standrews/fishing/FishingApplication.kt:143-165 | the landed half of the runnable, then the position half only if the landed half completed, since a failing statement throws on the executor thread and nothing after it runs |
| Application.BuildRequest | app/src/main/java/uk/ac/standrews/fishing/FishingApplication.kt:89-120 | a request is built iff there is an unuploaded catch of the day or an unuploaded position; it carries the device id and exactly those catch and position ids, in query order |
| Application.FishingApplication.constructor | app/src/main/java/uk/ac/standrews/fishing/FishingApplication.kt:28 | tracking starts off |
| Application.FishingApplication.StartTrackingLocation | app/src/main/java/uk/ac/standrews/fishing/FishingApplication.kt:47-51 | tracking is on afterwards |
| Application.FishingApplication.StopTrackingLocation | app/src/main/java/uk/ac/standrews/fishing/FishingApplication.kt:56-60 | tracking is off afterwards |
| Application.FishingApplication.ToggleLocationTracking | app/src/main/java/uk/ac/standrews/fishing/FishingApplication.kt:33-42 | tracking flips |
| Application.Post | app/src/main/java/uk/ac/standrews/fishing/FishingApplication.kt:80-203 | for any batch size: no request without an auth state or with nothing to send; a request carries exactly the snapshot; an error response changes nothing; a success runs the marking step with batches of that size |
| Application.FishingApplication.PostData | app/src/main/java/uk/ac/standrews/fishing/FishingApplication.kt:80-203 | the corrected version, with 998-id batches: always answers true, makes the same request, and a success marks exactly the acknowledged catch and position ids |
| Application.FishingApplication.PostDataAsWritten | app/src/main/java/uk/ac/standrews/fishing/FishingApplication.kt:80-203 | as written from the marking step on, with 999-id batches: the same request, and on success fewer than 999 acknowledged ids of a kind are all marked. From 999 catch ids on, nothing is marked; from 999 position ids on, no position is |
| Application.SyncLeavesUnacknowledged | app/src/main/java/uk/ac/standrews/fishing/FishingApplication.kt:143-154 | after a successful sync, a catch of the day still awaits upload iff it did before and was not acknowledged |
| Numerals.NatTextValue | app/src/main/java/uk/ac/standrews/fishing/CatchActivity.kt:531 | the decimal text of a natural number reads back as that number |
| Numerals.ToIntOrNull | app/src/main/java/uk/ac/standrews/fishing/CatchActivity.kt:531 | `toIntOrNull()` is non-null iff the text is an optionally signed digit string whose value fits in `Int`, and then it is that value |
| Numerals.IntTextRoundTrip | app/src/main/java/uk/ac/standrews/fishing/CatchActivity.kt:531 | every `Int` survives `toString()` then `toIntOrNull()` |
| Numerals.ChkNum | app/src/main/java/uk/ac/standrews/fishing/CatchActivity.kt:529-536 | blank text always passes; otherwise it passes iff it parses as the requested kind of number |
| Numerals.ChkNumInt | app/src/main/java/uk/ac/standrews/fishing/CatchActivity.kt:530-531 | in integer mode, exactly blank text and in-range signed digit strings pass |
| Numerals.ChkNumBlank | app/src/main/java/uk/ac/standrews/fishing/CatchActivity.kt:529-536 | an empty or all-space string passes in both modes |
| Numerals.MatchesWeightIsPattern | app/src/main/java/uk/ac/standrews/fishing/ArchiveActivity.kt:232 | splitting at the first point decides `\d+(\.\d+)?`, in both directions |
| Numerals.DecimalValue | app/src/main/java/uk/ac/standrews/fishing/ArchiveActivity.kt:236-244 | a matching weight text reads as a non-negative number |
| Numerals.DecimalValueBounds | app/src/main/java/uk/ac/standrews/fishing/ArchiveActivity.kt:236-244 | the value lies between the whole part before the point and the next integer |
| Numerals.NatTextWeight | app/src/main/java/uk/ac/standrews/fishing/ArchiveActivity.kt:232-244 | the text of a whole number is a valid weight and reads back as that number |
| Coordinates.CoordsDecimalToDegrees | app/src/main/java/uk/ac/standrews/fishing/CatchActivity.kt:538-543 | degrees are the floor of the coordinate, minutes lie in 0..59 and seconds in [0, 60) |
| Coordinates.CoordsDegreesToDecimal | app/src/main/java/uk/ac/standrews/fishing/CatchActivity.kt:545-551 | with minutes in 0..59 and seconds in [0, 60), the result lies within the whole degree |
| Coordinates.DecimalRoundTrip | app/src/main/java/uk/ac/standrews/fishing/CatchActivity.kt:538-551 | converting to degrees/minutes/seconds and back gives the coordinate again |
| Coordinates.DegreesRoundTrip | app/src/main/java/uk/ac/standrews/fishing/CatchActivity.kt:538-551 | normalised degrees/minutes/seconds survive the opposite round trip: the decomposition is unique |
| Coordinates.WholeMinutes | app/src/main/java/uk/ac/standrews/fishing/CatchActivity.kt:545-551 | with the default of zero seconds, the round trip yields zero seconds |
| CatchStore.Unsubmitted | app/src/main/java/uk/ac/standrews/fishing/db/CatchRepository.kt:16-18 | exactly the catches whose `uploaded` is null, in table order |
| CatchStore.CatchesMarked | app/src/main/java/uk/ac/standrews/fishing/CatchViewModel.kt:97-106 | each listed catch gets `uploaded = t`, its other fields unchanged; other catches are untouched |
| CatchStore.CatchesMarkedUnsubmitted | app/src/main/java/uk/ac/standrews/fishing/CatchViewModel.kt:91-106 | after marking, the unsubmitted catches are exactly the earlier unsubmitted ones not listed |
| CatchStore.CatchRepository.InsertCatch | app/src/main/java/uk/ac/standrews/fishing/db/CatchRepository.kt:20-22 | the catch is appended with the next id, larger than every earlier id, and that id is returned |
| CatchStore.CatchRepository.InsertNephropsCatch | app/src/main/java/uk/ac/standrews/fishing/db/CatchRepository.kt:24-26 | the Nephrops detail table gains exactly that row |
| CatchStore.CatchRepository.InsertLobsterCrabCatch | app/src/main/java/uk/ac/standrews/fishing/db/CatchRepository.kt:28-30 | the lobster/crab detail table gains exactly that row |
| CatchStore.CatchRepository.InsertWrasseCatch | app/src/main/java/uk/ac/standrews/fishing/db/CatchRepository.kt:32-34 | the wrasse detail table gains exactly that row |
| CatchStore.CatchRepository.FullCatchOf | app/src/main/java/uk/ac/standrews/fishing/db/CatchRepository.kt:16-18 | a full catch is the catch with exactly the detail rows that refer to its id |
| CatchStore.CatchRepository.UnsubmittedFullCatches | app/src/main/java/uk/ac/standrews/fishing/db/CatchRepository.kt:16-18 | the full catch of every unsubmitted catch, in table order |
| CatchStore.CatchRepository.GetCatch | app/src/main/java/uk/ac/standrews/fishing/db/CatchRepository.kt:36-38 | returns the stored catch with that id |
| CatchStore.CatchRepository.UpdateCatch | app/src/main/java/uk/ac/standrews/fishing/db/CatchRepository.kt:40-42 | the row with the same id takes the new values; every other row is unchanged |
| FishingApi.GetCatchIds | app/src/main/java/uk/ac/standrews/fishing/network/FishingApiService.kt:27-29 | one id per catch, in body order, each the catch's id (empty for no catches) |
| FishingApi.GetCatchIdsMembers | app/src/main/java/uk/ac/standrews/fishing/network/FishingApiService.kt:27-29 | an id is listed iff some catch of the body carries it |
| CatchEntry.NewStringCatch | app/src/main/java/uk/ac/standrews/fishing/CatchViewModel.kt:51-53 | a new form catch is not uploaded and carries the form's string id and time |
| CatchEntry.InsertWithDetail | app/src/main/java/uk/ac/standrews/fishing/CatchViewModel.kt:51-84 | the catch gets the next id; at most one detail is added, chosen by type; every added detail refers to the returned id (as `toInt()` of it) |
| CatchEntry.CatchActivity.InsertCatch | app/src/main/java/uk/ac/standrews/fishing/CatchActivity.kt:123-151 | the catch, then a Nephrops or lobster/crab detail with its id; any other type stores the catch alone and wrasse details never change |
| CatchEntry.CatchViewModel.InsertFullCatch | app/src/main/java/uk/ac/standrews/fishing/CatchViewModel.kt:32-86 | the catch, then the Nephrops, lobster/crab or wrasse detail with its id; any other type stores the catch alone |
| CatchEntry.CatchViewModel.PostCatches | app/src/main/java/uk/ac/standrews/fishing/CatchViewModel.kt:87-91 | the body is the device id and every unsubmitted full catch; the ids are exactly the unsubmitted catch ids |
| CatchEntry.CatchViewModel.OnPostResult | app/src/main/java/uk/ac/standrews/fishing/CatchViewModel.kt:95-111 | status 200 marks exactly the posted ids; any other status or a failure changes nothing |
| CatchEntry.SnapshotIds | app/src/main/java/uk/ac/standrews/fishing/CatchViewModel.kt:88-91 | the ids of a body of unsubmitted catches are exactly the unsubmitted ids |
| CatchEntry.PostedCatchesSubmitted | app/src/main/java/uk/ac/standrews/fishing/CatchViewModel.kt:87-106 | when nothing was stored in between, a 200 leaves no catch unsubmitted |
| CatchEntry.MarkEach | app/src/main/java/uk/ac/standrews/fishing/CatchViewModel.kt:98-106 | fetching, stamping and writing back each id marks exactly the listed catches |
| CatchEntry.MarkOne | app/src/main/java/uk/ac/standrews/fishing/CatchViewModel.kt:99-104 | one get-stamp-update step extends the marking by that id |
| Archive.Disabled | app/src/main/java/uk/ac/standrews/fishing/ArchiveActivity.kt:269-276 | `disableField`: the field no longer accepts input, and nothing else about it changes |
| Archive.FirstLanded | app/src/main/java/uk/ac/standrews/fishing/ArchiveActivity.kt:197-202 | the first row of the species, if any, and no earlier row has that species |
| Archive.BoundField | app/src/main/java/uk/ac/standrews/fishing/ArchiveActivity.kt:194-211 | the field shows the species name and id; it carries the first matching catch's id, or the `false` tag exactly when there is none |
| Archive.ArchiveActivity.constructor | app/src/main/java/uk/ac/standrews/fishing/ArchiveActivity.kt:45-73 | six blank fields, the submit button shown, the day of the picked midnight and its stamp |
| Archive.ArchiveActivity.SetDayAndTime | app/src/main/java/uk/ac/standrews/fishing/ArchiveActivity.kt:128-134 | the period around the picked midnight, and a stamp twelve hours after its start, inside it |
| Archive.ArchiveActivity.OnRequestPermissionsResult | app/src/main/java/uk/ac/standrews/fishing/ArchiveActivity.kt:136-147 | a granted location request starts tracking; anything else leaves it as it was |
| Archive.ArchiveActivity.DoLandedFields | app/src/main/java/uk/ac/standrews/fishing/ArchiveActivity.kt:182-217 | field i shows species i and its first catch of the day; more than six species fail after six fields; on success with an uploaded catch every field is disabled and submit hidden |
| Archive.ArchiveActivity.SubmitLanded | app/src/main/java/uk/ac/standrews/fishing/ArchiveActivity.kt:231-253 | non-weight text changes nothing; a field showing a row updates that row; otherwise a new catch of its species goes in at the next id and the field is tagged with it; a missing tag or species fails |
| Archive.ArchiveActivity.SubmitData | app/src/main/java/uk/ac/standrews/fishing/ArchiveActivity.kt:255-267 | a failing field stops before the post; otherwise every field holding a weight carries the id of its catch row, every field is disabled and submit hidden. Through `postData` as written (999-id batches): with fewer than 999 acknowledged catch ids those catches carry the upload time, and with both counts below 999 so do the acknowledged positions; 999 or more ids of either kind, or an error outcome, leave the positions unchanged |
| Archive.DisableAll | app/src/main/java/uk/ac/standrews/fishing/ArchiveActivity.kt:213-215 | every field is the disabled version of itself |
| Archive.DayQuery | app/src/main/java/uk/ac/standrews/fishing/ArchiveActivity.kt:185-192 | the two queries return the species table and the day's join result |
| Archive.BindAll | app/src/main/java/uk/ac/standrews/fishing/ArchiveActivity.kt:194-211 | fields of existing species are bound, the rest untouched; fails iff there are more than six species; reports locking iff there is a species and an uploaded row |
| Archive.BindSpecies | app/src/main/java/uk/ac/standrews/fishing/ArchiveActivity.kt:195-210 | only the species' own field changes, to its bound form |
| Archive.ScanSpecies | app/src/main/java/uk/ac/standrews/fishing/ArchiveActivity.kt:196-210 | the `empty` loop yields the bound field and whether any row was uploaded |
| Archive.DayLandedsRows | app/src/main/java/uk/ac/standrews/fishing/ArchiveActivity.kt:189-192 | the day's join rows are exactly the day's catches, each with its own species first |
| Archive.LockedIffDayUploaded | app/src/main/java/uk/ac/standrews/fishing/ArchiveActivity.kt:203-217 | the screen locks iff there is a species and some catch of the day was uploaded |
| Archive.FirstLandedOfDay | app/src/main/java/uk/ac/standrews/fishing/ArchiveActivity.kt:197-202 | a species' field shows a catch iff the day has a catch of that species, and what it shows is one of them |
| Archive.ResubmitUpdatesInsertedRow | app/src/main/java/uk/ac/standrews/fishing/ArchiveActivity.kt:233-250 | a second submit of a freshly inserted field updates only that new row |
| Archive.MarkedStamped | app/src/main/java/uk/ac/standrews/fishing/FishingApplication.kt:143-154 | after marking, every listed catch carries the marking time |
| Archive.PositionsMarkedStamped | app/src/main/java/uk/ac/standrews/fishing/FishingApplication.kt:155-165 | after marking, every listed position carries the marking time |
| Today.TodayActivity.constructor | app/src/main/java/uk/ac/standrews/fishing/TodayActivity.kt:27 | the switch state starts off |
| Today.TodayActivity.BindView | app/src/main/java/uk/ac/standrews/fishing/TodayActivity.kt:42-44 | the switch copies the application's tracking flag |
| Today.TodayActivity.SetDayAndTime | app/src/main/java/uk/ac/standrews/fishing/TodayActivity.kt:55-61 | the period around the current time, and a stamp twelve hours after its start |
| Today.TodayActivity.ToggleTracking | app/src/main/java/uk/ac/standrews/fishing/TodayActivity.kt:63-71 | without permission, it only requests it; with permission, tracking flips; either way the switch then agrees with the application |
| Today.TodayActivity.OnRequestPermissionsResultAsWritten | app/src/main/java/uk/ac/standrews/fishing/TodayActivity.kt:73-81 | a granted request flips tracking, but the switch state stays as it was |
| Today.TodayActivity.OnRequestPermissionsResult | app/src/main/java/uk/ac/standrews/fishing/TodayActivity.kt:73-81 | as written, and then the switch copies the flag, so it agrees with the application |
| Today.StaleSwitchScenario | app/src/main/java/uk/ac/standrews/fishing/TodayActivity.kt:63-81 | tap without permission, then grant: the application tracks while the switch shows off |
| Today.CorrectedSwitchScenario | app/src/main/java/uk/ac/standrews/fishing/TodayActivity.kt:63-81 | the same steps with the corrected callback: the switch shows tracking |

## Left out

- Android UI: layouts, Compose, dialogs, date pickers, navigation, the map button, toasts and logging. `ArchiveActivity.bindView` only sets a layout and is not modelled. A field is its text, two tags and an enabled flag.
- Networking and authentication: Volley, the request queue, Retrofit, AppAuth token refresh and `restoreAuthState`. `authorised` stands for a restored auth state. The server's answer is a parameter: `Outcome` for `postData`, `PostResult` for `postCatches`.
- The success listener of `postData` passes the request object, not the response, to `onSuccess`, which first reads a `"tows"` array that the request lacks; as written, that read throws before the marking runnable exists, so nothing is marked at all. The model does not reproduce org.json's behaviour: it takes the acknowledged ids as the `Outcome` parameter, as if `onSuccess` received the server's response, and models the code from the marking step on.
- The tow ids that `onSuccess` collects are never used, so they are not modelled.
- JSON encoding and the timestamp text format: the request is a sequence of records.
- Concurrency: executors, coroutines and the database singleton. Every DAO call is one atomic step. The catch and its detail are two separate inserts; no atomicity is claimed.
- Application.FishingApplication.PostData: the source's marking runs on a background thread after `postData` has returned. The model performs it within the call, once the outcome is known.
- Each batch and each id takes its own `Date()` in the source; the model uses one `now` for all of them.
- Floating point: weights and coordinates are exact reals. `Double.toString` is the parameter `render`. `toDouble` reads a weight text exactly, without rounding. `toDoubleOrNull` is the parameter predicate `isDouble` of `chkNum`.
- Numerals.ToIntOrNull: accepts ASCII digits only, while Kotlin's `toIntOrNull` also accepts other Unicode decimal digits.
- Calendar, time zones and DST: one fixed zone offset, 86,400,000-ms days.
- The location service, `TrackService` and the track DAO are not part of this model. `TrackLog.Position` has the shape `postData` relies on.
- The per-string catch store: its DAO and entities (`FullCatch`, the detail tables) are not part of this model. It is modelled as a separate store, apart from the species/weight tables, because the two `Catch` shapes differ. `WRASSE` is not defined in the modelled files; it is taken to be a string distinct from the other two types.
- `TodayActivity` inherits `ArchiveActivity`'s fields and the rest of its behaviour; the model gives it only what it overrides.
- The `uk.ac.standrews.pescar` package, an older variant of the screens, is not part of this model.
- A failing Kotlin expression (a seventh species, a missing species tag, a database error) crashes the activity. The model returns `ok == false` and states how far the method got.
- Archive.ArchiveActivity.SubmitData: states that every field holding a weight is stored, and the marking of acknowledged ids below 999, but not the exact catch table after the six field submits, so it does not say that 999 or more acknowledged catch ids leave the freshly submitted catches unmarked (`Application.FishingApplication.PostDataAsWritten` states that).
- FishingDao.FishingDb.MarkLandedsUploaded and TrackLog.PositionTable.MarkPositionsUploaded: assume SQLite's default limit of 999 host parameters, which holds before SQLite 3.32 (later versions allow 32766), and that each statement binds one parameter per id plus the upload time. For catches this is the `IN (:ids)` query of FishingDao.kt; the track DAO is not part of this model, so for positions it is an assumption.

## Findings

| source | as written | input that shows it | evidently intended | confidence | as-written member | corrected member |
|---|---|---|---|---|---|---|
| app/src/main/java/uk/ac/standrews/fishing/FishingApplication.kt:145-163 | Ids are marked in chunks of 999. Each `UPDATE ... WHERE id IN (...)` also binds the upload time, so a chunk needs 1000 host parameters. | Once `onSuccess` receives the server's response, 999 or more acknowledged catch or position ids: the first statement exceeds SQLite's default limit of 999 (versions before 3.32), so it is rejected. The exception is thrown on the executor thread, which crashes the app before anything after it runs: 999 catch ids leave every catch and every position unmarked (`Application.SourceBatchesMarking`, from `Batches.SourceBatchOverflows`). | Batches of at most 998 ids, the limit minus the time parameter; every statement then fits (`Batches.MarkBatchesFit`, `Application.FittingBatchesMarkAll`). | medium, not executed; latent as written, because the `"tows"` read in `onSuccess` (FishingApplication.kt:126) throws first on the request object passed at line 179, and reached once `onSuccess` receives the server's response; depends on the SQLite version on the device and, for positions, on the track DAO's statement shape | Application.FishingApplication.PostDataAsWritten | Application.FishingApplication.PostData |
| app/src/main/java/uk/ac/standrews/fishing/TodayActivity.kt:73-81 | A granted location permission toggles the application's tracking. It does not copy the new flag to the activity's `trackingLocation`, which the switch shows. | With tracking off and no permission: tap the switch, then grant the permission. The application tracks, but the switch shows off. | Copy the flag after the toggle, as `toggleTracking` does at line 70. | high, not executed | Today.TodayActivity.OnRequestPermissionsResultAsWritten | Today.TodayActivity.OnRequestPermissionsResult |
