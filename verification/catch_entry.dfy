/**
 * `CatchViewModel` and the catch-entry path of `CatchActivity`: a catch is stored
 * first, then at most one detail row that refers to the id the store returned; and
 * `postCatches`, which posts every unsubmitted catch and, on HTTP 200, marks the
 * posted ids uploaded.
 */
module CatchEntry {
  import opened Common
  import opened CatchStore
  import opened FishingApi

  const NEPHROPS: string := "Nephrops"
  const LOBSTER_CRAB: string := "Lobster/Crab"
  /** The third catch type of the view model. */
  const WRASSE: string := "Wrasse"

  /** The numeric fields of the catch form, one per detail column. */
  datatype Measures = Measures(
    numSmall: real, numMedium: real, numLarge: real, wtReturned: real,
    numLobsterRetained: int, numLobsterReturned: int,
    numBrownRetained: int, numBrownReturned: int,
    numVelvetRetained: int, numVelvetReturned: int,
    numWrasseRetained: int, numWrasseReturned: int)

  /** The new `Catch` of a form: not uploaded, id left to the database. */
  function NewStringCatch(stringId: string, lat: real, lon: real, timestamp: int): (c: StringCatch)
    ensures c.uploaded == None && c.stringId == stringId && c.timestamp == timestamp
  {
    StringCatch(0, stringId, lat, lon, timestamp, None)
  }

  function NephropsOf(catchId: int, m: Measures): NephropsCatch {
    NephropsCatch(ToInt32(catchId), m.numSmall, m.numMedium, m.numLarge, m.wtReturned)
  }

  function LobsterCrabOf(catchId: int, m: Measures): LobsterCrabCatch {
    LobsterCrabCatch(ToInt32(catchId), m.numLobsterRetained, m.numLobsterReturned,
      m.numBrownRetained, m.numBrownReturned, m.numVelvetRetained, m.numVelvetReturned)
  }

  function WrasseOf(catchId: int, m: Measures): WrasseCatch {
    WrasseCatch(ToInt32(catchId), m.numWrasseRetained, m.numWrasseReturned)
  }

  /** How the server answered a post: a response with a status code, or no response at all. */
  datatype PostResult = Response(code: int) | NoResponse

  /**
   * Stores the catch of a form, then the detail its type calls for. The types the
   * caller does not know (`Wrasse` for `CatchActivity`) add no detail.
   */
  method InsertWithDetail(store: CatchRepository, types: set<string>, catchType: string,
                          stringId: string, lat: real, lon: real, timestamp: int, m: Measures)
    returns (catchId: int)
    requires store.Valid()
    modifies store
    ensures store.Valid()
    ensures catchId == old(store.lastId) + 1
    ensures store.catches == old(store.catches) + [StringCatch(catchId, stringId, lat, lon, timestamp, None)]
    ensures store.nephrops == old(store.nephrops) + if catchType == NEPHROPS && NEPHROPS in types then [NephropsOf(catchId, m)] else []
    ensures store.lobsterCrab == old(store.lobsterCrab) + if catchType == LOBSTER_CRAB && LOBSTER_CRAB in types then [LobsterCrabOf(catchId, m)] else []
    ensures store.wrasse == old(store.wrasse) + if catchType == WRASSE && WRASSE in types then [WrasseOf(catchId, m)] else []
    ensures |store.nephrops| + |store.lobsterCrab| + |store.wrasse| <= |old(store.nephrops)| + |old(store.lobsterCrab)| + |old(store.wrasse)| + 1
    ensures catchId <= MaxInt32 ==>
      && (forall k :: |old(store.nephrops)| <= k < |store.nephrops| ==> store.nephrops[k].catchId == catchId)
      && (forall k :: |old(store.lobsterCrab)| <= k < |store.lobsterCrab| ==> store.lobsterCrab[k].catchId == catchId)
      && (forall k :: |old(store.wrasse)| <= k < |store.wrasse| ==> store.wrasse[k].catchId == catchId)
  {
    catchId := store.InsertCatch(NewStringCatch(stringId, lat, lon, timestamp));
    if catchType == NEPHROPS && NEPHROPS in types {
      store.InsertNephropsCatch(NephropsOf(catchId, m));
    } else if catchType == LOBSTER_CRAB && LOBSTER_CRAB in types {
      store.InsertLobsterCrabCatch(LobsterCrabOf(catchId, m));
    } else if catchType == WRASSE && WRASSE in types {
      store.InsertWrasseCatch(WrasseOf(catchId, m));
    }
  }

  /** `CatchActivity`, which writes through the DAO and knows two catch types. */
  class CatchActivity {
    const fishingDao: CatchRepository

    constructor (dao: CatchRepository)
      ensures fishingDao == dao
    {
      fishingDao := dao;
    }

    /**
     * `insertCatch(...)`: the catch, then one Nephrops or lobster/crab detail with the
     * returned id; any other type, `Wrasse` included, stores the catch alone.
     */
    method InsertCatch(catchType: string, stringId: string, lat: real, lon: real, timestamp: int, m: Measures)
      requires fishingDao.Valid()
      modifies fishingDao
      ensures fishingDao.Valid()
      ensures fishingDao.catches == old(fishingDao.catches) + [StringCatch(old(fishingDao.lastId) + 1, stringId, lat, lon, timestamp, None)]
      ensures fishingDao.nephrops == old(fishingDao.nephrops) + if catchType == NEPHROPS then [NephropsOf(old(fishingDao.lastId) + 1, m)] else []
      ensures fishingDao.lobsterCrab == old(fishingDao.lobsterCrab) + if catchType == LOBSTER_CRAB then [LobsterCrabOf(old(fishingDao.lastId) + 1, m)] else []
      ensures fishingDao.wrasse == old(fishingDao.wrasse)
    {
      var catchId := InsertWithDetail(fishingDao, {NEPHROPS, LOBSTER_CRAB}, catchType, stringId, lat, lon, timestamp, m);
    }
  }

  /** `CatchViewModel`, which writes through the repository and knows three catch types. */
  class CatchViewModel {
    const repository: CatchRepository

    constructor (repo: CatchRepository)
      ensures repository == repo
    {
      repository := repo;
    }

    /**
     * `insertFullCatch(...)`: the catch, then the Nephrops, lobster/crab or wrasse
     * detail with the returned id; any other type stores the catch alone.
     */
    method InsertFullCatch(catchType: string, stringId: string, lat: real, lon: real, timestamp: int, m: Measures)
      requires repository.Valid()
      modifies repository
      ensures repository.Valid()
      ensures repository.catches == old(repository.catches) + [StringCatch(old(repository.lastId) + 1, stringId, lat, lon, timestamp, None)]
      ensures repository.nephrops == old(repository.nephrops) + if catchType == NEPHROPS then [NephropsOf(old(repository.lastId) + 1, m)] else []
      ensures repository.lobsterCrab == old(repository.lobsterCrab) + if catchType == LOBSTER_CRAB then [LobsterCrabOf(old(repository.lastId) + 1, m)] else []
      ensures repository.wrasse == old(repository.wrasse) + if catchType == WRASSE then [WrasseOf(old(repository.lastId) + 1, m)] else []
    {
      var catchId := InsertWithDetail(repository, {NEPHROPS, LOBSTER_CRAB, WRASSE}, catchType, stringId, lat, lon, timestamp, m);
    }

    /**
     * The synchronous half of `postCatches(deviceId)`: the body is the device id and
     * every unsubmitted catch at this moment; the ids to mark are fixed from it.
     */
    method PostCatches(deviceId: string) returns (body: CatchesToPost, ids: seq<int>)
      requires repository.Valid()
      ensures body.deviceId == deviceId
      ensures |body.catches| == |Unsubmitted(repository.catches)|
      ensures forall k :: 0 <= k < |body.catches| ==> body.catches[k] == repository.FullCatchOf(Unsubmitted(repository.catches)[k])
      ensures ids == GetCatchIds(body)
      ensures forall id :: id in ids <==> exists c :: c in repository.catches && c.uploaded.None? && c.id == id
    {
      var catches := repository.UnsubmittedFullCatches();
      body := CatchesToPost(deviceId, catches);
      ids := GetCatchIds(body);
      SnapshotIds(repository.catches, body);
    }

    /**
     * The callback of `postCatches`: on status 200 every posted id has `uploaded` set
     * to `now` and nothing else changes; any other status, and a failure, change nothing.
     * `getCatch` fails on an id with no row, so each posted id must still have one.
     */
    method OnPostResult(ids: seq<int>, result: PostResult, now: int)
      requires repository.Valid()
      requires forall id :: id in ids ==> HasCatch(repository.catches, id)
      modifies repository`catches
      ensures repository.Valid()
      ensures result == Response(200) ==> repository.catches == CatchesMarked(old(repository.catches), ids, now)
      ensures result != Response(200) ==> repository.catches == old(repository.catches)
    {
      if result == Response(200) {
        MarkEach(repository, ids, now);
      }
    }
  }

  /** The ids of a body holding the unsubmitted catches are exactly the unsubmitted ids. */
  lemma SnapshotIds(rows: seq<StringCatch>, body: CatchesToPost)
    requires |body.catches| == |Unsubmitted(rows)|
    requires forall k :: 0 <= k < |body.catches| ==> body.catches[k].aCatch == Unsubmitted(rows)[k]
    ensures forall id :: id in GetCatchIds(body) <==> exists c :: c in rows && c.uploaded.None? && c.id == id
  {
    forall id ensures id in GetCatchIds(body) <==> exists c :: c in rows && c.uploaded.None? && c.id == id {
      GetCatchIdsMembers(body, id);
      if id in GetCatchIds(body) {
        PostedIdUnsubmitted(rows, body, id);
      } else {
        UnsubmittedIdPosted(rows, body, id);
      }
    }
  }

  lemma PostedIdUnsubmitted(rows: seq<StringCatch>, body: CatchesToPost, id: int)
    requires |body.catches| == |Unsubmitted(rows)|
    requires forall k :: 0 <= k < |body.catches| ==> body.catches[k].aCatch == Unsubmitted(rows)[k]
    requires exists k :: 0 <= k < |body.catches| && body.catches[k].aCatch.id == id
    ensures exists c :: c in rows && c.uploaded.None? && c.id == id
  {
    var k :| 0 <= k < |body.catches| && body.catches[k].aCatch.id == id;
    var c := Unsubmitted(rows)[k];
    assert c in Unsubmitted(rows);
  }

  lemma UnsubmittedIdPosted(rows: seq<StringCatch>, body: CatchesToPost, id: int)
    requires |body.catches| == |Unsubmitted(rows)|
    requires forall k :: 0 <= k < |body.catches| ==> body.catches[k].aCatch == Unsubmitted(rows)[k]
    requires forall k :: 0 <= k < |body.catches| ==> body.catches[k].aCatch.id != id
    ensures !exists c :: c in rows && c.uploaded.None? && c.id == id
  {
    forall c | c in rows && c.uploaded.None? ensures c.id != id {
      var u := Unsubmitted(rows);
      assert c in u;
      var k :| 0 <= k < |u| && u[k] == c;
      assert body.catches[k].aCatch == c;
    }
  }

  /**
   * When the server answers 200 and nothing was stored in between, marking the ids
   * of a post leaves no catch unsubmitted.
   */
  lemma PostedCatchesSubmitted(rows: seq<StringCatch>, ids: seq<int>, t: int)
    requires forall id :: id in ids <==> exists c :: c in rows && c.uploaded.None? && c.id == id
    ensures Unsubmitted(CatchesMarked(rows, ids, t)) == []
  {
    CatchesMarkedUnsubmitted(rows, ids, t);
    var u := Unsubmitted(CatchesMarked(rows, ids, t));
    forall c ensures c !in u {
      if c in Unsubmitted(rows) {
        assert c.id in ids;
      }
    }
    EmptyOrFirst(u);
  }

  /** A sequence is empty or holds its first element. */
  lemma EmptyOrFirst<T>(u: seq<T>)
    ensures u == [] || u[0] in u
  {
  }

  /** The `ids.forEach` of the 200 branch: fetch each catch, stamp it, write it back. */
  method MarkEach(store: CatchRepository, ids: seq<int>, now: int)
    requires store.Valid()
    requires forall id :: id in ids ==> HasCatch(store.catches, id)
    modifies store`catches
    ensures store.Valid()
    ensures store.catches == CatchesMarked(old(store.catches), ids, now)
  {
    ghost var rows := store.catches;
    var i := 0;
    while i < |ids|
      invariant 0 <= i <= |ids|
      invariant store.Valid()
      invariant store.catches == CatchesMarked(rows, ids[..i], now)
    {
      MarkOne(store, rows, ids, i, now);
      i := i + 1;
    }
    assert ids[..i] == ids;
  }

  /** One turn of that loop: `getCatch`, set `uploaded`, `updateCatch`. */
  method MarkOne(store: CatchRepository, ghost rows: seq<StringCatch>, ids: seq<int>, i: nat, now: int)
    requires i < |ids| && HasCatch(rows, ids[i])
    requires store.Valid() && store.catches == CatchesMarked(rows, ids[..i], now)
    modifies store`catches
    ensures store.Valid()
    ensures store.catches == CatchesMarked(rows, ids[..i + 1], now)
  {
    MarkedKeepsIds(rows, ids[..i], now, ids[i]);
    ghost var before := store.catches;
    var aCatch := store.GetCatch(ids[i]);
    var stamped := aCatch.(uploaded := Some(now));
    store.UpdateCatch(stamped);
    MarkedStep(rows, ids, i, now, before, aCatch, stamped, store.catches);
  }

  /** Marking leaves every id where it was. */
  lemma MarkedKeepsIds(rows: seq<StringCatch>, ids: seq<int>, t: int, id: int)
    requires HasCatch(rows, id)
    ensures HasCatch(CatchesMarked(rows, ids, t), id)
  {
    var k :| 0 <= k < |rows| && rows[k].id == id;
    assert CatchesMarked(rows, ids, t)[k].id == id;
  }

  /**
   * Over rows with distinct ids, writing back the stamped copy of the row with a
   * given id extends the marking by that id.
   */
  lemma MarkedStep(rows: seq<StringCatch>, ids: seq<int>, i: nat, t: int, before: seq<StringCatch>,
                   c: StringCatch, stamped: StringCatch, after: seq<StringCatch>)
    requires i < |ids| && before == CatchesMarked(rows, ids[..i], t) && CatchIdsIncreasing(before)
    requires c in before && c.id == ids[i] && stamped == c.(uploaded := Some(t))
    requires |after| == |before|
    requires forall k :: 0 <= k < |after| ==> after[k] == if before[k].id == stamped.id then stamped else before[k]
    ensures after == CatchesMarked(rows, ids[..i + 1], t)
  {
    assert ids[..i + 1] == ids[..i] + [ids[i]];
    var marked := CatchesMarked(rows, ids[..i + 1], t);
    var j :| 0 <= j < |before| && before[j] == c;
    forall k | 0 <= k < |after| ensures after[k] == marked[k] {
      if before[k].id == c.id {
        assert k == j;
      }
    }
  }


}
