/**
 * The store behind `CatchViewModel` and `CatchActivity`: a table of per-string
 * catches and one detail table per catch type (Nephrops, lobster/crab, wrasse).
 * Its DAO is not part of this model; each repository call is one atomic step.
 */
module CatchStore {
  import opened Common

  /** A row of the string-catch table (`db.Catch`); `id` is assigned by the database. */
  datatype StringCatch = StringCatch(id: int, stringId: string, lat: real, lon: real, timestamp: int, uploaded: Option<int>)

  /** Detail of a Nephrops catch. */
  datatype NephropsCatch = NephropsCatch(catchId: int, numSmallCases: real, numMediumCases: real, numLargeCases: real, wtReturned: real)

  /** Detail of a lobster/crab catch. */
  datatype LobsterCrabCatch = LobsterCrabCatch(
    catchId: int,
    numLobsterRetained: int, numLobsterReturned: int,
    numBrownRetained: int, numBrownReturned: int,
    numVelvetRetained: int, numVelvetReturned: int)

  /** Detail of a wrasse catch. */
  datatype WrasseCatch = WrasseCatch(catchId: int, numWrasseRetained: int, numWrasseReturned: int)

  /** A catch with the detail rows that refer to it. */
  datatype FullCatch = FullCatch(
    aCatch: StringCatch,
    nephrops: seq<NephropsCatch>, lobsterCrab: seq<LobsterCrabCatch>, wrasse: seq<WrasseCatch>)

  ghost predicate CatchIdsIncreasing(rows: seq<StringCatch>) {
    forall i, j :: 0 <= i < j < |rows| ==> rows[i].id < rows[j].id
  }

  predicate HasCatch(rows: seq<StringCatch>, id: int) {
    exists k :: 0 <= k < |rows| && rows[k].id == id
  }

  function NephropsFor(rows: seq<NephropsCatch>, id: int): (r: seq<NephropsCatch>)
    ensures forall d :: d in r <==> d in rows && d.catchId == id
  {
    if rows == [] then []
    else NephropsFor(rows[..|rows| - 1], id) + if rows[|rows| - 1].catchId == id then [rows[|rows| - 1]] else []
  }

  function LobsterCrabFor(rows: seq<LobsterCrabCatch>, id: int): (r: seq<LobsterCrabCatch>)
    ensures forall d :: d in r <==> d in rows && d.catchId == id
  {
    if rows == [] then []
    else LobsterCrabFor(rows[..|rows| - 1], id) + if rows[|rows| - 1].catchId == id then [rows[|rows| - 1]] else []
  }

  function WrasseFor(rows: seq<WrasseCatch>, id: int): (r: seq<WrasseCatch>)
    ensures forall d :: d in r <==> d in rows && d.catchId == id
  {
    if rows == [] then []
    else WrasseFor(rows[..|rows| - 1], id) + if rows[|rows| - 1].catchId == id then [rows[|rows| - 1]] else []
  }

  /** The catches whose `uploaded` is null, in table order. */
  function Unsubmitted(rows: seq<StringCatch>): (r: seq<StringCatch>)
    ensures |r| <= |rows|
    ensures forall c :: c in r <==> c in rows && c.uploaded.None?
  {
    if rows == [] then []
    else
      var last := rows[|rows| - 1];
      Unsubmitted(rows[..|rows| - 1]) + if last.uploaded.None? then [last] else []
  }

  lemma UnsubmittedAppend(rows: seq<StringCatch>, c: StringCatch)
    ensures Unsubmitted(rows + [c]) == Unsubmitted(rows) + if c.uploaded.None? then [c] else []
  {
    assert (rows + [c])[..|rows|] == rows;
  }

  /** Sets `uploaded` to `t` on every row whose id is listed; nothing else changes. */
  function CatchesMarked(rows: seq<StringCatch>, ids: seq<int>, t: int): (r: seq<StringCatch>)
    ensures |r| == |rows|
    ensures forall k :: 0 <= k < |rows| ==>
      r[k] == if rows[k].id in ids then rows[k].(uploaded := Some(t)) else rows[k]
  {
    if rows == [] then []
    else
      var last := rows[|rows| - 1];
      CatchesMarked(rows[..|rows| - 1], ids, t) + [if last.id in ids then last.(uploaded := Some(t)) else last]
  }

  /**
   * After marking, the unsubmitted catches are exactly those that were unsubmitted
   * and not listed: a catch stored after the ids were taken is left for the next post.
   */
  lemma CatchesMarkedUnsubmitted(rows: seq<StringCatch>, ids: seq<int>, t: int)
    ensures forall c :: c in Unsubmitted(CatchesMarked(rows, ids, t)) <==> c in Unsubmitted(rows) && c.id !in ids
  {
    var m := CatchesMarked(rows, ids, t);
    forall c | c in Unsubmitted(rows) && c.id !in ids ensures c in m {
      var k :| 0 <= k < |rows| && rows[k] == c;
      assert m[k] == c;
    }
    forall c | c in m && c.uploaded.None? ensures c in rows && c.id !in ids {
      var k :| 0 <= k < |m| && m[k] == c;
    }
  }

  class CatchRepository {
    var catches: seq<StringCatch>
    var nephrops: seq<NephropsCatch>
    var lobsterCrab: seq<LobsterCrabCatch>
    var wrasse: seq<WrasseCatch>
    /** The AUTOINCREMENT counter of the catch table. */
    var lastId: int

    ghost predicate Valid()
      reads this
    {
      && CatchIdsIncreasing(catches)
      && 0 <= lastId
      && (forall k :: 0 <= k < |catches| ==> catches[k].id <= lastId)
    }

    constructor ()
      ensures Valid()
      ensures catches == [] && nephrops == [] && lobsterCrab == [] && wrasse == [] && lastId == 0
    {
      catches, nephrops, lobsterCrab, wrasse, lastId := [], [], [], [], 0;
    }

    /** `insertCatch(aCatch)`: the row gets the next id, larger than every id so far, and goes at the end. */
    method InsertCatch(c: StringCatch) returns (id: int)
      requires Valid()
      modifies this`catches, this`lastId
      ensures Valid()
      ensures id == old(lastId) + 1 && lastId == id
      ensures forall k :: 0 <= k < |old(catches)| ==> old(catches)[k].id < id
      ensures catches == old(catches) + [c.(id := id)]
    {
      id := lastId + 1;
      catches := catches + [c.(id := id)];
      lastId := id;
    }

    method InsertNephropsCatch(d: NephropsCatch)
      requires Valid()
      modifies this`nephrops
      ensures Valid()
      ensures nephrops == old(nephrops) + [d]
    {
      nephrops := nephrops + [d];
    }

    method InsertLobsterCrabCatch(d: LobsterCrabCatch)
      requires Valid()
      modifies this`lobsterCrab
      ensures Valid()
      ensures lobsterCrab == old(lobsterCrab) + [d]
    {
      lobsterCrab := lobsterCrab + [d];
    }

    method InsertWrasseCatch(d: WrasseCatch)
      requires Valid()
      modifies this`wrasse
      ensures Valid()
      ensures wrasse == old(wrasse) + [d]
    {
      wrasse := wrasse + [d];
    }

    /** The full catch of a row: the row and every detail row that refers to its id. */
    function FullCatchOf(c: StringCatch): (r: FullCatch)
      reads this
      ensures r.aCatch == c
      ensures forall d :: d in r.nephrops <==> d in nephrops && d.catchId == c.id
      ensures forall d :: d in r.lobsterCrab <==> d in lobsterCrab && d.catchId == c.id
      ensures forall d :: d in r.wrasse <==> d in wrasse && d.catchId == c.id
    {
      FullCatch(c, NephropsFor(nephrops, c.id), LobsterCrabFor(lobsterCrab, c.id), WrasseFor(wrasse, c.id))
    }

    /** The full catch of each row, in the same order. */
    function FullCatchesOf(rows: seq<StringCatch>): (r: seq<FullCatch>)
      reads this
      ensures |r| == |rows|
      ensures forall k :: 0 <= k < |rows| ==> r[k] == FullCatchOf(rows[k])
    {
      if rows == [] then [] else FullCatchesOf(rows[..|rows| - 1]) + [FullCatchOf(rows[|rows| - 1])]
    }

    /** `unsubmittedFullCatches()`: every catch not yet uploaded, in table order, with its details. */
    method UnsubmittedFullCatches() returns (r: seq<FullCatch>)
      requires Valid()
      ensures |r| == |Unsubmitted(catches)|
      ensures forall k :: 0 <= k < |r| ==> r[k] == FullCatchOf(Unsubmitted(catches)[k])
    {
      r := [];
      var j := 0;
      while j < |catches|
        invariant 0 <= j <= |catches|
        invariant r == FullCatchesOf(Unsubmitted(catches[..j]))
      {
        UnsubmittedStep(catches, j);
        if catches[j].uploaded.None? {
          r := r + [FullCatchOf(catches[j])];
        }
        j := j + 1;
      }
      assert catches[..j] == catches;
    }

    /** One more row of the scan adds its full catch when it is unsubmitted. */
    lemma UnsubmittedStep(rows: seq<StringCatch>, j: nat)
      requires j < |rows|
      ensures FullCatchesOf(Unsubmitted(rows[..j + 1]))
        == FullCatchesOf(Unsubmitted(rows[..j])) + if rows[j].uploaded.None? then [FullCatchOf(rows[j])] else []
    {
      assert rows[..j + 1] == rows[..j] + [rows[j]];
      UnsubmittedAppend(rows[..j], rows[j]);
      if rows[j].uploaded.None? {
        var u := Unsubmitted(rows[..j]) + [rows[j]];
        assert u[..|u| - 1] == Unsubmitted(rows[..j]);
      }
    }

    /** `getCatch(id)`: the row with that id; Room fails when there is none, so one must exist. */
    method GetCatch(id: int) returns (c: StringCatch)
      requires Valid() && HasCatch(catches, id)
      ensures c in catches && c.id == id
    {
      var k := 0;
      while catches[k].id != id
        invariant 0 <= k < |catches|
        invariant forall j :: 0 <= j < k ==> catches[j].id != id
        decreases |catches| - k
      {
        k := k + 1;
      }
      c := catches[k];
    }

    /** `updateCatch(aCatch)`: the row with the same id takes the new values; an absent id changes nothing. */
    method UpdateCatch(c: StringCatch)
      requires Valid()
      modifies this`catches
      ensures Valid()
      ensures |catches| == |old(catches)|
      ensures forall k :: 0 <= k < |catches| ==> catches[k] == if old(catches)[k].id == c.id then c else old(catches)[k]
    {
      catches := seq(|catches|, k requires 0 <= k < |catches| reads this => if catches[k].id == c.id then c else catches[k]);
    }
  }
}
