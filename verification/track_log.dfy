/**
 * The position table as `postData` uses it: read every position not yet uploaded,
 * then mark a list of ids uploaded. The track DAO and the `Position` entity are not
 * part of this model; their shape here is the one `postData` relies on.
 */
module TrackLog {
  import opened Common
  import FishingDao

  /** A location fix; `uploaded` is null until the server has acknowledged it. */
  datatype Position = Position(id: int, latitude: real, longitude: real, accuracy: real, timestamp: int, uploaded: Option<int>)

  ghost predicate PositionIdsIncreasing(rows: seq<Position>) {
    forall i, j :: 0 <= i < j < |rows| ==> rows[i].id < rows[j].id
  }

  /** The positions whose `uploaded` is null, in table order. */
  function Unuploaded(rows: seq<Position>): (r: seq<Position>)
    ensures |r| <= |rows|
    ensures forall p :: p in r <==> p in rows && p.uploaded.None?
  {
    if rows == [] then []
    else
      var last := rows[|rows| - 1];
      Unuploaded(rows[..|rows| - 1]) + if last.uploaded.None? then [last] else []
  }

  lemma UnuploadedAppend(rows: seq<Position>, p: Position)
    ensures Unuploaded(rows + [p]) == Unuploaded(rows) + if p.uploaded.None? then [p] else []
  {
    assert (rows + [p])[..|rows|] == rows;
  }

  /** `UPDATE position SET uploaded = :timestamp WHERE id IN (:ids)` applied row by row. */
  function PositionsMarked(rows: seq<Position>, ids: seq<int>, t: int): (r: seq<Position>)
    ensures |r| == |rows|
    ensures forall k :: 0 <= k < |rows| ==>
      r[k] == if rows[k].id in ids then rows[k].(uploaded := Some(t)) else rows[k]
  {
    if rows == [] then []
    else
      var last := rows[|rows| - 1];
      PositionsMarked(rows[..|rows| - 1], ids, t) + [if last.id in ids then last.(uploaded := Some(t)) else last]
  }

  lemma PositionsMarkedNone(rows: seq<Position>, t: int)
    ensures PositionsMarked(rows, [], t) == rows
  {
  }

  /** Marking two id lists one after the other marks their concatenation. */
  lemma PositionsMarkedTwice(rows: seq<Position>, a: seq<int>, b: seq<int>, t: int)
    ensures PositionsMarked(PositionsMarked(rows, a, t), b, t) == PositionsMarked(rows, a + b, t)
  {
    var lhs, rhs := PositionsMarked(PositionsMarked(rows, a, t), b, t), PositionsMarked(rows, a + b, t);
    forall k | 0 <= k < |rows| ensures lhs[k] == rhs[k] {
      assert rows[k].id in a + b <==> rows[k].id in a || rows[k].id in b;
    }
  }

  /**
   * After marking, the unuploaded positions are exactly those that were unuploaded and
   * not listed: no acknowledged position is sent again, no other one is lost.
   */
  lemma PositionsMarkedUnuploaded(rows: seq<Position>, ids: seq<int>, t: int)
    ensures forall p :: p in Unuploaded(PositionsMarked(rows, ids, t)) <==> p in Unuploaded(rows) && p.id !in ids
  {
    var m := PositionsMarked(rows, ids, t);
    forall p | p in Unuploaded(rows) && p.id !in ids ensures p in m {
      var k :| 0 <= k < |rows| && rows[k] == p;
      assert m[k] == p;
    }
    forall p | p in m && p.uploaded.None? ensures p in rows && p.id !in ids {
      var k :| 0 <= k < |m| && m[k] == p;
    }
  }

  class PositionTable {
    /** Table `position`, in id order. */
    var positions: seq<Position>

    ghost predicate Valid()
      reads this
    {
      PositionIdsIncreasing(positions)
    }

    /** The table as the tracking service has left it. */
    constructor (rows: seq<Position>)
      requires PositionIdsIncreasing(rows)
      ensures Valid() && positions == rows
    {
      positions := rows;
    }

    /** `getUnuploadedPositions()`: every position whose `uploaded` is null, in table order. */
    method GetUnuploadedPositions() returns (r: seq<Position>)
      requires Valid()
      ensures r == Unuploaded(positions)
      ensures forall p :: p in r <==> p in positions && p.uploaded.None?
    {
      r := [];
      var j := 0;
      while j < |positions|
        invariant 0 <= j <= |positions|
        invariant r == Unuploaded(positions[..j])
      {
        assert positions[..j + 1] == positions[..j] + [positions[j]];
        UnuploadedAppend(positions[..j], positions[j]);
        if positions[j].uploaded.None? {
          r := r + [positions[j]];
        }
        j := j + 1;
      }
      assert positions[..j] == positions;
    }

    /**
     * `markPositionsUploaded(ids, timestamp)`: sets `uploaded` on exactly the listed
     * rows; a statement with more host parameters than SQLite allows is rejected whole.
     */
    method MarkPositionsUploaded(ids: seq<int>, timestamp: int) returns (r: Result<(), FishingDao.DbError>)
      requires Valid()
      modifies this
      ensures Valid()
      ensures r.Ok? <==> FishingDao.MarkParameters(ids) <= FishingDao.MaxHostParameters
      ensures r.Err? ==> r.error == FishingDao.TooManyVariables && positions == old(positions)
      ensures r.Ok? ==> positions == PositionsMarked(old(positions), ids, timestamp)
    {
      if FishingDao.MarkParameters(ids) > FishingDao.MaxHostParameters {
        return Err(FishingDao.TooManyVariables);
      }
      positions := PositionsMarked(positions, ids, timestamp);
      r := Ok(());
    }
  }
}
