/**
 * The rows of the landed-catch database: `Species`, `Catch` (a landed weight of one
 * species), the `CatchWithSpecies` relation, and the row-level operations that the
 * DAO's SQL statements perform (selection, the species join, the two UPDATEs).
 */
module Landed {
  import opened Common

  /** A species row; `id` is its primary key. */
  datatype Species = Species(id: int, name: string)

  /** A row of table `catch`; times are epoch milliseconds. */
  datatype Catch = Catch(id: int, speciesId: int, weight: real, timestamp: int, uploaded: Option<int>)

  /** The Kotlin constructor with its defaults: `id = 0` (the database assigns one) and `uploaded = null`. */
  function NewCatch(speciesId: int, weight: real, timestamp: int, uploaded: Option<int> := None): (c: Catch)
    ensures c.id == 0
    ensures c.uploaded.None? <==> uploaded.None?
    ensures c.speciesId == speciesId && c.weight == weight && c.timestamp == timestamp
  {
    Catch(0, speciesId, weight, timestamp, uploaded)
  }

  /** A catch row together with the species rows its `species_id` refers to. */
  datatype CatchWithSpecies = CatchWithSpecies(aCatch: Catch, species: seq<Species>)

  // ---------------------------------------------------------------------------
  // Species table

  ghost predicate SpeciesIdsIncreasing(species: seq<Species>) {
    forall i, j :: 0 <= i < j < |species| ==> species[i].id < species[j].id
  }

  predicate HasSpecies(species: seq<Species>, id: int) {
    exists k :: 0 <= k < |species| && species[k].id == id
  }

  /** The species rows whose id is `id`, in table order (the `@Relation` lookup). */
  function SpeciesWithId(species: seq<Species>, id: int): (r: seq<Species>)
    ensures forall s :: s in r <==> s in species && s.id == id
    ensures !HasSpecies(species, id) ==> r == []
  {
    if species == [] then []
    else
      var last := species[|species| - 1];
      SpeciesWithId(species[..|species| - 1], id) + (if last.id == id then [last] else [])
  }

  /** A species id occurs in a table exactly when it occurs before the last row or in it. */
  lemma HasSpeciesLast(species: seq<Species>, id: int)
    requires species != []
    ensures HasSpecies(species, id) <==>
      HasSpecies(species[..|species| - 1], id) || species[|species| - 1].id == id
  {
    var front := species[..|species| - 1];
    if HasSpecies(species, id) {
      var k :| 0 <= k < |species| && species[k].id == id;
      if k < |species| - 1 {
        assert front[k] == species[k];
      }
    }
    if HasSpecies(front, id) {
      var k :| 0 <= k < |front| && front[k].id == id;
      assert species[k] == front[k];
    }
  }

  /** With a primary key on species id, a species id that exists is related to exactly one row. */
  lemma {:induction false} SpeciesWithIdUnique(species: seq<Species>, id: int)
    requires SpeciesIdsIncreasing(species) && HasSpecies(species, id)
    ensures |SpeciesWithId(species, id)| == 1 && SpeciesWithId(species, id)[0].id == id
  {
    var n := |species|;
    var front := species[..n - 1];
    HasSpeciesLast(species, id);
    if species[n - 1].id == id {
      forall k | 0 <= k < n - 1 ensures front[k].id != id {
        assert species[k].id < species[n - 1].id;
      }
    } else {
      SpeciesWithIdUnique(front, id);
    }
  }

  /** One relation row per catch row: the catch unchanged, plus its species rows. */
  function Relate(c: Catch, species: seq<Species>): (r: CatchWithSpecies)
    ensures r.aCatch == c
    ensures forall s :: s in r.species <==> s in species && s.id == c.speciesId
  {
    CatchWithSpecies(c, SpeciesWithId(species, c.speciesId))
  }

  /** The relation over a query result: neither drops nor duplicates a row. */
  function Related(rows: seq<Catch>, species: seq<Species>): (r: seq<CatchWithSpecies>)
    ensures |r| == |rows|
    ensures forall k :: 0 <= k < |rows| ==> r[k] == Relate(rows[k], species)
  {
    if rows == [] then []
    else Related(rows[..|rows| - 1], species) + [Relate(rows[|rows| - 1], species)]
  }

  /** The catch rows of a relation result. */
  function CatchesOf(r: seq<CatchWithSpecies>): (rows: seq<Catch>)
    ensures |rows| == |r|
    ensures forall k :: 0 <= k < |r| ==> rows[k] == r[k].aCatch
  {
    if r == [] then [] else CatchesOf(r[..|r| - 1]) + [r[|r| - 1].aCatch]
  }

  /** Relating a longer result relates the extra row at the end. */
  lemma RelatedAppend(rows: seq<Catch>, c: Catch, species: seq<Species>)
    ensures Related(rows + [c], species) == Related(rows, species) + [Relate(c, species)]
  {
    assert (rows + [c])[..|rows|] == rows;
  }

  lemma {:induction false} CatchesOfRelated(rows: seq<Catch>, species: seq<Species>)
    ensures CatchesOf(Related(rows, species)) == rows
  {
    var r := CatchesOf(Related(rows, species));
    assert |r| == |rows|;
    forall k | 0 <= k < |rows| ensures r[k] == rows[k] {
    }
  }

  // ---------------------------------------------------------------------------
  // Catch table

  /** Row order of the catch table: its primary key, ascending. */
  ghost predicate IdsIncreasing(rows: seq<Catch>) {
    forall i, j :: 0 <= i < j < |rows| ==> rows[i].id < rows[j].id
  }

  predicate HasId(rows: seq<Catch>, id: int) {
    exists k :: 0 <= k < |rows| && rows[k].id == id
  }

  /** The foreign key `catch.species_id -> species.id`. */
  ghost predicate SpeciesReferenced(rows: seq<Catch>, species: seq<Species>) {
    forall k :: 0 <= k < |rows| ==> HasSpecies(species, rows[k].speciesId)
  }

  /** The half-open period filter `timestamp >= :startedAt AND timestamp < :finishedAt`. */
  predicate InPeriod(c: Catch, start: int, finish: int) {
    start <= c.timestamp < finish
  }

  /** The WHERE clauses of the DAO's queries. */
  datatype Criterion =
    | Period(start: int, finish: int)
    | SpeciesInPeriod(speciesId: int, start: int, finish: int)
    | UnuploadedInPeriod(start: int, finish: int)

  predicate Holds(crit: Criterion, c: Catch) {
    match crit
    case Period(s, f) => InPeriod(c, s, f)
    case SpeciesInPeriod(id, s, f) => c.speciesId == id && InPeriod(c, s, f)
    case UnuploadedInPeriod(s, f) => c.uploaded.None? && InPeriod(c, s, f)
  }

  /** The rows a WHERE clause selects, in table order. */
  function Select(rows: seq<Catch>, crit: Criterion): (r: seq<Catch>)
    ensures |r| <= |rows|
    ensures forall c :: c in r <==> c in rows && Holds(crit, c)
  {
    if rows == [] then []
    else
      var last := rows[|rows| - 1];
      Select(rows[..|rows| - 1], crit) + (if Holds(crit, last) then [last] else [])
  }

  /** Selecting from a table with one more row at the end. */
  lemma SelectAppend(rows: seq<Catch>, c: Catch, crit: Criterion)
    ensures Select(rows + [c], crit) == Select(rows, crit) + if Holds(crit, c) then [c] else []
  {
    assert (rows + [c])[..|rows|] == rows;
  }

  /** Selection keeps every selected row as often as the table holds it. */
  lemma {:induction false} SelectCount(rows: seq<Catch>, crit: Criterion, c: Catch)
    ensures multiset(Select(rows, crit))[c] == if Holds(crit, c) then multiset(rows)[c] else 0
  {
    if rows != [] {
      var front, last := rows[..|rows| - 1], rows[|rows| - 1];
      assert rows == front + [last];
      SelectCount(front, crit, c);
    }
  }

  /** Selection keeps the table's key order. */
  lemma {:induction false} SelectIncreasing(rows: seq<Catch>, crit: Criterion)
    requires IdsIncreasing(rows)
    ensures IdsIncreasing(Select(rows, crit))
  {
    if rows != [] {
      var front, last := rows[..|rows| - 1], rows[|rows| - 1];
      SelectIncreasing(front, crit);
      var r := Select(front, crit);
      forall c | c in r ensures c.id < last.id {
        var k :| 0 <= k < |front| && front[k] == c;
      }
    }
  }

  // ---------------------------------------------------------------------------
  // getLandedsForPeriod: the species join ordered by species id

  /**
   * The catch rows of `species s INNER JOIN catch l ON s.id = l.species_id` inside the
   * period, species by species in ascending species id; within one species, table order.
   */
  function Join(species: seq<Species>, rows: seq<Catch>, start: int, finish: int): seq<Catch>
  {
    if species == [] then []
    else
      Join(species[..|species| - 1], rows, start, finish)
      + Select(rows, SpeciesInPeriod(species[|species| - 1].id, start, finish))
  }

  /** A row is in the join exactly when it is in the period and its species exists. */
  lemma {:induction false} JoinMembers(species: seq<Species>, rows: seq<Catch>, start: int, finish: int)
    ensures forall c :: c in Join(species, rows, start, finish) <==>
      c in rows && InPeriod(c, start, finish) && HasSpecies(species, c.speciesId)
  {
    if species != [] {
      var front := species[..|species| - 1];
      JoinMembers(front, rows, start, finish);
      forall sid ensures HasSpecies(species, sid) <==> HasSpecies(front, sid) || species[|species| - 1].id == sid {
        HasSpeciesLast(species, sid);
      }
    }
  }

  ghost predicate SortedBySpecies(rows: seq<Catch>) {
    forall i, j :: 0 <= i < j < |rows| ==> rows[i].speciesId <= rows[j].speciesId
  }

  /** `ORDER BY s.id ASC`: the join is sorted by species id. */
  lemma {:induction false} JoinSorted(species: seq<Species>, rows: seq<Catch>, start: int, finish: int)
    requires SpeciesIdsIncreasing(species)
    ensures SortedBySpecies(Join(species, rows, start, finish))
  {
    if species != [] {
      var n := |species|;
      var front := species[..n - 1];
      var x := species[n - 1].id;
      JoinSorted(front, rows, start, finish);
      JoinBelow(species, rows, start, finish);
      var b := Select(rows, SpeciesInPeriod(x, start, finish));
      forall j | 0 <= j < |b| ensures b[j].speciesId == x {
        assert b[j] in b;
      }
      SortedConcat(Join(front, rows, start, finish), b, x);
    }
  }

  /** Every row the join takes before the last species has a smaller species id. */
  lemma JoinBelow(species: seq<Species>, rows: seq<Catch>, start: int, finish: int)
    requires SpeciesIdsIncreasing(species) && species != []
    ensures forall c :: c in Join(species[..|species| - 1], rows, start, finish) ==> c.speciesId < species[|species| - 1].id
  {
    var front := species[..|species| - 1];
    JoinMembers(front, rows, start, finish);
    forall c | c in Join(front, rows, start, finish) ensures c.speciesId < species[|species| - 1].id {
      var k :| 0 <= k < |front| && front[k].id == c.speciesId;
      assert species[k] == front[k];
    }
  }

  /** Sorted rows below `x` followed by rows of species `x` are sorted. */
  lemma SortedConcat(a: seq<Catch>, b: seq<Catch>, x: int)
    requires SortedBySpecies(a)
    requires forall c :: c in a ==> c.speciesId < x
    requires forall j :: 0 <= j < |b| ==> b[j].speciesId == x
    ensures SortedBySpecies(a + b)
  {
    var J := a + b;
    forall i, j | 0 <= i < j < |J| ensures J[i].speciesId <= J[j].speciesId {
      if j < |a| {
        assert J[i] == a[i] && J[j] == a[j];
      } else if i >= |a| {
        assert J[i] == b[i - |a|] && J[j] == b[j - |a|];
      } else {
        assert J[i] == a[i] && a[i] in a && J[j] == b[j - |a|];
      }
    }
  }

  /** The join holds each row of the period as often as the table does, provided its species exists. */
  lemma {:induction false} JoinCount(species: seq<Species>, rows: seq<Catch>, start: int, finish: int, c: Catch)
    requires SpeciesIdsIncreasing(species)
    ensures multiset(Join(species, rows, start, finish))[c] ==
      if InPeriod(c, start, finish) && HasSpecies(species, c.speciesId) then multiset(rows)[c] else 0
  {
    if species != [] {
      var n := |species|;
      var front := species[..n - 1];
      var crit := SpeciesInPeriod(species[n - 1].id, start, finish);
      JoinCount(front, rows, start, finish, c);
      SelectCount(rows, crit, c);
      HasSpeciesLast(species, c.speciesId);
      if HasSpecies(front, c.speciesId) {
        var k :| 0 <= k < n - 1 && front[k].id == c.speciesId;
        assert species[k] == front[k];
        assert species[k].id < species[n - 1].id;
      }
    }
  }

  /**
   * Under the foreign key, the join returns exactly the period's rows: the same rows,
   * each as often, only reordered.
   */
  lemma JoinIsPeriodSelection(species: seq<Species>, rows: seq<Catch>, start: int, finish: int)
    requires SpeciesIdsIncreasing(species) && SpeciesReferenced(rows, species)
    ensures multiset(Join(species, rows, start, finish)) == multiset(Select(rows, Period(start, finish)))
  {
    forall c
      ensures multiset(Join(species, rows, start, finish))[c] == multiset(Select(rows, Period(start, finish)))[c]
    {
      JoinCount(species, rows, start, finish, c);
      SelectCount(rows, Period(start, finish), c);
      if c in rows && InPeriod(c, start, finish) {
        var k :| 0 <= k < |rows| && rows[k] == c;
        assert HasSpecies(species, rows[k].speciesId);
      }
    }
  }

  // ---------------------------------------------------------------------------
  // The two UPDATE statements

  /** `UPDATE catch SET uploaded = :timestamp WHERE id IN (:ids)` applied row by row. */
  function Marked(rows: seq<Catch>, ids: seq<int>, t: int): (r: seq<Catch>)
    ensures |r| == |rows|
    ensures forall k :: 0 <= k < |rows| ==>
      r[k] == if rows[k].id in ids then rows[k].(uploaded := Some(t)) else rows[k]
  {
    if rows == [] then []
    else
      var last := rows[|rows| - 1];
      Marked(rows[..|rows| - 1], ids, t) + [if last.id in ids then last.(uploaded := Some(t)) else last]
  }

  /** `UPDATE catch SET weight = :weight, timestamp = :timestamp WHERE id = :id` applied row by row. */
  function Updated(rows: seq<Catch>, id: int, weight: real, timestamp: int): (r: seq<Catch>)
    ensures |r| == |rows|
    ensures forall k :: 0 <= k < |rows| ==>
      r[k] == if rows[k].id == id then rows[k].(weight := weight, timestamp := timestamp) else rows[k]
  {
    if rows == [] then []
    else
      var last := rows[|rows| - 1];
      Updated(rows[..|rows| - 1], id, weight, timestamp)
      + [if last.id == id then last.(weight := weight, timestamp := timestamp) else last]
  }

  /** Neither UPDATE touches an id or a species reference, so the table's invariants survive. */
  lemma UpdatesKeepKeys(rows: seq<Catch>, species: seq<Species>, ids: seq<int>, id: int, w: real, t: int, ts: int)
    requires IdsIncreasing(rows) && SpeciesReferenced(rows, species)
    ensures IdsIncreasing(Marked(rows, ids, t)) && SpeciesReferenced(Marked(rows, ids, t), species)
    ensures IdsIncreasing(Updated(rows, id, w, ts)) && SpeciesReferenced(Updated(rows, id, w, ts), species)
  {
  }

  /** Once marked, a row is no longer returned by the unuploaded query, whatever the period. */
  lemma MarkedNotUnuploaded(rows: seq<Catch>, ids: seq<int>, t: int, start: int, finish: int)
    ensures forall c :: c in Select(Marked(rows, ids, t), UnuploadedInPeriod(start, finish)) ==> c.id !in ids
    ensures forall c :: c in Select(rows, UnuploadedInPeriod(start, finish)) && c.id !in ids ==>
      c in Select(Marked(rows, ids, t), UnuploadedInPeriod(start, finish))
  {
    var m := Marked(rows, ids, t);
    forall c | c in Select(rows, UnuploadedInPeriod(start, finish)) && c.id !in ids
      ensures c in m
    {
      var k :| 0 <= k < |rows| && rows[k] == c;
      assert m[k] == c;
    }
    forall c | c in m && c.uploaded.None? ensures c.id !in ids {
      var k :| 0 <= k < |m| && m[k] == c;
    }
  }

  /** Repeating the mark with the same time changes nothing. */
  lemma MarkedIdempotent(rows: seq<Catch>, ids: seq<int>, t: int)
    ensures Marked(Marked(rows, ids, t), ids, t) == Marked(rows, ids, t)
  {
  }

  /** An empty id list marks nothing. */
  lemma MarkedNone(rows: seq<Catch>, t: int)
    ensures Marked(rows, [], t) == rows
  {
  }

  /** Marking two id lists one after the other marks their concatenation. */
  lemma MarkedTwice(rows: seq<Catch>, a: seq<int>, b: seq<int>, t: int)
    ensures Marked(Marked(rows, a, t), b, t) == Marked(rows, a + b, t)
  {
    var lhs, rhs := Marked(Marked(rows, a, t), b, t), Marked(rows, a + b, t);
    forall k | 0 <= k < |rows| ensures lhs[k] == rhs[k] {
      assert rows[k].id in a + b <==> rows[k].id in a || rows[k].id in b;
    }
  }
}
