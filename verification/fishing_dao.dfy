/**
 * The landed-catch database behind `FishingDao`: a species table and a catch table,
 * each held in primary-key order, with the foreign key from catch to species that
 * Room enforces. Each DAO call is one atomic step.
 */
module FishingDao {
  import opened Common
  import opened Landed
  import Keyed

  /** SQLite's default limit on host parameters in one statement (SQLITE_MAX_VARIABLE_NUMBER before 3.32). */
  const MaxHostParameters: nat := 999

  /** Why SQLite rejects a statement. */
  datatype DbError = ForeignKeyViolation | PrimaryKeyViolation | TooManyVariables

  function SpeciesKey(s: Species): int { s.id }
  function CatchKey(c: Catch): int { c.id }

  /** Host parameters used by `UPDATE catch SET uploaded = ? WHERE id IN (?, ..., ?)`. */
  function MarkParameters(ids: seq<int>): (n: nat)
    ensures n == |ids| + 1
  {
    |ids| + 1
  }

  class FishingDb {
    /** Table `species`, in id order. */
    var species: seq<Species>
    /** Table `catch`, in id order. */
    var catches: seq<Catch>
    /** The AUTOINCREMENT counter of table `catch`: the largest id it has held. */
    var lastId: int

    ghost predicate Valid()
      reads this
    {
      && SpeciesIdsIncreasing(species)
      && IdsIncreasing(catches)
      && SpeciesReferenced(catches, species)
      && 0 <= lastId
      && (forall k :: 0 <= k < |catches| ==> catches[k].id <= lastId)
    }

    /** An empty database. */
    constructor ()
      ensures Valid()
      ensures species == [] && catches == [] && lastId == 0
    {
      species, catches, lastId := [], [], 0;
    }

    /** `insertSpecies(species: Species)`: a duplicate id violates the primary key and changes nothing. */
    method InsertSpecies(s: Species) returns (r: Result<(), DbError>)
      requires Valid()
      modifies this
      ensures Valid()
      ensures catches == old(catches) && lastId == old(lastId)
      ensures r.Ok? <==> !HasSpecies(old(species), s.id)
      ensures r.Err? ==> r.error == PrimaryKeyViolation && species == old(species)
      ensures r.Ok? ==> |species| == |old(species)| + 1
      ensures r.Ok? ==> forall x :: x in species <==> x in old(species) || x == s
    {
      if HasSpecies(species, s.id) {
        return Err(PrimaryKeyViolation);
      }
      assert Keyed.Increasing(species, SpeciesKey);
      var rows, p := Keyed.InsertByKey(species, SpeciesKey, s);
      InsertKeepsReferenced(catches, species, p, s);
      species := rows;
      assert forall k :: 0 <= k < |species| ==> species[k].id == SpeciesKey(species[k]);
      r := Ok(());
    }

    /** `insertSpecies(species: Array<Species>)`: one transaction, so either every row goes in or none does. */
    method InsertSpeciesArray(batch: seq<Species>) returns (r: Result<(), DbError>)
      requires Valid()
      modifies this
      ensures Valid()
      ensures catches == old(catches) && lastId == old(lastId)
      ensures r.Ok? <==> FreshIds(batch, old(species))
      ensures r.Err? ==> r.error == PrimaryKeyViolation && species == old(species)
      ensures r.Ok? ==> |species| == |old(species)| + |batch|
      ensures r.Ok? ==> forall x :: x in species <==> x in old(species) || x in batch
    {
      var before := species;
      var i := 0;
      while i < |batch|
        invariant 0 <= i <= |batch|
        invariant Valid()
        invariant catches == old(catches) && lastId == old(lastId)
        invariant |species| == |before| + i
        invariant forall x :: x in species <==> x in before || x in batch[..i]
        invariant FreshIds(batch[..i], before)
      {
        ghost var table := species;
        var step := InsertSpecies(batch[i]);
        if step.Err? {
          TakenIdNotFresh(batch, i, before, table);
          species := before;
          return Err(step.error);
        }
        FreshIdsStep(batch, i, before, table);
        assert batch[..i + 1] == batch[..i] + [batch[i]];
        i := i + 1;
      }
      assert batch[..i] == batch;
      r := Ok(());
    }

    /**
     * `insertLanded(aCatch)`: an id of 0 asks for the next AUTOINCREMENT id, larger than
     * every id the table has held; any other id is used as given. An unknown species
     * violates the foreign key, an id already present the primary key; both change nothing.
     */
    method InsertLanded(c: Catch) returns (r: Result<int, DbError>)
      requires Valid()
      modifies this
      ensures Valid()
      ensures species == old(species)
      ensures !HasSpecies(old(species), c.speciesId) ==> r == Err(ForeignKeyViolation)
      ensures r.Ok? <==> HasSpecies(old(species), c.speciesId) && (c.id == 0 || !HasId(old(catches), c.id))
      ensures r.Err? ==> catches == old(catches) && lastId == old(lastId)
      ensures r.Ok? ==> r.value == (if c.id == 0 then old(lastId) + 1 else c.id)
      ensures r.Ok? ==> lastId == if r.value > old(lastId) then r.value else old(lastId)
      ensures r.Ok? ==> |catches| == |old(catches)| + 1
      ensures r.Ok? ==> forall x :: x in catches <==> x in old(catches) || x == c.(id := r.value)
      ensures r.Ok? && c.id == 0 ==>
        (forall k :: 0 <= k < |old(catches)| ==> old(catches)[k].id < r.value)
        && catches == old(catches) + [c.(id := r.value)]
    {
      if !HasSpecies(species, c.speciesId) {
        return Err(ForeignKeyViolation);
      }
      if c.id != 0 && HasId(catches, c.id) {
        return Err(PrimaryKeyViolation);
      }
      var id := if c.id == 0 then lastId + 1 else c.id;
      ghost var before := catches;
      var rows := InsertCatchRow(catches, species, c.(id := id));
      catches := rows;
      if id > lastId {
        lastId := id;
      }
      forall k | 0 <= k < |catches| ensures catches[k].id <= lastId {
        assert catches[k] in rows;
        if catches[k] != c.(id := id) {
          var j :| 0 <= j < |before| && before[j] == catches[k];
        }
      }
      r := Ok(id);
    }

    /** `getSpecies()`: the species rows ordered by id, which is the table's own order. */
    method GetSpecies() returns (r: seq<Species>)
      requires Valid()
      ensures r == species && SpeciesIdsIncreasing(r)
      ensures |r| == |species| && forall x :: x in r <==> x in species
    {
      r := species;
    }

    /** `getSpeciesNames()`: the names of the species rows, ordered by id. */
    method GetSpeciesNames() returns (names: seq<string>)
      requires Valid()
      ensures |names| == |species|
      ensures forall i :: 0 <= i < |species| ==> names[i] == species[i].name
    {
      names := [];
      var i := 0;
      while i < |species|
        invariant 0 <= i <= |species|
        invariant |names| == i
        invariant forall j :: 0 <= j < i ==> names[j] == species[j].name
      {
        names := names + [species[i].name];
        i := i + 1;
      }
    }

    /**
     * `getLandedsForPeriod(startedAt, finishedAt)`: exactly the catches with
     * `startedAt <= timestamp < finishedAt`, each once, ordered by species id, each
     * with its one species row.
     */
    method GetLandedsForPeriod(startedAt: int, finishedAt: int) returns (r: seq<CatchWithSpecies>)
      requires Valid()
      ensures r == Related(Join(species, catches, startedAt, finishedAt), species)
      ensures multiset(CatchesOf(r)) == multiset(Select(catches, Period(startedAt, finishedAt)))
      ensures SortedBySpecies(CatchesOf(r))
      ensures forall k :: 0 <= k < |r| ==> |r[k].species| == 1 && r[k].species[0].id == r[k].aCatch.speciesId
    {
      r := JoinScan(species, catches, startedAt, finishedAt);
      JoinedRelated(this, startedAt, finishedAt);
    }

    /** `getUnuploadedLandedsForPeriod(startedAt, finishedAt)`: the period's rows whose `uploaded` is null, in table order. */
    method GetUnuploadedLandedsForPeriod(startedAt: int, finishedAt: int) returns (r: seq<CatchWithSpecies>)
      requires Valid()
      ensures r == Related(Select(catches, UnuploadedInPeriod(startedAt, finishedAt)), species)
      ensures forall c :: c in CatchesOf(r) <==> c in catches && c.uploaded.None? && InPeriod(c, startedAt, finishedAt)
      ensures forall k :: 0 <= k < |r| ==> |r[k].species| == 1 && r[k].species[0].id == r[k].aCatch.speciesId
    {
      var crit := UnuploadedInPeriod(startedAt, finishedAt);
      r := Scan(catches, species, crit);
      CatchesOfRelated(Select(catches, crit), species);
      RelatedHaveOneSpecies(Select(catches, crit), species, catches);
    }

    /** `updateLanded(id, weight, timestamp)`: only the weight and time of the row with that id change. */
    method UpdateLanded(id: int, weight: real, timestamp: int)
      requires Valid()
      modifies this
      ensures Valid()
      ensures species == old(species) && lastId == old(lastId)
      ensures catches == Updated(old(catches), id, weight, timestamp)
    {
      UpdatesKeepKeys(catches, species, [], id, weight, 0, timestamp);
      catches := Updated(catches, id, weight, timestamp);
    }

    /**
     * `markLandedsUploaded(ids, timestamp)`: sets `uploaded` on exactly the listed rows;
     * a statement with more host parameters than SQLite allows is rejected whole.
     */
    method MarkLandedsUploaded(ids: seq<int>, timestamp: int) returns (r: Result<(), DbError>)
      requires Valid()
      modifies this
      ensures Valid()
      ensures species == old(species) && lastId == old(lastId)
      ensures r.Ok? <==> MarkParameters(ids) <= MaxHostParameters
      ensures r.Err? ==> r.error == TooManyVariables && catches == old(catches)
      ensures r.Ok? ==> catches == Marked(old(catches), ids, timestamp)
    {
      if MarkParameters(ids) > MaxHostParameters {
        return Err(TooManyVariables);
      }
      UpdatesKeepKeys(catches, species, ids, 0, 0.0, timestamp, 0);
      catches := Marked(catches, ids, timestamp);
      r := Ok(());
    }
  }

  /** The ids of a batch are distinct and none is in the table: the batch insert succeeds exactly then. */
  predicate FreshIds(batch: seq<Species>, species: seq<Species>) {
    && (forall i, j :: 0 <= i < j < |batch| ==> batch[i].id != batch[j].id)
    && (forall i :: 0 <= i < |batch| ==> !HasSpecies(species, batch[i].id))
  }

  /** A species id already taken after the first `i` rows of a batch makes the batch not fresh. */
  lemma TakenIdNotFresh(batch: seq<Species>, i: nat, before: seq<Species>, table: seq<Species>)
    requires i < |batch|
    requires forall x :: x in table <==> x in before || x in batch[..i]
    requires HasSpecies(table, batch[i].id)
    ensures !FreshIds(batch, before)
  {
    var k :| 0 <= k < |table| && table[k].id == batch[i].id;
    if table[k] in before {
      var m :| 0 <= m < |before| && before[m] == table[k];
      assert HasSpecies(before, batch[i].id);
    } else {
      var m :| 0 <= m < i && batch[..i][m] == table[k];
      assert batch[m].id == batch[i].id;
    }
  }

  /** An id the table does not hold extends a fresh prefix of the batch. */
  lemma FreshIdsStep(batch: seq<Species>, i: nat, before: seq<Species>, table: seq<Species>)
    requires i < |batch| && FreshIds(batch[..i], before)
    requires forall x :: x in table <==> x in before || x in batch[..i]
    requires !HasSpecies(table, batch[i].id)
    ensures FreshIds(batch[..i + 1], before)
  {
    forall m | 0 <= m < i ensures batch[m].id != batch[i].id {
      assert batch[m] == batch[..i][m];
      assert batch[m] in table;
    }
    forall m | 0 <= m < |before| ensures before[m].id != batch[i].id {
      assert before[m] in table;
    }
  }


  /**
   * Puts a new row into the catch table at its key position; a row whose id exceeds
   * every id present goes at the end.
   */
  method InsertCatchRow(rows: seq<Catch>, species: seq<Species>, row: Catch) returns (r: seq<Catch>)
    requires IdsIncreasing(rows) && SpeciesReferenced(rows, species)
    requires HasSpecies(species, row.speciesId) && !HasId(rows, row.id)
    ensures IdsIncreasing(r) && SpeciesReferenced(r, species)
    ensures |r| == |rows| + 1
    ensures forall x :: x in r <==> x in rows || x == row
    ensures (forall k :: 0 <= k < |rows| ==> rows[k].id < row.id) ==> r == rows + [row]
  {
    assert Keyed.Increasing(rows, CatchKey);
    var p;
    r, p := Keyed.InsertByKey(rows, CatchKey, row);
    if forall k :: 0 <= k < |rows| ==> rows[k].id < row.id {
      assert forall k :: 0 <= k < |rows| ==> CatchKey(rows[k]) < CatchKey(row);
      assert p == |rows|;
    }
    assert forall k :: 0 <= k < |r| ==> r[k].id == CatchKey(r[k]);
    forall k | 0 <= k < |r| ensures HasSpecies(species, r[k].speciesId) {
      if k < p {
        assert r[k] == rows[k];
      } else if k > p {
        assert r[k] == rows[k - 1];
      }
    }
  }

  /** One pass over the catch rows, relating each row the criterion selects. */
  method Scan(rows: seq<Catch>, species: seq<Species>, crit: Criterion) returns (r: seq<CatchWithSpecies>)
    ensures r == Related(Select(rows, crit), species)
  {
    r := [];
    ghost var sel: seq<Catch> := [];
    var j := 0;
    while j < |rows|
      invariant 0 <= j <= |rows|
      invariant sel == Select(rows[..j], crit)
      invariant r == Related(sel, species)
    {
      assert rows[..j + 1] == rows[..j] + [rows[j]];
      SelectAppend(rows[..j], rows[j], crit);
      if Holds(crit, rows[j]) {
        RelatedAppend(sel, rows[j], species);
        r := r + [Relate(rows[j], species)];
        sel := sel + [rows[j]];
      }
      j := j + 1;
    }
    assert rows[..j] == rows;
  }

  /** The join as the query plan runs it: species by species, one scan of the catch rows each. */
  method JoinScan(species: seq<Species>, rows: seq<Catch>, start: int, finish: int) returns (r: seq<CatchWithSpecies>)
    ensures r == Related(Join(species, rows, start, finish), species)
  {
    r := [];
    var i := 0;
    while i < |species|
      invariant 0 <= i <= |species|
      invariant r == Related(Join(species[..i], rows, start, finish), species)
    {
      var part := Scan(rows, species, SpeciesInPeriod(species[i].id, start, finish));
      r := r + part;
      JoinPrefixStep(species, rows, start, finish, i);
      i := i + 1;
    }
    assert species[..i] == species;
  }

  lemma {:induction false} RelatedConcat(a: seq<Catch>, b: seq<Catch>, species: seq<Species>)
    ensures Related(a + b, species) == Related(a, species) + Related(b, species)
  {
    var lhs, rhs := Related(a + b, species), Related(a, species) + Related(b, species);
    forall k | 0 <= k < |a + b| ensures lhs[k] == rhs[k] {
      if k >= |a| {
        assert (a + b)[k] == b[k - |a|];
      }
    }
  }

  /** The join over one more species relates the rows of the shorter join, then that species' rows. */
  lemma JoinPrefixStep(species: seq<Species>, rows: seq<Catch>, start: int, finish: int, i: nat)
    requires i < |species|
    ensures Related(Join(species[..i + 1], rows, start, finish), species)
      == Related(Join(species[..i], rows, start, finish), species)
      + Related(Select(rows, SpeciesInPeriod(species[i].id, start, finish)), species)
  {
    assert species[..i + 1][..i] == species[..i];
    RelatedConcat(Join(species[..i], rows, start, finish),
      Select(rows, SpeciesInPeriod(species[i].id, start, finish)), species);
  }

  /** What the related join promises: the period's rows reordered by species, each with its species. */
  lemma JoinedRelated(db: FishingDb, start: int, finish: int)
    requires db.Valid()
    ensures var r := Related(Join(db.species, db.catches, start, finish), db.species);
      && multiset(CatchesOf(r)) == multiset(Select(db.catches, Period(start, finish)))
      && SortedBySpecies(CatchesOf(r))
      && forall k :: 0 <= k < |r| ==> |r[k].species| == 1 && r[k].species[0].id == r[k].aCatch.speciesId
  {
    var joined := Join(db.species, db.catches, start, finish);
    CatchesOfRelated(joined, db.species);
    JoinIsPeriodSelection(db.species, db.catches, start, finish);
    JoinSorted(db.species, db.catches, start, finish);
    JoinMembers(db.species, db.catches, start, finish);
    RelatedHaveOneSpecies(joined, db.species, db.catches);
  }

  /** Inserting a species anywhere keeps every catch's species present. */
  lemma InsertKeepsReferenced(rows: seq<Catch>, before: seq<Species>, p: nat, s: Species)
    requires p <= |before| && SpeciesReferenced(rows, before)
    ensures SpeciesReferenced(rows, before[..p] + [s] + before[p..])
    ensures forall x :: x in before[..p] + [s] + before[p..] <==> x in before || x == s
  {
    var after := before[..p] + [s] + before[p..];
    forall k | 0 <= k < |rows| ensures HasSpecies(after, rows[k].speciesId) {
      var j :| 0 <= j < |before| && before[j].id == rows[k].speciesId;
      if j < p {
        assert after[j] == before[j];
      } else {
        assert after[j + 1] == before[j];
      }
    }
    assert before == before[..p] + before[p..];
  }

  /** Every row of a query result is a table row, so under the foreign key it relates to exactly one species. */
  lemma RelatedHaveOneSpecies(rows: seq<Catch>, species: seq<Species>, table: seq<Catch>)
    requires SpeciesIdsIncreasing(species) && SpeciesReferenced(table, species)
    requires forall c :: c in rows ==> c in table
    ensures forall k :: 0 <= k < |rows| ==>
      |Related(rows, species)[k].species| == 1
      && Related(rows, species)[k].species[0].id == rows[k].speciesId
  {
    forall k | 0 <= k < |rows|
      ensures |Related(rows, species)[k].species| == 1
      ensures Related(rows, species)[k].species[0].id == rows[k].speciesId
    {
      assert rows[k] in rows;
      var j :| 0 <= j < |table| && table[j] == rows[k];
      SpeciesWithIdUnique(species, rows[k].speciesId);
    }
  }

}
