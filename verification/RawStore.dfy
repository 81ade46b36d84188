/** The raw broker files, one for each source (autoresearch/broker/store.py, `upsert_raw`): rows are
    appended by row hash, and a hash may never come to mean another trade. */
module RawStore {
  import opened Wrappers
  import opened BrokerSchema

  function Kind(row: Row): string { Raw(Get(row, SourceKind)) }

  function Hash(row: Row): string { Raw(Get(row, RowHash)) }

  /** The raw files, by source. */
  type Files = map<string, seq<Row>>

  function FileOf(files: Files, kind: string): seq<Row> { if kind in files then files[kind] else [] }

  datatype UpsertError = MixedSources | IdentityConflict

  /** All rows come from this one source. */
  predicate OfKind(rows: seq<Row>, kind: string) { forall row | row in rows :: Kind(row) == kind }

  /** A batch has a source to be filed under when it is not empty and names just one. */
  predicate OneKind(batch: seq<Row>) { batch != [] && OfKind(batch, Kind(batch[0])) }

  predicate Agree(a: Row, b: Row) { Hash(a) == Hash(b) ==> EconomicSignature(a) == EconomicSignature(b) }

  /** Every row hash stands for one economic signature. */
  predicate OneSignature(rows: seq<Row>) { forall a, b | a in rows && b in rows :: Agree(a, b) }

  predicate HasHash(rows: seq<Row>, hash: string) { exists row :: row in rows && Hash(row) == hash }

  /** The rows of a batch whose hash is not stored yet. */
  function New(rows: seq<Row>, batch: seq<Row>): seq<Row> {
    if batch == [] then []
    else
      var n := |batch| - 1;
      New(rows, batch[..n]) + if HasHash(rows, Hash(batch[n])) then [] else [batch[n]]
  }

  function Upserted(files: Files, batch: seq<Row>): Result<Files, UpsertError> {
    if !OneKind(batch) then Err(MixedSources)
    else
      var kind := Kind(batch[0]);
      var rows := FileOf(files, kind);
      if !OneSignature(rows + batch) then Err(IdentityConflict)
      else if New(rows, batch) == [] then Ok(files)
      else Ok(files[kind := rows + New(rows, batch)])
  }

  class RawStore {
    var files: Files

    constructor ()
      ensures files == map[]
    {
      files := map[];
    }

    /** The row-hash groups of the stored and the new rows hold one signature each. */
    method CheckIdentities(rows: seq<Row>) returns (conflict: bool)
      ensures !conflict <==> OneSignature(rows)
    {
      var seen: map<string, seq<string>> := map[];
      for i := 0 to |rows|
        invariant forall row | row in rows[..i] :: Hash(row) in seen && seen[Hash(row)] == EconomicSignature(row)
        invariant forall hash | hash in seen ::
          exists row :: row in rows[..i] && Hash(row) == hash && EconomicSignature(row) == seen[hash]
      {
        var row := rows[i];
        assert rows[..i + 1] == rows[..i] + [row];
        assert row in rows;
        if Hash(row) in seen && seen[Hash(row)] != EconomicSignature(row) {
          ghost var stored :| stored in rows[..i] && Hash(stored) == Hash(row)
              && EconomicSignature(stored) == seen[Hash(row)];
          assert stored in rows && !Agree(stored, row);
          return true;
        }
        seen := seen[Hash(row) := EconomicSignature(row)];
      }
      assert rows[..|rows|] == rows;
      return false;
    }

    /** `upsert_raw`: how many rows of the batch were new, and how many were already stored. */
    method Upsert(batch: seq<Row>) returns (r: Result<(nat, nat), UpsertError>)
      modifies this
      ensures match Upserted(old(files), batch)
              case Err(error) => r == Err(error) && files == old(files)
              case Ok(after) =>
                && files == after
                && r.Ok? && r.value.0 + r.value.1 == |batch|
                && r.value.0 == |New(FileOf(old(files), Kind(batch[0])), batch)|
    {
      if !OneKind(batch) {
        return Err(MixedSources);
      }
      var kind := Kind(batch[0]);
      var rows := FileOf(files, kind);
      var conflict := CheckIdentities(rows + batch);
      if conflict {
        return Err(IdentityConflict);
      }
      var added := [];
      for i := 0 to |batch|
        invariant added == New(rows, batch[..i]) && |added| <= i
      {
        assert batch[..i + 1][..i] == batch[..i];
        if !HasHash(rows, Hash(batch[i])) {
          added := added + [batch[i]];
        }
      }
      assert batch[..|batch|] == batch;
      if added != [] {
        files := files[kind := rows + added];
      }
      return Ok((|added|, |batch| - |added|));
    }
  }

  // ---------- what one upsert leaves ----------

  lemma {:induction false} NewIsMissing(rows: seq<Row>, batch: seq<Row>)
    ensures forall row | row in New(rows, batch) :: row in batch && !HasHash(rows, Hash(row))
    ensures forall row | row in batch :: row in New(rows, batch) || HasHash(rows, Hash(row))
    decreases |batch|
  {
    if batch != [] {
      var n := |batch| - 1;
      NewIsMissing(rows, batch[..n]);
      assert batch == batch[..n] + [batch[n]];
    }
  }

  /** Every row of the batch is stored, or another row of its hash is. */
  predicate Holds(rows: seq<Row>, batch: seq<Row>) { forall row | row in batch :: HasHash(rows, Hash(row)) }

  lemma UpsertHolds(rows: seq<Row>, batch: seq<Row>)
    ensures Holds(rows + New(rows, batch), batch)
  {
    NewIsMissing(rows, batch);
    var after := rows + New(rows, batch);
    forall row | row in batch ensures HasHash(after, Hash(row)) {
      if row in New(rows, batch) {
        assert row in after;
      } else {
        var other :| other in rows && Hash(other) == Hash(row);
        assert other in after;
      }
    }
  }

  /** Each file holds rows of its own source, one signature a hash. */
  predicate Sound(files: Files) {
    forall kind | kind in files :: OfKind(files[kind], kind) && OneSignature(files[kind])
  }

  lemma UpsertKeepsSound(files: Files, batch: seq<Row>)
    requires Sound(files) && Upserted(files, batch).Ok?
    ensures Sound(Upserted(files, batch).value)
  {
    var kind := Kind(batch[0]);
    var rows := FileOf(files, kind);
    NewIsMissing(rows, batch);
    var after := rows + New(rows, batch);
    assert forall row | row in after :: row in rows + batch;
    assert OfKind(after, kind) && OneSignature(after);
  }

  // ---------- runs ----------

  /** Upserts one after another; a refused batch leaves the files alone. */
  function Run(files: Files, batches: seq<seq<Row>>): Files
    decreases |batches|
  {
    if batches == [] then files
    else
      var r := Upserted(files, batches[0]);
      Run(if r.Ok? then r.value else files, batches[1..])
  }

  lemma {:induction false} RunKeepsSound(files: Files, batches: seq<seq<Row>>)
    requires Sound(files)
    ensures Sound(Run(files, batches))
    decreases |batches|
  {
    if batches != [] {
      if Upserted(files, batches[0]).Ok? {
        UpsertKeepsSound(files, batches[0]);
        RunKeepsSound(Upserted(files, batches[0]).value, batches[1..]);
      } else {
        RunKeepsSound(files, batches[1..]);
      }
    }
  }

  /** Files only grow at the end. */
  lemma {:induction false} RunOnlyAppends(files: Files, batches: seq<seq<Row>>)
    ensures forall kind | kind in files :: kind in Run(files, batches) && files[kind] <= Run(files, batches)[kind]
    decreases |batches|
  {
    if batches != [] {
      var r := Upserted(files, batches[0]);
      RunOnlyAppends(if r.Ok? then r.value else files, batches[1..]);
    }
  }

  /** Importing a batch again, at any later time, stores nothing and is not refused. */
  lemma ReimportIsNoop(files: Files, batch: seq<Row>, batches: seq<seq<Row>>)
    requires Sound(files) && Upserted(files, batch).Ok?
    ensures var later := Run(Upserted(files, batch).value, batches);
            Upserted(later, batch) == Ok(later)
  {
    var after := Upserted(files, batch).value;
    var later := Run(after, batches);
    var kind := Kind(batch[0]);
    UpsertKeepsSound(files, batch);
    RunKeepsSound(after, batches);
    RunOnlyAppends(after, batches);
    UpsertHolds(FileOf(files, kind), batch);
    StoredSignatures(FileOf(files, kind), batch);
    HeldBatchIsNoop(FileOf(after, kind), FileOf(later, kind), batch);
  }

  /** The stored row of a hash has the signature of the batch's row. */
  predicate SignaturesHeld(rows: seq<Row>, batch: seq<Row>) {
    forall row | row in batch :: exists stored :: stored in rows && Hash(stored) == Hash(row)
                                               && EconomicSignature(stored) == EconomicSignature(row)
  }

  lemma StoredSignatures(rows: seq<Row>, batch: seq<Row>)
    requires OneSignature(rows + batch)
    ensures SignaturesHeld(rows + New(rows, batch), batch)
  {
    UpsertHolds(rows, batch);
    NewIsMissing(rows, batch);
    var after := rows + New(rows, batch);
    forall row | row in batch
      ensures exists stored :: stored in after && Hash(stored) == Hash(row)
                            && EconomicSignature(stored) == EconomicSignature(row)
    {
      var stored :| stored in after && Hash(stored) == Hash(row);
      assert stored in rows + batch && row in rows + batch;
      assert Agree(stored, row);
    }
  }

  lemma HeldBatchIsNoop(rows: seq<Row>, later: seq<Row>, batch: seq<Row>)
    requires rows <= later && OneSignature(later) && SignaturesHeld(rows, batch)
    ensures OneSignature(later + batch) && New(later, batch) == []
  {
    forall a, b | a in later + batch && b in later + batch ensures Agree(a, b) {
      var a' := Stand(rows, later, batch, a);
      var b' := Stand(rows, later, batch, b);
      assert Agree(a', b');
    }
    NewIsMissing(later, batch);
    forall row | row in batch ensures HasHash(later, Hash(row)) {
      var stored := Stand(rows, later, batch, row);
    }
    if New(later, batch) != [] {
      assert New(later, batch)[0] in New(later, batch);
    }
  }

  /** A stored row with the hash and the signature of a given one. */
  lemma Stand(rows: seq<Row>, later: seq<Row>, batch: seq<Row>, row: Row) returns (stored: Row)
    requires rows <= later && SignaturesHeld(rows, batch) && row in later + batch
    ensures stored in later && Hash(stored) == Hash(row) && EconomicSignature(stored) == EconomicSignature(row)
  {
    if row in later {
      return row;
    }
    stored :| stored in rows && Hash(stored) == Hash(row) && EconomicSignature(stored) == EconomicSignature(row);
    var k :| 0 <= k < |rows| && rows[k] == stored;
    assert later[k] == stored;
  }
}
