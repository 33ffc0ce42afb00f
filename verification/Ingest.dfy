/** The pure parts of the ingest pipeline: what becomes of one record, the end-of-run tally, and the upsert. */
module Ingest {
  import opened Options

  type Raw = string

  datatype RawBusiness = RawBusiness(id: nat, payload: string)

  datatype Geo = Keep | DropNonMiami | DropNoAddress

  datatype Decision = TaxonomyKeep | TaxonomyBucketed | TaxonomyDrop

  datatype Taxonomy = Taxonomy(decision: Decision, category: string)

  datatype Business = Business(id: nat, payload: string, category: string, claimed: bool, friends: int)

  /** The stages a record goes through, as any total functions. `sanitize` fails on records it cannot parse. */
  datatype Stages = Stages(
    sanitize: Raw -> Option<RawBusiness>,
    geo: RawBusiness -> Geo,
    normalize: RawBusiness -> Taxonomy,
    claimed: nat -> bool,
    friends: nat -> int)

  datatype Counts = Counts(
    read: int,
    droppedGeo: int,
    droppedNoAddr: int,
    droppedCatEmpty: int,
    bucketedOther: int,
    claimedTrue: int,
    friendNonzero: int)

  const ZERO_COUNTS := Counts(0, 0, 0, 0, 0, 0, 0)

  // ---- One record ----

  datatype Verdict = Unparseable | Geography(g: Geo) | NoCategory | Survives(b: Business, bucketed: bool)

  function Judge(raw: Raw, st: Stages): Verdict {
    var rb := st.sanitize(raw);
    if rb.None? then Unparseable
    else if st.geo(rb.value) != Keep then Geography(st.geo(rb.value))
    else
      var tax := st.normalize(rb.value);
      if tax.decision == TaxonomyDrop then NoCategory
      else
        var id := rb.value.id;
        Survives(Business(id, rb.value.payload, tax.category, st.claimed(id), st.friends(id)),
                 tax.decision == TaxonomyBucketed)
  }

  function One(b: bool): int {
    if b then 1 else 0
  }

  /** The tally after one more record. An unparseable one is not counted as read. */
  function Counted(c: Counts, v: Verdict): Counts {
    Counts(c.read + One(!v.Unparseable?),
           c.droppedGeo + One(v == Geography(DropNonMiami)),
           c.droppedNoAddr + One(v == Geography(DropNoAddress)),
           c.droppedCatEmpty + One(v.NoCategory?),
           c.bucketedOther + One(v.Survives? && v.bucketed),
           c.claimedTrue + One(v.Survives? && v.b.claimed),
           c.friendNonzero + One(v.Survives? && v.b.friends > 0))
  }

  function CountAll(raws: seq<Raw>, st: Stages): Counts {
    if raws == [] then ZERO_COUNTS
    else Counted(CountAll(raws[..|raws| - 1], st), Judge(raws[|raws| - 1], st))
  }

  /** The records that survive, in file order. */
  function Survivors(raws: seq<Raw>, st: Stages): seq<Business> {
    if raws == [] then []
    else
      var v := Judge(raws[|raws| - 1], st);
      Survivors(raws[..|raws| - 1], st) + if v.Survives? then [v.b] else []
  }

  /** The tally adds up: what was read and not dropped is what is loaded. */
  lemma {:induction false} TallyAddsUp(raws: seq<Raw>, st: Stages)
    ensures var c := CountAll(raws, st);
            |Survivors(raws, st)| == c.read - c.droppedGeo - c.droppedNoAddr - c.droppedCatEmpty
  {
    if raws != [] {
      TallyAddsUp(raws[..|raws| - 1], st);
    }
  }

  class Tally {
    var read: int
    var droppedGeo: int
    var droppedNoAddr: int
    var droppedCatEmpty: int
    var bucketedOther: int
    var claimedTrue: int
    var friendNonzero: int

    function Value(): Counts
      reads this
    {
      Counts(read, droppedGeo, droppedNoAddr, droppedCatEmpty, bucketedOther, claimedTrue, friendNonzero)
    }

    constructor ()
      ensures Value() == ZERO_COUNTS
    {
      read, droppedGeo, droppedNoAddr, droppedCatEmpty := 0, 0, 0, 0;
      bucketedOther, claimedTrue, friendNonzero := 0, 0, 0;
    }

    /** Counts the record as read and runs the stages on it; unreads it if it cannot be parsed. */
    method Process(raw: Raw, st: Stages) returns (kept: Option<Business>)
      modifies this
      ensures Value() == Counted(old(Value()), Judge(raw, st))
      ensures kept == if Judge(raw, st).Survives? then Some(Judge(raw, st).b) else None
    {
      read := read + 1;
      var rb := st.sanitize(raw);
      if rb.None? {
        read := read - 1;
        return None;
      }
      var geo := st.geo(rb.value);
      if geo == DropNonMiami {
        droppedGeo := droppedGeo + 1;
        return None;
      }
      if geo == DropNoAddress {
        droppedNoAddr := droppedNoAddr + 1;
        return None;
      }
      var tax := st.normalize(rb.value);
      if tax.decision == TaxonomyDrop {
        droppedCatEmpty := droppedCatEmpty + 1;
        return None;
      }
      if tax.decision == TaxonomyBucketed {
        bucketedOther := bucketedOther + 1;
      }
      var claimed := st.claimed(rb.value.id);
      if claimed {
        claimedTrue := claimedTrue + 1;
      }
      var friends := st.friends(rb.value.id);
      if friends > 0 {
        friendNonzero := friendNonzero + 1;
      }
      return Some(Business(rb.value.id, rb.value.payload, tax.category, claimed, friends));
    }
  }

  // ---- The upsert ----

  datatype Stored = Stored(b: Business, createdAt: int)

  type Table = map<nat, Stored>

  /** The stage table carries the primary key, so the ids of staged rows never repeat. */
  predicate DistinctIds(rows: seq<Business>) {
    forall i, j :: 0 <= i < j < |rows| ==> rows[i].id != rows[j].id
  }

  /** Inserts new ids with the current time and refreshes existing ones, keeping their creation time. */
  function Upserted(t: Table, rows: seq<Business>, now: int): Table {
    if rows == [] then t
    else
      var u, r := Upserted(t, rows[..|rows| - 1], now), rows[|rows| - 1];
      u[r.id := Stored(r, if r.id in u then u[r.id].createdAt else now)]
  }

  ghost predicate HasRow(rows: seq<Business>, id: nat) {
    exists r :: r in rows && r.id == id
  }

  /** A row of the upserted table is the staged row of its id, created when that id first came, or else as before. */
  lemma {:induction false} UpsertedAt(t: Table, rows: seq<Business>, now: int, id: nat)
    requires DistinctIds(rows)
    ensures id in Upserted(t, rows, now) <==> id in t || HasRow(rows, id)
    ensures forall r :: r in rows && r.id == id ==>
              Upserted(t, rows, now)[id] == Stored(r, if id in t then t[id].createdAt else now)
    ensures id in t && !HasRow(rows, id) ==> Upserted(t, rows, now)[id] == t[id]
  {
    if rows != [] {
      var n := |rows| - 1;
      UpsertedAt(t, rows[..n], now, id);
      assert rows == rows[..n] + [rows[n]];
      forall r | r in rows[..n] ensures r.id != rows[n].id {
        var i :| 0 <= i < n && rows[i] == r;
      }
      assert HasRow(rows, id) <==> HasRow(rows[..n], id) || rows[n].id == id;
    }
  }

  /** Loading the same rows again, at any later time, changes nothing. */
  lemma UpsertTwice(t: Table, rows: seq<Business>, now: int, later: int)
    requires DistinctIds(rows)
    ensures Upserted(Upserted(t, rows, now), rows, later) == Upserted(t, rows, now)
  {
    var u := Upserted(t, rows, now);
    var w := Upserted(u, rows, later);
    forall id ensures id in w <==> id in u {
      UpsertedAt(t, rows, now, id);
      UpsertedAt(u, rows, later, id);
    }
    forall id | id in u ensures w[id] == u[id] {
      UpsertedAt(t, rows, now, id);
      UpsertedAt(u, rows, later, id);
    }
  }

  // ---- Batches ----

  const COPY_BATCH_SIZE := 500

  function Concat(batches: seq<seq<Business>>): seq<Business> {
    if batches == [] then [] else Concat(batches[..|batches| - 1]) + batches[|batches| - 1]
  }

  ghost predicate AllFull(batches: seq<seq<Business>>) {
    forall i :: 0 <= i < |batches| ==> |batches[i]| == 500
  }

  /** The rows in order, cut into full batches except possibly a shorter, non-empty last one. */
  ghost predicate Batched(batches: seq<seq<Business>>, rows: seq<Business>) {
    && Concat(batches) == rows
    && (batches == [] || (AllFull(batches[..|batches| - 1]) && 0 < |batches[|batches| - 1]| <= 500))
  }

  /** For `n` rows, no receive meets a cancelled context, and neither connecting, beginning and creating the stage nor
      the COPY of a full batch or of a shorter last one fails. */
  ghost predicate NothingFails(n: nat, fails: nat -> bool, cancels: nat -> bool) {
    && (forall k :: 0 <= k <= n ==> !cancels(k))
    && (forall k :: 0 <= k < 3 + n / COPY_BATCH_SIZE ==> !fails(k))
    && (n % COPY_BATCH_SIZE != 0 ==> !fails(3 + n / COPY_BATCH_SIZE))
  }

  /** One more row fills the batch or makes it one longer. */
  lemma NextRow(i: nat, j: nat)
    requires j == i + 1
    ensures i % COPY_BATCH_SIZE + 1 < COPY_BATCH_SIZE ==>
              j % COPY_BATCH_SIZE == i % COPY_BATCH_SIZE + 1 && j / COPY_BATCH_SIZE == i / COPY_BATCH_SIZE
    ensures i % COPY_BATCH_SIZE + 1 == COPY_BATCH_SIZE ==>
              j % COPY_BATCH_SIZE == 0 && j / COPY_BATCH_SIZE == i / COPY_BATCH_SIZE + 1
  {
  }

  lemma FailedCopy(rows: seq<Business>, j: nat, fails: nat -> bool, cancels: nat -> bool, op: nat)
    requires j <= |rows| && (fails(op) || !DistinctIds(rows[..j]))
    requires j % COPY_BATCH_SIZE == 0 ==> op < 3 + j / COPY_BATCH_SIZE
    requires j % COPY_BATCH_SIZE != 0 ==> j == |rows| && op == 3 + j / COPY_BATCH_SIZE
    ensures !(DistinctIds(rows) && NothingFails(|rows|, fails, cancels))
  {
    assert j / COPY_BATCH_SIZE <= |rows| / COPY_BATCH_SIZE;
  }

  /** Full batches of the rows before the current batch are staged, and nothing has gone wrong so far. */
  ghost predicate Filling(rows: seq<Business>, i: nat, stage: seq<Business>, batch: seq<Business>, ops: nat,
                          fails: nat -> bool, cancels: nat -> bool)
  {
    && i <= |rows| && stage + batch == rows[..i] && DistinctIds(stage)
    && |batch| == i % COPY_BATCH_SIZE && ops == 3 + i / COPY_BATCH_SIZE
    && (forall k :: 3 <= k < ops ==> !fails(k))
    && (forall k :: 0 <= k < i ==> !cancels(k))
  }

  /** The row makes the batch longer, or fills it: then it is staged, or the whole cannot succeed. */
  lemma RowTaken(rows: seq<Business>, i: nat, stage: seq<Business>, batch: seq<Business>, full: seq<Business>,
                 ops: nat, fails: nat -> bool, cancels: nat -> bool)
    requires Filling(rows, i, stage, batch, ops, fails, cancels) && i < |rows| && !cancels(i)
    requires full == batch + [rows[i]]
    ensures |full| < COPY_BATCH_SIZE ==> Filling(rows, i + 1, stage, full, ops, fails, cancels)
    ensures |full| >= COPY_BATCH_SIZE ==>
              && |full| == COPY_BATCH_SIZE
              && if !fails(ops) && DistinctIds(stage + full)
                 then Filling(rows, i + 1, stage + full, [], ops + 1, fails, cancels)
                 else !(DistinctIds(rows) && NothingFails(|rows|, fails, cancels))
  {
    NextRow(i, i + 1);
    assert stage + full == (stage + batch) + [rows[i]] == rows[..i + 1];
    if |full| >= COPY_BATCH_SIZE && !(!fails(ops) && DistinctIds(stage + full)) {
      FailedCopy(rows, i + 1, fails, cancels, ops);
    }
  }

  /** Staging the rest completes the rows, or the whole cannot succeed. */
  lemma RestTaken(rows: seq<Business>, stage: seq<Business>, batch: seq<Business>, ops: nat, fails: nat -> bool,
                  cancels: nat -> bool)
    requires Filling(rows, |rows|, stage, batch, ops, fails, cancels) && !cancels(|rows|)
    ensures stage + batch == rows && |batch| < COPY_BATCH_SIZE && ops == 3 + |rows| / COPY_BATCH_SIZE
    ensures !fails(0) && !fails(1) && !fails(2) ==>
              (batch == [] || (!fails(ops) && DistinctIds(stage + batch)) <==>
               DistinctIds(rows) && NothingFails(|rows|, fails, cancels))
  {
    assert rows[..|rows|] == rows;
    assert batch == [] ==> stage + batch == stage;
  }

  lemma BatchCopied(batches: seq<seq<Business>>, batch: seq<Business>)
    ensures Concat(batches + [batch]) == Concat(batches) + batch
    ensures AllFull(batches) && |batch| == COPY_BATCH_SIZE ==> AllFull(batches + [batch])
    ensures AllFull(batches) && 0 < |batch| <= COPY_BATCH_SIZE ==> Batched(batches + [batch], Concat(batches) + batch)
    ensures AllFull(batches) && batch == [] ==> Batched(batches, Concat(batches) + batch)
  {
    assert (batches + [batch])[..|batches|] == batches;
  }

  // ---- The loader on a channel that has been filled and closed ----

  class Loader {
    var table: Table

    constructor (table: Table)
      ensures this.table == table
    {
      this.table := table;
    }

    /** Drains the rows in one transaction: batches into the stage table, then one upsert, then the commit. `fails` says
        which database operation fails, counted from 0, and `cancels` at which receive the cancelled context wins. */
    method Load(rows: seq<Business>, now: int, fails: nat -> bool, cancels: nat -> bool)
      returns (total: nat, ok: bool, ghost batches: seq<seq<Business>>)
      modifies this
      ensures ok ==> total == |rows| && Batched(batches, rows) && DistinctIds(rows)
      ensures table == if ok then Upserted(old(table), rows, now) else old(table)
      ensures ok <==> DistinctIds(rows) && NothingFails(|rows|, fails, cancels)
                      && !fails(4 + |rows| / COPY_BATCH_SIZE) && !fails(5 + |rows| / COPY_BATCH_SIZE)
    {
      total, ok, batches := 0, false, [];
      if fails(0) || fails(1) || fails(2) {
        return;
      }
      var stage;
      var ops;
      stage, total, ops, ok, batches := CopyAll(rows, fails, cancels);
      if !ok {
        total := 0;
        return;
      }
      var tx := Upserted(table, stage, now);
      if fails(ops) || fails(ops + 1) {
        return 0, false, batches;
      }
      table := tx;
    }

    /** Fills a batch row by row, copies it to the stage when it is full, and copies the rest at the end. */
    method CopyAll(rows: seq<Business>, fails: nat -> bool, cancels: nat -> bool)
      returns (stage: seq<Business>, total: nat, ops: nat, ok: bool, ghost batches: seq<seq<Business>>)
      ensures ok ==> stage == rows && total == |rows| && Batched(batches, rows)
      ensures ok ==> ops == 4 + |rows| / COPY_BATCH_SIZE
      ensures !fails(0) && !fails(1) && !fails(2) ==>
                (ok <==> DistinctIds(rows) && NothingFails(|rows|, fails, cancels))
    {
      stage, total, ops, ok, batches := [], 0, 3, true, [];
      var batch: seq<Business> := [];
      for i := 0 to |rows|
        invariant ok && Filling(rows, i, stage, batch, ops, fails, cancels)
        invariant total == |stage| && Concat(batches) == stage && AllFull(batches)
      {
        if cancels(i) {
          ok := false;
          return;
        }
        ghost var before := batch;
        batch := batch + [rows[i]];
        RowTaken(rows, i, stage, before, batch, ops, fails, cancels);
        if |batch| < COPY_BATCH_SIZE {
          continue;
        }
        ok := CopyBatch(stage, batch, fails(ops));
        if !ok {
          return;
        }
        BatchCopied(batches, batch);
        batches := batches + [batch];
        stage, total, ops, batch := stage + batch, total + |batch|, ops + 1, [];
      }
      if cancels(|rows|) {
        ok := false;
        return;
      }
      RestTaken(rows, stage, batch, ops, fails, cancels);
      ok := CopyBatch(stage, batch, fails(ops));
      BatchCopied(batches, batch);
      if ok && |batch| > 0 {
        batches := batches + [batch];
      }
      stage, total, ops := stage + batch, total + |batch|, ops + 1;
    }

    /** Copies one batch; an empty batch is a no-op, and a repeated id violates the stage's primary key. */
    method CopyBatch(stage: seq<Business>, batch: seq<Business>, fails: bool) returns (ok: bool)
      requires DistinctIds(stage)
      ensures ok <==> batch == [] || (!fails && DistinctIds(stage + batch))
    {
      if |batch| == 0 {
        return true;
      }
      return !fails && DistinctIds(stage + batch);
    }
  }
}
