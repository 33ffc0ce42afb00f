/** The embedding backfill: keyset pagination over a table while the loop fills in the very column the page
    filter reads, with a possible failure at every step of every page. */
module Backfill {
  import opened Options
  import opened Seqs

  type Vector = seq<real>

  /** A row of the table, with its composed embed text. Ids compare like the UUIDs they stand for; 0 is the zero
      UUID. */
  datatype Row = Row(id: nat, text: string, embedding: Option<Vector>)

  const EMBED_BATCH_SIZE := 64

  // ---- Table contents ----

  /** Rows in primary-key order. */
  ghost predicate Keyed(t: seq<Row>) {
    forall i, j :: 0 <= i < j < |t| ==> t[i].id < t[j].id
  }

  predicate Selected(r: Row, afterId: nat, onlyMissing: bool) {
    r.id > afterId && (!onlyMissing || r.embedding.None?)
  }

  function Select(t: seq<Row>, afterId: nat, onlyMissing: bool): seq<Row> {
    if t == [] then []
    else if Selected(t[0], afterId, onlyMissing) then [t[0]] + Select(t[1..], afterId, onlyMissing)
    else Select(t[1..], afterId, onlyMissing)
  }

  lemma {:induction false} SelectMembers(t: seq<Row>, afterId: nat, onlyMissing: bool, r: Row)
    ensures r in Select(t, afterId, onlyMissing) <==> r in t && Selected(r, afterId, onlyMissing)
  {
    if t != [] {
      SelectMembers(t[1..], afterId, onlyMissing, r);
      assert t == [t[0]] + t[1..];
    }
  }

  lemma SelectStep(t: seq<Row>, i: nat, afterId: nat, onlyMissing: bool)
    requires i < |t|
    ensures Select(t[i..], afterId, onlyMissing) ==
            (if Selected(t[i], afterId, onlyMissing) then [t[i]] else []) + Select(t[i + 1..], afterId, onlyMissing)
  {
  }

  function Page(t: seq<Row>, afterId: nat, limit: nat, onlyMissing: bool): seq<Row> {
    Take(Select(t, afterId, onlyMissing), limit)
  }

  /** One UPDATE: sets the embedding of the row with this id. */
  function SetEmbedding(t: seq<Row>, id: nat, v: Vector): (u: seq<Row>)
    ensures |u| == |t|
  {
    if t == [] then []
    else [if t[0].id == id then t[0].(embedding := Some(v)) else t[0]] + SetEmbedding(t[1..], id, v)
  }

  lemma {:induction false} SetEmbeddingRows(t: seq<Row>, id: nat, v: Vector)
    ensures forall i :: 0 <= i < |t| ==>
              SetEmbedding(t, id, v)[i] == if t[i].id == id then t[i].(embedding := Some(v)) else t[i]
  {
    if t != [] {
      SetEmbeddingRows(t[1..], id, v);
    }
  }

  function Updated(t: seq<Row>, ids: seq<nat>, vecs: seq<Vector>): seq<Row>
    requires |ids| == |vecs|
  {
    if ids == [] then t
    else SetEmbedding(Updated(t, ids[..|ids| - 1], vecs[..|ids| - 1]), ids[|ids| - 1], vecs[|ids| - 1])
  }

  ghost predicate SameKeys(t: seq<Row>, u: seq<Row>) {
    |u| == |t| && forall i :: 0 <= i < |t| ==> u[i].id == t[i].id
  }

  lemma {:induction false} UpdatedKeepsKeys(t: seq<Row>, ids: seq<nat>, vecs: seq<Vector>)
    requires |ids| == |vecs|
    ensures SameKeys(t, Updated(t, ids, vecs))
    decreases |ids|
  {
    if ids != [] {
      UpdatedKeepsKeys(t, ids[..|ids| - 1], vecs[..|ids| - 1]);
      SetEmbeddingRows(Updated(t, ids[..|ids| - 1], vecs[..|ids| - 1]), ids[|ids| - 1], vecs[|ids| - 1]);
    }
  }

  // ---- The store ----

  class Store {
    var rows: seq<Row>

    ghost predicate Valid()
      reads this
    {
      Keyed(rows)
    }

    constructor (rows: seq<Row>)
      requires Keyed(rows)
      ensures Valid() && this.rows == rows
    {
      this.rows := rows;
    }

    /** Up to `limit` rows above `afterId` in key order, optionally only those without an embedding. */
    method ReadPage(afterId: nat, limit: nat, onlyMissing: bool) returns (out: seq<Row>)
      ensures out == Page(rows, afterId, limit, onlyMissing)
    {
      out := [];
      var i := 0;
      ghost var all, rest := Select(rows, afterId, onlyMissing), Select(rows, afterId, onlyMissing);
      while i < |rows| && |out| < limit
        invariant 0 <= i <= |rows| && |out| <= limit
        invariant all == out + rest && rest == Select(rows[i..], afterId, onlyMissing)
      {
        SelectStep(rows, i, afterId, onlyMissing);
        rest := Select(rows[i + 1..], afterId, onlyMissing);
        if Selected(rows[i], afterId, onlyMissing) {
          assert out + ([rows[i]] + rest) == (out + [rows[i]]) + rest;
          out := out + [rows[i]];
        }
        i := i + 1;
      }
      assert i == |rows| ==> rows[i..] == [];
    }

    /** Writes one vector per id in one transaction; a failure leaves the table as it was. */
    method UpdateBatch(ids: seq<nat>, vecs: seq<Vector>, fails: bool) returns (ok: bool)
      requires Valid() && |ids| == |vecs|
      modifies this
      ensures Valid()
      ensures ok <==> ids == [] || !fails
      ensures rows == if ok then Updated(old(rows), ids, vecs) else old(rows)
    {
      if |ids| == 0 {
        return true;
      }
      var tx := rows;
      for i := 0 to |ids|
        invariant rows == old(rows) && Valid()
        invariant tx == Updated(rows, ids[..i], vecs[..i])
      {
        assert ids[..i + 1][..i] == ids[..i] && vecs[..i + 1][..i] == vecs[..i];
        tx := SetEmbedding(tx, ids[i], vecs[i]);
      }
      assert ids[..|ids|] == ids && vecs[..|ids|] == vecs;
      if fails {
        return false;
      }
      UpdatedKeepsKeys(rows, ids, vecs);
      rows := tx;
      return true;
    }
  }

  // ---- The pass ----

  /** What goes wrong on a page, if anything: the context is cancelled before it, or one of its calls fails. */
  datatype Fault = NoFault | CtxDone | ReadError | EmbedError | ShortReply | WriteError

  datatype Stats = Stats(scanned: nat, embedded: nat, skipped: nat)

  datatype Status = Done | Failed(fault: Fault)

  datatype RunResult = RunResult(rows: seq<Row>, stats: Stats, status: Status)

  /** How many rows to ask for: a full batch, or what a positive limit still allows when that is less. */
  function PageSize(batch: int, limit: int, scanned: int): (size: int)
    ensures size <= batch && (limit > 0 ==> size <= limit - scanned)
    ensures size == batch || (limit > 0 && size == limit - scanned)
  {
    if limit <= 0 then batch
    else
      var remaining := limit - scanned;
      if remaining < batch then remaining else batch
  }

  function WithText(rows: seq<Row>): (r: seq<Row>)
    ensures |r| <= |rows|
  {
    if rows == [] then []
    else
      WithText(rows[..|rows| - 1]) + if rows[|rows| - 1].text == "" then [] else [rows[|rows| - 1]]
  }

  function IdsOf(rows: seq<Row>): (ids: seq<nat>)
    ensures |ids| == |rows|
  {
    if rows == [] then [] else IdsOf(rows[..|rows| - 1]) + [rows[|rows| - 1].id]
  }

  /** The embedder's reply, aligned with the rows it was asked about. */
  function VectorsOf(rows: seq<Row>, embed: string -> Vector): (vecs: seq<Vector>)
    ensures |vecs| == |rows|
  {
    if rows == [] then [] else VectorsOf(rows[..|rows| - 1], embed) + [embed(rows[|rows| - 1].text)]
  }

  /** Whether the fault strikes while a page is embedded; a page without any text makes no call that could fail. */
  predicate Strikes(f: Fault, page: seq<Row>) {
    WithText(page) != [] && (f == EmbedError || f == ShortReply || f == WriteError)
  }

  function Scan(s: Stats, page: seq<Row>): Stats {
    s.(scanned := s.scanned + |page|, skipped := s.skipped + |page| - |WithText(page)|)
  }

  function Count(s: Stats, page: seq<Row>): Stats {
    s.(embedded := s.embedded + |WithText(page)|)
  }

  function WritePage(t: seq<Row>, page: seq<Row>, embed: string -> Vector): seq<Row> {
    Updated(t, IdsOf(WithText(page)), VectorsOf(WithText(page), embed))
  }

  lemma {:induction false} SelectShrinks(t: seq<Row>, u: seq<Row>, low: nat, high: nat, r: Row)
    requires SameKeys(t, u) && low <= high
    ensures |Select(u, high, false)| <= |Select(t, low, false)|
    ensures r in t && low < r.id <= high ==> |Select(u, high, false)| < |Select(t, low, false)|
  {
    if t != [] {
      SelectShrinks(t[1..], u[1..], low, high, r);
    }
  }

  /** Reading on from the last row of a page leaves fewer rows above. */
  lemma PageShrinks(t: seq<Row>, afterId: nat, page: seq<Row>, onlyMissing: bool, embed: string -> Vector)
    requires page != [] && page[|page| - 1] in Select(t, afterId, onlyMissing)
    ensures |Select(WritePage(t, page, embed), page[|page| - 1].id, false)| < |Select(t, afterId, false)|
  {
    var last := page[|page| - 1];
    SelectMembers(t, afterId, onlyMissing, last);
    UpdatedKeepsKeys(t, IdsOf(WithText(page)), VectorsOf(WithText(page), embed));
    SelectShrinks(t, WritePage(t, page, embed), afterId, last.id, last);
  }

  /** What one pass is asked to do. */
  datatype Job = Job(batch: nat, onlyMissing: bool, limit: int, embed: string -> Vector)

  /** One round of the loop either ends the pass or goes on above the page it has just written. */
  datatype Turn = Stop(result: RunResult) | Continue(rows: seq<Row>, afterId: nat, stats: Stats)

  function OnePage(t: seq<Row>, afterId: nat, s: Stats, f: Fault, job: Job): Turn {
    if f == CtxDone then Stop(RunResult(t, s, Failed(CtxDone)))
    else
      var size := PageSize(job.batch, job.limit, s.scanned);
      if size <= 0 then Stop(RunResult(t, s, Done))
      else if f == ReadError then Stop(RunResult(t, s, Failed(ReadError)))
      else
        var page := Page(t, afterId, size, job.onlyMissing);
        if page == [] then Stop(RunResult(t, s, Done))
        else if Strikes(f, page) then Stop(RunResult(t, Scan(s, page), Failed(f)))
        else
          var t', s' := WritePage(t, page, job.embed), Count(Scan(s, page), page);
          if |page| < size then Stop(RunResult(t', s', Done)) else Continue(t', page[|page| - 1].id, s')
  }

  /** The rows above the last id read strictly shrink, even though skipped rows keep matching the page filter. */
  lemma OnePageShrinks(t: seq<Row>, afterId: nat, s: Stats, f: Fault, job: Job)
    requires OnePage(t, afterId, s, f, job).Continue?
    ensures var c := OnePage(t, afterId, s, f, job);
            |Select(c.rows, c.afterId, false)| < |Select(t, afterId, false)|
  {
    var page := Page(t, afterId, PageSize(job.batch, job.limit, s.scanned), job.onlyMissing);
    PageShrinks(t, afterId, page, job.onlyMissing, job.embed);
  }

  /** The pass from its round `k` on, where `plan` says what goes wrong in which round. */
  function Pass(t: seq<Row>, afterId: nat, s: Stats, k: nat, job: Job, plan: nat -> Fault): RunResult
    decreases |Select(t, afterId, false)|
  {
    var turn := OnePage(t, afterId, s, plan(k), job);
    if turn.Stop? then turn.result
    else
      OnePageShrinks(t, afterId, s, plan(k), job);
      Pass(turn.rows, turn.afterId, turn.stats, k + 1, job, plan)
  }

  /** What the round does decides the rest of the pass; a round that goes on leaves fewer rows above. */
  lemma PassTurn(t: seq<Row>, afterId: nat, s: Stats, k: nat, job: Job, plan: nat -> Fault)
    ensures var turn := OnePage(t, afterId, s, plan(k), job);
            && (turn.Stop? ==> Pass(t, afterId, s, k, job, plan) == turn.result)
            && (turn.Continue? ==>
                  && Pass(t, afterId, s, k, job, plan) ==
                     Pass(turn.rows, turn.afterId, turn.stats, k + 1, job, plan)
                  && |Select(turn.rows, turn.afterId, false)| < |Select(t, afterId, false)|)
  {
    if OnePage(t, afterId, s, plan(k), job).Continue? {
      OnePageShrinks(t, afterId, s, plan(k), job);
    }
  }

  const NOTHING := Stats(0, 0, 0)

  function WholePass(t: seq<Row>, job: Job, plan: nat -> Fault): RunResult {
    Pass(t, 0, NOTHING, 0, job, plan)
  }

  class Backfiller {
    const store: Store
    const embed: string -> Vector
    const batchSize: nat

    ghost predicate Valid()
      reads this, store
    {
      batchSize > 0 && store.Valid()
    }

    constructor (store: Store, embed: string -> Vector, batchSize: int)
      requires store.Valid()
      ensures Valid() && this.store == store && this.embed == embed
      ensures this.batchSize == if batchSize <= 0 then 64 else batchSize
    {
      this.store, this.embed := store, embed;
      this.batchSize := if batchSize <= 0 then EMBED_BATCH_SIZE else batchSize;
    }

    /** Pages through the table until it is exhausted, the limit is reached or something fails. */
    method Run(onlyMissing: bool, limit: int, plan: nat -> Fault) returns (stats: Stats, status: Status)
      requires Valid()
      modifies store
      ensures Valid()
      ensures RunResult(store.rows, stats, status) ==
              WholePass(old(store.rows), Job(batchSize, onlyMissing, limit, embed), plan)
    {
      ghost var job := Job(batchSize, onlyMissing, limit, embed);
      stats := NOTHING;
      var afterId, k := 0, 0;
      while true
        invariant Valid()
        invariant Pass(store.rows, afterId, stats, k, job, plan) == WholePass(old(store.rows), job, plan)
        decreases |Select(store.rows, afterId, false)|
      {
        PassTurn(store.rows, afterId, stats, k, job, plan);
        if plan(k) == CtxDone {
          return stats, Failed(CtxDone);
        }
        var size := PageSize(batchSize, limit, stats.scanned);
        if size <= 0 {
          break;
        }
        if plan(k) == ReadError {
          return stats, Failed(ReadError);
        }
        var page := store.ReadPage(afterId, size, onlyMissing);
        if |page| == 0 {
          break;
        }
        var ok;
        stats, ok := EmbedPage(page, stats, plan(k));
        if !ok {
          return stats, Failed(plan(k));
        }
        if |page| < size {
          break;
        }
        afterId := page[|page| - 1].id;
        k := k + 1;
      }
      status := Done;
    }

    /** The rows of the page that have text. */
    method Embeddable(page: seq<Row>) returns (rows: seq<Row>)
      ensures rows == WithText(page)
    {
      rows := [];
      for i := 0 to |page|
        invariant rows == WithText(page[..i])
      {
        assert page[..i + 1][..i] == page[..i];
        if page[i].text != "" {
          rows := rows + [page[i]];
        }
      }
      assert page[..|page|] == page;
    }

    /** Embeds the rows that have text and writes their vectors; counts the others as skipped. */
    method EmbedPage(page: seq<Row>, s: Stats, fault: Fault) returns (stats: Stats, ok: bool)
      requires Valid()
      modifies store
      ensures Valid()
      ensures ok <==> !Strikes(fault, page)
      ensures store.rows == if ok then WritePage(old(store.rows), page, embed) else old(store.rows)
      ensures stats == if ok then Count(Scan(s, page), page) else Scan(s, page)
    {
      var rows := Embeddable(page);
      stats := s.(scanned := s.scanned + |page|, skipped := s.skipped + |page| - |rows|);
      assert stats == Scan(s, page);
      WritesRows(store.rows, page, rows, embed);
      if |rows| == 0 {
        return stats, true;
      }
      ok := WriteVectors(rows, fault);
      if ok {
        stats := stats.(embedded := stats.embedded + |rows|);
      }
    }

    /** Asks the embedder for all vectors at once and writes them, if both succeed. */
    method WriteVectors(rows: seq<Row>, fault: Fault) returns (ok: bool)
      requires Valid() && rows != []
      modifies store
      ensures Valid()
      ensures ok <==> !(fault == EmbedError || fault == ShortReply || fault == WriteError)
      ensures store.rows ==
              if ok then Updated(old(store.rows), IdsOf(rows), VectorsOf(rows, embed)) else old(store.rows)
    {
      if fault == EmbedError || fault == ShortReply {
        return false;
      }
      var vecs := VectorsOf(rows, embed);
      ok := store.UpdateBatch(IdsOf(rows), vecs, fault == WriteError);
    }
  }

  lemma WritesRows(t: seq<Row>, page: seq<Row>, rows: seq<Row>, embed: string -> Vector)
    requires rows == WithText(page)
    ensures WritePage(t, page, embed) == Updated(t, IdsOf(rows), VectorsOf(rows, embed))
    ensures rows == [] ==> WritePage(t, page, embed) == t
  {
  }
}
