/** What a backfill pass leaves in the table, whether it ends well or fails on some page, and what a later pass makes
    of a table that earlier passes left half done. */
module BackfillLaws {
  import opened Options
  import opened Seqs
  import opened Backfill

  function IdSet(rows: seq<Row>): set<nat> {
    if rows == [] then {} else IdSet(rows[..|rows| - 1]) + {rows[|rows| - 1].id}
  }

  lemma {:induction false} HasItsIds(rows: seq<Row>, i: nat)
    requires i < |rows|
    ensures rows[i].id in IdSet(rows)
  {
    if i < |rows| - 1 {
      HasItsIds(rows[..|rows| - 1], i);
    }
  }

  lemma {:induction false} HasOnlyItsIds(rows: seq<Row>, id: nat) returns (i: nat)
    requires id in IdSet(rows)
    ensures i < |rows| && rows[i].id == id
  {
    if id == rows[|rows| - 1].id {
      i := |rows| - 1;
    } else {
      i := HasOnlyItsIds(rows[..|rows| - 1], id);
    }
  }

  lemma {:induction false} IdSetConcat(a: seq<Row>, b: seq<Row>)
    ensures IdSet(a + b) == IdSet(a) + IdSet(b)
    decreases |b|
  {
    if b == [] {
      assert a + b == a;
    } else {
      assert (a + b)[..|a + b| - 1] == a + b[..|b| - 1];
      IdSetConcat(a, b[..|b| - 1]);
    }
  }

  function FilledRow(r: Row, embed: string -> Vector): Row {
    if r.text == "" then r else r.(embedding := Some(embed(r.text)))
  }

  /** Every row with one of these ids and some text carries its own text's vector; all else is as it was. */
  function Filled(t: seq<Row>, ids: set<nat>, embed: string -> Vector): (u: seq<Row>)
    ensures |u| == |t|
  {
    if t == [] then []
    else [if t[0].id in ids then FilledRow(t[0], embed) else t[0]] + Filled(t[1..], ids, embed)
  }

  lemma {:induction false} FilledRows(t: seq<Row>, ids: set<nat>, embed: string -> Vector)
    ensures forall i :: 0 <= i < |t| ==>
              Filled(t, ids, embed)[i] == if t[i].id in ids then FilledRow(t[i], embed) else t[i]
  {
    if t != [] {
      FilledRows(t[1..], ids, embed);
    }
  }

  /** The goal of an only-missing pass: every row above the zero UUID that lacks an embedding and has text gets one. */
  function FillMissing(t: seq<Row>, embed: string -> Vector): (u: seq<Row>)
    ensures |u| == |t|
  {
    if t == [] then []
    else [if Selected(t[0], 0, true) then FilledRow(t[0], embed) else t[0]] + FillMissing(t[1..], embed)
  }

  lemma {:induction false} FillMissingRows(t: seq<Row>, embed: string -> Vector)
    ensures forall i :: 0 <= i < |t| ==>
              FillMissing(t, embed)[i] == if Selected(t[i], 0, true) then FilledRow(t[i], embed) else t[i]
  {
    if t != [] {
      FillMissingRows(t[1..], embed);
    }
  }

  // ---- One page ----

  lemma KeyedById(t: seq<Row>, r: Row, i: nat)
    requires Keyed(t) && r in t && i < |t| && t[i].id == r.id
    ensures t[i] == r
  {
  }

  lemma {:induction false} UpdatedRows(t: seq<Row>, rows: seq<Row>, embed: string -> Vector)
    requires Keyed(t) && forall r :: r in rows ==> r in t && r.text != ""
    ensures Updated(t, IdsOf(rows), VectorsOf(rows, embed)) == Filled(t, IdSet(rows), embed)
    decreases |rows|
  {
    if rows == [] {
      FilledRows(t, IdSet(rows), embed);
    } else {
      var n := |rows| - 1;
      var front, last := rows[..n], rows[n];
      assert rows == front + [last];
      UpdatedRows(t, front, embed);
      assert IdsOf(rows)[..n] == IdsOf(front) && VectorsOf(rows, embed)[..n] == VectorsOf(front, embed);
      SetIsFilled(t, IdSet(front), last, embed);
    }
  }

  lemma SetIsFilled(t: seq<Row>, ids: set<nat>, r: Row, embed: string -> Vector)
    requires Keyed(t) && r in t && r.text != ""
    ensures SetEmbedding(Filled(t, ids, embed), r.id, embed(r.text)) == Filled(t, ids + {r.id}, embed)
  {
    var u := Filled(t, ids, embed);
    var v := SetEmbedding(u, r.id, embed(r.text));
    FilledRows(t, ids, embed);
    FilledRows(t, ids + {r.id}, embed);
    SetEmbeddingRows(u, r.id, embed(r.text));
    forall i | 0 <= i < |t| ensures v[i] == Filled(t, ids + {r.id}, embed)[i] {
      if t[i].id == r.id {
        KeyedById(t, r, i);
        assert u[i].id == r.id;
      }
    }
  }

  lemma {:induction false} WithTextMembers(rows: seq<Row>, r: Row)
    ensures r in WithText(rows) <==> r in rows && r.text != ""
  {
    if rows != [] {
      assert rows == rows[..|rows| - 1] + [rows[|rows| - 1]];
      WithTextMembers(rows[..|rows| - 1], r);
    }
  }

  lemma TextRowOfPage(t: seq<Row>, page: seq<Row>, i: nat)
    requires Keyed(t) && i < |t| && t[i].text != "" && forall r :: r in page ==> r in t
    ensures t[i].id in IdSet(page) <==> t[i].id in IdSet(WithText(page))
  {
    if t[i].id in IdSet(page) {
      var j := HasOnlyItsIds(page, t[i].id);
      KeyedById(t, page[j], i);
      WithTextMembers(page, page[j]);
      var k :| 0 <= k < |WithText(page)| && WithText(page)[k] == page[j];
      HasItsIds(WithText(page), k);
    }
    if t[i].id in IdSet(WithText(page)) {
      var k := HasOnlyItsIds(WithText(page), t[i].id);
      WithTextMembers(page, WithText(page)[k]);
      var j :| 0 <= j < |page| && page[j] == WithText(page)[k];
      HasItsIds(page, j);
    }
  }

  lemma WritePageFills(t: seq<Row>, page: seq<Row>, embed: string -> Vector)
    requires Keyed(t) && forall r :: r in page ==> r in t
    ensures WritePage(t, page, embed) == Filled(t, IdSet(page), embed)
  {
    forall r | r in WithText(page) ensures r in t && r.text != "" {
      WithTextMembers(page, r);
    }
    UpdatedRows(t, WithText(page), embed);
    forall i | 0 <= i < |t| && t[i].text != "" ensures t[i].id in IdSet(page) <==> t[i].id in IdSet(WithText(page)) {
      TextRowOfPage(t, page, i);
    }
    FilledRows(t, IdSet(page), embed);
    FilledRows(t, IdSet(WithText(page)), embed);
  }

  // ---- Successive pages read successive stretches of the selection ----

  lemma {:induction false} SelectFrom(t: seq<Row>, low: nat, high: nat, onlyMissing: bool)
    requires forall i :: 0 <= i < |t| ==> t[i].id > low && t[i].id > high
    ensures Select(t, low, onlyMissing) == Select(t, high, onlyMissing)
  {
    if t != [] {
      SelectFrom(t[1..], low, high, onlyMissing);
    }
  }

  lemma SelectedAt(t: seq<Row>, afterId: nat, onlyMissing: bool, m: nat)
    requires m < |Select(t, afterId, onlyMissing)|
    ensures Select(t, afterId, onlyMissing)[m] in t
    ensures Selected(Select(t, afterId, onlyMissing)[m], afterId, onlyMissing)
  {
    SelectMembers(t, afterId, onlyMissing, Select(t, afterId, onlyMissing)[m]);
  }

  lemma {:induction false} SelectAfter(t: seq<Row>, afterId: nat, onlyMissing: bool, before: seq<Row>, last: Row,
                                       after: seq<Row>)
    requires Keyed(t) && Select(t, afterId, onlyMissing) == before + [last] + after
    ensures Select(t, last.id, onlyMissing) == after
  {
    assert last in before + [last] + after;
    if !Selected(t[0], afterId, onlyMissing) {
      FirstBelow(t, afterId, onlyMissing, last);
      SelectAfter(t[1..], afterId, onlyMissing, before, last, after);
    } else {
      AfterFirst(t[0], Select(t[1..], afterId, onlyMissing), before, last, after);
      if before == [] {
        SelectFrom(t[1..], afterId, last.id, onlyMissing);
      } else {
        FirstBelow(t, afterId, onlyMissing, last);
        SelectAfter(t[1..], afterId, onlyMissing, before[1..], last, after);
      }
    }
  }

  lemma AfterFirst(r: Row, rest: seq<Row>, before: seq<Row>, last: Row, after: seq<Row>)
    requires [r] + rest == before + [last] + after
    ensures before == [] ==> last == r && rest == after
    ensures before != [] ==> last in rest && rest == before[1..] + [last] + after
  {
    var all := before + [last] + after;
    assert rest == all[1..] && r == all[0];
    if before == [] {
      assert all[1..] == after;
    } else {
      assert all[1..] == before[1..] + [last] + after;
      assert all[1..][|before| - 1] == last;
    }
  }

  lemma FirstBelow(t: seq<Row>, afterId: nat, onlyMissing: bool, r: Row)
    requires Keyed(t) && t != [] && r in Select(t[1..], afterId, onlyMissing)
    ensures t[0].id < r.id
  {
    SelectMembers(t[1..], afterId, onlyMissing, r);
  }

  lemma {:induction false} SelectAscends(t: seq<Row>, afterId: nat, onlyMissing: bool)
    requires Keyed(t)
    ensures Keyed(Select(t, afterId, onlyMissing))
  {
    if t != [] {
      SelectAscends(t[1..], afterId, onlyMissing);
      var rest := Select(t[1..], afterId, onlyMissing);
      forall i | 0 <= i < |rest| ensures t[0].id < rest[i].id {
        SelectedAt(t[1..], afterId, onlyMissing, i);
      }
    }
  }

  lemma {:induction false} SelectUntouched(t: seq<Row>, ids: set<nat>, high: nat, onlyMissing: bool,
                                           embed: string -> Vector)
    requires forall id :: id in ids ==> id <= high
    ensures Select(Filled(t, ids, embed), high, onlyMissing) == Select(t, high, onlyMissing)
  {
    if t != [] {
      SelectUntouched(t[1..], ids, high, onlyMissing, embed);
      assert Filled(t, ids, embed)[1..] == Filled(t[1..], ids, embed);
    }
  }

  /** Reading on after a written page finds exactly what the first selection had left. */
  lemma NextSelection(t: seq<Row>, afterId: nat, onlyMissing: bool, m: nat, embed: string -> Vector)
    requires Keyed(t) && 0 < m <= |Select(t, afterId, onlyMissing)|
    ensures var e := Select(t, afterId, onlyMissing);
            Select(Filled(t, IdSet(e[..m]), embed), e[m - 1].id, onlyMissing) == e[m..]
  {
    var e := Select(t, afterId, onlyMissing);
    SelectAscends(t, afterId, onlyMissing);
    assert e == e[..m - 1] + [e[m - 1]] + e[m..];
    SelectAfter(t, afterId, onlyMissing, e[..m - 1], e[m - 1], e[m..]);
    forall id | id in IdSet(e[..m]) ensures id <= e[m - 1].id {
      var i := HasOnlyItsIds(e[..m], id);
    }
    SelectUntouched(t, IdSet(e[..m]), e[m - 1].id, onlyMissing, embed);
  }

  lemma FilledTwice(t: seq<Row>, a: set<nat>, b: set<nat>, embed: string -> Vector)
    ensures Filled(Filled(t, a, embed), b, embed) == Filled(t, a + b, embed)
  {
  }

  // ---- The whole pass ----

  /** How many of `e` selected rows a pass scans when it runs to its end. */
  function Quota(limit: int, scanned: nat, e: nat): nat {
    if limit <= 0 then e else if limit - scanned <= 0 then 0 else if limit - scanned < e then limit - scanned else e
  }

  lemma {:induction false} WithTextConcat(a: seq<Row>, b: seq<Row>)
    ensures |WithText(a + b)| == |WithText(a)| + |WithText(b)|
    decreases |b|
  {
    if b == [] {
      assert a + b == a;
    } else {
      assert (a + b)[..|a + b| - 1] == a + b[..|b| - 1];
      WithTextConcat(a, b[..|b| - 1]);
    }
  }

  function Tally(s: Stats, rows: seq<Row>): Stats {
    Count(Scan(s, rows), rows)
  }

  /** `r` is how a pass ends that has `e` selected: a prefix of `n` rows is filled in `t` and counted as embedded, and
      when it ends well that prefix is everything it was asked for and is what it has tallied. */
  ghost predicate FillsPrefix(r: RunResult, t: seq<Row>, e: seq<Row>, n: nat, s: Stats, limit: int,
                              embed: string -> Vector)
  {
    && n <= Quota(limit, s.scanned, |e|) <= |e|
    && r.rows == Filled(t, IdSet(e[..n]), embed)
    && r.stats.embedded == s.embedded + |WithText(e[..n])|
    && s.scanned + n <= r.stats.scanned <= s.scanned + Quota(limit, s.scanned, |e|)
    && (r.status.Done? ==> Accounted(r.stats, e, n, s, limit))
  }

  ghost predicate Accounted(end: Stats, e: seq<Row>, n: nat, s: Stats, limit: int)
    requires n <= |e|
  {
    n == Quota(limit, s.scanned, |e|) && end == Tally(s, e[..n])
  }

  lemma NothingFilled(t: seq<Row>, e: seq<Row>, embed: string -> Vector)
    ensures Filled(t, IdSet(e[..0]), embed) == t
  {
  }

  lemma PageWritten(t: seq<Row>, afterId: nat, onlyMissing: bool, m: nat, embed: string -> Vector)
    requires Keyed(t) && m <= |Select(t, afterId, onlyMissing)|
    ensures var page := Select(t, afterId, onlyMissing)[..m];
            WritePage(t, page, embed) == Filled(t, IdSet(page), embed)
  {
    var page := Select(t, afterId, onlyMissing)[..m];
    forall r | r in page ensures r in t {
      SelectMembers(t, afterId, onlyMissing, r);
    }
    WritePageFills(t, page, embed);
  }

  /** A first page of `m` rows and a prefix of the rest make a prefix of the whole. */
  lemma JoinPrefixes(r: RunResult, t: seq<Row>, e: seq<Row>, m: nat, n': nat, n: nat, s: Stats,
                     limit: int, embed: string -> Vector)
    requires n == m + n' && m <= |e| && (limit > 0 ==> m <= limit - s.scanned)
    requires FillsPrefix(r, Filled(t, IdSet(e[..m]), embed), e[m..], n', Tally(s, e[..m]), limit, embed)
    ensures FillsPrefix(r, t, e, n, s, limit, embed)
  {
    var page, more := e[..m], e[m..][..n'];
    assert e[..n] == page + more;
    IdSetConcat(page, more);
    FilledTwice(t, IdSet(page), IdSet(more), embed);
    WithTextConcat(page, more);
  }

  /** A round that has filled a full page and goes on behind it. */
  ghost predicate GoesOn(turn: Turn, t: seq<Row>, e: seq<Row>, m: nat, s: Stats, limit: int, embed: string -> Vector) {
    && turn.Continue? && 0 < m <= |e| && (limit > 0 ==> m <= limit - s.scanned)
    && turn.rows == Filled(t, IdSet(e[..m]), embed) && turn.afterId == e[m - 1].id && turn.stats == Tally(s, e[..m])
  }

  lemma NextTurn(t: seq<Row>, afterId: nat, turn: Turn, m: nat, s: Stats, job: Job)
    requires Keyed(t) && GoesOn(turn, t, Select(t, afterId, job.onlyMissing), m, s, job.limit, job.embed)
    ensures Keyed(turn.rows)
    ensures Select(turn.rows, turn.afterId, job.onlyMissing) == Select(t, afterId, job.onlyMissing)[m..]
  {
    NextSelection(t, afterId, job.onlyMissing, m, job.embed);
    FilledRows(t, IdSet(Select(t, afterId, job.onlyMissing)[..m]), job.embed);
  }

  lemma IdleTurn(t: seq<Row>, afterId: nat, s: Stats, f: Fault, job: Job)
    requires job.batch > 0
    requires var e, size := Select(t, afterId, job.onlyMissing), PageSize(job.batch, job.limit, s.scanned);
             f == CtxDone || size <= 0 || f == ReadError || e == [] || Strikes(f, Take(e, size))
    ensures var turn := OnePage(t, afterId, s, f, job);
            && turn.Stop? && turn.result.rows == t
            && turn.result.stats.embedded == s.embedded
            && s.scanned <= turn.result.stats.scanned
                         <= s.scanned + Quota(job.limit, s.scanned, |Select(t, afterId, job.onlyMissing)|)
            && (turn.result.status.Done? ==>
                  && Quota(job.limit, s.scanned, |Select(t, afterId, job.onlyMissing)|) == 0
                  && turn.result.stats == s)
  {
  }

  lemma IdleFills(t: seq<Row>, afterId: nat, s: Stats, f: Fault, job: Job, m: nat)
    requires job.batch > 0 && m == 0
    requires var e, size := Select(t, afterId, job.onlyMissing), PageSize(job.batch, job.limit, s.scanned);
             f == CtxDone || size <= 0 || f == ReadError || e == [] || Strikes(f, Take(e, size))
    ensures var e, turn := Select(t, afterId, job.onlyMissing), OnePage(t, afterId, s, f, job);
            turn.Stop? && FillsPrefix(turn.result, t, e, m, s, job.limit, job.embed)
  {
    IdleTurn(t, afterId, s, f, job);
    NothingFilled(t, Select(t, afterId, job.onlyMissing), job.embed);
  }

  /** One round either ends the pass with a filled prefix or has filled a full page and goes on behind it. */
  lemma TurnFills(t: seq<Row>, afterId: nat, s: Stats, f: Fault, job: Job) returns (m: nat)
    requires Keyed(t) && job.batch > 0
    ensures var e, turn := Select(t, afterId, job.onlyMissing), OnePage(t, afterId, s, f, job);
            && (turn.Stop? ==> FillsPrefix(turn.result, t, e, m, s, job.limit, job.embed))
            && (turn.Continue? ==> GoesOn(turn, t, e, m, s, job.limit, job.embed))
  {
    var e := Select(t, afterId, job.onlyMissing);
    var size := PageSize(job.batch, job.limit, s.scanned);
    if f == CtxDone || size <= 0 || f == ReadError || e == [] || Strikes(f, Take(e, size)) {
      m := 0;
      IdleFills(t, afterId, s, f, job, m);
    } else {
      m := |Take(e, size)|;
      FirstPage(e, size, m);
      WritingTurn(t, afterId, s, f, job, size, e[..m]);
      PageWritten(t, afterId, job.onlyMissing, m, job.embed);
    }
  }

  lemma FirstPage(e: seq<Row>, size: nat, m: nat)
    requires size > 0 && e != [] && m == |Take(e, size)|
    ensures 0 < m <= |e| && m <= size && Take(e, size) == e[..m] && e[..m][m - 1] == e[m - 1]
    ensures m < size ==> m == |e|
  {
  }

  lemma WritingTurn(t: seq<Row>, afterId: nat, s: Stats, f: Fault, job: Job, size: nat, page: seq<Row>)
    requires job.batch > 0 && f != CtxDone && f != ReadError && size == PageSize(job.batch, job.limit, s.scanned) > 0
    requires page == Page(t, afterId, size, job.onlyMissing) && page != [] && !Strikes(f, page)
    ensures var t', s' := WritePage(t, page, job.embed), Tally(s, page);
            OnePage(t, afterId, s, f, job) == if |page| < size then Stop(RunResult(t', s', Done))
                                              else Continue(t', page[|page| - 1].id, s')
  {
  }

  /** However a pass ends, it has filled exactly a prefix of the rows that were selected when it began, in id order. */
  lemma {:induction false} PassFillsPrefix(t: seq<Row>, afterId: nat, s: Stats, k: nat, job: Job, plan: nat -> Fault)
    returns (n: nat)
    requires Keyed(t) && job.batch > 0
    ensures FillsPrefix(Pass(t, afterId, s, k, job, plan), t, Select(t, afterId, job.onlyMissing), n, s, job.limit,
                        job.embed)
    decreases |Select(t, afterId, false)|
  {
    var turn := OnePage(t, afterId, s, plan(k), job);
    if turn.Stop? {
      n := LastTurn(t, afterId, s, k, job, plan);
    } else {
      OnePageShrinks(t, afterId, s, plan(k), job);
      TurnKeepsKeys(t, afterId, s, plan(k), job);
      n := PassFillsPrefix(turn.rows, turn.afterId, turn.stats, k + 1, job, plan);
      n := JoinTurn(t, afterId, s, k, job, plan, n);
    }
  }

  lemma TurnKeepsKeys(t: seq<Row>, afterId: nat, s: Stats, f: Fault, job: Job)
    requires Keyed(t) && job.batch > 0 && OnePage(t, afterId, s, f, job).Continue?
    ensures Keyed(OnePage(t, afterId, s, f, job).rows)
  {
    var m := TurnFills(t, afterId, s, f, job);
    NextTurn(t, afterId, OnePage(t, afterId, s, f, job), m, s, job);
  }

  lemma LastTurn(t: seq<Row>, afterId: nat, s: Stats, k: nat, job: Job, plan: nat -> Fault) returns (n: nat)
    requires Keyed(t) && job.batch > 0 && OnePage(t, afterId, s, plan(k), job).Stop?
    ensures FillsPrefix(Pass(t, afterId, s, k, job, plan), t, Select(t, afterId, job.onlyMissing), n, s, job.limit,
                        job.embed)
  {
    n := TurnFills(t, afterId, s, plan(k), job);
    PassTurn(t, afterId, s, k, job, plan);
  }

  lemma JoinTurn(t: seq<Row>, afterId: nat, s: Stats, k: nat, job: Job, plan: nat -> Fault, n': nat) returns (n: nat)
    requires Keyed(t) && job.batch > 0 && OnePage(t, afterId, s, plan(k), job).Continue?
    requires var turn := OnePage(t, afterId, s, plan(k), job);
             FillsPrefix(Pass(turn.rows, turn.afterId, turn.stats, k + 1, job, plan), turn.rows,
                         Select(turn.rows, turn.afterId, job.onlyMissing), n', turn.stats, job.limit, job.embed)
    ensures FillsPrefix(Pass(t, afterId, s, k, job, plan), t, Select(t, afterId, job.onlyMissing), n, s, job.limit,
                        job.embed)
  {
    var m := TurnGoesOn(t, afterId, s, plan(k), job);
    n := m + n';
    JoinTurnAt(t, afterId, s, k, job, plan, m, n', n);
  }

  lemma TurnGoesOn(t: seq<Row>, afterId: nat, s: Stats, f: Fault, job: Job) returns (m: nat)
    requires Keyed(t) && job.batch > 0 && OnePage(t, afterId, s, f, job).Continue?
    ensures GoesOn(OnePage(t, afterId, s, f, job), t, Select(t, afterId, job.onlyMissing), m, s, job.limit, job.embed)
  {
    m := TurnFills(t, afterId, s, f, job);
  }

  lemma JoinTurnAt(t: seq<Row>, afterId: nat, s: Stats, k: nat, job: Job, plan: nat -> Fault, m: nat, n': nat,
                   n: nat)
    requires Keyed(t) && n == m + n'
    requires GoesOn(OnePage(t, afterId, s, plan(k), job), t, Select(t, afterId, job.onlyMissing), m, s, job.limit,
                    job.embed)
    requires var turn := OnePage(t, afterId, s, plan(k), job);
             FillsPrefix(Pass(turn.rows, turn.afterId, turn.stats, k + 1, job, plan), turn.rows,
                         Select(turn.rows, turn.afterId, job.onlyMissing), n', turn.stats, job.limit, job.embed)
    ensures FillsPrefix(Pass(t, afterId, s, k, job, plan), t, Select(t, afterId, job.onlyMissing), n, s, job.limit,
                        job.embed)
  {
    var turn := OnePage(t, afterId, s, plan(k), job);
    PassTurn(t, afterId, s, k, job, plan);
    NextTurn(t, afterId, turn, m, s, job);
    JoinPrefixes(Pass(turn.rows, turn.afterId, turn.stats, k + 1, job, plan), t,
                 Select(t, afterId, job.onlyMissing), m, n', n, s, job.limit, job.embed);
  }

  /** From its round `k` on, the pass goes on through every round before `j` and stops in round `j`. */
  ghost predicate StopsIn(t: seq<Row>, afterId: nat, s: Stats, k: nat, job: Job, plan: nat -> Fault, j: nat)
    decreases j - k
  {
    var turn := OnePage(t, afterId, s, plan(k), job);
    if j <= k then j == k && turn.Stop?
    else turn.Continue? && StopsIn(turn.rows, turn.afterId, turn.stats, k + 1, job, plan, j)
  }

  /** Every pass stops in some round, and a failed one reports the fault of that round. */
  lemma {:induction false} FaultReported(t: seq<Row>, afterId: nat, s: Stats, k: nat, job: Job, plan: nat -> Fault)
    returns (j: nat)
    ensures StopsIn(t, afterId, s, k, job, plan, j)
    ensures var status := Pass(t, afterId, s, k, job, plan).status;
            status.Failed? ==> status.fault == plan(j) != NoFault
    decreases |Select(t, afterId, false)|
  {
    var turn := OnePage(t, afterId, s, plan(k), job);
    PassTurn(t, afterId, s, k, job, plan);
    if turn.Continue? {
      j := FaultReported(turn.rows, turn.afterId, turn.stats, k + 1, job, plan);
      LaterRound(turn.rows, turn.afterId, turn.stats, k + 1, job, plan, j);
    } else {
      j := k;
    }
  }

  lemma {:induction false} LaterRound(t: seq<Row>, afterId: nat, s: Stats, k: nat, job: Job, plan: nat -> Fault, j: nat)
    requires StopsIn(t, afterId, s, k, job, plan, j)
    ensures k <= j
  {
  }

  /** No fault is passed over: a pass never goes on behind a cancelled context or a failed read, and stopped by one of
      them it has failed with it. */
  lemma {:induction false} FaultsNoticed(t: seq<Row>, afterId: nat, s: Stats, k: nat, job: Job, plan: nat -> Fault,
                                         j: nat)
    requires StopsIn(t, afterId, s, k, job, plan, j)
    ensures k <= j && forall i :: k <= i < j ==> plan(i) != CtxDone && plan(i) != ReadError
    ensures plan(j) == CtxDone ==> Pass(t, afterId, s, k, job, plan).status == Failed(CtxDone)
    ensures plan(j) == ReadError && job.batch > 0 && job.limit <= 0 ==>
              Pass(t, afterId, s, k, job, plan).status == Failed(ReadError)
    decreases j - k
  {
    PassTurn(t, afterId, s, k, job, plan);
    if k < j {
      var turn := OnePage(t, afterId, s, plan(k), job);
      FaultsNoticed(turn.rows, turn.afterId, turn.stats, k + 1, job, plan, j);
    }
  }

  /** A page that has text and whose vectors fail ends the pass, unwritten and not counted as embedded. */
  lemma FailedPageEnds(t: seq<Row>, afterId: nat, s: Stats, f: Fault, job: Job, r: Row)
    requires f == EmbedError || f == ShortReply || f == WriteError
    requires var size := PageSize(job.batch, job.limit, s.scanned);
             size > 0 && r in Page(t, afterId, size, job.onlyMissing) && r.text != ""
    ensures var turn := OnePage(t, afterId, s, f, job);
            && turn.Stop? && turn.result.status == Failed(f)
            && turn.result.rows == t && turn.result.stats.embedded == s.embedded
  {
    WithTextMembers(Page(t, afterId, PageSize(job.batch, job.limit, s.scanned), job.onlyMissing), r);
  }

  ghost predicate FaultFree(plan: nat -> Fault) {
    forall k :: plan(k) == NoFault
  }

  lemma FilledIsFillMissing(t: seq<Row>, embed: string -> Vector)
    ensures Filled(t, IdSet(Select(t, 0, true)), embed) == FillMissing(t, embed) || !Keyed(t)
  {
    if Keyed(t) {
      var e := Select(t, 0, true);
      FilledRows(t, IdSet(e), embed);
      FillMissingRows(t, embed);
      forall i | 0 <= i < |t| ensures t[i].id in IdSet(e) <==> Selected(t[i], 0, true) {
        SelectMembers(t, 0, true, t[i]);
        if t[i] in e {
          var j :| 0 <= j < |e| && e[j] == t[i];
          HasItsIds(e, j);
        }
        if t[i].id in IdSet(e) {
          var j := HasOnlyItsIds(e, t[i].id);
          SelectMembers(t, 0, true, e[j]);
          KeyedById(t, e[j], i);
        }
      }
    }
  }

  /** A successful only-missing pass without a limit reaches the goal and accounts for every row it scanned; it is
      successful whenever nothing fails. */
  lemma CompletePassFillsMissing(t: seq<Row>, job: Job, plan: nat -> Fault)
    requires Keyed(t) && job.batch > 0 && job.onlyMissing && job.limit <= 0
    ensures var r := WholePass(t, job, plan);
            && (r.status.Done? ==> r.rows == FillMissing(t, job.embed)
                                   && r.stats == Tally(NOTHING, Select(t, 0, true))
                                   && r.stats.scanned == r.stats.embedded + r.stats.skipped)
            && (FaultFree(plan) ==> r.status.Done?)
  {
    var n := PassFillsPrefix(t, 0, NOTHING, 0, job, plan);
    var e := Select(t, 0, true);
    assert n == |e| ==> e[..n] == e;
    FilledIsFillMissing(t, job.embed);
    var j := FaultReported(t, 0, NOTHING, 0, job, plan);
  }

  /** A successful pass over all rows, or one with a limit, scans exactly the first rows in id order that it was asked
      for: all of them, or min(limit, eligible). */
  lemma FinishedPassScansFirstRows(t: seq<Row>, job: Job, plan: nat -> Fault)
    requires job.batch > 0 && Keyed(t) && WholePass(t, job, plan).status.Done?
    ensures var r := WholePass(t, job, plan);
            var e := Select(t, 0, job.onlyMissing);
            && r.stats.scanned == (if 0 < job.limit < |e| then job.limit else |e|) == r.stats.embedded + r.stats.skipped
            && r.rows == Filled(t, IdSet(e[..r.stats.scanned]), job.embed)
  {
    var n := PassFillsPrefix(t, 0, NOTHING, 0, job, plan);
  }

  // ---- Crash and resume ----

  /** One earlier only-missing pass: its batch size, its limit and what went wrong in it. */
  datatype Attempt = Attempt(batch: nat, limit: int, plan: nat -> Fault)

  /** The table after earlier passes, each ending however it did. */
  function AfterAttempts(t: seq<Row>, attempts: seq<Attempt>, embed: string -> Vector): seq<Row> {
    if attempts == [] then t
    else
      var a := attempts[|attempts| - 1];
      WholePass(AfterAttempts(t, attempts[..|attempts| - 1], embed), Job(a.batch, true, a.limit, embed), a.plan).rows
  }

  lemma FilledPrefixMissesNothing(t: seq<Row>, n: nat, embed: string -> Vector)
    requires Keyed(t) && n <= |Select(t, 0, true)|
    ensures var u := Filled(t, IdSet(Select(t, 0, true)[..n]), embed);
            Keyed(u) && FillMissing(u, embed) == FillMissing(t, embed)
  {
    var e := Select(t, 0, true);
    var u := Filled(t, IdSet(e[..n]), embed);
    forall i | 0 <= i < |t| && t[i].id in IdSet(e[..n]) ensures Selected(t[i], 0, true) {
      var j := HasOnlyItsIds(e[..n], t[i].id);
      SelectedAt(t, 0, true, j);
      KeyedById(t, e[j], i);
    }
    FilledRows(t, IdSet(e[..n]), embed);
    FillMissingRows(t, embed);
    FillMissingRows(u, embed);
  }

  lemma {:induction false} AttemptsMissNothing(t: seq<Row>, attempts: seq<Attempt>, embed: string -> Vector)
    requires Keyed(t) && forall i :: 0 <= i < |attempts| ==> attempts[i].batch > 0
    ensures var u := AfterAttempts(t, attempts, embed); Keyed(u) && FillMissing(u, embed) == FillMissing(t, embed)
    decreases |attempts|
  {
    if attempts != [] {
      var before := AfterAttempts(t, attempts[..|attempts| - 1], embed);
      var a := attempts[|attempts| - 1];
      AttemptsMissNothing(t, attempts[..|attempts| - 1], embed);
      var n := PassFillsPrefix(before, 0, NOTHING, 0, Job(a.batch, true, a.limit, embed), a.plan);
      FilledPrefixMissesNothing(before, n, embed);
    }
  }

  /** Any number of only-missing passes, each stopped by any error on any page or by a limit, with any batch sizes,
      followed by one complete pass, leave the same table as a single uninterrupted pass. */
  lemma CrashAndResume(
    t: seq<Row>, attempts: seq<Attempt>, last: Job, plan: nat -> Fault, single: Job, plan': nat -> Fault)
    requires Keyed(t) && last.embed == single.embed && forall i :: 0 <= i < |attempts| ==> attempts[i].batch > 0
    requires last.batch > 0 && last.onlyMissing && last.limit <= 0
    requires single.batch > 0 && single.onlyMissing && single.limit <= 0
    ensures var resumed := WholePass(AfterAttempts(t, attempts, last.embed), last, plan);
            var whole := WholePass(t, single, plan');
            resumed.status.Done? && whole.status.Done? ==> resumed.rows == whole.rows == FillMissing(t, last.embed)
  {
    AttemptsMissNothing(t, attempts, last.embed);
    CompletePassFillsMissing(AfterAttempts(t, attempts, last.embed), last, plan);
    CompletePassFillsMissing(t, single, plan');
  }
}
