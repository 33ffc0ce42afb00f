/** What the backfill makes of each row, on the row's own fields, and what its three counters count. */
module BackfillRows {
  import opened Options
  import opened Backfill
  import opened BackfillLaws

  /** Rows above the zero UUID that have some text, or that have none; only those that lack an embedding if so asked. */
  function Number(t: seq<Row>, onlyMissing: bool, hasText: bool): nat {
    if t == [] then 0
    else
      var r := t[|t| - 1];
      Number(t[..|t| - 1], onlyMissing, hasText)
      + if r.id != 0 && !(onlyMissing && r.embedding.Some?) && hasText == (r.text != "") then 1 else 0
  }

  /** Rows that a pass without a limit reads. */
  function Eligible(t: seq<Row>, onlyMissing: bool): nat {
    Number(t, onlyMissing, true) + Number(t, onlyMissing, false)
  }

  lemma {:induction false} SelectSnoc(t: seq<Row>, r: Row, onlyMissing: bool)
    ensures Select(t + [r], 0, onlyMissing) ==
            if r.id != 0 && !(onlyMissing && r.embedding.Some?) then Select(t, 0, onlyMissing) + [r]
            else Select(t, 0, onlyMissing)
  {
    if t == [] {
      assert t + [r] == [r];
    } else {
      assert (t + [r])[1..] == t[1..] + [r];
      SelectSnoc(t[1..], r, onlyMissing);
    }
  }

  lemma WithTextSnoc(rows: seq<Row>, r: Row)
    ensures |WithText(rows + [r])| == |WithText(rows)| + if r.text == "" then 0 else 1
  {
    assert (rows + [r])[..|rows|] == rows;
  }

  lemma {:induction false} SelectCounts(t: seq<Row>, onlyMissing: bool)
    ensures |Select(t, 0, onlyMissing)| == Eligible(t, onlyMissing)
    ensures |WithText(Select(t, 0, onlyMissing))| == Number(t, onlyMissing, true)
  {
    if t != [] {
      var n := |t| - 1;
      assert t == t[..n] + [t[n]];
      SelectSnoc(t[..n], t[n], onlyMissing);
      SelectCounts(t[..n], onlyMissing);
      WithTextSnoc(Select(t[..n], 0, onlyMissing), t[n]);
    }
  }

  /** The first `n` selected rows are those selected from the first `k` rows of the table. */
  lemma {:induction false} SelectPrefix(t: seq<Row>, onlyMissing: bool, n: nat) returns (k: nat)
    requires n <= |Select(t, 0, onlyMissing)|
    ensures k <= |t| && Select(t[..k], 0, onlyMissing) == Select(t, 0, onlyMissing)[..n]
    ensures n == |Select(t, 0, onlyMissing)| ==> k == |t|
    decreases |t|
  {
    k := |t|;
    if n == |Select(t, 0, onlyMissing)| {
      assert t[..k] == t;
    } else {
      var m := |t| - 1;
      assert t == t[..m] + [t[m]];
      SelectSnoc(t[..m], t[m], onlyMissing);
      k := SelectPrefix(t[..m], onlyMissing, n);
      assert t[..m][..k] == t[..k];
    }
  }

  /** A row is selected from the first `k` rows exactly when it stands there, is not the zero UUID's, and does not have
      an embedding already if only missing ones are asked for. */
  lemma SelectedFrom(t: seq<Row>, onlyMissing: bool, k: nat, i: nat)
    requires Keyed(t) && i < |t| && k <= |t|
    ensures t[i].id in IdSet(Select(t[..k], 0, onlyMissing)) <==>
            i < k && t[i].id != 0 && !(onlyMissing && t[i].embedding.Some?)
  {
    var e := Select(t[..k], 0, onlyMissing);
    if t[i].id in IdSet(e) {
      var j := HasOnlyItsIds(e, t[i].id);
      SelectedAt(t[..k], 0, onlyMissing, j);
      KeyedById(t, e[j], i);
    } else if i < k {
      assert t[..k][i] == t[i];
      SelectMembers(t[..k], 0, onlyMissing, t[i]);
      if t[i] in e {
        var j :| 0 <= j < |e| && e[j] == t[i];
        HasItsIds(e, j);
      }
    }
  }

  /** `u` is `t` with the vectors written for its first `k` rows: to those above the zero UUID that have text, and
      that had no embedding if only missing ones are asked for. */
  ghost predicate Written(u: seq<Row>, t: seq<Row>, k: nat, onlyMissing: bool, embed: string -> Vector) {
    && |u| == |t| >= k
    && forall i :: 0 <= i < |t| ==>
         u[i] == if i < k && t[i].id != 0 && t[i].text != "" && !(onlyMissing && t[i].embedding.Some?)
                 then Row(t[i].id, t[i].text, Some(embed(t[i].text))) else t[i]
  }

  lemma FilledIsWritten(t: seq<Row>, job: Job, n: nat) returns (k: nat)
    requires Keyed(t) && n <= |Select(t, 0, job.onlyMissing)|
    ensures k <= |t| && Select(t[..k], 0, job.onlyMissing) == Select(t, 0, job.onlyMissing)[..n]
    ensures n == |Select(t, 0, job.onlyMissing)| ==> k == |t|
    ensures Written(Filled(t, IdSet(Select(t, 0, job.onlyMissing)[..n]), job.embed), t, k, job.onlyMissing, job.embed)
  {
    k := SelectPrefix(t, job.onlyMissing, n);
    var ids := IdSet(Select(t, 0, job.onlyMissing)[..n]);
    FilledRows(t, ids, job.embed);
    forall i | 0 <= i < |t|
      ensures t[i].id in ids <==> i < k && t[i].id != 0 && !(job.onlyMissing && t[i].embedding.Some?) {
      SelectedFrom(t, job.onlyMissing, k, i);
    }
  }

  /** However a pass ends, it has written the first `k` rows of the table, embedded counts the vectors written, and it
      has read those rows and no more than it was allowed. */
  lemma PassRows(t: seq<Row>, job: Job, plan: nat -> Fault) returns (k: nat)
    requires Keyed(t) && job.batch > 0
    ensures Written(WholePass(t, job, plan).rows, t, k, job.onlyMissing, job.embed)
    ensures WholePass(t, job, plan).stats.embedded == Number(t[..k], job.onlyMissing, true)
    ensures Eligible(t[..k], job.onlyMissing) <= WholePass(t, job, plan).stats.scanned
            <= if 0 < job.limit < Eligible(t, job.onlyMissing) then job.limit else Eligible(t, job.onlyMissing)
  {
    var n := PassFillsPrefix(t, 0, NOTHING, 0, job, plan);
    k := FilledIsWritten(t, job, n);
    SelectCounts(t[..k], job.onlyMissing);
    SelectCounts(t, job.onlyMissing);
  }

  /** An only-missing pass, however it ends, leaves every embedded row as it was; no pass writes a row without text or
      with the zero UUID, or anything but a row's own vector. */
  lemma EmbeddedRowsStay(t: seq<Row>, job: Job, plan: nat -> Fault, i: nat)
    requires Keyed(t) && job.batch > 0 && i < |t|
    ensures var u := WholePass(t, job, plan).rows;
            && |u| == |t|
            && (job.onlyMissing && t[i].embedding.Some? ==> u[i] == t[i])
            && (t[i].text == "" || t[i].id == 0 ==> u[i] == t[i])
            && (u[i] == t[i] || u[i] == Row(t[i].id, t[i].text, Some(job.embed(t[i].text))))
  {
    var k := PassRows(t, job, plan);
  }

  /** A pass that ends well has written the first `k` rows, up to the limit or the end of the table, and its counters
      are the numbers of rows read, embedded and skipped among them. */
  lemma FinishedPassRows(t: seq<Row>, job: Job, plan: nat -> Fault) returns (k: nat)
    requires Keyed(t) && job.batch > 0 && WholePass(t, job, plan).status.Done?
    ensures Written(WholePass(t, job, plan).rows, t, k, job.onlyMissing, job.embed)
    ensures var first := t[..k];
            WholePass(t, job, plan).stats == Stats(Eligible(first, job.onlyMissing),
                                                   Number(first, job.onlyMissing, true),
                                                   Number(first, job.onlyMissing, false))
    ensures if 0 < job.limit < Eligible(t, job.onlyMissing) then Eligible(t[..k], job.onlyMissing) == job.limit
            else k == |t|
  {
    var n := PassFillsPrefix(t, 0, NOTHING, 0, job, plan);
    k := FilledIsWritten(t, job, n);
    SelectCounts(t[..k], job.onlyMissing);
    SelectCounts(t, job.onlyMissing);
  }

  /** Without a limit every row that lacks an embedding and has text gets its own text's vector, every other row is
      left alone, and the counters are the numbers of rows that lacked one. */
  lemma UnlimitedPassRows(t: seq<Row>, job: Job, plan: nat -> Fault)
    requires Keyed(t) && job.batch > 0 && job.onlyMissing && job.limit <= 0 && WholePass(t, job, plan).status.Done?
    ensures var r := WholePass(t, job, plan);
            && r.stats == Stats(Eligible(t, true), Number(t, true, true), Number(t, true, false))
            && |r.rows| == |t|
            && forall i :: 0 <= i < |t| ==>
                 r.rows[i] == if t[i].id != 0 && t[i].embedding.None? && t[i].text != ""
                              then Row(t[i].id, t[i].text, Some(job.embed(t[i].text))) else t[i]
  {
    var k := FinishedPassRows(t, job, plan);
    assert t[..k] == t;
  }

  /** Any passes, however they ended, and then a complete one leave each row with its own text's vector if it lacked
      one and has text, and as it was otherwise. */
  lemma ResumedRows(t: seq<Row>, attempts: seq<Attempt>, last: Job, plan: nat -> Fault, i: nat)
    requires Keyed(t) && forall i :: 0 <= i < |attempts| ==> attempts[i].batch > 0
    requires last.batch > 0 && last.onlyMissing && last.limit <= 0 && i < |t|
    ensures var r := WholePass(AfterAttempts(t, attempts, last.embed), last, plan);
            r.status.Done? ==>
              && |r.rows| == |t|
              && r.rows[i] == if t[i].id != 0 && t[i].embedding.None? && t[i].text != ""
                              then Row(t[i].id, t[i].text, Some(last.embed(t[i].text))) else t[i]
  {
    AttemptsMissNothing(t, attempts, last.embed);
    CompletePassFillsMissing(AfterAttempts(t, attempts, last.embed), last, plan);
    FillMissingRows(t, last.embed);
  }
}
