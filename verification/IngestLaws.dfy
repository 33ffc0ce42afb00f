/** What holds in every reachable state of an ingest run, that it always finishes, and what it leaves behind. */
module IngestLaws {
  import opened Options
  import opened Ingest
  import opened IngestProtocol

  // ---- Invariants ----

  /** Stats are published once, before the channel is closed; the channel is closed once; nothing is sent after. */
  ghost predicate ChannelOk(s: State) {
    && !s.ch.misuse
    && (s.ch.closed <==> s.p.pc == Returned)
    && s.publications == (if s.p.pc == CloseOut || s.p.pc == Returned then 1 else 0)
    && |s.ch.buf| <= CHANNEL_BUFFER
    && (s.publications == 0 ==> s.done == [] && !s.m.Finished?)
    && (s.publications == 1 && !s.m.Finished? ==> s.done == [Published(s.p.counts, s.p.err)])
  }

  function Held(p: Producer): seq<Business> {
    if p.pc.Send? then [p.pc.b] else p.unsent
  }

  /** The rows staged, in the loader's batch, in the channel and in the producer's hand, in that order. */
  function InPlaces(s: State): seq<Business> {
    Concat(s.l.batches) + s.l.batch + s.ch.buf + Held(s.p)
  }

  /** Every surviving record read so far is in exactly one place, and the places are in file order. */
  ghost predicate Conserved(inp: Input, s: State) {
    && s.p.next <= |inp.raws|
    && s.p.counts == CountAll(inp.raws[..s.p.next], inp.stages)
    && InPlaces(s) == Survivors(inp.raws[..s.p.next], inp.stages)
  }

  /** Why the producer stopped. */
  ghost predicate ErrOk(inp: Input, s: State) {
    && (s.p.pc == CheckCtx || s.p.pc == Read || s.p.pc.Send? ==> s.p.err == NoErr && s.p.unsent == [])
    && (s.p.err == ContextErr ==> s.cancelled)
    && (s.p.err != ContextErr ==> s.p.unsent == []) && |s.p.unsent| <= 1
    && (s.p.pc == Publish || s.p.pc == CloseOut || s.p.pc == Returned ==>
          && (s.p.err == NoErr ==> s.p.next == |inp.raws| && inp.end == CleanEof)
          && (s.p.err == StreamErr ==> s.p.next == |inp.raws| && inp.end == ParserError))
  }

  ghost predicate LoaderOk(inp: Input, s: State) {
    var l := s.l;
    && l.total == |Concat(l.batches)| && DistinctIds(Concat(l.batches))
    && (l.pc == Flush ==> |l.batch| == COPY_BATCH_SIZE)
    && (l.pc == Acquire || l.pc == Begin || l.pc == Stage ==> l.batch == [] && l.batches == [])
    && (l.pc == Receive || l.pc == FinalFlush ==> |l.batch| < COPY_BATCH_SIZE)
    && (l.pc == Acquire || l.pc == Begin || l.pc == Stage || l.pc == Receive || l.pc == Flush || l.pc == FinalFlush ==>
          AllFull(l.batches))
    && (l.pc == FinalFlush || l.pc == Upsert || l.pc == Commit || l.pc == LoadOk ==> s.ch.closed && s.ch.buf == [])
    && (l.pc == Upsert || l.pc == Commit || l.pc == LoadOk ==> l.batch == [] && Batched(l.batches, Concat(l.batches)))
    && s.table == (if l.pc == LoadOk then Upserted(inp.table, Concat(l.batches), inp.now) else inp.table)
  }

  ghost predicate MainOk(s: State) {
    && (s.m != Loading ==> Terminal(s.l.pc) && s.cancelled)
    && (s.m.Finished? ==> s.p.pc == CloseOut || s.p.pc == Returned)
    && (s.m.Finished? ==> s.m.outcome == Report(s, Published(s.p.counts, s.p.err)))
  }

  ghost predicate Inv(inp: Input, s: State) {
    ChannelOk(s) && Conserved(inp, s) && ErrOk(inp, s) && LoaderOk(inp, s) && MainOk(s)
  }

  // ---- Every step keeps them ----

  lemma KeepsChannelOk(inp: Input, s: State, step: Step)
    requires ChannelOk(s) && Enabled(inp, s, step)
    ensures ChannelOk(Apply(inp, s, step))
  {
  }

  lemma {:induction false} ConcatSnoc(batches: seq<seq<Business>>, batch: seq<Business>)
    ensures Concat(batches + [batch]) == Concat(batches) + batch
  {
  }

  lemma ReadKeepsConserved(inp: Input, s: State)
    requires Conserved(inp, s) && s.p.unsent == [] && s.p.pc == Read && s.p.next < |inp.raws|
    ensures Conserved(inp, s.(p := AfterRead(inp, s.p)))
  {
    var k := s.p.next;
    assert inp.raws[..k + 1][..k] == inp.raws[..k];
    assert inp.raws[..k + 1][k] == inp.raws[k];
  }

  lemma DbKeepsPlaces(inp: Input, s: State, ok: bool)
    requires Enabled(inp, s, LDb(ok))
    ensures InPlaces(Apply(inp, s, LDb(ok))) == InPlaces(s)
  {
    ConcatSnoc(s.l.batches, s.l.batch);
    var t := Apply(inp, s, LDb(ok));
    assert Concat(t.l.batches) + t.l.batch == Concat(s.l.batches) + s.l.batch;
  }

  lemma ReceiveKeepsPlaces(inp: Input, s: State)
    requires Enabled(inp, s, LReceive)
    ensures InPlaces(Apply(inp, s, LReceive)) == InPlaces(s)
  {
    var b, buf := s.ch.buf[0], s.ch.buf[1..];
    assert s.ch.buf == [b] + buf;
    assert Concat(s.l.batches) + (s.l.batch + [b]) + buf == Concat(s.l.batches) + s.l.batch + ([b] + buf);
  }

  lemma SendKeepsPlaces(inp: Input, s: State)
    requires ErrOk(inp, s) && Enabled(inp, s, PSend)
    ensures InPlaces(Apply(inp, s, PSend)) == InPlaces(s)
  {
    var loaded, b := Concat(s.l.batches) + s.l.batch, s.p.pc.b;
    assert loaded + (s.ch.buf + [b]) + [] == loaded + s.ch.buf + [b];
  }

  /** Rows move between places without a change to the whole. */
  lemma MovesKeepPlaces(inp: Input, s: State, step: Step)
    requires ErrOk(inp, s) && Enabled(inp, s, step) && !step.PRead?
    ensures InPlaces(Apply(inp, s, step)) == InPlaces(s)
  {
    match step {
      case PSend => SendKeepsPlaces(inp, s);
      case LReceive => ReceiveKeepsPlaces(inp, s);
      case LDb(ok) => DbKeepsPlaces(inp, s, ok);
      case _ =>
    }
  }

  lemma KeepsConserved(inp: Input, s: State, step: Step)
    requires Conserved(inp, s) && ErrOk(inp, s) && Enabled(inp, s, step)
    ensures Conserved(inp, Apply(inp, s, step))
  {
    if !step.PRead? {
      MovesKeepPlaces(inp, s, step);
    } else if s.p.next < |inp.raws| {
      ReadKeepsConserved(inp, s);
    }
  }

  lemma KeepsErrOk(inp: Input, s: State, step: Step)
    requires ErrOk(inp, s) && s.p.next <= |inp.raws| && Enabled(inp, s, step)
    ensures ErrOk(inp, Apply(inp, s, step))
  {
  }

  lemma CopyStepKeepsLoaderOk(inp: Input, s: State)
    requires LoaderOk(inp, s) && Enabled(inp, s, LDb(true)) && (s.l.pc == Flush || s.l.pc == FinalFlush)
    ensures LoaderOk(inp, Apply(inp, s, LDb(true)))
  {
    CopyKeepsLoaderOk(s.l);
  }

  lemma OtherDbStepKeepsLoaderOk(inp: Input, s: State, ok: bool)
    requires LoaderOk(inp, s) && Enabled(inp, s, LDb(ok)) && !(ok && (s.l.pc == Flush || s.l.pc == FinalFlush))
    ensures LoaderOk(inp, Apply(inp, s, LDb(ok)))
  {
  }

  lemma KeepsLoaderOk(inp: Input, s: State, step: Step)
    requires LoaderOk(inp, s) && ChannelOk(s) && Enabled(inp, s, step)
    ensures LoaderOk(inp, Apply(inp, s, step))
  {
    if step.LDb? {
      if step.ok && (s.l.pc == Flush || s.l.pc == FinalFlush) {
        CopyStepKeepsLoaderOk(inp, s);
      } else {
        OtherDbStepKeepsLoaderOk(inp, s, step.ok);
      }
    }
  }

  lemma CopyKeepsLoaderOk(l: LoaderState)
    requires AllFull(l.batches)
    ensures var c := Copied(l, Upsert);
            && Concat(c.batches) == Concat(l.batches) + l.batch
            && (|l.batch| <= COPY_BATCH_SIZE ==> Batched(c.batches, Concat(c.batches)))
            && (|l.batch| == COPY_BATCH_SIZE ==> AllFull(c.batches))
  {
    ConcatSnoc(l.batches, l.batch);
    assert (l.batches + [l.batch])[..|l.batches|] == l.batches;
  }

  lemma KeepsMainOk(inp: Input, s: State, step: Step)
    requires Inv(inp, s) && Enabled(inp, s, step)
    ensures MainOk(Apply(inp, s, step))
  {
  }

  /** The invariant holds after every interleaving. */
  lemma {:induction false} InvAfter(inp: Input, steps: seq<Step>)
    requires After(inp, steps).Some?
    ensures Inv(inp, After(inp, steps).value)
  {
    if steps == [] {
      assert inp.raws[..0] == [];
    } else {
      var front, last := steps[..|steps| - 1], steps[|steps| - 1];
      InvAfter(inp, front);
      var s := After(inp, front).value;
      KeepsChannelOk(inp, s, last);
      KeepsConserved(inp, s, last);
      KeepsErrOk(inp, s, last);
      KeepsLoaderOk(inp, s, last);
      KeepsMainOk(inp, s, last);
    }
  }

  /** Some interleaving leads to this state. */
  ghost predicate Reachable(inp: Input, s: State) {
    exists steps :: After(inp, steps) == Some(s)
  }

  lemma ReachableInv(inp: Input, s: State)
    requires Reachable(inp, s)
    ensures Inv(inp, s)
  {
    var steps :| After(inp, steps) == Some(s);
    InvAfter(inp, steps);
  }

  /** In every reachable state: no send and no second close after the close, statistics published at most once, and
      published by the time the channel is closed; the done channel's single slot is free when they are. */
  lemma ChannelDiscipline(inp: Input, s: State)
    requires Reachable(inp, s)
    ensures !s.ch.misuse && s.publications <= 1 && |s.ch.buf| <= CHANNEL_BUFFER
    ensures s.ch.closed ==> s.publications == 1
    ensures s.p.pc == Publish ==> Enabled(inp, s, PPublish) && s.publications == 0
    ensures s.p.pc == CloseOut ==> Enabled(inp, s, PClose) && !s.ch.closed && s.publications == 1
    ensures s.m.Finished? ==> s.publications == 1
  {
    ReachableInv(inp, s);
  }

  // ---- No run gets stuck and every run ends ----

  /** A step of the program itself that can be taken now, the environment's cancellation aside. */
  function Move(s: State): Step {
    if s.m == Loading && Terminal(s.l.pc) then MCancel
    else if s.m == Waiting && s.done != [] then MWait
    else if s.m == Loading && s.l.pc == Receive && s.ch.buf != [] then LReceive
    else if s.m == Loading && s.l.pc == Receive && s.ch.closed then LReceiveClosed
    else if s.m == Loading && s.l.pc != Receive then LDb(s.l.pc == FinalFlush && s.l.batch == [])
    else
      match s.p.pc
      case CheckCtx => PCheck
      case Read => PRead
      case Send(_) => if s.cancelled then PSendCancelled else PSend
      case Publish => PPublish
      case _ => PClose
  }

  /** Unless the run has finished, some party can move. */
  lemma NeverStuck(inp: Input, s: State)
    requires Reachable(inp, s) && !s.m.Finished?
    ensures Enabled(inp, s, Move(s)) && Move(s) != EnvCancel
  {
    ReachableInv(inp, s);
  }

  function ProducerWork(inp: Input, p: Producer): nat
    requires p.next <= |inp.raws|
  {
    var left := 6 * (|inp.raws| - p.next);
    match p.pc
    case CheckCtx => left + 8
    case Read => left + 7
    case Send(_) => left + 11
    case Publish => 2
    case CloseOut => 1
    case Returned => 0
  }

  function LoaderWork(pc: LoaderPc): nat {
    match pc
    case Acquire => 14 case Begin => 13 case Stage => 12
    case Flush => 11 case Receive => 10
    case FinalFlush => 3 case Upsert => 2 case Commit => 1
    case _ => 0
  }

  function MainWork(m: MainPc): nat {
    match m
    case Loading => 2 case Waiting => 1 case Finished(_) => 0
  }

  /** What is left to do. */
  function Work(inp: Input, s: State): nat
    requires s.p.next <= |inp.raws|
  {
    ProducerWork(inp, s.p) + 2 * |s.ch.buf| + LoaderWork(s.l.pc) + MainWork(s.m) + if s.cancelled then 0 else 1
  }

  lemma ProducerStepWorks(inp: Input, s: State, step: Step)
    requires s.p.next <= |inp.raws| && Enabled(inp, s, step)
    requires step.PCheck? || step.PRead? || step.PSend? || step.PSendCancelled? || step.PPublish? || step.PClose?
    ensures Apply(inp, s, step).p.next <= |inp.raws| && Work(inp, Apply(inp, s, step)) < Work(inp, s)
  {
    if step.PRead? && s.p.next < |inp.raws| {
      var v := Judge(inp.raws[s.p.next], inp.stages);
      assert AfterRead(inp, s.p).pc == if v.Survives? then Send(v.b) else CheckCtx;
    }
  }

  lemma LoaderStepWorks(inp: Input, s: State, step: Step)
    requires s.p.next <= |inp.raws| && Enabled(inp, s, step)
    requires step.LDb? || step.LCancelled? || step.LReceive? || step.LReceiveClosed?
    ensures Apply(inp, s, step).p == s.p && Work(inp, Apply(inp, s, step)) < Work(inp, s)
  {
  }

  lemma EachStepWorks(inp: Input, s: State, step: Step)
    requires s.p.next <= |inp.raws| && Enabled(inp, s, step)
    ensures Apply(inp, s, step).p.next <= |inp.raws| && Work(inp, Apply(inp, s, step)) < Work(inp, s)
  {
    match step {
      case PCheck => ProducerStepWorks(inp, s, step);
      case PRead => ProducerStepWorks(inp, s, step);
      case PSend => ProducerStepWorks(inp, s, step);
      case PSendCancelled => ProducerStepWorks(inp, s, step);
      case PPublish => ProducerStepWorks(inp, s, step);
      case PClose => ProducerStepWorks(inp, s, step);
      case LDb(_) => LoaderStepWorks(inp, s, step);
      case LCancelled => LoaderStepWorks(inp, s, step);
      case LReceive => LoaderStepWorks(inp, s, step);
      case LReceiveClosed => LoaderStepWorks(inp, s, step);
      case _ =>
    }
  }

  /** Every interleaving is at most this long, so together with `NeverStuck` every run ends with `wait` returned. */
  lemma {:induction false} RunsAreBounded(inp: Input, steps: seq<Step>)
    requires After(inp, steps).Some?
    ensures After(inp, steps).value.p.next <= |inp.raws|
    ensures |steps| + Work(inp, After(inp, steps).value) <= 6 * |inp.raws| + 25
  {
    InvAfter(inp, steps);
    if steps != [] {
      var front, last := steps[..|steps| - 1], steps[|steps| - 1];
      RunsAreBounded(inp, front);
      InvAfter(inp, front);
      EachStepWorks(inp, After(inp, front).value, last);
    }
  }

  // ---- What a run leaves behind ----

  /** A run that reports success has read the whole stream, and has committed exactly the surviving records, in file
      order and in full batches but the last; its tally adds up. */
  lemma SuccessMeansAllLoaded(inp: Input, s: State)
    requires Reachable(inp, s) && s.m.Finished? && s.m.outcome.Success?
    ensures var kept := Survivors(inp.raws, inp.stages);
            var c, loaded := s.m.outcome.counts, s.m.outcome.loaded;
            && inp.end == CleanEof
            && s.table == Upserted(inp.table, kept, inp.now) && DistinctIds(kept)
            && Batched(s.l.batches, kept)
            && c == CountAll(inp.raws, inp.stages)
            && loaded == |kept| == c.read - c.droppedGeo - c.droppedNoAddr - c.droppedCatEmpty
  {
    ReachableInv(inp, s);
    TallyAddsUp(inp.raws, inp.stages);
    LoadedRows(inp, s);
    assert inp.raws[..|inp.raws|] == inp.raws;
  }

  lemma LoadedRows(inp: Input, s: State)
    requires Inv(inp, s) && s.l.pc == LoadOk
    ensures Concat(s.l.batches) + s.p.unsent == Survivors(inp.raws[..s.p.next], inp.stages)
    ensures s.p.err != ContextErr ==> Concat(s.l.batches) == Survivors(inp.raws[..s.p.next], inp.stages)
  {
    assert s.p.pc == Returned;
  }

  /** A loading error leaves the table as it was, whatever had been staged. */
  lemma LoadingErrorChangesNothing(inp: Input, s: State)
    requires Reachable(inp, s) && s.l.pc == LoadErr
    ensures s.table == inp.table
    ensures s.m.Finished? ==> s.m.outcome == LoadingFailed
  {
    ReachableInv(inp, s);
  }

  /** A stream that breaks off does not undo the load: the run reports an error, and the survivors of everything before
      the break are committed all the same. */
  lemma BrokenStreamStillCommits(inp: Input, s: State)
    requires Reachable(inp, s) && s.m == Finished(ProducingFailed(StreamErr))
    ensures inp.end == ParserError
    ensures s.table == Upserted(inp.table, Survivors(inp.raws, inp.stages), inp.now)
  {
    ReachableInv(inp, s);
    LoadedRows(inp, s);
    assert inp.raws[..|inp.raws|] == inp.raws;
  }

  /** `rows` are the survivors of the first `k` records, short of at most the one the producer was cancelled with. */
  ghost predicate PrefixRows(inp: Input, k: nat, rows: seq<Business>, unsent: seq<Business>) {
    k <= |inp.raws| && |unsent| <= 1 && rows + unsent == Survivors(inp.raws[..k], inp.stages)
  }

  /** In every reachable state the table holds what it held before, or, once the commit has succeeded and only then,
      also the survivors of a prefix of the stream; nothing else is ever visible. */
  lemma TableIsAllOrPrefix(inp: Input, s: State)
    requires Reachable(inp, s)
    ensures s.l.pc != LoadOk ==> s.table == inp.table
    ensures s.l.pc == LoadOk ==> s.table == Upserted(inp.table, Concat(s.l.batches), inp.now) &&
                                 PrefixRows(inp, s.p.next, Concat(s.l.batches), s.p.unsent)
  {
    ReachableInv(inp, s);
    if s.l.pc == LoadOk {
      LoadedRows(inp, s);
    }
  }

  /** Ingesting the same file again leaves the table as the first successful run left it, creation times included. */
  lemma ReingestChangesNothing(inp: Input, s: State, later: int, s': State)
    requires Reachable(inp, s) && s.m.Finished? && s.m.outcome.Success?
    requires Reachable(inp.(table := s.table, now := later), s') && s'.m.Finished? && s'.m.outcome.Success?
    ensures s'.table == s.table
  {
    SuccessMeansAllLoaded(inp, s);
    SuccessMeansAllLoaded(inp.(table := s.table, now := later), s');
    UpsertTwice(inp.table, Survivors(inp.raws, inp.stages), inp.now, later);
  }

  // ---- Runs in which nothing fails ----

  /** No database operation fails and nothing is cancelled from outside. */
  ghost predicate Undisturbed(steps: seq<Step>) {
    forall i :: 0 <= i < |steps| ==> steps[i] != LDb(false) && steps[i] != EnvCancel
  }

  ghost predicate Quiet(s: State) {
    s.l.pc != LoadErr && (s.cancelled ==> s.l.pc == LoadOk) && s.p.err != ContextErr
  }

  lemma QuietStep(inp: Input, s: State, step: Step)
    requires ChannelOk(s) && LoaderOk(inp, s) && ErrOk(inp, s) && Quiet(s)
    requires Enabled(inp, s, step) && step != LDb(false) && step != EnvCancel
    ensures Quiet(Apply(inp, s, step))
  {
  }

  lemma {:induction false} QuietAfter(inp: Input, steps: seq<Step>)
    requires After(inp, steps).Some? && Undisturbed(steps)
    ensures Quiet(After(inp, steps).value)
  {
    if steps != [] {
      var front, last := steps[..|steps| - 1], steps[|steps| - 1];
      QuietAfter(inp, front);
      InvAfter(inp, front);
      QuietStep(inp, After(inp, front).value, last);
    }
  }

  /** The end of the stream alone decides what an undisturbed run reports; either way every survivor is committed. */
  lemma UndisturbedRunEnds(inp: Input, steps: seq<Step>)
    requires After(inp, steps).Some? && Undisturbed(steps) && After(inp, steps).value.m.Finished?
    ensures var s := After(inp, steps).value;
            && (s.m.outcome.Success? <==> inp.end == CleanEof)
            && (s.m.outcome == ProducingFailed(StreamErr) <==> inp.end == ParserError)
            && s.table == Upserted(inp.table, Survivors(inp.raws, inp.stages), inp.now)
            && DistinctIds(Survivors(inp.raws, inp.stages))
  {
    var s := After(inp, steps).value;
    InvAfter(inp, steps);
    QuietAfter(inp, steps);
    LoadedRows(inp, s);
    assert inp.raws[..|inp.raws|] == inp.raws;
  }

  lemma {:induction false} SurvivorsPrefix(raws: seq<Raw>, k: nat, st: Stages)
    requires k <= |raws|
    ensures Survivors(raws[..k], st) <= Survivors(raws, st)
  {
    if k < |raws| {
      assert raws[..|raws| - 1][..k] == raws[..k];
      SurvivorsPrefix(raws[..|raws| - 1], k, st);
    } else {
      assert raws[..k] == raws;
    }
  }

  lemma StagedAreDistinct(inp: Input, s: State)
    requires Conserved(inp, s) && DistinctIds(Survivors(inp.raws, inp.stages))
    ensures DistinctIds(Concat(s.l.batches) + s.l.batch)
  {
    var staged, all := Concat(s.l.batches) + s.l.batch, Survivors(inp.raws, inp.stages);
    SurvivorsPrefix(inp.raws, s.p.next, inp.stages);
    assert staged + s.ch.buf + Held(s.p) <= all;
    assert staged == all[..|staged|];
  }

  /** A step that can be taken without a failure. */
  function QuietMove(s: State): Step {
    if s.m == Loading && s.l.pc != Receive && !Terminal(s.l.pc) then LDb(true) else Move(s)
  }

  lemma QuietMoveEnabled(inp: Input, s: State)
    requires Inv(inp, s) && Quiet(s) && !s.m.Finished? && DistinctIds(Survivors(inp.raws, inp.stages))
    ensures Enabled(inp, s, QuietMove(s)) && QuietMove(s) != LDb(false) && QuietMove(s) != EnvCancel
  {
    StagedAreDistinct(inp, s);
  }

  lemma {:induction false} FinishQuietly(inp: Input, steps: seq<Step>) returns (all: seq<Step>)
    requires After(inp, steps).Some? && Undisturbed(steps) && DistinctIds(Survivors(inp.raws, inp.stages))
    requires After(inp, steps).value.p.next <= |inp.raws|
    ensures After(inp, all).Some? && Undisturbed(all) && After(inp, all).value.m.Finished?
    decreases Work(inp, After(inp, steps).value)
  {
    var s := After(inp, steps).value;
    if s.m.Finished? {
      return steps;
    }
    InvAfter(inp, steps);
    QuietAfter(inp, steps);
    QuietMoveEnabled(inp, s);
    EachStepWorks(inp, s, QuietMove(s));
    assert (steps + [QuietMove(s)])[..|steps|] == steps;
    all := FinishQuietly(inp, steps + [QuietMove(s)]);
  }

  /** A run can go through undisturbed exactly when no two surviving records share an id, with either end of the
      stream. */
  lemma UndisturbedRunIff(inp: Input)
    ensures (exists steps :: After(inp, steps).Some? && Undisturbed(steps) && After(inp, steps).value.m.Finished?)
            <==> DistinctIds(Survivors(inp.raws, inp.stages))
  {
    if steps :| After(inp, steps).Some? && Undisturbed(steps) && After(inp, steps).value.m.Finished? {
      UndisturbedRunEnds(inp, steps);
    }
    if DistinctIds(Survivors(inp.raws, inp.stages)) {
      var steps := FinishQuietly(inp, []);
    }
  }

  // ---- Runs in which the loader fails ----

  /** A database operation fails, or the loader notices the cancellation while it waits for a row. */
  predicate FailsLoad(step: Step) {
    step == LDb(false) || step == LCancelled
  }

  ghost predicate LoadDisturbed(steps: seq<Step>) {
    exists i :: 0 <= i < |steps| && FailsLoad(steps[i])
  }

  lemma {:induction false} LoadErrIff(inp: Input, steps: seq<Step>)
    requires After(inp, steps).Some?
    ensures After(inp, steps).value.l.pc == LoadErr <==> LoadDisturbed(steps)
  {
    if steps != [] {
      var front, last := steps[..|steps| - 1], steps[|steps| - 1];
      LoadErrIff(inp, front);
      LoadErrStep(inp, After(inp, front).value, last);
      assert LoadDisturbed(steps) <==> LoadDisturbed(front) || FailsLoad(last) by {
        assert forall i :: 0 <= i < |front| ==> front[i] == steps[i];
        assert FailsLoad(last) ==> FailsLoad(steps[|steps| - 1]);
      }
    }
  }

  lemma LoadErrStep(inp: Input, s: State, step: Step)
    requires Enabled(inp, s, step)
    ensures Apply(inp, s, step).l.pc == LoadErr <==> s.l.pc == LoadErr || FailsLoad(step)
    ensures s.l.pc == LoadErr ==> Apply(inp, s, step).l == s.l
  {
  }

  /** A finished run reports a loading failure exactly when one of the loader's steps failed, and then nothing of it is
      in the table. */
  lemma LoadingFailsIff(inp: Input, steps: seq<Step>)
    requires After(inp, steps).Some? && After(inp, steps).value.m.Finished?
    ensures After(inp, steps).value.m.outcome == LoadingFailed <==> LoadDisturbed(steps)
    ensures LoadDisturbed(steps) ==> After(inp, steps).value.table == inp.table
  {
    LoadErrIff(inp, steps);
    InvAfter(inp, steps);
  }

  /** The loader's own steps. */
  predicate OfLoader(step: Step) {
    step.LDb? || step == LCancelled || step == LReceive || step == LReceiveClosed
  }

  /** Nothing is tried again: after a failed step, a COPY's or any other, the loader takes no more. */
  lemma {:induction false} NoStepAfterFailure(inp: Input, steps: seq<Step>, i: nat, j: nat)
    requires After(inp, steps).Some? && i < j < |steps| && FailsLoad(steps[i])
    ensures !OfLoader(steps[j])
    decreases |steps|
  {
    var front := steps[..|steps| - 1];
    if j < |front| {
      NoStepAfterFailure(inp, front, i, j);
    } else {
      assert FailsLoad(front[i]);
      LoadErrIff(inp, front);
      NoStepWhenFailed(inp, After(inp, front).value, steps[j]);
    }
  }

  lemma NoStepWhenFailed(inp: Input, s: State, step: Step)
    requires Enabled(inp, s, step) && s.l.pc == LoadErr
    ensures !OfLoader(step)
  {
  }

  // ---- Cancellation ----

  /** Records taken from the stream, with the one that is about to be read. */
  function Begun(p: Producer): nat {
    p.next + if p.pc == Read then 1 else 0
  }

  lemma CancelledStep(inp: Input, s: State, step: Step)
    requires s.cancelled && Enabled(inp, s, step)
    ensures var t := Apply(inp, s, step); t.cancelled && Begun(t.p) <= Begun(s.p)
  {
  }

  /** Once the context is cancelled, by a failed loader or from outside, the producer finishes at most the read it has
      begun, in whatever order the parties go on. */
  lemma {:induction false} CancelledProducerStops(inp: Input, steps: seq<Step>, i: nat)
    requires i <= |steps| && After(inp, steps).Some?
    requires After(inp, steps[..i]).Some? && After(inp, steps[..i]).value.cancelled
    ensures var s, t := After(inp, steps[..i]).value, After(inp, steps).value;
            && t.cancelled && t.p.next <= s.p.next + 1
            && (s.p.pc != Read ==> t.p.next <= s.p.next)
            && Begun(t.p) <= Begun(s.p)
    decreases |steps|
  {
    if i == |steps| {
      assert steps[..i] == steps;
    } else {
      var front, last := steps[..|steps| - 1], steps[|steps| - 1];
      assert front[..i] == steps[..i];
      CancelledProducerStops(inp, front, i);
      CancelledStep(inp, After(inp, front).value, last);
    }
  }
}
