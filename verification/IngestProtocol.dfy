/** The concurrent choreography of one ingest run: a producer goroutine, a bounded channel, the batching loader in its
    transaction, and the main routine that starts the one, runs the other, cancels and waits. Each party has a program
    counter; one step of one party at a time. Every database operation may fail, and the context may be cancelled from
    outside at any moment. */
module IngestProtocol {
  import opened Options
  import opened Ingest

  const CHANNEL_BUFFER := COPY_BATCH_SIZE

  /** How the parser's stream ends: cleanly or with an error. */
  datatype StreamEnd = CleanEof | ParserError

  datatype Input = Input(raws: seq<Raw>, end: StreamEnd, stages: Stages, table: Table, now: int)

  datatype ProducerErr = NoErr | ContextErr | StreamErr

  datatype ProducerPc = CheckCtx | Read | Send(b: Business) | Publish | CloseOut | Returned

  /** `unsent` is the row the producer held when it was cancelled at its send. */
  datatype Producer = Producer(pc: ProducerPc, next: nat, counts: Counts, err: ProducerErr, unsent: seq<Business>)

  /** The rows channel. `misuse` records a send or a second close after the close, either of which panics in Go. */
  datatype Channel = Channel(buf: seq<Business>, closed: bool, misuse: bool)

  datatype Published = Published(counts: Counts, err: ProducerErr)

  datatype LoaderPc = Acquire | Begin | Stage | Receive | Flush | FinalFlush | Upsert | Commit | LoadOk | LoadErr

  datatype LoaderState = LoaderState(pc: LoaderPc, batch: seq<Business>, batches: seq<seq<Business>>, total: nat)

  datatype Outcome = Success(counts: Counts, loaded: nat) | ProducingFailed(err: ProducerErr) | LoadingFailed

  datatype MainPc = Loading | Waiting | Finished(outcome: Outcome)

  datatype State = State(
    p: Producer,
    ch: Channel,
    done: seq<Published>,
    publications: nat,
    l: LoaderState,
    table: Table,
    m: MainPc,
    cancelled: bool)

  function Init(inp: Input): State {
    State(Producer(CheckCtx, 0, ZERO_COUNTS, NoErr, []), Channel([], false, false), [], 0,
          LoaderState(Acquire, [], [], 0), inp.table, Loading, false)
  }

  datatype Step =
    | PCheck | PRead | PSend | PSendCancelled | PPublish | PClose
    | LDb(ok: bool) | LCancelled | LReceive | LReceiveClosed
    | MCancel | MWait
    | EnvCancel

  predicate Terminal(pc: LoaderPc) {
    pc == LoadOk || pc == LoadErr
  }

  predicate Failing(l: LoaderState) {
    match l.pc
    case FinalFlush => l.batch != []
    case _ => true
  }

  /** When a step can be taken. A full channel blocks the send, an empty open one the receive, a full done channel the
      publication and an empty one the wait. */
  predicate Enabled(inp: Input, s: State, step: Step) {
    match step
    case PCheck => s.p.pc == CheckCtx
    case PRead => s.p.pc == Read
    case PSend => s.p.pc.Send? && (s.ch.closed || |s.ch.buf| < CHANNEL_BUFFER)
    case PSendCancelled => s.p.pc.Send? && s.cancelled
    case PPublish => s.p.pc == Publish && |s.done| < 1
    case PClose => s.p.pc == CloseOut
    case LDb(ok) =>
      && !Terminal(s.l.pc) && s.l.pc != Receive
      && (if ok then (s.l.pc == Flush || s.l.pc == FinalFlush) && s.l.batch != [] ==>
                       Ingest.DistinctIds(Concat(s.l.batches) + s.l.batch)
          else Failing(s.l))
    case LCancelled => s.l.pc == Receive && s.cancelled
    case LReceive => s.l.pc == Receive && s.ch.buf != []
    case LReceiveClosed => s.l.pc == Receive && s.ch.buf == [] && s.ch.closed
    case MCancel => s.m == Loading && Terminal(s.l.pc)
    case MWait => s.m == Waiting && s.done != []
    case EnvCancel => !s.cancelled
  }

  // ---- The producer's steps ----

  function AfterRead(inp: Input, p: Producer): Producer {
    if p.next >= |inp.raws| then
      p.(pc := Publish, err := if inp.end == CleanEof then NoErr else StreamErr)
    else
      var v := Judge(inp.raws[p.next], inp.stages);
      p.(next := p.next + 1, counts := Counted(p.counts, v), pc := if v.Survives? then Send(v.b) else CheckCtx)
  }

  // ---- The loader's steps ----

  function Copied(l: LoaderState, pc: LoaderPc): LoaderState {
    if l.batch == [] then l.(pc := pc)
    else LoaderState(pc, [], l.batches + [l.batch], l.total + |l.batch|)
  }

  function AfterDb(l: LoaderState): LoaderState {
    match l.pc
    case Acquire => l.(pc := Begin)
    case Begin => l.(pc := Stage)
    case Stage => l.(pc := Receive)
    case Flush => Copied(l, Receive)
    case FinalFlush => Copied(l, Upsert)
    case Upsert => l.(pc := Commit)
    case Commit => l.(pc := LoadOk)
    case _ => l
  }

  function AfterReceive(l: LoaderState, b: Business): LoaderState {
    var batch := l.batch + [b];
    l.(batch := batch, pc := if |batch| < COPY_BATCH_SIZE then Receive else Flush)
  }

  function Report(s: State, d: Published): Outcome {
    if s.l.pc == LoadErr then LoadingFailed
    else if d.err != NoErr then ProducingFailed(d.err)
    else Success(d.counts, s.l.total)
  }

  function Apply(inp: Input, s: State, step: Step): State
    requires Enabled(inp, s, step)
  {
    match step
    case PCheck => s.(p := if s.cancelled then s.p.(pc := Publish, err := ContextErr) else s.p.(pc := Read))
    case PRead => s.(p := AfterRead(inp, s.p))
    case PSend =>
      s.(p := s.p.(pc := CheckCtx), ch := s.ch.(buf := s.ch.buf + [s.p.pc.b], misuse := s.ch.misuse || s.ch.closed))
    case PSendCancelled => s.(p := s.p.(pc := Publish, err := ContextErr, unsent := [s.p.pc.b]))
    case PPublish =>
      s.(p := s.p.(pc := CloseOut), done := s.done + [Published(s.p.counts, s.p.err)],
         publications := s.publications + 1)
    case PClose => s.(p := s.p.(pc := Returned), ch := s.ch.(closed := true, misuse := s.ch.misuse || s.ch.closed))
    case LDb(ok) =>
      if !ok then s.(l := s.l.(pc := LoadErr))
      else s.(l := AfterDb(s.l),
              table := if s.l.pc == Commit then Upserted(s.table, Concat(s.l.batches), inp.now) else s.table)
    case LCancelled => s.(l := s.l.(pc := LoadErr))
    case LReceive => s.(l := AfterReceive(s.l, s.ch.buf[0]), ch := s.ch.(buf := s.ch.buf[1..]))
    case LReceiveClosed => s.(l := s.l.(pc := FinalFlush))
    case MCancel => s.(m := Waiting, cancelled := true)
    case MWait => s.(m := Finished(Report(s, s.done[0])), done := s.done[1..])
    case EnvCancel => s.(cancelled := true)
  }

  /** The state after an interleaving, if each of its steps could be taken. */
  function After(inp: Input, steps: seq<Step>): Option<State> {
    if steps == [] then Some(Init(inp))
    else
      var before := After(inp, steps[..|steps| - 1]);
      if before.Some? && Enabled(inp, before.value, steps[|steps| - 1]) then
        Some(Apply(inp, before.value, steps[|steps| - 1]))
      else None
  }
}
