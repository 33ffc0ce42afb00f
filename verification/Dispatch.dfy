/** The open-loop load generator: a dispatcher that admits or drops requests on a semaphore, workers that send their
    sample and only then release their slot, and the close of the sample channel once every slot is free. One step of
    one party at a time; worker steps come in any order. */
module Dispatch {
  import opened Options

  datatype WorkerPc = Requesting | Sent | Released

  datatype Worker = Worker(req: nat, pc: WorkerPc)

  datatype DispatcherPc = Admit | Drain | Collect | Returned

  /** `out` is the sample channel, of capacity `n`. `misuse` records a send after the close, which panics in Go. */
  datatype State = State(
    pc: DispatcherPc,
    i: nat,
    dropped: nat,
    sem: nat,
    workers: seq<Worker>,
    out: seq<nat>,
    closed: bool,
    misuse: bool,
    samples: seq<nat>)

  /** `n` requests are scheduled, at most `maxInflight` run at once. */
  datatype Load = Load(n: nat, maxInflight: nat)

  const INIT := State(Admit, 0, 0, 0, [], [], false, false, [])

  datatype Step = NextRequest | StopAdmitting | CloseOut | TakeSample | Return | SendSample(w: nat) | Release(w: nat)

  /** When a step can be taken. A full channel blocks a send; an empty semaphore blocks a release. */
  predicate Enabled(ld: Load, s: State, step: Step) {
    match step
    case NextRequest => s.pc == Admit && s.i < ld.n
    case StopAdmitting => s.pc == Admit && s.i >= ld.n
    case CloseOut => s.pc == Drain && s.sem == 0
    case TakeSample => s.pc == Collect && s.out != []
    case Return => s.pc == Collect && s.out == [] && s.closed
    case SendSample(w) => w < |s.workers| && s.workers[w].pc == Requesting && (s.closed || |s.out| < ld.n)
    case Release(w) => w < |s.workers| && s.workers[w].pc == Sent && s.sem > 0
  }

  function Apply(ld: Load, s: State, step: Step): State
    requires Enabled(ld, s, step)
  {
    match step
    case NextRequest =>
      if s.sem < ld.maxInflight then
        s.(i := s.i + 1, sem := s.sem + 1, workers := s.workers + [Worker(s.i, Requesting)])
      else
        s.(i := s.i + 1, dropped := s.dropped + 1)
    case StopAdmitting => s.(pc := Drain)
    case CloseOut => s.(pc := Collect, closed := true)
    case TakeSample => s.(samples := s.samples + [s.out[0]], out := s.out[1..])
    case Return => s.(pc := Returned)
    case SendSample(w) =>
      s.(workers := s.workers[w := s.workers[w].(pc := Sent)], out := s.out + [s.workers[w].req],
         misuse := s.misuse || s.closed)
    case Release(w) => s.(workers := s.workers[w := s.workers[w].(pc := Released)], sem := s.sem - 1)
  }

  function After(ld: Load, steps: seq<Step>): Option<State> {
    if steps == [] then Some(INIT)
    else
      var before := After(ld, steps[..|steps| - 1]);
      if before.Some? && Enabled(ld, before.value, steps[|steps| - 1]) then
        Some(Apply(ld, before.value, steps[|steps| - 1]))
      else None
  }

  /** Some interleaving leads to this state. */
  ghost predicate Reachable(ld: Load, s: State) {
    exists steps :: After(ld, steps) == Some(s)
  }

  // ---- Counting workers ----

  function Total(ws: seq<Worker>, f: Worker -> nat): nat {
    if ws == [] then 0 else Total(ws[..|ws| - 1], f) + f(ws[|ws| - 1])
  }

  lemma {:induction false} TotalUpdate(ws: seq<Worker>, k: nat, w: Worker, f: Worker -> nat)
    requires k < |ws|
    ensures Total(ws[k := w], f) + f(ws[k]) == Total(ws, f) + f(w)
  {
    var n := |ws| - 1;
    if k < n {
      assert ws[k := w][..n] == ws[..n][k := w];
      TotalUpdate(ws[..n], k, w, f);
    } else {
      assert ws[k := w][..n] == ws[..n];
    }
  }

  lemma TotalSnoc(ws: seq<Worker>, w: Worker, f: Worker -> nat)
    ensures Total(ws + [w], f) == Total(ws, f) + f(w)
  {
  }

  lemma {:induction false} TotalPositive(ws: seq<Worker>, k: nat, f: Worker -> nat)
    requires k < |ws|
    ensures Total(ws, f) >= f(ws[k])
  {
    if k < |ws| - 1 {
      TotalPositive(ws[..|ws| - 1], k, f);
    }
  }

  lemma {:induction false} TotalWitness(ws: seq<Worker>, f: Worker -> nat) returns (k: nat)
    requires Total(ws, f) > 0
    ensures k < |ws| && f(ws[k]) > 0
  {
    var n := |ws| - 1;
    if f(ws[n]) > 0 {
      k := n;
    } else {
      k := TotalWitness(ws[..n], f);
    }
  }

  /** Workers that hold a semaphore slot. */
  function Live(): Worker -> nat {
    (w: Worker) => if w.pc == Released then 0 else 1
  }

  /** Workers that have sent their sample. */
  function HasSent(): Worker -> nat {
    (w: Worker) => if w.pc == Requesting then 0 else 1
  }

  function HasSentFor(r: nat): Worker -> nat {
    (w: Worker) => if w.pc != Requesting && w.req == r then 1 else 0
  }

  /** Steps a worker and its sample still need. */
  function Left(): Worker -> nat {
    (w: Worker) => match w.pc case Requesting => 3 case Sent => 1 case Released => 0
  }

  // ---- Invariants ----

  /** Workers serve requests in the order these were scheduled. */
  ghost predicate Numbered(ws: seq<Worker>, i: nat) {
    && (forall k :: 0 <= k < |ws| ==> ws[k].req < i)
    && (forall j, k :: 0 <= j < k < |ws| ==> ws[j].req < ws[k].req)
  }

  ghost predicate Slots(ld: Load, s: State) {
    && s.sem == Total(s.workers, Live()) <= ld.maxInflight
    && |s.workers| + s.dropped == s.i <= ld.n
    && (s.pc != Admit ==> s.i == ld.n)
    && Numbered(s.workers, s.i)
  }

  ghost predicate Samples(ld: Load, s: State) {
    && |s.samples| + |s.out| == Total(s.workers, HasSent())
    && (forall r: nat :: multiset(s.samples + s.out)[r] == Total(s.workers, HasSentFor(r)))
    && (s.pc == Admit || s.pc == Drain ==> s.samples == [])
  }

  ghost predicate Closing(s: State) {
    && !s.misuse
    && (s.closed <==> s.pc == Collect || s.pc == Returned)
    && (s.closed ==> s.sem == 0)
    && (s.pc == Returned ==> s.out == [])
  }

  ghost predicate Inv(ld: Load, s: State) {
    Slots(ld, s) && Samples(ld, s) && Closing(s)
  }

  lemma {:induction false} SentOrNot(ws: seq<Worker>)
    ensures Total(ws, HasSent()) + (if exists k :: 0 <= k < |ws| && ws[k].pc == Requesting then 1 else 0) <= |ws|
    ensures Total(ws, Live()) == 0 ==> Total(ws, HasSent()) == |ws|
  {
    if ws != [] {
      SentOrNot(ws[..|ws| - 1]);
    }
  }

  lemma NumberedSnoc(ws: seq<Worker>, i: nat)
    requires Numbered(ws, i)
    ensures Numbered(ws, i + 1) && Numbered(ws + [Worker(i, Requesting)], i + 1)
  {
  }

  lemma NumberedUpdate(ws: seq<Worker>, i: nat, w: nat, pc: WorkerPc)
    requires Numbered(ws, i) && w < |ws|
    ensures Numbered(ws[w := ws[w].(pc := pc)], i)
  {
  }

  lemma KeepsHeldSlots(ld: Load, s: State, step: Step)
    requires s.sem == Total(s.workers, Live()) <= ld.maxInflight && Enabled(ld, s, step)
    ensures var t := Apply(ld, s, step); t.sem == Total(t.workers, Live()) <= ld.maxInflight
  {
    match step {
      case NextRequest => TotalSnoc(s.workers, Worker(s.i, Requesting), Live());
      case SendSample(w) => TotalUpdate(s.workers, w, s.workers[w].(pc := Sent), Live());
      case Release(w) => TotalUpdate(s.workers, w, s.workers[w].(pc := Released), Live());
      case _ =>
    }
  }

  lemma KeepsSlots(ld: Load, s: State, step: Step)
    requires Slots(ld, s) && Enabled(ld, s, step)
    ensures Slots(ld, Apply(ld, s, step))
  {
    KeepsHeldSlots(ld, s, step);
    match step {
      case NextRequest => NumberedSnoc(s.workers, s.i);
      case SendSample(w) => NumberedUpdate(s.workers, s.i, w, Sent);
      case Release(w) => NumberedUpdate(s.workers, s.i, w, Released);
      case _ =>
    }
  }

  lemma KeepsSampleCount(ld: Load, s: State, step: Step)
    requires Samples(ld, s) && Closing(s) && Enabled(ld, s, step)
    ensures var t := Apply(ld, s, step); |t.samples| + |t.out| == Total(t.workers, HasSent())
    ensures var t := Apply(ld, s, step); t.pc == Admit || t.pc == Drain ==> t.samples == []
  {
    match step {
      case NextRequest => TotalSnoc(s.workers, Worker(s.i, Requesting), HasSent());
      case SendSample(w) => TotalUpdate(s.workers, w, s.workers[w].(pc := Sent), HasSent());
      case Release(w) => TotalUpdate(s.workers, w, s.workers[w].(pc := Released), HasSent());
      case _ =>
    }
  }

  lemma SnocCount(xs: seq<nat>, x: nat, r: nat)
    ensures multiset(xs + [x])[r] == multiset(xs)[r] + if x == r then 1 else 0
  {
  }

  lemma SendCounted(samples: seq<nat>, out: seq<nat>, ws: seq<Worker>, w: nat, r: nat)
    requires w < |ws| && ws[w].pc == Requesting && multiset(samples + out)[r] == Total(ws, HasSentFor(r))
    ensures multiset(samples + (out + [ws[w].req]))[r] == Total(ws[w := ws[w].(pc := Sent)], HasSentFor(r))
  {
    TotalUpdate(ws, w, ws[w].(pc := Sent), HasSentFor(r));
    assert samples + (out + [ws[w].req]) == (samples + out) + [ws[w].req];
    SnocCount(samples + out, ws[w].req, r);
  }

  lemma KeepsSampleOf(ld: Load, s: State, step: Step, r: nat)
    requires Enabled(ld, s, step) && multiset(s.samples + s.out)[r] == Total(s.workers, HasSentFor(r))
    ensures var t := Apply(ld, s, step); multiset(t.samples + t.out)[r] == Total(t.workers, HasSentFor(r))
  {
    match step {
      case NextRequest => TotalSnoc(s.workers, Worker(s.i, Requesting), HasSentFor(r));
      case SendSample(w) =>
        SendCounted(s.samples, s.out, s.workers, w, r);
      case Release(w) => TotalUpdate(s.workers, w, s.workers[w].(pc := Released), HasSentFor(r));
      case TakeSample =>
        assert s.samples + s.out == (s.samples + [s.out[0]]) + s.out[1..];
      case _ =>
    }
  }

  lemma KeepsClosing(ld: Load, s: State, step: Step)
    requires Inv(ld, s) && Enabled(ld, s, step)
    ensures Closing(Apply(ld, s, step))
  {
    match step {
      case SendSample(w) => TotalPositive(s.workers, w, Live());
      case _ =>
    }
  }

  lemma {:induction false} InvAfter(ld: Load, steps: seq<Step>)
    requires After(ld, steps).Some?
    ensures Inv(ld, After(ld, steps).value)
  {
    if steps != [] {
      var front, last := steps[..|steps| - 1], steps[|steps| - 1];
      InvAfter(ld, front);
      var s := After(ld, front).value;
      KeepsSlots(ld, s, last);
      KeepsSampleCount(ld, s, last);
      KeepsClosing(ld, s, last);
      forall r: nat ensures multiset(Apply(ld, s, last).samples + Apply(ld, s, last).out)[r] ==
                            Total(Apply(ld, s, last).workers, HasSentFor(r)) {
        KeepsSampleOf(ld, s, last, r);
      }
    }
  }

  lemma ReachableInv(ld: Load, s: State)
    requires Reachable(ld, s)
    ensures Inv(ld, s)
  {
    var steps :| After(ld, steps) == Some(s);
    InvAfter(ld, steps);
  }

  // ---- The guarantees ----

  /** In every reachable state: at most `maxInflight` workers hold a slot; no send blocks or meets a closed channel; no
      release blocks; and the channel is closed only when every admitted worker has sent and released. */
  lemma ChannelDiscipline(ld: Load, s: State)
    requires Reachable(ld, s)
    ensures Total(s.workers, Live()) <= ld.maxInflight && !s.misuse
    ensures forall w :: 0 <= w < |s.workers| && s.workers[w].pc == Requesting ==> !s.closed && |s.out| < ld.n
    ensures forall w :: 0 <= w < |s.workers| && s.workers[w].pc == Sent ==> Enabled(ld, s, Release(w))
    ensures s.closed ==> forall w :: 0 <= w < |s.workers| ==> s.workers[w].pc == Released
  {
    ReachableInv(ld, s);
    SentOrNot(s.workers);
    forall w | 0 <= w < |s.workers| && s.workers[w].pc != Released ensures s.sem > 0 {
      TotalPositive(s.workers, w, Live());
    }
  }

  /** When `dispatch` returns, every request was either dropped or has given exactly one sample. */
  lemma EveryRequestAccounted(ld: Load, s: State)
    requires Reachable(ld, s) && s.pc == Returned
    ensures |s.samples| + s.dropped == ld.n
    ensures forall r :: multiset(s.samples)[r] <= 1
    ensures forall r :: r in s.samples <==> exists k :: 0 <= k < |s.workers| && s.workers[k].req == r
  {
    ReachableInv(ld, s);
    ChannelDiscipline(ld, s);
    SentOrNot(s.workers);
    assert s.samples + s.out == s.samples;
    forall r ensures multiset(s.samples)[r] <= 1 {
      SentOnce(s.workers, r);
    }
    forall r ensures r in s.samples <==> exists k :: 0 <= k < |s.workers| && s.workers[k].req == r {
      assert multiset(s.samples)[r] == Total(s.workers, HasSentFor(r));
      if r in s.samples {
        var k := TotalWitness(s.workers, HasSentFor(r));
      }
      if k :| 0 <= k < |s.workers| && s.workers[k].req == r {
        TotalPositive(s.workers, k, HasSentFor(r));
      }
    }
  }

  lemma {:induction false} SentOnce(ws: seq<Worker>, r: nat)
    requires forall j, k :: 0 <= j < k < |ws| ==> ws[j].req < ws[k].req
    ensures Total(ws, HasSentFor(r)) <= 1
  {
    if ws != [] {
      var n := |ws| - 1;
      SentOnce(ws[..n], r);
      if ws[n].req == r && Total(ws[..n], HasSentFor(r)) > 0 {
        var k := TotalWitness(ws[..n], HasSentFor(r));
        assert false;
      }
    }
  }

  // ---- Admission ----

  /** A due request is dropped exactly when `maxInflight` workers hold a slot, and otherwise gets its own worker. */
  lemma DroppedIffFull(ld: Load, s: State)
    requires Reachable(ld, s) && Enabled(ld, s, NextRequest)
    ensures var t := Apply(ld, s, NextRequest);
            if Total(s.workers, Live()) == ld.maxInflight then
              t == s.(i := s.i + 1, dropped := s.dropped + 1)
            else
              && t == s.(i := s.i + 1, sem := s.sem + 1, workers := t.workers)
              && |t.workers| == |s.workers| + 1 && t.workers[..|s.workers|] == s.workers
              && t.workers[|s.workers|] == Worker(s.i, Requesting)
  {
    ReachableInv(ld, s);
  }

  /** No other step drops a request or admits one. */
  lemma OnlyDueRequestsCount(ld: Load, s: State, step: Step)
    requires Enabled(ld, s, step) && step != NextRequest
    ensures var t := Apply(ld, s, step);
            t.dropped == s.dropped && t.i == s.i && |t.workers| == |s.workers|
  {
  }

  /** Nothing is dropped before `maxInflight` requests have been admitted. */
  lemma {:induction false} DropsComeLate(ld: Load, steps: seq<Step>)
    requires After(ld, steps).Some?
    ensures var s := After(ld, steps).value; s.dropped > 0 ==> |s.workers| >= ld.maxInflight
  {
    if steps != [] {
      var front, last := steps[..|steps| - 1], steps[|steps| - 1];
      DropsComeLate(ld, front);
      InvAfter(ld, front);
      SomeLive(After(ld, front).value.workers);
    }
  }

  lemma {:induction false} SomeLive(ws: seq<Worker>)
    ensures Total(ws, Live()) <= |ws|
  {
    if ws != [] {
      SomeLive(ws[..|ws| - 1]);
    }
  }

  /** However slow the workers are, `dispatch` returns a sample for each request, or for at least `maxInflight`. */
  lemma EnoughSamples(ld: Load, s: State)
    requires Reachable(ld, s)
    ensures s.dropped > 0 ==> s.dropped + ld.maxInflight <= s.i
    ensures s.pc == Returned ==> |s.samples| >= if ld.n < ld.maxInflight then ld.n else ld.maxInflight
    ensures s.pc == Returned && s.dropped == 0 ==> |s.samples| == ld.n
  {
    var steps :| After(ld, steps) == Some(s);
    DropsComeLate(ld, steps);
    ReachableInv(ld, s);
    if s.pc == Returned {
      EveryRequestAccounted(ld, s);
    }
  }

  function Dues(k: nat): seq<Step> {
    if k == 0 then [] else Dues(k - 1) + [NextRequest]
  }

  /** A burst, in which requests fall due before any worker moves, loses all beyond `maxInflight`. */
  lemma {:induction false} BurstDrops(ld: Load, k: nat)
    requires k <= ld.n
    ensures After(ld, Dues(k)).Some?
    ensures var s := After(ld, Dues(k)).value;
            && s.pc == Admit && s.i == k
            && s.sem == (if k < ld.maxInflight then k else ld.maxInflight)
            && s.dropped == k - s.sem
  {
    if k > 0 {
      BurstDrops(ld, k - 1);
      assert Dues(k)[..|Dues(k)| - 1] == Dues(k - 1);
    }
  }

  /** No interleaving drops a request if and only if there are no more requests than slots. */
  lemma NothingDroppedIff(ld: Load)
    ensures (forall s :: Reachable(ld, s) ==> s.dropped == 0) <==> ld.n <= ld.maxInflight
  {
    if ld.n <= ld.maxInflight {
      forall s | Reachable(ld, s) ensures s.dropped == 0 {
        EnoughSamples(ld, s);
        ReachableInv(ld, s);
      }
    } else {
      BurstDrops(ld, ld.n);
      assert Reachable(ld, After(ld, Dues(ld.n)).value);
    }
  }

  // ---- Progress ----

  ghost predicate CanMove(ld: Load, s: State) {
    exists step :: Enabled(ld, s, step)
  }

  /** Until `dispatch` returns, some party can move. */
  lemma NeverStuck(ld: Load, s: State)
    requires Reachable(ld, s) && s.pc != Returned
    ensures CanMove(ld, s)
  {
    ReachableInv(ld, s);
    ChannelDiscipline(ld, s);
    match s.pc {
      case Admit => assert Enabled(ld, s, if s.i < ld.n then NextRequest else StopAdmitting);
      case Drain =>
        if s.sem == 0 {
          assert Enabled(ld, s, CloseOut);
        } else {
          var w := TotalWitness(s.workers, Live());
          assert Enabled(ld, s, if s.workers[w].pc == Requesting then SendSample(w) else Release(w));
        }
      case Collect => assert Enabled(ld, s, if s.out != [] then TakeSample else Return);
    }
  }

  function Work(ld: Load, s: State): nat
    requires s.i <= ld.n
  {
    4 * (ld.n - s.i) + Total(s.workers, Left()) + |s.out|
    + match s.pc case Admit => 3 case Drain => 2 case Collect => 1 case Returned => 0
  }

  lemma EachStepWorks(ld: Load, s: State, step: Step)
    requires Inv(ld, s) && Enabled(ld, s, step)
    ensures Apply(ld, s, step).i <= ld.n && Work(ld, Apply(ld, s, step)) < Work(ld, s)
  {
    match step {
      case NextRequest => TotalSnoc(s.workers, Worker(s.i, Requesting), Left());
      case SendSample(w) => TotalUpdate(s.workers, w, s.workers[w].(pc := Sent), Left());
      case Release(w) => TotalUpdate(s.workers, w, s.workers[w].(pc := Released), Left());
      case _ =>
    }
  }

  /** No interleaving is longer than this, so with `NeverStuck` every run returns. */
  lemma {:induction false} RunsAreBounded(ld: Load, steps: seq<Step>)
    requires After(ld, steps).Some?
    ensures After(ld, steps).value.i <= ld.n
    ensures |steps| + Work(ld, After(ld, steps).value) <= 4 * ld.n + 3
  {
    InvAfter(ld, steps);
    if steps != [] {
      var front, last := steps[..|steps| - 1], steps[|steps| - 1];
      RunsAreBounded(ld, front);
      InvAfter(ld, front);
      EachStepWorks(ld, After(ld, front).value, last);
    }
  }
}
