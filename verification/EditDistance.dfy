/** Edit distance between two words, as the bench adapter computes it with two rolling rows.
    The meaning is given by edit scripts: sequences of keep, substitute, insert and delete steps. */
module EditDistance {
  import opened Seqs

  type Word = seq<char>

  /** One edit step, turning a letter of the source word into a letter of the target word. */
  datatype Op = Keep(c: char) | Sub(c: char, d: char) | Ins(d: char) | Del(c: char)

  /** A script grows at its right end, so that it is read off in the order of the words' prefixes. */
  datatype Script = Done | Then(prev: Script, op: Op)

  /** What a step reads of the source word and writes of the target word. */
  function Read(op: Op): Word {
    match op
    case Keep(c) => [c]
    case Sub(c, _) => [c]
    case Ins(_) => []
    case Del(c) => [c]
  }

  function Written(op: Op): Word {
    match op
    case Keep(c) => [c]
    case Sub(_, d) => [d]
    case Ins(d) => [d]
    case Del(_) => []
  }

  function Source(s: Script): Word {
    match s
    case Done => []
    case Then(p, op) => Source(p) + Read(op)
  }

  function Target(s: Script): Word {
    match s
    case Done => []
    case Then(p, op) => Target(p) + Written(op)
  }

  function Cost(s: Script): nat {
    match s
    case Done => 0
    case Then(p, op) => Cost(p) + if op.Keep? then 0 else 1
  }

  ghost predicate Edits(s: Script, a: Word, b: Word) {
    Source(s) == a && Target(s) == b
  }

  function Min3(a: nat, b: nat, c: nat): (m: nat)
    ensures m <= a && m <= b && m <= c
    ensures m == a || m == b || m == c
  {
    var m := if b < a then b else a;
    if c < m then c else m
  }

  /** The recurrence that the table is filled by. */
  function Dist(a: Word, b: Word): nat
    decreases |a| + |b|
  {
    if a == [] then |b|
    else if b == [] then |a|
    else Min3(Dist(Front(a), b) + 1, Dist(a, Front(b)) + 1,
              Dist(Front(a), Front(b)) + if Last(a) == Last(b) then 0 else 1)
  }

  // ---- The distance is the least cost of a script ----

  /** No script is cheaper than the distance. */
  lemma {:induction false} NoScriptBeatsDist(s: Script)
    ensures Dist(Source(s), Target(s)) <= Cost(s)
  {
    match s
    case Done =>
    case Then(p, op) =>
      NoScriptBeatsDist(p);
      OpCostsAtMostOne(Source(p), Target(p), op);
  }

  lemma OpCostsAtMostOne(a: Word, b: Word, op: Op)
    ensures Dist(a + Read(op), b + Written(op)) <= Dist(a, b) + if op.Keep? then 0 else 1
  {
    assert a + [] == a && b + [] == b;
    match op
    case Keep(c) => PairStep(a, c, b, c);
    case Sub(c, d) => PairStep(a, c, b, d);
    case Ins(d) => InsStep(a, b, d);
    case Del(c) => DelStep(a, c, b);
  }

  lemma PairStep(a: Word, c: char, b: Word, d: char)
    ensures Dist(a + [c], b + [d]) <= Dist(a, b) + if c == d then 0 else 1
  {
  }

  lemma InsStep(a: Word, b: Word, d: char)
    ensures Dist(a, b + [d]) <= Dist(a, b) + 1
  {
  }

  lemma DelStep(a: Word, c: char, b: Word)
    ensures Dist(a + [c], b) <= Dist(a, b) + 1
  {
  }

  lemma FrontOfSnoc(w: Word, c: char)
    ensures Front(w + [c]) == w && Last(w + [c]) == c
  {
  }

  /** A cheapest script, read back along the table. */
  function Cheapest(a: Word, b: Word): (s: Script)
    ensures Source(s) == a && Target(s) == b && Cost(s) == Dist(a, b)
    decreases |a| + |b|
  {
    if a == [] && b == [] then Done
    else if a == [] then
      var s := Cheapest(a, Front(b));
      assert b == Front(b) + [Last(b)];
      Then(s, Ins(Last(b)))
    else if b == [] then
      var s := Cheapest(Front(a), b);
      assert a == Front(a) + [Last(a)];
      Then(s, Del(Last(a)))
    else
      assert a == Front(a) + [Last(a)] && b == Front(b) + [Last(b)];
      if Dist(a, b) == Dist(Front(a), b) + 1 then Then(Cheapest(Front(a), b), Del(Last(a)))
      else if Dist(a, b) == Dist(a, Front(b)) + 1 then Then(Cheapest(a, Front(b)), Ins(Last(b)))
      else if Last(a) == Last(b) then Then(Cheapest(Front(a), Front(b)), Keep(Last(a)))
      else Then(Cheapest(Front(a), Front(b)), Sub(Last(a), Last(b)))
  }

  ghost predicate LeastCost(a: Word, b: Word, d: nat) {
    && (exists s :: Edits(s, a, b) && Cost(s) == d)
    && (forall s :: Edits(s, a, b) ==> d <= Cost(s))
  }

  /** The recurrence computes the least script cost, and nothing else is that. */
  lemma DistIsLeastCost(a: Word, b: Word, d: nat)
    ensures LeastCost(a, b, d) <==> d == Dist(a, b)
  {
    var best := Cheapest(a, b);
    assert Edits(best, a, b);
    forall s | Edits(s, a, b) ensures Dist(a, b) <= Cost(s) {
      NoScriptBeatsDist(s);
    }
  }

  // ---- The distance is a metric ----

  function Inverse(s: Script): Script {
    match s
    case Done => Done
    case Then(p, op) =>
      Then(Inverse(p), match op
                       case Keep(c) => Keep(c)
                       case Sub(c, d) => Sub(d, c)
                       case Ins(d) => Del(d)
                       case Del(c) => Ins(c))
  }

  lemma {:induction false} InverseSwapsEnds(s: Script)
    ensures Source(Inverse(s)) == Target(s) && Target(Inverse(s)) == Source(s)
    ensures Cost(Inverse(s)) == Cost(s)
  {
    if s.Then? {
      InverseSwapsEnds(s.prev);
    }
  }

  lemma {:induction false} DistSymmetric(a: Word, b: Word)
    ensures Dist(a, b) == Dist(b, a)
  {
    var s, t := Cheapest(a, b), Cheapest(b, a);
    InverseSwapsEnds(s);
    InverseSwapsEnds(t);
    NoScriptBeatsDist(Inverse(s));
    NoScriptBeatsDist(Inverse(t));
  }

  lemma {:induction false} FreeScriptKeepsWord(s: Script)
    requires Cost(s) == 0
    ensures Source(s) == Target(s)
  {
    if s.Then? {
      FreeScriptKeepsWord(s.prev);
    }
  }

  lemma {:induction false} DistToItself(a: Word)
    ensures Dist(a, a) == 0
  {
    if a != [] {
      DistToItself(Front(a));
    }
  }

  lemma {:induction false} DistZeroIffEqual(a: Word, b: Word)
    ensures Dist(a, b) == 0 <==> a == b
  {
    if Dist(a, b) == 0 {
      FreeScriptKeepsWord(Cheapest(a, b));
    }
    DistToItself(a);
  }

  /** Runs `t` after `s`, joining a step into the middle word with the step out of it. */
  function Compose(s: Script, t: Script): (r: Script)
    requires Target(s) == Source(t)
    ensures Source(r) == Source(s) && Target(r) == Target(t)
    ensures Cost(r) <= Cost(s) + Cost(t)
    decreases s, t
  {
    if s.Then? && s.op.Del? then Then(Compose(s.prev, t), s.op)
    else if t.Then? && t.op.Ins? then Then(Compose(s, t.prev), t.op)
    else if s.Done? || t.Done? then
      assert s.Then? ==> |Target(s)| > 0;
      assert t.Then? ==> |Source(t)| > 0;
      Done
    else
      var m := Last(Target(s));
      assert Target(s) == Target(s.prev) + [m] && Source(t) == Source(t.prev) + [m] by {
        assert Last(Source(t)) == m;
      }
      assert Target(s.prev) == Source(t.prev) by {
        FrontOfSnoc(Target(s.prev), m);
        FrontOfSnoc(Source(t.prev), m);
      }
      var r := Compose(s.prev, t.prev);
      match (s.op, t.op)
      case (Ins(_), Del(_)) => r
      case (Ins(_), Keep(c)) => Then(r, Ins(c))
      case (Ins(_), Sub(_, d)) => Then(r, Ins(d))
      case (Keep(c), Del(_)) => Then(r, Del(c))
      case (Keep(c), Keep(_)) => Then(r, Keep(c))
      case (Keep(c), Sub(_, d)) => Then(r, Sub(c, d))
      case (Sub(c, _), Del(_)) => Then(r, Del(c))
      case (Sub(c, d), Keep(_)) => Then(r, Sub(c, d))
      case (Sub(c, _), Sub(_, d)) => Then(r, Sub(c, d))
  }

  lemma {:induction false} DistTriangle(a: Word, b: Word, c: Word)
    ensures Dist(a, c) <= Dist(a, b) + Dist(b, c)
  {
    NoScriptBeatsDist(Compose(Cheapest(a, b), Cheapest(b, c)));
  }

  // ---- The two-row table ----

  /** The table cell at row `i`, column `j`. */
  ghost function Cell(a: Word, b: Word, i: int, j: int): nat
    requires 0 <= i <= |a| && 0 <= j <= |b|
  {
    Dist(a[..i], b[..j])
  }

  /** Row 0 and column 0 count letters; every other cell is the least of its three neighbours. */
  lemma CellStep(a: Word, b: Word, i: int, j: int)
    requires 0 <= i <= |a| && 0 <= j <= |b|
    ensures i == 0 ==> Cell(a, b, i, j) == j
    ensures j == 0 ==> Cell(a, b, i, j) == i
    ensures 0 < i && 0 < j ==>
      Cell(a, b, i, j) == Min3(Cell(a, b, i - 1, j) + 1, Cell(a, b, i, j - 1) + 1,
                               Cell(a, b, i - 1, j - 1) + if a[i - 1] == b[j - 1] then 0 else 1)
  {
    if 0 < i && 0 < j {
      assert Front(a[..i]) == a[..i - 1] && Front(b[..j]) == b[..j - 1];
    }
  }

  /** Fills the table row by row, keeping only the previous row and the current one. */
  method Levenshtein(a: Word, b: Word) returns (d: nat)
    ensures d == Dist(a, b)
    ensures LeastCost(a, b, d)
  {
    var prev := new nat[|b| + 1];
    for j := 0 to |b| + 1
      invariant forall k :: 0 <= k < j ==> prev[k] == Cell(a, b, 0, k)
    {
      CellStep(a, b, 0, j);
      prev[j] := j;
    }
    for i := 1 to |a| + 1
      invariant prev.Length == |b| + 1
      invariant forall k :: 0 <= k <= |b| ==> prev[k] == Cell(a, b, i - 1, k)
    {
      var cur := new nat[|b| + 1];
      CellStep(a, b, i, 0);
      cur[0] := i;
      for j := 1 to |b| + 1
        invariant forall k :: 0 <= k <= |b| ==> prev[k] == Cell(a, b, i - 1, k)
        invariant forall k :: 0 <= k < j ==> cur[k] == Cell(a, b, i, k)
      {
        var cost := if a[i - 1] == b[j - 1] then 0 else 1;
        CellStep(a, b, i, j);
        cur[j] := Min3(prev[j] + 1, cur[j - 1] + 1, prev[j - 1] + cost);
      }
      prev := cur;
    }
    d := prev[|b|];
    assert a[..|a|] == a && b[..|b|] == b;
    DistIsLeastCost(a, b, d);
  }
}
