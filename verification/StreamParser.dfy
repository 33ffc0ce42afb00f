/** The splitter that cuts a stream of pretty-printed objects, with or without commas between them,
    into one balanced object at a time. */
module StreamParser {
  import opened Options

  newtype byte = x: int | 0 <= x < 256

  const TAB: byte := 0x09
  const LF: byte := 0x0A
  const CR: byte := 0x0D
  const SPACE: byte := 0x20
  const QUOTE: byte := 0x22
  const COMMA: byte := 0x2C
  const LBRACKET: byte := 0x5B
  const BACKSLASH: byte := 0x5C
  const RBRACKET: byte := 0x5D
  const LBRACE: byte := 0x7B
  const RBRACE: byte := 0x7D

  /** Bytes that may stand between objects. */
  predicate IsStructural(b: byte) {
    b == LBRACKET || b == RBRACKET || b == COMMA || b == SPACE || b == TAB || b == CR || b == LF
  }

  ghost predicate AllStructural(s: seq<byte>) {
    forall i :: 0 <= i < |s| ==> IsStructural(s[i])
  }

  // ---- What the flags mean, over whole byte sequences ----

  datatype Flags = Flags(depth: int, inString: bool, escape: bool)

  const FRESH := Flags(0, false, false)

  /** The flags after one more byte. */
  function Fold(f: Flags, b: byte): Flags {
    if f.escape then f.(escape := false)
    else if b == BACKSLASH && f.inString then f.(escape := true)
    else if b == QUOTE then f.(inString := !f.inString)
    else if f.inString then f
    else if b == LBRACE then f.(depth := f.depth + 1)
    else if b == RBRACE then f.(depth := f.depth - 1)
    else f
  }

  function FoldAll(f: Flags, s: seq<byte>): Flags
    decreases |s|
  {
    if s == [] then f else FoldAll(Fold(f, s[0]), s[1..])
  }

  /** The braces never balance at or before the end of `s`. */
  ghost predicate StaysOpen(f: Flags, s: seq<byte>)
    decreases |s|
  {
    s == [] || (Fold(f, s[0]).depth > 0 && StaysOpen(Fold(f, s[0]), s[1..]))
  }

  /** An object was opened and is still open. */
  ghost predicate Unfinished(t: seq<byte>) {
    t != [] && t[0] == LBRACE && StaysOpen(FRESH, t)
  }

  /** The braces of `t`, outside its strings, balance at the last byte and not before. */
  ghost predicate Complete(t: seq<byte>) {
    && t != [] && t[0] == LBRACE
    && StaysOpen(FRESH, t[..|t| - 1])
    && FoldAll(FRESH, t).depth == 0
  }

  lemma {:induction false} FoldAllConcat(f: Flags, s: seq<byte>, t: seq<byte>)
    ensures FoldAll(f, s + t) == FoldAll(FoldAll(f, s), t)
    ensures StaysOpen(f, s + t) <==> StaysOpen(f, s) && StaysOpen(FoldAll(f, s), t)
    decreases |s|
  {
    if s == [] {
      assert s + t == t;
    } else {
      assert (s + t)[1..] == s[1..] + t;
      FoldAllConcat(Fold(f, s[0]), s[1..], t);
    }
  }

  lemma FoldAllSnoc(f: Flags, s: seq<byte>, b: byte)
    ensures FoldAll(f, s + [b]) == Fold(FoldAll(f, s), b)
    ensures StaysOpen(f, s + [b]) <==> StaysOpen(f, s) && Fold(FoldAll(f, s), b).depth > 0
  {
    FoldAllConcat(f, s, [b]);
    var g := FoldAll(f, s);
    assert FoldAll(g, [b]) == FoldAll(Fold(g, b), []);
    assert StaysOpen(g, [b]) <==> Fold(g, b).depth > 0;
  }

  lemma {:induction false} OpenAtTheEnd(f: Flags, s: seq<byte>)
    requires StaysOpen(f, s) && s != []
    ensures FoldAll(f, s).depth > 0
    decreases |s|
  {
    if |s| > 1 {
      OpenAtTheEnd(Fold(f, s[0]), s[1..]);
    }
  }

  /** No proper prefix of a complete object is complete, and the object as a whole is not unfinished. */
  lemma NoProperPrefixComplete(t: seq<byte>, k: nat)
    requires Complete(t) && k < |t|
    ensures !Complete(t[..k]) && !Unfinished(t)
    ensures k > 0 ==> Unfinished(t[..k])
  {
    var body := t[..|t| - 1];
    assert t == body + [t[|t| - 1]];
    FoldAllSnoc(FRESH, body, t[|t| - 1]);
    assert body == t[..k] + body[k..];
    FoldAllConcat(FRESH, t[..k], body[k..]);
    if k > 0 {
      OpenAtTheEnd(FRESH, t[..k]);
    }
  }

  /** Where the flags stand when `buf` has been read of an object that is still open or yet to start. */
  ghost function Progress(buf: seq<byte>): Option<Flags> {
    if (buf != [] ==> buf[0] == LBRACE) && StaysOpen(FRESH, buf) then Some(FoldAll(FRESH, buf)) else None
  }

  ghost predicate Reading(buf: seq<byte>, f: Flags) {
    Progress(buf) == Some(f)
  }

  /** One more byte either keeps an open object open or completes it. */
  lemma StepOpen(was: seq<byte>, f: Flags, b: byte)
    requires Reading(was, f) && (was == [] ==> b == LBRACE)
    ensures f.depth == 1 && Fold(f, b).depth == 0 ==> Complete(was + [b])
    ensures !(f.depth == 1 && Fold(f, b).depth == 0) ==> Reading(was + [b], Fold(f, b))
  {
    FoldAllSnoc(FRESH, was, b);
    assert (was + [b])[..|was + [b]| - 1] == was;
    if was != [] {
      OpenAtTheEnd(FRESH, was);
    }
  }

  // ---- What one call returns ----

  /** How the underlying reader ends: cleanly, or with an error of its own. */
  datatype Tail = Eof | Broken

  datatype Outcome =
    | Object(text: seq<byte>)
    | EndOfStream
    | BadByte(b: byte)
    | UnexpectedEnd
    | ReadFailed(inObject: bool)

  /** The next byte after `skipped` structural ones is the first that is not structural. */
  ghost predicate Skips(rest: seq<byte>, skipped: nat) {
    && skipped <= |rest|
    && (forall i :: 0 <= i < skipped ==> IsStructural(rest[i]))
    && (skipped < |rest| ==> !IsStructural(rest[skipped]))
  }

  /** What `Next` must do with the unread bytes `rest`: the outcome, how many structural bytes it skips
      and how many bytes it has read in all. */
  ghost predicate NextOutcome(rest: seq<byte>, tail: Tail, r: Outcome, skipped: nat, used: nat) {
    && Skips(rest, skipped) && skipped <= used <= |rest|
    && match r
       case Object(t) => rest[skipped..used] == t && Complete(t)
       case EndOfStream => skipped == used == |rest| && tail == Eof
       case BadByte(b) => used == skipped + 1 && rest[skipped] == b && b != LBRACE
       case UnexpectedEnd => used == |rest| && Unfinished(rest[skipped..]) && tail == Eof
       case ReadFailed(inObject) =>
         && used == |rest| && tail == Broken
         && if inObject then Unfinished(rest[skipped..]) else skipped == used
  }

  lemma StillReading(rest: seq<byte>, tail: Tail, k: nat, n: nat, buf: seq<byte>, f: Flags)
    requires Skips(rest, k) && k < |rest| == n && buf == rest[k..n] && Reading(buf, f)
    ensures NextOutcome(rest, tail, if tail == Eof then UnexpectedEnd else ReadFailed(true), k, n)
  {
    assert rest[k..n] == rest[k..];
  }

  lemma ObjectRead(rest: seq<byte>, tail: Tail, k: nat, n: nat, buf: seq<byte>)
    requires Skips(rest, k) && k <= n <= |rest| && buf == rest[k..n] && Complete(buf)
    ensures NextOutcome(rest, tail, Object(buf), k, n)
  {
  }

  lemma ReadOneMore(rest: seq<byte>, k: nat, n: nat)
    requires k <= n < |rest|
    ensures rest[k..n + 1] == rest[k..n] + [rest[n]]
  {
  }

  lemma CompleteHeadIsUnique(body: seq<byte>, m: nat, n: nat)
    requires m <= n <= |body| && Complete(body[..m])
    requires Complete(body[..n]) || Unfinished(body[..n])
    ensures m == n && Complete(body[..n])
  {
    if m < n {
      assert body[..n][..m] == body[..m];
      if Complete(body[..n]) {
        NoProperPrefixComplete(body[..n], m);
      } else {
        assert body[..n] == body[..m] + body[m..n];
        FoldAllConcat(FRESH, body[..m], body[m..n]);
        OpenAtTheEnd(FRESH, body[..m]);
      }
    } else {
      NoProperPrefixComplete(body[..m], 0);
    }
  }

  lemma ObjectOutcomeUnique(rest: seq<byte>, tail: Tail, t: seq<byte>, k: nat, n: nat, r: Outcome, n': nat)
    requires NextOutcome(rest, tail, Object(t), k, n) && NextOutcome(rest, tail, r, k, n')
    ensures r == Object(t) && n == n'
  {
    assert t[0] == rest[k] == LBRACE;
    var body := rest[k..];
    assert t == body[..n - k];
    match r {
      case Object(t') =>
        assert t' == body[..n' - k];
        if n <= n' {
          CompleteHeadIsUnique(body, n - k, n' - k);
        } else {
          CompleteHeadIsUnique(body, n' - k, n - k);
        }
      case EndOfStream =>
      case BadByte(b) =>
      case _ =>
        assert body == body[..n' - k];
        CompleteHeadIsUnique(body, n - k, n' - k);
        NoProperPrefixComplete(body, 0);
    }
  }

  /** The outcome is determined by the unread bytes, so each kind of outcome occurs exactly when
      `NextOutcome` describes it. */
  lemma NextOutcomeUnique(rest: seq<byte>, tail: Tail, r: Outcome, k: nat, n: nat, r': Outcome, k': nat, n': nat)
    requires NextOutcome(rest, tail, r, k, n) && NextOutcome(rest, tail, r', k', n')
    ensures r == r' && k == k' && n == n'
  {
    assert k == k';
    if r.Object? {
      ObjectOutcomeUnique(rest, tail, r.text, k, n, r', n');
    } else if r'.Object? {
      ObjectOutcomeUnique(rest, tail, r'.text, k, n', r, n);
    }
  }

  /** The ends of a stream: clean exactly when only structural bytes were left, unexpected exactly when an object was
      opened after them and never closed, and neither when the reader itself failed. */
  lemma EndOutcomes(rest: seq<byte>, tail: Tail, r: Outcome, k: nat, n: nat)
    requires NextOutcome(rest, tail, r, k, n)
    ensures r == EndOfStream <==> AllStructural(rest) && tail == Eof
    ensures r == UnexpectedEnd <==> Unfinished(rest[k..]) && tail == Eof
    ensures r.ReadFailed? <==> (AllStructural(rest) || Unfinished(rest[k..])) && tail == Broken
    ensures r.BadByte? <==> k < |rest| && rest[k] != LBRACE
  {
    if AllStructural(rest) {
      assert k == |rest|;
    }
    if Unfinished(rest[k..]) {
      var end := if tail == Eof then UnexpectedEnd else ReadFailed(true);
      assert rest[k] == rest[k..][0] == LBRACE;
      NextOutcomeUnique(rest, tail, end, k, |rest|, r, k, n);
    }
    if r.Object? {
      assert rest[k] == r.text[0];
    }
  }

  // ---- The splitter ----

  class Parser {
    const data: seq<byte>
    const tail: Tail
    var pos: nat
    var depth: int
    var inString: bool
    var escape: bool
    var buf: seq<byte>

    ghost predicate Valid()
      reads this
    {
      pos <= |data|
    }

    /** The bytes not read yet. */
    ghost function Rest(): seq<byte>
      requires Valid()
      reads this
    {
      data[pos..]
    }

    constructor (data: seq<byte>, tail: Tail)
      ensures Valid() && this.data == data && this.tail == tail && Rest() == data
    {
      this.data, this.tail := data, tail;
      pos, depth, inString, escape, buf := 0, 0, false, false, [];
    }

    /** Reads structural bytes up to the next opening brace, which stays unread; `stop` says why there is none. */
    method SkipToObject() returns (found: bool, stop: Outcome, ghost skipped: nat)
      requires Valid()
      modifies this`pos
      ensures Valid() && old(pos) <= pos
      ensures found ==> skipped == pos - old(pos) && Skips(old(Rest()), skipped) && Rest() != [] && Rest()[0] == LBRACE
      ensures !found ==> !stop.Object? && NextOutcome(old(Rest()), tail, stop, skipped, pos - old(pos))
    {
      found, stop, skipped := false, EndOfStream, 0;
      ghost var rest := Rest();
      while true
        invariant Valid() && pos == old(pos) + skipped && !found
        invariant forall i :: 0 <= i < skipped ==> IsStructural(rest[i])
        decreases |data| - pos
      {
        if pos == |data| {
          stop := if tail == Eof then EndOfStream else ReadFailed(false);
          return;
        }
        var b := data[pos];
        assert b == rest[skipped];
        pos := pos + 1;
        if b == LBRACE {
          pos := pos - 1;
          found := true;
          return;
        }
        if !IsStructural(b) {
          stop := BadByte(b);
          return;
        }
        skipped := skipped + 1;
      }
    }

    method Reset()
      modifies this`depth, this`inString, this`escape, this`buf
      ensures Flags(depth, inString, escape) == FRESH && buf == []
    {
      depth, inString, escape, buf := 0, false, false, [];
    }

    /** Takes a byte of the open object; the answer is whether its braces balance now. */
    method Consume(b: byte) returns (done: bool)
      modifies this`depth, this`inString, this`escape, this`buf
      ensures Flags(depth, inString, escape) == Fold(old(Flags(depth, inString, escape)), b)
      ensures buf == old(buf) + [b]
      ensures done <==> old(depth) == 1 && depth == 0
    {
      buf := buf + [b];
      if escape {
        escape := false;
        return false;
      }
      if b == BACKSLASH && inString {
        escape := true;
      } else if b == QUOTE {
        inString := !inString;
      } else if inString {
        // nothing counts but the closing quote
      } else if b == LBRACE {
        depth := depth + 1;
      } else if b == RBRACE {
        depth := depth - 1;
        return depth == 0;
      }
      return false;
    }

    /** The next balanced object, or why there is none. */
    method Next() returns (r: Outcome, ghost skipped: nat)
      requires Valid()
      modifies this
      ensures Valid() && old(pos) <= pos
      ensures NextOutcome(old(Rest()), tail, r, skipped, pos - old(pos))
    {
      var found;
      found, r, skipped := SkipToObject();
      if !found {
        return;
      }
      Reset();
      ghost var rest, n := old(Rest()), skipped;
      assert rest[skipped] == LBRACE;
      while true
        invariant Valid() && pos == old(pos) + n && skipped <= n
        invariant buf == rest[skipped..n]
        invariant Reading(buf, Flags(depth, inString, escape))
        decreases |data| - pos
      {
        if pos == |data| {
          r := if tail == Eof then UnexpectedEnd else ReadFailed(true);
          StillReading(rest, tail, skipped, pos - old(pos), buf, Flags(depth, inString, escape));
          return;
        }
        var b := data[pos];
        assert b == rest[n];
        pos := pos + 1;
        StepOpen(buf, Flags(depth, inString, escape), b);
        ReadOneMore(rest, skipped, n);
        var done := Consume(b);
        n := n + 1;
        if done {
          r := Object(buf);
          ObjectRead(rest, tail, skipped, pos - old(pos), buf);
          return;
        }
      }
    }

    /** Calls `Next` until it returns no object, as the ingest producer does. */
    method Drain() returns (objs: seq<seq<byte>>, end: Outcome, ghost seps: seq<seq<byte>>, ghost last: seq<byte>)
      requires Valid()
      modifies this
      ensures Valid() && Split(old(Rest()), tail, seps, objs, last, end)
    {
      objs, seps, last := [], [], Rest();
      ghost var all, k := Rest(), 0;
      TakeNone(all);
      while true
        invariant Valid() && last == Rest() && Taken(all, seps, objs, last)
        decreases |data| - pos
      {
        ghost var p := pos;
        end, k := Next();
        ghost var n := pos - p;
        if !end.Object? {
          TakeEnd(all, seps, objs, last, tail, end, k, n);
          return;
        }
        TakeOne(all, seps, objs, last, tail, end.text, k, n);
        objs, seps, last := objs + [end.text], seps + [last[..k]], last[n..];
      }
    }
  }

  // ---- Whole streams ----

  function Interleave(seps: seq<seq<byte>>, objs: seq<seq<byte>>): seq<byte>
    requires |seps| == |objs|
  {
    if objs == [] then [] else seps[0] + objs[0] + Interleave(seps[1..], objs[1..])
  }

  /** `data` is separators and complete objects in turn, and then `rest`. */
  ghost predicate Taken(data: seq<byte>, seps: seq<seq<byte>>, objs: seq<seq<byte>>, rest: seq<byte>) {
    && |seps| == |objs|
    && (forall i :: 0 <= i < |objs| ==> AllStructural(seps[i]) && Complete(objs[i]))
    && data == Interleave(seps, objs) + rest
  }

  lemma TakeOne(data: seq<byte>, seps: seq<seq<byte>>, objs: seq<seq<byte>>, rest: seq<byte>, tail: Tail,
                t: seq<byte>, k: nat, n: nat)
    requires Taken(data, seps, objs, rest) && NextOutcome(rest, tail, Object(t), k, n)
    ensures Taken(data, seps + [rest[..k]], objs + [t], rest[n..]) && n > 0
  {
    var sep, more := rest[..k], rest[n..];
    InterleaveSnoc(seps, objs, sep, t);
    assert rest == sep + t + more;
    Regroup(Interleave(seps, objs), sep, t, more);
  }

  lemma Regroup(a: seq<byte>, b: seq<byte>, c: seq<byte>, d: seq<byte>)
    ensures a + (b + c + d) == a + b + c + d
  {
  }

  /** `data` is separators and complete objects in turn, and reading on at `last` gives `end`. */
  ghost predicate Split(data: seq<byte>, tail: Tail, seps: seq<seq<byte>>, objs: seq<seq<byte>>, last: seq<byte>,
                        end: Outcome)
  {
    && Taken(data, seps, objs, last)
    && !end.Object?
    && exists k: nat, n: nat :: NextOutcome(last, tail, end, k, n)
  }

  lemma TakeNone(data: seq<byte>)
    ensures Taken(data, [], [], data)
  {
  }

  lemma TakeEnd(data: seq<byte>, seps: seq<seq<byte>>, objs: seq<seq<byte>>, last: seq<byte>, tail: Tail, end: Outcome,
                k: nat, n: nat)
    requires Taken(data, seps, objs, last) && !end.Object? && NextOutcome(last, tail, end, k, n)
    ensures Split(data, tail, seps, objs, last, end)
  {
  }

  lemma {:induction false} InterleaveSnoc(seps: seq<seq<byte>>, objs: seq<seq<byte>>, sep: seq<byte>, obj: seq<byte>)
    requires |seps| == |objs|
    ensures Interleave(seps + [sep], objs + [obj]) == Interleave(seps, objs) + sep + obj
    decreases |objs|
  {
    if objs != [] {
      assert (seps + [sep])[1..] == seps[1..] + [sep] && (objs + [obj])[1..] == objs[1..] + [obj];
      InterleaveSnoc(seps[1..], objs[1..], sep, obj);
    }
  }

  /** Reading a separator and a complete object off the front of a stream. */
  lemma FrontObject(sep: seq<byte>, obj: seq<byte>, more: seq<byte>, tail: Tail)
    requires AllStructural(sep) && Complete(obj)
    ensures NextOutcome(sep + obj + more, tail, Object(obj), |sep|, |sep| + |obj|)
  {
  }

  /** The first call's outcome on a split stream, and what is left of the split after it. */
  lemma FirstOutcome(data: seq<byte>, tail: Tail, seps: seq<seq<byte>>, objs: seq<seq<byte>>, last: seq<byte>,
                     end: Outcome) returns (k: nat, n: nat)
    requires Split(data, tail, seps, objs, last, end)
    ensures NextOutcome(data, tail, if objs == [] then end else Object(objs[0]), k, n)
    ensures objs == [] ==> data == last
    ensures objs != [] ==> 0 < n <= |data| && Split(data[n..], tail, seps[1..], objs[1..], last, end)
    ensures objs != [] ==> seps[0] == data[..k]
  {
    if objs == [] {
      k, n :| NextOutcome(last, tail, end, k, n);
      assert data == last;
    } else {
      var sep, obj := seps[0], objs[0];
      var more := Interleave(seps[1..], objs[1..]) + last;
      assert data == sep + obj + more;
      k, n := |sep|, |sep| + |obj|;
      FrontObject(sep, obj, more, tail);
      assert data[n..] == more;
    }
  }

  /** A stream splits in one way only: whatever objects, separators and ending describe it, those are
      what repeated calls of `Next` find. */
  lemma {:induction false} SplitUnique(data: seq<byte>, tail: Tail,
                                       seps: seq<seq<byte>>, objs: seq<seq<byte>>, last: seq<byte>, end: Outcome,
                                       seps': seq<seq<byte>>, objs': seq<seq<byte>>, last': seq<byte>, end': Outcome)
    requires Split(data, tail, seps, objs, last, end) && Split(data, tail, seps', objs', last', end')
    ensures seps == seps' && objs == objs' && last == last' && end == end'
    decreases |objs|
  {
    var k, n := FirstOutcome(data, tail, seps, objs, last, end);
    var k', n' := FirstOutcome(data, tail, seps', objs', last', end');
    var r := if objs == [] then end else Object(objs[0]);
    var r' := if objs' == [] then end' else Object(objs'[0]);
    NextOutcomeUnique(data, tail, r, k, n, r', k', n');
    if objs != [] {
      assert data[n..] == data[n'..];
      SplitUnique(data[n..], tail, seps[1..], objs[1..], last, end, seps'[1..], objs'[1..], last', end');
      SameEnds(seps, seps');
      SameEnds(objs, objs');
    }
  }

  lemma SameEnds<T>(s: seq<T>, t: seq<T>)
    requires s != [] && t != [] && s[0] == t[0] && s[1..] == t[1..]
    ensures s == t
  {
  }
}
