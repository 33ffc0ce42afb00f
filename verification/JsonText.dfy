/** JSON texts as RFC 8259 defines them, kept with their whitespace, and their printed bytes.
    Sections of RFC 8259: 2 (grammar, whitespace), 4 (objects), 5 (arrays), 6 (numbers), 7 (strings). */
module JsonText {
  import opened StreamParser

  predicate IsWs(b: byte) {
    b == SPACE || b == TAB || b == LF || b == CR
  }

  predicate IsDigit(b: byte) {
    0x30 <= b <= 0x39
  }

  predicate IsHex(b: byte) {
    IsDigit(b) || 0x41 <= b <= 0x46 || 0x61 <= b <= 0x66
  }

  /** Insignificant whitespace (section 2). */
  type Ws = s: seq<byte> | forall i :: 0 <= i < |s| ==> IsWs(s[i])

  type Digits = s: seq<byte> | s != [] && forall i :: 0 <= i < |s| ==> IsDigit(s[i]) witness [0x30]

  /** Digits without a leading zero, or the one digit 0. */
  type IntDigits = s: Digits | |s| == 1 || s[0] != 0x30 witness [0x30]

  type Hex4 = s: seq<byte> | |s| == 4 && forall i :: 0 <= i < |s| ==> IsHex(s[i]) witness [0x30, 0x30, 0x30, 0x30]

  /** A byte that stands for itself inside a string: no control byte, quote or backslash. */
  type Unescaped = b: byte | b >= 0x20 && b != QUOTE && b != BACKSLASH witness 0x61

  /** The letter of a two-character escape: quote, backslash, slash, b, f, n, r, t. */
  type EscapeLetter = b: byte | b in [QUOTE, BACKSLASH, 0x2F, 0x62, 0x66, 0x6E, 0x72, 0x74] witness QUOTE

  datatype StringChar = Raw(b: Unescaped) | Escaped(letter: EscapeLetter) | CodePoint(hex: Hex4)

  datatype Literal = True | False | Null

  datatype Fraction = NoFraction | Fraction(digits: Digits)

  datatype Sign = Unsigned | Plus | Minus

  datatype Exponent = NoExponent | Exponent(upper: bool, sign: Sign, digits: Digits)

  datatype Value =
    | Lit(l: Literal)
    | Number(negative: bool, whole: IntDigits, fraction: Fraction, exponent: Exponent)
    | Str(chars: seq<StringChar>)
    | Array(open: Ws, elems: Elems, close: Ws)
    | EmptyArray(inner: Ws)
    | Obj(o: ObjectText)

  datatype Elems = LastElem(v: Value) | Elem(v: Value, beforeComma: Ws, afterComma: Ws, rest: Elems)

  datatype ObjectText =
    | EmptyObject(inner: Ws)
    | ObjectText(open: Ws, members: Members, close: Ws)

  datatype Members = LastMember(m: Member) | Member1(m: Member, beforeComma: Ws, afterComma: Ws, rest: Members)

  datatype Member = Member(name: seq<StringChar>, beforeColon: Ws, afterColon: Ws, v: Value)

  // ---- Printing ----

  function PrintChar(c: StringChar): seq<byte> {
    match c
    case Raw(b) => [b]
    case Escaped(letter) => [BACKSLASH, letter]
    case CodePoint(hex) => [BACKSLASH, 0x75] + hex
  }

  function PrintChars(cs: seq<StringChar>): seq<byte> {
    if cs == [] then [] else PrintChar(cs[0]) + PrintChars(cs[1..])
  }

  function PrintString(cs: seq<StringChar>): seq<byte> {
    [QUOTE] + PrintChars(cs) + [QUOTE]
  }

  function PrintLiteral(l: Literal): seq<byte> {
    match l
    case True => [0x74, 0x72, 0x75, 0x65]
    case False => [0x66, 0x61, 0x6C, 0x73, 0x65]
    case Null => [0x6E, 0x75, 0x6C, 0x6C]
  }

  function PrintFraction(f: Fraction): seq<byte> {
    if f.NoFraction? then [] else [0x2E] + f.digits
  }

  function PrintExponent(e: Exponent): seq<byte> {
    if e.NoExponent? then []
    else
      [if e.upper then 0x45 else 0x65]
      + (match e.sign case Unsigned => [] case Plus => [0x2B] case Minus => [0x2D])
      + e.digits
  }

  function PrintNumber(negative: bool, whole: IntDigits, f: Fraction, e: Exponent): seq<byte> {
    (if negative then [0x2D] else []) + whole + PrintFraction(f) + PrintExponent(e)
  }

  function PrintValue(v: Value): seq<byte> {
    match v
    case Lit(l) => PrintLiteral(l)
    case Number(negative, whole, f, e) => PrintNumber(negative, whole, f, e)
    case Str(cs) => PrintString(cs)
    case Array(open, elems, close) => [LBRACKET] + open + PrintElems(elems) + close + [RBRACKET]
    case EmptyArray(inner) => [LBRACKET] + inner + [RBRACKET]
    case Obj(o) => PrintObject(o)
  }

  function PrintElems(es: Elems): seq<byte> {
    match es
    case LastElem(v) => PrintValue(v)
    case Elem(v, before, after, rest) => PrintValue(v) + before + [COMMA] + after + PrintElems(rest)
  }

  function PrintObject(o: ObjectText): seq<byte>
    decreases o, 1
  {
    [LBRACE] + PrintInside(o) + [RBRACE]
  }

  function PrintInside(o: ObjectText): seq<byte>
    decreases o, 0
  {
    match o
    case EmptyObject(inner) => inner
    case ObjectText(open, members, close) => open + PrintMembers(members) + close
  }

  function PrintMembers(ms: Members): seq<byte> {
    match ms
    case LastMember(m) => PrintMember(m)
    case Member1(m, before, after, rest) => PrintMember(m) + before + [COMMA] + after + PrintMembers(rest)
  }

  function PrintMember(m: Member): seq<byte> {
    PrintString(m.name) + m.beforeColon + [0x3A] + m.afterColon + PrintValue(m.v)
  }

  // ---- Printed pieces leave the splitter where they found it ----

  /** Outside strings, inside at least one open brace. */
  ghost predicate Between(f: Flags) {
    f.depth > 0 && !f.inString && !f.escape
  }

  /** Reading `s` never balances the braces and comes back to the same flags. */
  ghost predicate Neutral(f: Flags, s: seq<byte>) {
    FoldAll(f, s) == f && StaysOpen(f, s)
  }

  lemma NeutralConcat(f: Flags, s: seq<byte>, t: seq<byte>)
    requires Neutral(f, s) && Neutral(f, t)
    ensures Neutral(f, s + t)
  {
    FoldAllConcat(f, s, t);
  }

  /** Bytes without quotes and braces are neutral outside strings. */
  lemma {:induction false} PlainNeutral(f: Flags, s: seq<byte>)
    requires Between(f)
    requires forall i :: 0 <= i < |s| ==> s[i] != QUOTE && s[i] != LBRACE && s[i] != RBRACE
    ensures Neutral(f, s)
    decreases |s|
  {
    if s != [] {
      PlainNeutral(f, s[1..]);
    }
  }

  lemma {:induction false} StringBytesNeutral(f: Flags, s: seq<byte>)
    requires f.depth > 0 && f.inString && !f.escape
    requires forall i :: 0 <= i < |s| ==> s[i] != QUOTE && s[i] != BACKSLASH
    ensures Neutral(f, s)
    decreases |s|
  {
    if s != [] {
      StringBytesNeutral(f, s[1..]);
    }
  }

  lemma CharNeutral(f: Flags, c: StringChar)
    requires f.depth > 0 && f.inString && !f.escape
    ensures Neutral(f, PrintChar(c))
  {
    match c {
      case Raw(b) => StringBytesNeutral(f, [b]);
      case Escaped(letter) => EscapePairNeutral(f, letter);
      case CodePoint(hex) =>
        EscapePairNeutral(f, 0x75);
        StringBytesNeutral(f, hex);
        NeutralConcat(f, [BACKSLASH, 0x75], hex);
    }
  }

  lemma EscapePairNeutral(f: Flags, letter: byte)
    requires f.depth > 0 && f.inString && !f.escape
    ensures Neutral(f, [BACKSLASH, letter])
  {
    var s := [BACKSLASH, letter];
    assert s[1..] == [letter] && s[1..][1..] == [];
    var g := Fold(f, BACKSLASH);
    assert g == f.(escape := true) && Fold(g, letter) == f;
    assert FoldAll(g, [letter]) == f && StaysOpen(g, [letter]);
  }

  lemma {:induction false} CharsNeutral(f: Flags, cs: seq<StringChar>)
    requires f.depth > 0 && f.inString && !f.escape
    ensures Neutral(f, PrintChars(cs))
  {
    if cs != [] {
      CharNeutral(f, cs[0]);
      CharsNeutral(f, cs[1..]);
      NeutralConcat(f, PrintChar(cs[0]), PrintChars(cs[1..]));
    }
  }

  /** Reading `[l] + s + [r]` where `l` moves the flags to `g`, `s` is neutral at `g` and `r` moves them back. */
  lemma Bracketed(f: Flags, l: byte, g: Flags, s: seq<byte>, r: byte)
    requires Fold(f, l) == g && g.depth > 0 && Neutral(g, s)
    ensures FoldAll(f, [l] + s + [r]) == Fold(g, r)
    ensures StaysOpen(f, [l] + s)
    ensures Fold(g, r).depth > 0 ==> StaysOpen(f, [l] + s + [r])
  {
    var t := [l] + s;
    assert t[0] == l && t[1..] == s;
    FoldAllSnoc(f, t, r);
  }

  lemma StringNeutral(f: Flags, cs: seq<StringChar>)
    requires Between(f)
    ensures Neutral(f, PrintString(cs))
  {
    var g := f.(inString := true);
    CharsNeutral(g, cs);
    Bracketed(f, QUOTE, g, PrintChars(cs), QUOTE);
  }

  lemma WsNeutral(f: Flags, ws: Ws)
    requires Between(f)
    ensures Neutral(f, ws)
  {
    forall i | 0 <= i < |ws| ensures ws[i] != QUOTE && ws[i] != LBRACE && ws[i] != RBRACE {
      assert IsWs(ws[i]);
    }
    PlainNeutral(f, ws);
  }

  /** A list separator with its whitespace, followed by more. */
  lemma JoinNeutral(f: Flags, left: seq<byte>, before: Ws, sep: byte, after: Ws, right: seq<byte>)
    requires Between(f) && sep != QUOTE && sep != LBRACE && sep != RBRACE
    requires Neutral(f, left) && Neutral(f, right)
    ensures Neutral(f, left + before + [sep] + after + right)
  {
    WsNeutral(f, before);
    WsNeutral(f, after);
    PlainNeutral(f, [sep]);
    NeutralConcat(f, left, before);
    NeutralConcat(f, left + before, [sep]);
    NeutralConcat(f, left + before + [sep], after);
    NeutralConcat(f, left + before + [sep] + after, right);
  }

  lemma NumberNeutral(f: Flags, negative: bool, whole: IntDigits, fr: Fraction, e: Exponent)
    requires Between(f)
    ensures Neutral(f, PrintNumber(negative, whole, fr, e))
  {
    var minus: seq<byte> := if negative then [0x2D] else [];
    DigitsPlain(whole);
    if fr.Fraction? { DigitsPlain(fr.digits); }
    if e.Exponent? { DigitsPlain(e.digits); }
    PlainNeutral(f, minus);
    PlainNeutral(f, whole);
    PlainNeutral(f, PrintFraction(fr));
    PlainNeutral(f, PrintExponent(e));
    NeutralConcat(f, minus, whole);
    NeutralConcat(f, minus + whole, PrintFraction(fr));
    NeutralConcat(f, minus + whole + PrintFraction(fr), PrintExponent(e));
  }

  lemma DigitsPlain(s: Digits)
    ensures forall i :: 0 <= i < |s| ==> s[i] != QUOTE && s[i] != LBRACE && s[i] != RBRACE
  {
  }

  lemma {:induction false} ValueNeutral(f: Flags, v: Value)
    requires Between(f)
    ensures Neutral(f, PrintValue(v))
    decreases v
  {
    match v {
      case Lit(l) => PlainNeutral(f, PrintLiteral(l));
      case Number(negative, whole, fr, e) => NumberNeutral(f, negative, whole, fr, e);
      case Str(cs) => StringNeutral(f, cs);
      case Array(open, elems, close) =>
        ElemsNeutral(f, elems);
        PaddedNeutral(f, LBRACKET, open, PrintElems(elems), close, RBRACKET);
      case EmptyArray(inner) =>
        WsNeutral(f, inner);
        PlainNeutral(f, [LBRACKET]);
        PlainNeutral(f, [RBRACKET]);
        NeutralConcat(f, [LBRACKET], inner);
        NeutralConcat(f, [LBRACKET] + inner, [RBRACKET]);
      case Obj(o) =>
        var g := f.(depth := f.depth + 1);
        InsideNeutral(g, o);
        Bracketed(f, LBRACE, g, PrintInside(o), RBRACE);
    }
  }

  lemma PaddedNeutral(f: Flags, l: byte, open: Ws, s: seq<byte>, close: Ws, r: byte)
    requires Between(f) && Neutral(f, s)
    requires l == LBRACKET && r == RBRACKET
    ensures Neutral(f, [l] + open + s + close + [r])
  {
    WsNeutral(f, open);
    WsNeutral(f, close);
    PlainNeutral(f, [l]);
    PlainNeutral(f, [r]);
    NeutralConcat(f, [l], open);
    NeutralConcat(f, [l] + open, s);
    NeutralConcat(f, [l] + open + s, close);
    NeutralConcat(f, [l] + open + s + close, [r]);
  }

  lemma {:induction false} ElemsNeutral(f: Flags, es: Elems)
    requires Between(f)
    ensures Neutral(f, PrintElems(es))
    decreases es
  {
    ValueNeutral(f, es.v);
    if es.Elem? {
      ElemsNeutral(f, es.rest);
      JoinNeutral(f, PrintValue(es.v), es.beforeComma, COMMA, es.afterComma, PrintElems(es.rest));
    }
  }

  lemma {:induction false} InsideNeutral(f: Flags, o: ObjectText)
    requires Between(f)
    ensures Neutral(f, PrintInside(o))
    decreases o
  {
    match o {
      case EmptyObject(inner) => WsNeutral(f, inner);
      case ObjectText(open, members, close) =>
        WsNeutral(f, open);
        MembersNeutral(f, members);
        WsNeutral(f, close);
        NeutralConcat(f, open, PrintMembers(members));
        NeutralConcat(f, open + PrintMembers(members), close);
    }
  }

  lemma {:induction false} MembersNeutral(f: Flags, ms: Members)
    requires Between(f)
    ensures Neutral(f, PrintMembers(ms))
    decreases ms
  {
    var m := ms.m;
    StringNeutral(f, m.name);
    ValueNeutral(f, m.v);
    JoinNeutral(f, PrintString(m.name), m.beforeColon, 0x3A, m.afterColon, PrintValue(m.v));
    if ms.Member1? {
      MembersNeutral(f, ms.rest);
      JoinNeutral(f, PrintMember(m), ms.beforeComma, COMMA, ms.afterComma, PrintMembers(ms.rest));
    }
  }

  // ---- Round trip ----

  /** Every printed JSON object is complete: its braces balance at its last byte and not before. */
  lemma PrintedObjectComplete(o: ObjectText)
    ensures Complete(PrintObject(o))
  {
    var g := FRESH.(depth := 1);
    InsideNeutral(g, o);
    Bracketed(FRESH, LBRACE, g, PrintInside(o), RBRACE);
    var t := PrintObject(o);
    assert t[..|t| - 1] == [LBRACE] + PrintInside(o);
  }

  function PrintAll(os: seq<ObjectText>): (r: seq<seq<byte>>)
    ensures |r| == |os|
    ensures forall i :: 0 <= i < |os| ==> r[i] == PrintObject(os[i])
  {
    if os == [] then [] else [PrintObject(os[0])] + PrintAll(os[1..])
  }

  /** Print any objects with any structural bytes between them, feed the bytes to a splitter and call `Next`
      until it stops: it returns the printed objects, in order, and then the end of the stream. */
  method PrintThenSplit(os: seq<ObjectText>, seps: seq<seq<byte>>, trailer: seq<byte>)
    returns (objs: seq<seq<byte>>, end: Outcome)
    requires |seps| == |os|
    requires (forall i :: 0 <= i < |seps| ==> AllStructural(seps[i])) && AllStructural(trailer)
    ensures objs == PrintAll(os) && end == EndOfStream
  {
    var printed := PrintAll(os);
    var p := new Parser(Interleave(seps, printed) + trailer, Eof);
    ghost var foundSeps, last;
    objs, end, foundSeps, last := p.Drain();
    PrintedStreamSplits(os, seps, trailer);
    SplitUnique(p.data, Eof, foundSeps, objs, last, end, seps, printed, trailer, EndOfStream);
  }

  /** The round trip for whatever reads the stream: every splitting of it returns the printed objects. */
  lemma PrintedStreamSplits(os: seq<ObjectText>, seps: seq<seq<byte>>, trailer: seq<byte>)
    requires |seps| == |os|
    requires (forall i :: 0 <= i < |seps| ==> AllStructural(seps[i])) && AllStructural(trailer)
    ensures Split(Interleave(seps, PrintAll(os)) + trailer, Eof, seps, PrintAll(os), trailer, EndOfStream)
  {
    forall i | 0 <= i < |os| ensures Complete(PrintAll(os)[i]) {
      PrintedObjectComplete(os[i]);
    }
    assert NextOutcome(trailer, Eof, EndOfStream, |trailer|, |trailer|);
  }

  /** A stream cut off inside its last object still yields the objects before it, and then an error. */
  lemma TruncatedStreamSplits(os: seq<ObjectText>, seps: seq<seq<byte>>, sep: seq<byte>, o: ObjectText, cut: nat)
    requires |seps| == |os|
    requires (forall i :: 0 <= i < |seps| ==> AllStructural(seps[i])) && AllStructural(sep)
    requires 0 < cut < |PrintObject(o)|
    ensures Split(Interleave(seps, PrintAll(os)) + (sep + PrintObject(o)[..cut]), Eof,
                  seps, PrintAll(os), sep + PrintObject(o)[..cut], UnexpectedEnd)
  {
    PrintedStreamSplits(os, seps, []);
    PrintedObjectComplete(o);
    NoProperPrefixComplete(PrintObject(o), cut);
    var last := sep + PrintObject(o)[..cut];
    assert last[|sep|..] == PrintObject(o)[..cut];
    assert NextOutcome(last, Eof, UnexpectedEnd, |sep|, |last|);
  }

  // ---- Separators, byte by byte ----

  /** Blank, tab, line feed, carriage return, comma and the two square brackets. */
  const SEPARATORS: seq<byte> := [0x20, 0x09, 0x0A, 0x0D, 0x2C, 0x5B, 0x5D]

  ghost predicate OnlySeparators(s: seq<byte>) {
    forall b :: b in s ==> b in SEPARATORS
  }

  lemma SeparatorsAreStructural(s: seq<byte>)
    ensures OnlySeparators(s) <==> AllStructural(s)
  {
    forall b ensures b in SEPARATORS <==> IsStructural(b) {
    }
    if AllStructural(s) {
      forall b | b in s ensures b in SEPARATORS {
        var i :| 0 <= i < |s| && s[i] == b;
      }
    }
  }

  /** Printed objects with any of these bytes between them and behind them, and with any reader's end: whatever
      splitting there is of the stream has the printed objects, and ends as the reader does. */
  lemma SeparatedObjectsSplit(os: seq<ObjectText>, seps: seq<seq<byte>>, trailer: seq<byte>, tail: Tail,
                              foundSeps: seq<seq<byte>>, objs: seq<seq<byte>>, last: seq<byte>, end: Outcome)
    requires |seps| == |os| && (forall i :: 0 <= i < |seps| ==> OnlySeparators(seps[i])) && OnlySeparators(trailer)
    requires Split(Interleave(seps, PrintAll(os)) + trailer, tail, foundSeps, objs, last, end)
    ensures objs == PrintAll(os) && end == if tail == Eof then EndOfStream else ReadFailed(false)
  {
    var data, stop := Interleave(seps, PrintAll(os)) + trailer, if tail == Eof then EndOfStream else ReadFailed(false);
    AllSeparators(seps, trailer);
    PrintedStreamSplits(os, seps, trailer);
    assert NextOutcome(trailer, tail, stop, |trailer|, |trailer|);
    SplitUnique(data, tail, foundSeps, objs, last, end, seps, PrintAll(os), trailer, stop);
  }

  lemma AllSeparators(seps: seq<seq<byte>>, trailer: seq<byte>)
    requires (forall i :: 0 <= i < |seps| ==> OnlySeparators(seps[i])) && OnlySeparators(trailer)
    ensures (forall i :: 0 <= i < |seps| ==> AllStructural(seps[i])) && AllStructural(trailer)
  {
    forall i | 0 <= i < |seps| ensures AllStructural(seps[i]) {
      SeparatorsAreStructural(seps[i]);
    }
    SeparatorsAreStructural(trailer);
  }

  /** Any other byte where an object should begin ends the stream with that byte, behind the objects before it. */
  lemma StrayByteSplits(os: seq<ObjectText>, seps: seq<seq<byte>>, gap: seq<byte>, b: byte, more: seq<byte>, tail: Tail)
    requires |seps| == |os| && (forall i :: 0 <= i < |seps| ==> OnlySeparators(seps[i])) && OnlySeparators(gap)
    requires b !in SEPARATORS && b != 0x7B
    ensures Split(Interleave(seps, PrintAll(os)) + (gap + [b] + more), tail, seps, PrintAll(os), gap + [b] + more,
                  BadByte(b))
  {
    AllSeparators(seps, gap);
    PrintedStreamSplits(os, seps, []);
    SeparatorsAreStructural([b]);
    var last := gap + [b] + more;
    assert last[|gap|] == b && b in [b];
    assert NextOutcome(last, tail, BadByte(b), |gap|, |gap| + 1);
  }
}
