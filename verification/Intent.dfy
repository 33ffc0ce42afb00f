/** Intent extraction: folding the query's unigrams and bigrams through a lexicon into a retrieval overlay.
    Queries are given as token lists; everything here holds for any lexicon. */
module Intent {
  import opened Options

  datatype Rule = Rule(
    category: string,
    subcategory: seq<string>,
    universal: seq<string>,
    specific: seq<string>,
    price: seq<string>,
    openNow: bool)

  type Lexicon = map<string, Rule>

  datatype Overlay = Overlay(
    category: Option<string>,
    subcategory: seq<string>,
    universal: seq<string>,
    specific: seq<string>,
    price: seq<string>,
    openNow: bool)

  const ZERO := Overlay(None, [], [], [], [], false)

  predicate IsZero(ov: Overlay) {
    ov.category.None? && |ov.subcategory| == 0 && |ov.universal| == 0 && |ov.specific| == 0 && |ov.price| == 0
    && !ov.openNow
  }

  function Bigram(t: string, u: string): string {
    t + " " + u
  }

  // ---- Appending without repeats ----

  function AppendUnique(dst: seq<string>, vals: seq<string>): seq<string> {
    if vals == [] then dst
    else
      var front := AppendUnique(dst, vals[..|vals| - 1]);
      var v := vals[|vals| - 1];
      if v in front then front else front + [v]
  }

  method AppendUniqueTo(dst: seq<string>, vals: seq<string>) returns (out: seq<string>)
    ensures out == AppendUnique(dst, vals)
  {
    out := dst;
    for i := 0 to |vals|
      invariant out == AppendUnique(dst, vals[..i])
    {
      assert vals[..i + 1][..i] == vals[..i];
      if vals[i] !in out {
        out := out + [vals[i]];
      }
    }
    assert vals[..|vals|] == vals;
  }

  ghost predicate NoRepeats(s: seq<string>) {
    forall i, j :: 0 <= i < j < |s| ==> s[i] != s[j]
  }

  /** The union keeps `dst` in front, holds the values of both, and repeats nothing that `dst` did not repeat. */
  lemma {:induction false} AppendUniqueIsUnion(dst: seq<string>, vals: seq<string>)
    ensures dst <= AppendUnique(dst, vals)
    ensures forall v :: v in AppendUnique(dst, vals) <==> v in dst || v in vals
    ensures NoRepeats(dst) ==> NoRepeats(AppendUnique(dst, vals))
  {
    if vals != [] {
      AppendUniqueIsUnion(dst, vals[..|vals| - 1]);
      assert vals == vals[..|vals| - 1] + [vals[|vals| - 1]];
    }
  }

  lemma {:induction false} AppendUniqueAssociates(a: seq<string>, b: seq<string>, c: seq<string>)
    ensures AppendUnique(AppendUnique(a, b), c) == AppendUnique(a, AppendUnique(b, c))
  {
    if c != [] {
      var c', v := c[..|c| - 1], c[|c| - 1];
      AppendUniqueAssociates(a, b, c');
      AppendUniqueIsUnion(a, AppendUnique(b, c'));
      var bc := AppendUnique(b, c');
      assert v !in bc ==> (bc + [v])[..|bc|] == bc;
    }
  }

  // ---- Merging one term ----

  /** What one lexicon entry adds to an overlay. */
  function Merged(ov: Overlay, term: string, lex: Lexicon): Overlay {
    if term !in lex then ov
    else
      var r := lex[term];
      Overlay(if r.category != "" then Some(r.category) else ov.category,
              AppendUnique(ov.subcategory, r.subcategory),
              AppendUnique(ov.universal, r.universal),
              AppendUnique(ov.specific, r.specific),
              AppendUnique(ov.price, r.price),
              ov.openNow || r.openNow)
  }

  /** The overlay being filled in. */
  class OverlayCell {
    var category: Option<string>
    var subcategory: seq<string>
    var universal: seq<string>
    var specific: seq<string>
    var price: seq<string>
    var openNow: bool

    function Value(): Overlay
      reads this
    {
      Overlay(category, subcategory, universal, specific, price, openNow)
    }

    constructor ()
      ensures Value() == ZERO
    {
      category, subcategory, universal, specific, price, openNow := None, [], [], [], [], false;
    }

    method MergeTerm(term: string, lex: Lexicon)
      modifies this
      ensures Value() == Merged(old(Value()), term, lex)
    {
      if term !in lex {
        return;
      }
      var r := lex[term];
      if r.category != "" {
        category := Some(r.category);
      }
      subcategory := AppendUniqueTo(subcategory, r.subcategory);
      universal := AppendUniqueTo(universal, r.universal);
      specific := AppendUniqueTo(specific, r.specific);
      price := AppendUniqueTo(price, r.price);
      if r.openNow {
        openNow := true;
      }
    }
  }

  // ---- Extracting ----

  /** The terms looked up, in order: each token, followed by its bigram with the next token. */
  function Terms(tokens: seq<string>): seq<string> {
    if tokens == [] then []
    else if |tokens| == 1 then [tokens[0]]
    else [tokens[0], Bigram(tokens[0], tokens[1])] + Terms(tokens[1..])
  }

  function MergeAll(ov: Overlay, terms: seq<string>, lex: Lexicon): Overlay {
    if terms == [] then ov
    else Merged(MergeAll(ov, terms[..|terms| - 1], lex), terms[|terms| - 1], lex)
  }

  function Extraction(tokens: seq<string>, lex: Lexicon): Overlay {
    MergeAll(ZERO, Terms(tokens), lex)
  }

  lemma {:induction false} TermsConcat(xs: seq<string>, ys: seq<string>)
    requires xs != [] && ys != []
    ensures Terms(xs + ys) == Terms(xs) + [Bigram(xs[|xs| - 1], ys[0])] + Terms(ys)
    decreases |xs|
  {
    var all := xs + ys;
    assert all[1..] == xs[1..] + ys;
    if |xs| > 1 {
      TermsConcat(xs[1..], ys);
      assert all[1] == xs[1];
    } else {
      assert xs[1..] + ys == ys;
    }
  }

  lemma {:induction false} MergeAllConcat(ov: Overlay, s: seq<string>, t: seq<string>, lex: Lexicon)
    ensures MergeAll(ov, s + t, lex) == MergeAll(MergeAll(ov, s, lex), t, lex)
    decreases |t|
  {
    if t == [] {
      assert s + t == s;
    } else {
      var t' := t[..|t| - 1];
      assert (s + t)[..|s + t| - 1] == s + t';
      MergeAllConcat(ov, s, t', lex);
    }
  }

  method Extract(tokens: seq<string>, lex: Lexicon) returns (ov: Overlay)
    ensures ov == Extraction(tokens, lex)
  {
    var cell := new OverlayCell();
    for i := 0 to |tokens|
      invariant cell.Value() == MergeAll(ZERO, TermsUpTo(tokens, i), lex)
    {
      ghost var before := TermsUpTo(tokens, i);
      cell.MergeTerm(tokens[i], lex);
      MergeAllConcat(ZERO, before, [tokens[i]], lex);
      OneMerge(MergeAll(ZERO, before, lex), tokens[i], lex);
      if i + 1 < |tokens| {
        var pair := Bigram(tokens[i], tokens[i + 1]);
        cell.MergeTerm(pair, lex);
        MergeAllConcat(ZERO, before + [tokens[i]], [pair], lex);
        OneMerge(MergeAll(ZERO, before + [tokens[i]], lex), pair, lex);
      }
      TermsUpToStep(tokens, i);
    }
    TermsUpToAll(tokens);
    ov := cell.Value();
  }

  lemma OneMerge(ov: Overlay, term: string, lex: Lexicon)
    ensures MergeAll(ov, [term], lex) == Merged(ov, term, lex)
  {
  }

  /** The terms looked up for the first `i` tokens; the last of them already with its bigram. */
  ghost function TermsUpTo(tokens: seq<string>, i: nat): seq<string>
    requires i <= |tokens|
  {
    if i == 0 then []
    else TermsUpTo(tokens, i - 1) + [tokens[i - 1]] + if i < |tokens| then [Bigram(tokens[i - 1], tokens[i])] else []
  }

  lemma TermsUpToStep(tokens: seq<string>, i: nat)
    requires i < |tokens|
    ensures TermsUpTo(tokens, i + 1) ==
            if i + 1 < |tokens| then TermsUpTo(tokens, i) + [tokens[i]] + [Bigram(tokens[i], tokens[i + 1])]
            else TermsUpTo(tokens, i) + [tokens[i]]
  {
  }

  lemma {:induction false} TermsFrom(tokens: seq<string>, i: nat)
    requires i <= |tokens|
    ensures Terms(tokens) == TermsUpTo(tokens, i) + Terms(tokens[i..])
  {
    if i > 0 {
      TermsFrom(tokens, i - 1);
      var rest := tokens[i - 1..];
      assert rest[1..] == tokens[i..];
    }
  }

  lemma TermsUpToAll(tokens: seq<string>)
    ensures TermsUpTo(tokens, |tokens|) == Terms(tokens)
  {
    TermsFrom(tokens, |tokens|);
    assert tokens[|tokens|..] == [];
  }

  // ---- Extraction of a concatenated query ----

  /** Later category wins, slices union in first-occurrence order, open-now is or-ed. */
  function Union(a: Overlay, b: Overlay): Overlay {
    Overlay(if b.category.Some? then b.category else a.category,
            AppendUnique(a.subcategory, b.subcategory),
            AppendUnique(a.universal, b.universal),
            AppendUnique(a.specific, b.specific),
            AppendUnique(a.price, b.price),
            a.openNow || b.openNow)
  }

  lemma UnionAssociates(a: Overlay, b: Overlay, c: Overlay)
    ensures Union(Union(a, b), c) == Union(a, Union(b, c))
  {
    AppendUniqueAssociates(a.subcategory, b.subcategory, c.subcategory);
    AppendUniqueAssociates(a.universal, b.universal, c.universal);
    AppendUniqueAssociates(a.specific, b.specific, c.specific);
    AppendUniqueAssociates(a.price, b.price, c.price);
  }

  /** Merging a term is a union with what the term contributes on its own. */
  lemma MergedIsUnion(ov: Overlay, term: string, lex: Lexicon)
    ensures Merged(ov, term, lex) == Union(ov, Merged(ZERO, term, lex))
  {
    if term in lex {
      var r := lex[term];
      AppendUniqueAssociates(ov.subcategory, [], r.subcategory);
      AppendUniqueAssociates(ov.universal, [], r.universal);
      AppendUniqueAssociates(ov.specific, [], r.specific);
      AppendUniqueAssociates(ov.price, [], r.price);
    }
  }

  lemma {:induction false} MergeAllIsUnion(ov: Overlay, terms: seq<string>, lex: Lexicon)
    ensures MergeAll(ov, terms, lex) == Union(ov, MergeAll(ZERO, terms, lex))
  {
    if terms != [] {
      var front, last := terms[..|terms| - 1], terms[|terms| - 1];
      MergeAllIsUnion(ov, front, lex);
      MergedIsUnion(MergeAll(ov, front, lex), last, lex);
      MergedIsUnion(MergeAll(ZERO, front, lex), last, lex);
      UnionAssociates(ov, MergeAll(ZERO, front, lex), Merged(ZERO, last, lex));
    }
  }

  /** The overlay of a query in two parts is that of the first part, the bigram across the seam and the second part. */
  lemma ExtractionOfConcat(xs: seq<string>, ys: seq<string>, lex: Lexicon)
    requires xs != [] && ys != []
    ensures Extraction(xs + ys, lex) ==
            Union(Union(Extraction(xs, lex), Contribution(Bigram(xs[|xs| - 1], ys[0]), lex)), Extraction(ys, lex))
  {
    var seam := Bigram(xs[|xs| - 1], ys[0]);
    TermsConcat(xs, ys);
    MergeAllConcat(ZERO, Terms(xs) + [seam], Terms(ys), lex);
    MergeAllConcat(ZERO, Terms(xs), [seam], lex);
    OneMerge(Extraction(xs, lex), seam, lex);
    MergedIsUnion(Extraction(xs, lex), seam, lex);
    MergeAllIsUnion(MergeAll(ZERO, Terms(xs) + [seam], lex), Terms(ys), lex);
  }

  /** What one looked-up term contributes on its own. */
  function Contribution(term: string, lex: Lexicon): Overlay {
    Merged(ZERO, term, lex)
  }

  // ---- What an overlay holds ----

  /** Every filter value comes from a matched term and every matched term's values are there, each once. */
  lemma {:induction false} MergeAllMembers(terms: seq<string>, lex: Lexicon)
    ensures var ov := MergeAll(ZERO, terms, lex);
            && (forall v :: v in ov.subcategory <==> exists t :: t in terms && t in lex && v in lex[t].subcategory)
            && (forall v :: v in ov.universal <==> exists t :: t in terms && t in lex && v in lex[t].universal)
            && (forall v :: v in ov.specific <==> exists t :: t in terms && t in lex && v in lex[t].specific)
            && (forall v :: v in ov.price <==> exists t :: t in terms && t in lex && v in lex[t].price)
            && (ov.openNow <==> exists t :: t in terms && t in lex && lex[t].openNow)
            && (ov.category.Some? <==> exists t :: t in terms && t in lex && lex[t].category != "")
            && NoRepeats(ov.subcategory) && NoRepeats(ov.universal) && NoRepeats(ov.specific) && NoRepeats(ov.price)
  {
    if terms != [] {
      var front, last := terms[..|terms| - 1], terms[|terms| - 1];
      assert forall t :: t in terms <==> t in front || t == last;
      MergeAllMembers(front, lex);
      if last in lex {
        var ov, r := MergeAll(ZERO, front, lex), lex[last];
        AppendUniqueIsUnion(ov.subcategory, r.subcategory);
        AppendUniqueIsUnion(ov.universal, r.universal);
        AppendUniqueIsUnion(ov.specific, r.specific);
        AppendUniqueIsUnion(ov.price, r.price);
      }
    }
  }

  predicate NamesCategory(term: string, lex: Lexicon) {
    term in lex && lex[term].category != ""
  }

  /** The category is that of the last looked-up term that names one. */
  lemma {:induction false} LastCategoryWins(terms: seq<string>, k: nat, lex: Lexicon)
    requires k < |terms| && NamesCategory(terms[k], lex)
    requires forall i :: k < i < |terms| ==> !NamesCategory(terms[i], lex)
    ensures MergeAll(ZERO, terms, lex).category == Some(lex[terms[k]].category)
  {
    if k < |terms| - 1 {
      LastCategoryWins(terms[..|terms| - 1], k, lex);
    }
  }

  // ---- Categorical queries ----

  predicate CategoryLike(term: string, lex: Lexicon) {
    term in lex &&
    (lex[term].category != "" || |lex[term].subcategory| > 0 || |lex[term].specific| > 0 || |lex[term].universal| > 0)
  }

  /** A token is covered by itself or by a bigram with a neighbour. */
  predicate Covered(tokens: seq<string>, i: nat, lex: Lexicon)
    requires i < |tokens|
  {
    || CategoryLike(tokens[i], lex)
    || (i > 0 && CategoryLike(Bigram(tokens[i - 1], tokens[i]), lex))
    || (i + 1 < |tokens| && CategoryLike(Bigram(tokens[i], tokens[i + 1]), lex))
  }

  predicate IsCategorical(tokens: seq<string>, lex: Lexicon) {
    |tokens| > 0 && forall i :: 0 <= i < |tokens| ==> Covered(tokens, i, lex)
  }

  lemma CategoricalConcat(xs: seq<string>, ys: seq<string>, lex: Lexicon)
    requires IsCategorical(xs, lex) && IsCategorical(ys, lex)
    ensures IsCategorical(xs + ys, lex)
  {
    var all := xs + ys;
    forall i | 0 <= i < |all| ensures Covered(all, i, lex) {
      if i < |xs| {
        assert Covered(xs, i, lex);
      } else {
        assert Covered(ys, i - |xs|, lex);
      }
    }
  }

  lemma {:induction false} LooksUp(tokens: seq<string>, i: nat)
    requires i < |tokens|
    ensures tokens[i] in Terms(tokens)
    ensures i + 1 < |tokens| ==> Bigram(tokens[i], tokens[i + 1]) in Terms(tokens)
    decreases |tokens|
  {
    if i > 0 {
      LooksUp(tokens[1..], i - 1);
    } else if |tokens| > 1 {
      assert Terms(tokens)[0] == tokens[0] && Terms(tokens)[1] == Bigram(tokens[0], tokens[1]);
    } else {
      assert Terms(tokens)[0] == tokens[0];
    }
  }

  /** A categorical query always narrows: its overlay filters by category, subcategory or tag. */
  lemma CategoricalNarrows(tokens: seq<string>, lex: Lexicon)
    requires IsCategorical(tokens, lex)
    ensures !IsZero(Extraction(tokens, lex))
    ensures var ov := Extraction(tokens, lex);
            ov.category.Some? || ov.subcategory != [] || ov.specific != [] || ov.universal != []
  {
    assert Covered(tokens, 0, lex);
    LooksUp(tokens, 0);
    var t := if CategoryLike(tokens[0], lex) then tokens[0] else Bigram(tokens[0], tokens[1]);
    assert t in Terms(tokens) && CategoryLike(t, lex);
    MergeAllMembers(Terms(tokens), lex);
    var ov, r := Extraction(tokens, lex), lex[t];
    if r.category != "" {
    } else if |r.subcategory| > 0 {
      assert r.subcategory[0] in ov.subcategory;
    } else if |r.specific| > 0 {
      assert r.specific[0] in ov.specific;
    } else {
      assert r.universal[0] in ov.universal;
    }
  }
}
