/** Query intent on the query's words and the lexicon's fields: which terms are looked up, which queries are
    categorical, and in which order filters hold their values. */
module IntentRules {
  import opened Options
  import opened Intent

  // ---- The terms ----

  /** Every token is looked up, and between any two neighbours the two joined by a blank; nothing else is. */
  lemma {:induction false} TermsAre(tokens: seq<string>)
    ensures tokens == [] ==> Terms(tokens) == []
    ensures tokens != [] ==> |Terms(tokens)| == 2 * |tokens| - 1
    ensures forall i :: 0 <= i < |tokens| ==> 2 * i < |Terms(tokens)| && Terms(tokens)[2 * i] == tokens[i]
    ensures forall i :: 0 <= i < |tokens| - 1 ==>
              2 * i + 1 < |Terms(tokens)| && Terms(tokens)[2 * i + 1] == tokens[i] + " " + tokens[i + 1]
  {
    if |tokens| > 1 {
      var t, rest := Terms(tokens), tokens[1..];
      TermsAre(rest);
      forall i | 0 <= i < |tokens| ensures t[2 * i] == tokens[i] {
        if i > 0 {
          assert t[2 * i] == Terms(rest)[2 * (i - 1)] && tokens[i] == rest[i - 1];
        }
      }
      forall i | 0 <= i < |tokens| - 1 ensures t[2 * i + 1] == tokens[i] + " " + tokens[i + 1] {
        if i > 0 {
          assert t[2 * i + 1] == Terms(rest)[2 * (i - 1) + 1];
          assert tokens[i] == rest[i - 1] && tokens[i + 1] == rest[i];
        }
      }
    }
  }

  // ---- Categorical queries ----

  /** `n` tokens from `j` on, one or two, make a term whose entry has a category, subcategory, specific or universal
      tag; price and opening hours do not count. */
  ghost predicate KindAt(tokens: seq<string>, lex: Lexicon, j: nat, n: nat) {
    && 1 <= n <= 2 && j + n <= |tokens|
    && var term := if n == 1 then tokens[j] else tokens[j] + " " + tokens[j + 1];
       && term in lex
       && !(lex[term].category == "" && lex[term].subcategory == lex[term].specific == lex[term].universal == [])
  }

  /** Token `i` is one of the tokens of such a term. */
  ghost predicate InKind(tokens: seq<string>, lex: Lexicon, i: nat) {
    exists j: nat, n: nat :: j <= i < j + n && KindAt(tokens, lex, j, n)
  }

  lemma CoveredIff(tokens: seq<string>, lex: Lexicon, i: nat)
    requires i < |tokens|
    ensures Covered(tokens, i, lex) <==> InKind(tokens, lex, i)
  {
    if Covered(tokens, i, lex) {
      if CategoryLike(tokens[i], lex) {
        assert KindAt(tokens, lex, i, 1);
      } else if i > 0 && CategoryLike(Bigram(tokens[i - 1], tokens[i]), lex) {
        assert KindAt(tokens, lex, i - 1, 2);
      } else {
        assert KindAt(tokens, lex, i, 2);
      }
    }
    if InKind(tokens, lex, i) {
      var j: nat, n: nat :| j <= i < j + n && KindAt(tokens, lex, j, n);
      assert j == i || j + 1 == i;
    }
  }

  /** A query is categorical if and only if it has words and each of them belongs to such a term. */
  lemma CategoricalIff(tokens: seq<string>, lex: Lexicon)
    ensures IsCategorical(tokens, lex) <==> tokens != [] && forall i :: 0 <= i < |tokens| ==> InKind(tokens, lex, i)
  {
    forall i | 0 <= i < |tokens| ensures Covered(tokens, i, lex) <==> InKind(tokens, lex, i) {
      CoveredIff(tokens, lex, i);
    }
  }

  function Joined(parts: seq<seq<string>>): seq<string> {
    if parts == [] then [] else parts[0] + Joined(parts[1..])
  }

  /** A query that is put together from such one- and two-word terms is categorical, whatever lies across its seams. */
  lemma {:induction false} JoinedTermsCategorical(parts: seq<seq<string>>, lex: Lexicon)
    requires parts != [] && forall k :: 0 <= k < |parts| ==> KindAt(parts[k], lex, 0, |parts[k]|)
    ensures IsCategorical(Joined(parts), lex)
  {
    forall i | 0 <= i < |parts[0]| ensures InKind(parts[0], lex, i) {
      assert KindAt(parts[0], lex, 0, |parts[0]|);
    }
    CategoricalIff(parts[0], lex);
    if |parts| == 1 {
      assert Joined(parts[1..]) == [];
      assert Joined(parts) == parts[0];
    } else {
      JoinedTermsCategorical(parts[1..], lex);
      CategoricalConcat(parts[0], Joined(parts[1..]), lex);
    }
  }

  // ---- The order of filter values ----

  /** The values appended are those of `vals` that are new at their place, in the order of these places. */
  lemma {:induction false} AppendedInOrder(dst: seq<string>, vals: seq<string>) returns (at: seq<nat>)
    ensures |AppendUnique(dst, vals)| == |dst| + |at| && dst <= AppendUnique(dst, vals)
    ensures forall p :: 0 <= p < |at| ==>
              && at[p] < |vals| && AppendUnique(dst, vals)[|dst| + p] == vals[at[p]]
              && vals[at[p]] !in dst && vals[at[p]] !in vals[..at[p]]
    ensures forall p, q :: 0 <= p < q < |at| ==> at[p] < at[q]
    ensures forall k :: 0 <= k < |vals| && vals[k] !in dst && vals[k] !in vals[..k] ==> k in at
  {
    at := [];
    if vals != [] {
      var n := |vals| - 1;
      var front := vals[..n];
      at := AppendedInOrder(dst, front);
      AppendUniqueIsUnion(dst, front);
      forall k | 0 <= k <= n ensures k < n ==> vals[..k] == front[..k] {
      }
      if vals[n] !in AppendUnique(dst, front) {
        at := at + [n];
      }
    }
  }
}
