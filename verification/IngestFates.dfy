/** What the tally counts and what is loaded, on the outputs of the stages. */
module IngestFates {
  import opened Options
  import opened Ingest

  /** How many records have this property. */
  function Number(raws: seq<Raw>, p: Raw -> bool): nat {
    if raws == [] then 0 else Number(raws[..|raws| - 1], p) + if p(raws[|raws| - 1]) then 1 else 0
  }

  ghost function Parsed(st: Stages): Raw -> bool {
    (r: Raw) => st.sanitize(r).Some?
  }

  ghost function Located(st: Stages, g: Geo): Raw -> bool {
    (r: Raw) => st.sanitize(r).Some? && st.geo(st.sanitize(r).value) == g
  }

  ghost function Sorted(st: Stages, d: Decision): Raw -> bool {
    (r: Raw) => Located(st, Keep)(r) && st.normalize(st.sanitize(r).value).decision == d
  }

  /** Parsed, inside the region with an address, and in some category. */
  ghost function Loaded(st: Stages): Raw -> bool {
    (r: Raw) => Located(st, Keep)(r) && st.normalize(st.sanitize(r).value).decision != TaxonomyDrop
  }

  ghost function LoadedClaimed(st: Stages): Raw -> bool {
    (r: Raw) => st.sanitize(r).Some? && Loaded(st)(r) && st.claimed(st.sanitize(r).value.id)
  }

  ghost function LoadedWithFriends(st: Stages): Raw -> bool {
    (r: Raw) => st.sanitize(r).Some? && Loaded(st)(r) && st.friends(st.sanitize(r).value.id) > 0
  }

  /** Each counter is the number of records that came to that end. */
  lemma {:induction false} CountersAre(raws: seq<Raw>, st: Stages)
    ensures CountAll(raws, st) ==
            Counts(Number(raws, Parsed(st)),
                   Number(raws, Located(st, DropNonMiami)),
                   Number(raws, Located(st, DropNoAddress)),
                   Number(raws, Sorted(st, TaxonomyDrop)),
                   Number(raws, Sorted(st, TaxonomyBucketed)),
                   Number(raws, LoadedClaimed(st)),
                   Number(raws, LoadedWithFriends(st)))
    ensures |Survivors(raws, st)| == Number(raws, Loaded(st))
  {
    if raws != [] {
      CountersAre(raws[..|raws| - 1], st);
    }
  }

  /** The rows handed on are built from the records that are loaded, one for each, in the order of the file. */
  lemma {:induction false} SurvivorsAre(raws: seq<Raw>, st: Stages) returns (at: seq<nat>)
    ensures |at| == |Survivors(raws, st)|
    ensures forall p, q :: 0 <= p < q < |at| ==> at[p] < at[q]
    ensures forall k: nat :: k in at <==> k < |raws| && Loaded(st)(raws[k])
    ensures forall p :: 0 <= p < |at| ==>
              && at[p] < |raws| && Loaded(st)(raws[at[p]])
              && var rb := st.sanitize(raws[at[p]]).value;
                 Survivors(raws, st)[p] ==
                 Business(rb.id, rb.payload, st.normalize(rb).category, st.claimed(rb.id), st.friends(rb.id))
  {
    at := [];
    if raws != [] {
      var n := |raws| - 1;
      at := SurvivorsAre(raws[..n], st);
      if Loaded(st)(raws[n]) {
        at := at + [n];
      }
    }
  }
}
