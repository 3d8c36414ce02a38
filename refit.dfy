// refit_bad_fits (postprocess.py lines 228-287): after one recalculation
// without sigmas, every sample whose reduced loss exceeds the threshold is
// refitted alone, warm-started from the fitted weights of the sample before
// it, and the result is written back into the caller's fitted weights.

module Refit {
  import opened Base
  import Layout
  import Reconstruct
  import Sigmas
  import Evaluate
  import Recalculate

  // ---------------------------------------------------------------------
  // Selection (lines 229-236)
  // ---------------------------------------------------------------------

  /** `losses_init / (1.1 * (used_points - len(all_params))) > refit_thresh`
      for one loss, with numpy's float division: a zero denominator gives
      +inf for a positive loss, nan for zero and -inf for a negative one. */
  predicate Exceeds(loss: real, used: real, nSpecies: nat, thresh: real) {
    var d := 1.1 * (used - nSpecies as real);
    if d == 0.0 then loss > 0.0 else loss / d > thresh
  }

  /** `batch_indices.flatten()[red_losses_init > refit_thresh]`: the mask is
      taken position by position over the sorted indices. */
  function Chosen(sorted: seq<nat>, losses: seq<real>, used: real, nSpecies: nat, thresh: real): (c: seq<nat>)
    requires |losses| == |sorted|
    ensures |c| <= |sorted|
  {
    if sorted == [] then []
    else
      var n := |sorted| - 1;
      Chosen(sorted[..n], losses[..n], used, nSpecies, thresh) +
        (if Exceeds(losses[n], used, nSpecies, thresh) then [sorted[n]] else [])
  }

  /** The indices the loop refits: `i == 0` is skipped (line 239). */
  function NonZero(c: seq<nat>): (r: seq<nat>)
    ensures |r| <= |c|
  {
    if c == [] then []
    else NonZero(c[..|c| - 1]) + (if c[|c| - 1] == 0 then [] else [c[|c| - 1]])
  }

  /** The selection keeps exactly the indices at positions whose reduced
      loss exceeds the threshold. */
  lemma {:induction false} ChosenMembers(sorted: seq<nat>, losses: seq<real>, used: real, nSpecies: nat, thresh: real)
    requires |losses| == |sorted|
    ensures forall i :: i in Chosen(sorted, losses, used, nSpecies, thresh) <==>
              exists p :: 0 <= p < |sorted| && sorted[p] == i && Exceeds(losses[p], used, nSpecies, thresh)
  {
    if sorted != [] {
      var n := |sorted| - 1;
      ChosenMembers(sorted[..n], losses[..n], used, nSpecies, thresh);
      forall i ensures i in Chosen(sorted, losses, used, nSpecies, thresh) <==>
                       exists p :: 0 <= p < |sorted| && sorted[p] == i && Exceeds(losses[p], used, nSpecies, thresh)
      {
        if i in Chosen(sorted[..n], losses[..n], used, nSpecies, thresh) {
          var p :| 0 <= p < n && sorted[..n][p] == i && Exceeds(losses[..n][p], used, nSpecies, thresh);
          assert sorted[p] == i && Exceeds(losses[p], used, nSpecies, thresh);
        }
        if exists p :: 0 <= p < |sorted| && sorted[p] == i && Exceeds(losses[p], used, nSpecies, thresh) {
          var p :| 0 <= p < |sorted| && sorted[p] == i && Exceeds(losses[p], used, nSpecies, thresh);
          if p < n {
            assert sorted[..n][p] == i && Exceeds(losses[..n][p], used, nSpecies, thresh);
          }
        }
      }
    }
  }

  /** The refitted indices are the selected ones other than 0, in order. */
  lemma {:induction false} NonZeroMembers(c: seq<nat>)
    ensures forall i :: i in NonZero(c) <==> i in c && i != 0
    ensures |NonZero(c)| + multiset(c)[0] == |c|
  {
    if c != [] {
      var n := |c| - 1;
      NonZeroMembers(c[..n]);
      assert c == c[..n] + [c[n]];
      assert multiset(c) == multiset(c[..n]) + multiset{c[n]};
    }
  }

  /** The number of refits logged at line 232 counts index 0 when it is
      selected, although index 0 is never refitted. */
  lemma LoggedCountIncludesZero(sorted: seq<nat>, losses: seq<real>, used: real, nSpecies: nat, thresh: real)
    requires |losses| == |sorted|
    ensures var c := Chosen(sorted, losses, used, nSpecies, thresh);
            |c| == |NonZero(c)| + multiset(c)[0]
    ensures var c := Chosen(sorted, losses, used, nSpecies, thresh);
            0 in c ==> |c| > |NonZero(c)|
  {
    NonZeroMembers(Chosen(sorted, losses, used, nSpecies, thresh));
  }

  lemma {:induction false} IncreasingFloor(t: seq<nat>, p: nat)
    requires forall i, j :: 0 <= i < j < |t| ==> t[i] < t[j]
    requires p < |t|
    ensures t[p] >= p
  {
    if p > 0 {
      IncreasingFloor(t, p - 1);
    }
  }

  lemma {:induction false} IncreasingCeiling(t: seq<nat>, p: nat)
    requires forall i, j :: 0 <= i < j < |t| ==> t[i] < t[j]
    requires forall i :: 0 <= i < |t| ==> t[i] < |t|
    requires p < |t|
    ensures t[p] <= p
    decreases |t| - p
  {
    if p + 1 < |t| {
      IncreasingCeiling(t, p + 1);
    }
  }

  /** Distinct sample indices below their count are a permutation of
      0..n-1, so the sorted array is 0..n-1 and the mask of line 234 pairs
      every sample index with its own reduced loss. */
  lemma SortedSamplesAligned(s: seq<nat>)
    requires Distinct(s) && forall k :: 0 <= k < |s| ==> s[k] < |s|
    ensures forall p :: 0 <= p < |s| ==> Layout.SortSeq(s)[p] == p
  {
    var t := Layout.SortSeq(s);
    Layout.SortSeqSorted(s);
    Layout.DistinctByMultiset(s, t);
    forall i | 0 <= i < |t| ensures t[i] < |t| {
      assert t[i] in multiset(s);
    }
    forall p | 0 <= p < |t| ensures t[p] == p {
      IncreasingFloor(t, p);
      IncreasingCeiling(t, p);
    }
  }

  /** Hence, for such samples, index `i` is refitted exactly when it is not
      0 and its own reduced loss exceeds the threshold. */
  lemma RefitSetAligned(s: seq<nat>, losses: seq<real>, used: real, nSpecies: nat, thresh: real)
    requires Distinct(s) && (forall k :: 0 <= k < |s| ==> s[k] < |s|) && |losses| == |s|
    ensures forall i :: i in NonZero(Chosen(Layout.SortSeq(s), losses, used, nSpecies, thresh)) <==>
              0 < i < |s| && Exceeds(losses[i], used, nSpecies, thresh)
  {
    var t := Layout.SortSeq(s);
    SortedSamplesAligned(s);
    ChosenMembers(t, losses, used, nSpecies, thresh);
    NonZeroMembers(Chosen(t, losses, used, nSpecies, thresh));
    forall i | 0 < i < |s| && Exceeds(losses[i], used, nSpecies, thresh)
      ensures i in Chosen(t, losses, used, nSpecies, thresh)
    {
      assert t[i] == i;
    }
  }

  // ---------------------------------------------------------------------
  // One slot of the fitted weights (lines 252-254 and 274-278)
  // ---------------------------------------------------------------------

  /** Reading entry `off` of a JAX array: an index past the end is clamped
      to the last entry, and an empty array raises IndexError. */
  function ReadSlot(arr: seq<real>, off: nat): Result<real> {
    if |arr| == 0 then Err(IndexError)
    else if off < |arr| then Ok(arr[off])
    else Ok(arr[|arr| - 1])
  }

  /** `arr.at[off].set(v)`: JAX drops an update past the end. */
  function Place(arr: seq<real>, off: nat, v: real): (r: seq<real>)
    ensures |r| == |arr|
    ensures forall j :: 0 <= j < |arr| && j != off ==> r[j] == arr[j]
    ensures off < |arr| ==> r[off] == v
  {
    if off < |arr| then arr[off := v] else arr
  }

  /** Array `key` of species `s` in batch `b`, if there is one. */
  function Slot(batches: seq<Params>, b: nat, s: Species, k: Key): Option<seq<real>> {
    if b < |batches| && s in batches[b].m && k in batches[b].m[s].m then Some(batches[b].m[s].m[k]) else None
  }

  /** `after` differs from `before` at most in entry `off` of the arrays of
      batch `wb`: the same batches, species, keys (in the same order) and
      array lengths, and every other entry equal. */
  ghost predicate SameExceptSlot(before: seq<Params>, after: seq<Params>, wb: nat, off: nat) {
    |after| == |before| &&
    (forall b :: 0 <= b < |before| ==>
       after[b].keys == before[b].keys &&
       forall s :: s in before[b].m ==> s in after[b].m && after[b].m[s].keys == before[b].m[s].keys) &&
    (forall b, s, k :: Slot(after, b, s, k).Some? <==> Slot(before, b, s, k).Some?) &&
    (forall b, s, k :: Slot(before, b, s, k).Some? ==>
       |Slot(after, b, s, k).value| == |Slot(before, b, s, k).value| &&
       forall j :: 0 <= j < |Slot(before, b, s, k).value| && (b != wb || j != off) ==>
         Slot(after, b, s, k).value[j] == Slot(before, b, s, k).value[j])
  }

  lemma SameExceptSlotTrans(x: seq<Params>, y: seq<Params>, z: seq<Params>, wb: nat, off: nat)
    requires SameExceptSlot(x, y, wb, off) && SameExceptSlot(y, z, wb, off)
    ensures SameExceptSlot(x, z, wb, off)
  {
    forall b, s, k | Slot(x, b, s, k).Some?
      ensures |Slot(z, b, s, k).value| == |Slot(x, b, s, k).value| &&
              forall j :: 0 <= j < |Slot(x, b, s, k).value| && (b != wb || j != off) ==>
                Slot(z, b, s, k).value[j] == Slot(x, b, s, k).value[j]
    {
      assert Slot(y, b, s, k).Some?;
    }
  }

  /** `after` differs from `before` at most in the entries `(b, j)` of
      `slots`, entry `j` of the arrays of batch `b`; otherwise as
      `SameExceptSlot`. */
  ghost predicate SameExceptSlots(before: seq<Params>, after: seq<Params>, slots: set<(nat, nat)>) {
    |after| == |before| &&
    (forall b :: 0 <= b < |before| ==>
       after[b].keys == before[b].keys &&
       forall s :: s in before[b].m ==> s in after[b].m && after[b].m[s].keys == before[b].m[s].keys) &&
    (forall b: nat, s, k :: Slot(after, b, s, k).Some? <==> Slot(before, b, s, k).Some?) &&
    (forall b: nat, s, k :: Slot(before, b, s, k).Some? ==>
       |Slot(after, b, s, k).value| == |Slot(before, b, s, k).value| &&
       forall j: nat :: 0 <= j < |Slot(before, b, s, k).value| && (b, j) !in slots ==>
         Slot(after, b, s, k).value[j] == Slot(before, b, s, k).value[j])
  }

  lemma SameExceptSlotWiden(x: seq<Params>, y: seq<Params>, wb: nat, off: nat, slots: set<(nat, nat)>)
    requires SameExceptSlot(x, y, wb, off) && (wb, off) in slots
    ensures SameExceptSlots(x, y, slots)
  {
    forall b: nat, s, k, j: nat | Slot(x, b, s, k).Some? && 0 <= j < |Slot(x, b, s, k).value| && (b, j) !in slots
      ensures Slot(y, b, s, k).value[j] == Slot(x, b, s, k).value[j]
    {
      assert b != wb || j != off;
    }
  }

  lemma SameExceptSlotsMono(x: seq<Params>, y: seq<Params>, slots: set<(nat, nat)>, more: set<(nat, nat)>)
    requires SameExceptSlots(x, y, slots) && slots <= more
    ensures SameExceptSlots(x, y, more)
  {
    forall b: nat, s, k, j: nat | Slot(x, b, s, k).Some? && 0 <= j < |Slot(x, b, s, k).value| && (b, j) !in more
      ensures Slot(y, b, s, k).value[j] == Slot(x, b, s, k).value[j]
    {
      assert (b, j) !in slots;
    }
  }

  lemma SameExceptSlotsTrans(x: seq<Params>, y: seq<Params>, z: seq<Params>, slots: set<(nat, nat)>)
    requires SameExceptSlots(x, y, slots) && SameExceptSlots(y, z, slots)
    ensures SameExceptSlots(x, z, slots)
  {
    forall b: nat, s, k | Slot(x, b, s, k).Some?
      ensures |Slot(z, b, s, k).value| == |Slot(x, b, s, k).value| &&
              forall j: nat :: 0 <= j < |Slot(x, b, s, k).value| && (b, j) !in slots ==>
                Slot(z, b, s, k).value[j] == Slot(x, b, s, k).value[j]
    {
      assert Slot(y, b, s, k).Some?;
    }
  }

  /** One entry of a parameter dictionary, in iteration order. */
  type Entry = (ParamId, seq<real>)

  function KeyEntries(s: Species, d: Dict<Key, seq<real>>, ks: seq<Key>): (es: seq<Entry>)
    requires forall k :: k in ks ==> k in d.m
    ensures |es| == |ks|
  {
    seq(|ks|, j requires 0 <= j < |ks| => ((s, ks[j]), d.m[ks[j]]))
  }

  /** The entries of the species `ss` of `batch`, in the order of the nested
      `for species ... for key ...` loops. */
  function SpeciesEntries(batch: Params, ss: seq<Species>): seq<Entry>
    requires ValidParams(batch) && forall s :: s in ss ==> s in batch.m
  {
    if ss == [] then []
    else
      var s := ss[|ss| - 1];
      SpeciesEntries(batch, ss[..|ss| - 1]) + KeyEntries(s, batch.m[s], batch.m[s].keys)
  }

  function Entries(batch: Params): seq<Entry>
    requires ValidParams(batch)
  {
    SpeciesEntries(batch, batch.keys)
  }

  function Ids(es: seq<Entry>): seq<ParamId> {
    seq(|es|, j requires 0 <= j < |es| => es[j].0)
  }

  /** A run of statements that stops at the first exception, with the state
      it leaves behind. */
  datatype Run<S> = Run(state: S, error: Option<Error>)

  // ---------------------------------------------------------------------
  // Warm start (lines 249-255)
  // ---------------------------------------------------------------------

  /** One `(species, key)` of the warm-start batch: an active parameter's
      configured value becomes the batch's entry `off`. */
  function WarmStep(active: map<ParamId, bool>, off: nat, vals: map<ParamId, real>, e: Entry): Result<map<ParamId, real>> {
    if e.0 !in active then Err(KeyError)
    else if !active[e.0] then Ok(vals)
    else
      match ReadSlot(e.1, off)
      case Err(x) => Err(x)
      case Ok(v) => Ok(vals[e.0 := v])
  }

  function WarmStart(active: map<ParamId, bool>, off: nat, vals: map<ParamId, real>, es: seq<Entry>): Run<map<ParamId, real>> {
    if es == [] then Run(vals, None)
    else
      var r := WarmStart(active, off, vals, es[..|es| - 1]);
      if r.error.Some? then r
      else
        match WarmStep(active, off, r.state, es[|es| - 1])
        case Ok(v) => Run(v, None)
        case Err(x) => Run(r.state, Some(x))
  }

  /** One more entry after a prefix that raised nothing. */
  lemma WarmStartSnoc(active: map<ParamId, bool>, off: nat, vals: map<ParamId, real>, pre: seq<Entry>, e: Entry,
                      v: map<ParamId, real>)
    requires WarmStart(active, off, vals, pre) == Run(v, None)
    ensures WarmStart(active, off, vals, pre + [e]) ==
              match WarmStep(active, off, v, e)
              case Ok(v') => Run(v', None)
              case Err(x) => Run(v, Some(x))
  {
    assert (pre + [e])[..|pre|] == pre;
  }

  /** The warm start raises exactly when a parameter of the batch is not
      configured, or an active one has an empty array. */
  lemma {:induction false} WarmStartRaises(active: map<ParamId, bool>, off: nat, vals: map<ParamId, real>, es: seq<Entry>)
    ensures WarmStart(active, off, vals, es).error.None? <==>
              forall j :: 0 <= j < |es| ==> es[j].0 in active && (active[es[j].0] ==> |es[j].1| > 0)
  {
    if es != [] {
      var n := |es| - 1;
      WarmStartRaises(active, off, vals, es[..n]);
      assert forall j :: 0 <= j < n ==> es[..n][j] == es[j];
    }
  }

  /** After a warm start that did not raise, every active parameter holds
      entry `off` of its array, clamped to the last entry. */
  lemma {:induction false} WarmStartSets(active: map<ParamId, bool>, off: nat, vals: map<ParamId, real>, es: seq<Entry>)
    requires Distinct(Ids(es))
    ensures var r := WarmStart(active, off, vals, es);
            r.error.None? ==>
              forall j :: 0 <= j < |es| && es[j].0 in active && active[es[j].0] ==>
                ReadSlot(es[j].1, off).Ok? &&
                es[j].0 in r.state && r.state[es[j].0] == ReadSlot(es[j].1, off).value
  {
    if es != [] {
      var n := |es| - 1;
      var init := es[..n];
      IdsPrefix(es);
      DistinctSnoc(Ids(es));
      WarmStartSets(active, off, vals, init);
      assert forall j :: 0 <= j < n ==> init[j] == es[j] && Ids(init)[j] == es[j].0;
    }
  }

  /** The warm start leaves every value it does not set as it was: those of
      parameters outside the batch and of inactive ones. */
  lemma {:induction false} WarmStartUntouched(active: map<ParamId, bool>, off: nat, vals: map<ParamId, real>, es: seq<Entry>)
    ensures var r := WarmStart(active, off, vals, es);
            forall id :: (id !in Ids(es) || (id in active && !active[id])) ==>
              (id in r.state <==> id in vals) && (id in vals ==> r.state[id] == vals[id])
  {
    if es != [] {
      IdsPrefix(es);
      WarmStartUntouched(active, off, vals, es[..|es| - 1]);
    }
  }

  /** Once the warm start has raised, later entries change nothing. */
  lemma {:induction false} WarmStartStops(active: map<ParamId, bool>, off: nat, vals: map<ParamId, real>,
                                          es: seq<Entry>, rest: seq<Entry>)
    requires WarmStart(active, off, vals, es).error.Some?
    ensures WarmStart(active, off, vals, es + rest) == WarmStart(active, off, vals, es)
  {
    if rest != [] {
      var n := |rest| - 1;
      assert (es + rest)[..|es + rest| - 1] == es + rest[..n];
      WarmStartStops(active, off, vals, es, rest[..n]);
    } else {
      assert es + rest == es;
    }
  }

  // ---------------------------------------------------------------------
  // Write-back (lines 272-278)
  // ---------------------------------------------------------------------

  /** `fitted_weights[wb][species][key] = fitted_weights[wb][species][key]
      .at[off].set(cur_result[species][key][0])`. */
  function WriteStep(batches: seq<Params>, wb: nat, off: nat, e: Entry): (r: Result<seq<Params>>)
    requires Reconstruct.AllValid(batches)
    ensures r.Ok? ==> Reconstruct.AllValid(r.value)
  {
    var (s, k) := e.0;
    if wb >= |batches| then Err(IndexError)
    else if s !in batches[wb].m || k !in batches[wb].m[s].m then Err(KeyError)
    else if |e.1| == 0 then Err(IndexError)
    else
      var d := batches[wb].m[s];
      var batches' := batches[wb := batches[wb].Put(s, d.Put(k, Place(d.m[k], off, e.1[0])))];
      assert forall b :: 0 <= b < |batches'| ==> ValidParams(batches'[b]) by {
        forall b | 0 <= b < |batches'| ensures ValidParams(batches'[b]) {
          if b != wb {
            assert ValidParams(batches[b]);
          }
        }
      }
      Ok(batches')
  }

  function WriteBack(batches: seq<Params>, wb: nat, off: nat, es: seq<Entry>): (r: Run<seq<Params>>)
    requires Reconstruct.AllValid(batches)
    ensures Reconstruct.AllValid(r.state)
  {
    if es == [] then Run(batches, None)
    else
      var r := WriteBack(batches, wb, off, es[..|es| - 1]);
      if r.error.Some? then r
      else
        match WriteStep(r.state, wb, off, es[|es| - 1])
        case Ok(v) => Run(v, None)
        case Err(x) => Run(r.state, Some(x))
  }

  /** One write-back step raises exactly when the batch, the species or the
      key is missing or the optimizer's array is empty; otherwise it sets
      entry `off` of that one array and leaves every other slot as it was. */
  lemma WriteStepSlot(batches: seq<Params>, wb: nat, off: nat, e: Entry)
    requires Reconstruct.AllValid(batches)
    ensures WriteStep(batches, wb, off, e).Ok? <==> Slot(batches, wb, e.0.0, e.0.1).Some? && |e.1| > 0
    ensures var r := WriteStep(batches, wb, off, e);
            r.Ok? ==>
              Slot(r.value, wb, e.0.0, e.0.1) == Some(Place(Slot(batches, wb, e.0.0, e.0.1).value, off, e.1[0])) &&
              forall b, s, k :: (b != wb || (s, k) != e.0) ==> Slot(r.value, b, s, k) == Slot(batches, b, s, k)
  {
  }

  /** A write-back step keeps the shape of the weights. */
  lemma WriteStepSame(batches: seq<Params>, wb: nat, off: nat, e: Entry)
    requires Reconstruct.AllValid(batches) && WriteStep(batches, wb, off, e).Ok?
    ensures SameExceptSlot(batches, WriteStep(batches, wb, off, e).value, wb, off)
  {
    var after := WriteStep(batches, wb, off, e).value;
    WriteStepSlot(batches, wb, off, e);
    assert ValidParams(batches[wb]);
    forall b | 0 <= b < |batches|
      ensures after[b].keys == batches[b].keys &&
              forall s :: s in batches[b].m ==> s in after[b].m && after[b].m[s].keys == batches[b].m[s].keys
    {
    }
  }

  lemma SameExceptSlotRefl(x: seq<Params>, wb: nat, off: nat)
    ensures SameExceptSlot(x, x, wb, off)
  {
  }

  lemma IdsPrefix(es: seq<Entry>)
    requires es != []
    ensures Ids(es) == Ids(es[..|es| - 1]) + [es[|es| - 1].0]
    ensures forall id :: id in Ids(es) <==> id in Ids(es[..|es| - 1]) || id == es[|es| - 1].0
  {
    assert Ids(es) == Ids(es[..|es| - 1]) + [es[|es| - 1].0];
  }

  lemma DistinctSnoc(xs: seq<ParamId>)
    requires Distinct(xs) && xs != []
    ensures Distinct(xs[..|xs| - 1]) && xs[|xs| - 1] !in xs[..|xs| - 1]
  {
  }

  /** The write-back changes at most entry `off` of the arrays of batch `wb`. */
  lemma {:induction false} WriteBackSame(batches: seq<Params>, wb: nat, off: nat, es: seq<Entry>)
    requires Reconstruct.AllValid(batches)
    ensures SameExceptSlot(batches, WriteBack(batches, wb, off, es).state, wb, off)
  {
    if es == [] {
      SameExceptSlotRefl(batches, wb, off);
    } else {
      var n := |es| - 1;
      WriteBackSame(batches, wb, off, es[..n]);
      var mid := WriteBack(batches, wb, off, es[..n]);
      if mid.error.None? && WriteStep(mid.state, wb, off, es[n]).Ok? {
        WriteStepSame(mid.state, wb, off, es[n]);
        SameExceptSlotTrans(batches, mid.state, WriteStep(mid.state, wb, off, es[n]).value, wb, off);
      }
    }
  }

  /** Every slot the write-back does not name keeps its array. */
  lemma {:induction false} WriteBackUntouched(batches: seq<Params>, wb: nat, off: nat, es: seq<Entry>)
    requires Reconstruct.AllValid(batches)
    ensures var after := WriteBack(batches, wb, off, es).state;
            forall b, s, k :: (b != wb || (s, k) !in Ids(es)) ==> Slot(after, b, s, k) == Slot(batches, b, s, k)
  {
    if es != [] {
      var n := |es| - 1;
      WriteBackUntouched(batches, wb, off, es[..n]);
      IdsPrefix(es);
      var mid := WriteBack(batches, wb, off, es[..n]);
      if mid.error.None? {
        WriteStepSlot(mid.state, wb, off, es[n]);
      }
    }
  }

  /** The write-back raises exactly when some slot it names is missing or
      some optimizer array is empty. */
  lemma {:induction false} WriteBackRaises(batches: seq<Params>, wb: nat, off: nat, es: seq<Entry>)
    requires Reconstruct.AllValid(batches) && Distinct(Ids(es))
    ensures WriteBack(batches, wb, off, es).error.None? <==>
              forall j :: 0 <= j < |es| ==> Slot(batches, wb, es[j].0.0, es[j].0.1).Some? && |es[j].1| > 0
  {
    if es != [] {
      var n := |es| - 1;
      var init := es[..n];
      IdsPrefix(es);
      DistinctSnoc(Ids(es));
      WriteBackRaises(batches, wb, off, init);
      WriteBackUntouched(batches, wb, off, init);
      var mid := WriteBack(batches, wb, off, init);
      var last := es[n];
      assert Slot(mid.state, wb, last.0.0, last.0.1) == Slot(batches, wb, last.0.0, last.0.1);
      FitsSnoc(batches, wb, es);
      if mid.error.None? {
        WriteStepSlot(mid.state, wb, off, last);
        assert WriteBack(batches, wb, off, es).error.None? <==> WriteStep(mid.state, wb, off, last).Ok?;
      } else {
        assert WriteBack(batches, wb, off, es).error.Some?;
      }
    }
  }

  /** Every entry of `es` fits exactly when those before the last one do
      and the last one does. */
  lemma FitsSnoc(batches: seq<Params>, wb: nat, es: seq<Entry>)
    requires es != []
    ensures var n := |es| - 1;
            var init := es[..n];
            (forall j :: 0 <= j < |es| ==> Slot(batches, wb, es[j].0.0, es[j].0.1).Some? && |es[j].1| > 0) <==>
            (forall j :: 0 <= j < n ==> Slot(batches, wb, init[j].0.0, init[j].0.1).Some? && |init[j].1| > 0) &&
            Slot(batches, wb, es[n].0.0, es[n].0.1).Some? && |es[n].1| > 0
  {
    assert forall j :: 0 <= j < |es| - 1 ==> es[..|es| - 1][j] == es[j];
  }

  /** One more entry after a prefix that raised nothing. */
  lemma WriteBackSnoc(batches: seq<Params>, wb: nat, off: nat, pre: seq<Entry>, e: Entry, v: seq<Params>)
    requires Reconstruct.AllValid(batches) && WriteBack(batches, wb, off, pre) == Run(v, None)
    ensures Reconstruct.AllValid(v)
    ensures WriteBack(batches, wb, off, pre + [e]) ==
              match WriteStep(v, wb, off, e)
              case Ok(v') => Run(v', None)
              case Err(x) => Run(v, Some(x))
  {
    assert (pre + [e])[..|pre|] == pre;
  }

  /** With distinct keys, a write-back that raises nothing leaves each slot
      it names holding its optimizer value at entry `off`. */
  lemma {:induction false} WriteBackSets(batches: seq<Params>, wb: nat, off: nat, es: seq<Entry>)
    requires Reconstruct.AllValid(batches) && Distinct(Ids(es))
    ensures WriteBack(batches, wb, off, es).error.None? ==>
              forall j :: 0 <= j < |es| ==> Slot(batches, wb, es[j].0.0, es[j].0.1).Some? && |es[j].1| > 0
    ensures var r := WriteBack(batches, wb, off, es);
            r.error.None? ==>
              forall j :: 0 <= j < |es| ==>
                Slot(r.state, wb, es[j].0.0, es[j].0.1) ==
                Some(Place(Slot(batches, wb, es[j].0.0, es[j].0.1).value, off, es[j].1[0]))
  {
    var r := WriteBack(batches, wb, off, es);
    WriteBackRaises(batches, wb, off, es);
    if es != [] && r.error.None? {
      var n := |es| - 1;
      var init := es[..n];
      IdsPrefix(es);
      DistinctSnoc(Ids(es));
      WriteBackSets(batches, wb, off, init);
      WriteBackUntouched(batches, wb, off, init);
      var mid := WriteBack(batches, wb, off, init);
      WriteStepSlot(mid.state, wb, off, es[n]);
      assert r.state == WriteStep(mid.state, wb, off, es[n]).value;
      var last := es[n];
      assert Slot(mid.state, wb, last.0.0, last.0.1) == Slot(batches, wb, last.0.0, last.0.1);
      assert Slot(r.state, wb, last.0.0, last.0.1) ==
             Some(Place(Slot(batches, wb, last.0.0, last.0.1).value, off, last.1[0]));
      forall j | 0 <= j < |es|
        ensures Slot(r.state, wb, es[j].0.0, es[j].0.1) ==
                Some(Place(Slot(batches, wb, es[j].0.0, es[j].0.1).value, off, es[j].1[0]))
      {
        var e := es[j];
        if j < n {
          assert Ids(es)[j] == Ids(init)[j];
          assert e == init[j] && e.0 != last.0;
          var want := Some(Place(Slot(batches, wb, e.0.0, e.0.1).value, off, e.1[0]));
          assert Slot(mid.state, wb, e.0.0, e.0.1) == want;
          assert Slot(r.state, wb, e.0.0, e.0.1) == Slot(mid.state, wb, e.0.0, e.0.1);
        } else {
          assert j == n;
        }
      }
    }
  }

  /** Each entry of the species `ss` is one of their slots, with the slot's
      array. */
  lemma {:induction false} SpeciesEntriesSlots(batch: Params, ss: seq<Species>)
    requires ValidParams(batch) && forall s :: s in ss ==> s in batch.m
    ensures forall j :: 0 <= j < |SpeciesEntries(batch, ss)| ==>
              var e := SpeciesEntries(batch, ss)[j];
              e.0.0 in ss && Slot([batch], 0, e.0.0, e.0.1) == Some(e.1)
  {
    if ss != [] {
      var n := |ss| - 1;
      var s := ss[n];
      var init := SpeciesEntries(batch, ss[..n]);
      var d := batch.m[s];
      var ke := KeyEntries(s, d, d.keys);
      SpeciesEntriesSlots(batch, ss[..n]);
      var all := SpeciesEntries(batch, ss);
      assert all == init + ke;
      forall j | 0 <= j < |all|
        ensures all[j].0.0 in ss && Slot([batch], 0, all[j].0.0, all[j].0.1) == Some(all[j].1)
      {
        if j < |init| {
          assert all[j] == init[j];
          assert init[j].0.0 in ss[..n];
        } else {
          assert all[j] == ke[j - |init|];
        }
      }
    }
  }

  /** Every slot of the species `ss` has an entry. */
  lemma {:induction false} SpeciesEntriesCover(batch: Params, ss: seq<Species>)
    requires ValidParams(batch) && forall s :: s in ss ==> s in batch.m
    ensures forall s, k :: s in ss && Slot([batch], 0, s, k).Some? ==> (s, k) in Ids(SpeciesEntries(batch, ss))
  {
    if ss != [] {
      var n := |ss| - 1;
      var s := ss[n];
      var init := SpeciesEntries(batch, ss[..n]);
      var d := batch.m[s];
      assert d.Valid();
      var ke := KeyEntries(s, d, d.keys);
      SpeciesEntriesCover(batch, ss[..n]);
      var all := SpeciesEntries(batch, ss);
      assert all == init + ke;
      forall s', k | s' in ss && Slot([batch], 0, s', k).Some? ensures (s', k) in Ids(all) {
        if s' == s {
          var t :| 0 <= t < |d.keys| && d.keys[t] == k;
          assert Ids(all)[|init| + t] == (s, k);
        } else {
          assert s' in ss[..n];
          var t :| 0 <= t < |Ids(init)| && Ids(init)[t] == (s', k);
          assert Ids(all)[t] == (s', k);
        }
      }
    }
  }

  /** The entries of distinct species name distinct slots. */
  lemma {:induction false} SpeciesEntriesDistinct(batch: Params, ss: seq<Species>)
    requires ValidParams(batch) && Distinct(ss) && forall s :: s in ss ==> s in batch.m
    ensures Distinct(Ids(SpeciesEntries(batch, ss)))
  {
    if ss != [] {
      var n := |ss| - 1;
      var s := ss[n];
      var init := SpeciesEntries(batch, ss[..n]);
      var d := batch.m[s];
      assert d.Valid();
      var ke := KeyEntries(s, d, d.keys);
      SpeciesEntriesDistinct(batch, ss[..n]);
      SpeciesEntriesSlots(batch, ss[..n]);
      var all := SpeciesEntries(batch, ss);
      assert all == init + ke;
      assert Ids(all) == Ids(init) + Ids(ke);
      forall j | 0 <= j < |init| ensures Ids(init)[j].0 != s {
        assert init[j].0.0 in ss[..n];
      }
      forall a, b | 0 <= a < b < |Ids(all)| ensures Ids(all)[a] != Ids(all)[b] {
        if b < |init| {
          assert Ids(all)[a] == Ids(init)[a] && Ids(all)[b] == Ids(init)[b];
        } else if a < |init| {
          assert Ids(all)[a] == Ids(init)[a] && Ids(all)[b].0 == s;
        } else {
          assert Ids(all)[a] == (s, d.keys[a - |init|]) && Ids(all)[b] == (s, d.keys[b - |init|]);
        }
      }
    }
  }

  lemma EntriesIds(batch: Params)
    requires ValidParams(batch)
    ensures Distinct(Ids(Entries(batch)))
    ensures forall j :: 0 <= j < |Entries(batch)| ==>
              Slot([batch], 0, Entries(batch)[j].0.0, Entries(batch)[j].0.1) == Some(Entries(batch)[j].1)
    ensures forall s, k :: Slot([batch], 0, s, k).Some? ==> (s, k) in Ids(Entries(batch))
  {
    SpeciesEntriesDistinct(batch, batch.keys);
    SpeciesEntriesSlots(batch, batch.keys);
    SpeciesEntriesCover(batch, batch.keys);
  }

  /** The warm start never changes a value it does not set: one of a
      parameter that is not active. */
  lemma {:induction false} WarmStartKeeps(active: map<ParamId, bool>, off: nat, vals: map<ParamId, real>, es: seq<Entry>)
    ensures var r := WarmStart(active, off, vals, es);
            forall id :: !(id in active && active[id]) ==>
              (id in r.state <==> id in vals) && (id in vals ==> r.state[id] == vals[id])
  {
    if es != [] {
      WarmStartKeeps(active, off, vals, es[..|es| - 1]);
    }
  }

  // ---------------------------------------------------------------------
  // The refit loop (lines 238-287)
  // ---------------------------------------------------------------------

  /** A parameter dictionary as the optimizer's result is unravelled. */
  type Fitted = p: Params | ValidParams(p) witness Dict([], map[])

  /** `LossFunction(temp_cfg, sa, batch)` followed by `spopt.minimize` and
      `unravel_pytree`, for the configured values and sample `i`. */
  type Optimizer = (map<ParamId, real>, nat) -> Fitted

  /** What the loop changes: `config["optimizer"]["batch_size"]`, the
      configured `val` of every parameter, and the fitted weights. */
  datatype RefitState = RefitState(batchSize: int, vals: map<ParamId, real>, batches: seq<Params>)

  /** Python's `i // tbs` and `i % tbs` for a sample index `i >= 0`: the
      batch of sample `i` and its slot in that batch. */
  function BatchOf(i: nat, tbs: nat): nat
    requires tbs > 0
  {
    i / tbs
  }

  function OffsetOf(i: nat, tbs: nat): nat
    requires tbs > 0
  {
    i % tbs
  }

  /** One pass of the loop body for sample `i`, with `tbs` the original
      batch size. */
  function RefitOne(st: RefitState, tbs: nat, active: map<ParamId, bool>, optimize: Optimizer, i: nat): (r: Run<RefitState>)
    requires tbs > 0 && Reconstruct.AllValid(st.batches)
    ensures Reconstruct.AllValid(r.state.batches)
  {
    if i == 0 then Run(st, None)
    else
      var wb := BatchOf(i - 1, tbs);
      var st1 := st.(batchSize := 1);
      if wb >= |st.batches| then Run(st1, Some(IndexError))
      else
        assert ValidParams(st.batches[wb]);
        var warm := WarmStart(active, OffsetOf(i - 1, tbs), st.vals, Entries(st.batches[wb]));
        var st2 := st1.(vals := warm.state);
        if warm.error.Some? then Run(st2, warm.error)
        else
          var back := WriteBack(st.batches, BatchOf(i, tbs), OffsetOf(i, tbs), Entries(optimize(warm.state, i)));
          Run(st2.(batches := back.state), back.error)
  }

  /** The loop over the selected indices `chosen`, stopping at the first
      exception. */
  function RefitAll(st: RefitState, tbs: nat, active: map<ParamId, bool>, optimize: Optimizer, chosen: seq<nat>): (r: Run<RefitState>)
    requires tbs > 0 && Reconstruct.AllValid(st.batches)
    ensures Reconstruct.AllValid(r.state.batches)
  {
    if chosen == [] then Run(st, None)
    else
      var r := RefitAll(st, tbs, active, optimize, chosen[..|chosen| - 1]);
      if r.error.Some? then r else RefitOne(r.state, tbs, active, optimize, chosen[|chosen| - 1])
  }

  /** The loop followed by line 287, which runs only when nothing raised. */
  function Refitted(st: RefitState, active: map<ParamId, bool>, optimize: Optimizer, chosen: seq<nat>): Run<RefitState>
    requires st.batchSize > 0 && Reconstruct.AllValid(st.batches)
  {
    var r := RefitAll(st, st.batchSize as nat, active, optimize, chosen);
    if r.error.None? then Run(r.state.(batchSize := st.batchSize), None) else r
  }

  /** Sample 0 is skipped; any other sample sets `batch_size` to 1 through
      the shallow copy, and the weights change at most in entry `i % tbs`
      of batch `i / tbs`. */
  lemma RefitOneShape(st: RefitState, tbs: nat, active: map<ParamId, bool>, optimize: Optimizer, i: nat)
    requires tbs > 0 && Reconstruct.AllValid(st.batches)
    ensures i == 0 ==> RefitOne(st, tbs, active, optimize, i) == Run(st, None)
    ensures var r := RefitOne(st, tbs, active, optimize, i);
            i != 0 ==> r.state.batchSize == 1 && SameExceptSlot(st.batches, r.state.batches, BatchOf(i, tbs), OffsetOf(i, tbs))
  {
    if i != 0 {
      var wb := BatchOf(i - 1, tbs);
      if wb < |st.batches| {
        assert ValidParams(st.batches[wb]);
        var warm := WarmStart(active, OffsetOf(i - 1, tbs), st.vals, Entries(st.batches[wb]));
        if warm.error.None? {
          WriteBackSame(st.batches, BatchOf(i, tbs), OffsetOf(i, tbs), Entries(optimize(warm.state, i)));
        } else {
          SameExceptSlotRefl(st.batches, BatchOf(i, tbs), OffsetOf(i, tbs));
        }
      } else {
        SameExceptSlotRefl(st.batches, BatchOf(i, tbs), OffsetOf(i, tbs));
      }
    }
  }

  /** The warm start of sample `i` reads slot `(i - 1) % tbs` of batch
      `(i - 1) / tbs`: after a pass that raises nothing, every active
      parameter of that batch holds that entry of its array. */
  lemma RefitOneWarm(st: RefitState, tbs: nat, active: map<ParamId, bool>, optimize: Optimizer, i: nat)
    requires tbs > 0 && Reconstruct.AllValid(st.batches)
    requires i != 0 && RefitOne(st, tbs, active, optimize, i).error.None?
    ensures BatchOf(i - 1, tbs) < |st.batches|
    ensures var r := RefitOne(st, tbs, active, optimize, i);
            forall s, k :: Slot(st.batches, BatchOf(i - 1, tbs), s, k).Some? && (s, k) in active && active[(s, k)] ==>
              ReadSlot(Slot(st.batches, BatchOf(i - 1, tbs), s, k).value, OffsetOf(i - 1, tbs)).Ok? &&
              (s, k) in r.state.vals &&
              r.state.vals[(s, k)] == ReadSlot(Slot(st.batches, BatchOf(i - 1, tbs), s, k).value, OffsetOf(i - 1, tbs)).value
  {
    var wb := BatchOf(i - 1, tbs);
    var batch := st.batches[wb];
    assert ValidParams(batch);
    var es := Entries(batch);
    EntriesIds(batch);
    WarmStartRaises(active, OffsetOf(i - 1, tbs), st.vals, es);
    WarmStartSets(active, OffsetOf(i - 1, tbs), st.vals, es);
    forall s, k | Slot(st.batches, wb, s, k).Some? && (s, k) in active && active[(s, k)]
      ensures exists j :: 0 <= j < |es| && es[j] == ((s, k), Slot(st.batches, wb, s, k).value)
    {
      assert Slot([batch], 0, s, k) == Slot(st.batches, wb, s, k);
      var j :| 0 <= j < |Ids(es)| && Ids(es)[j] == (s, k);
      assert es[j] == ((s, k), Slot(st.batches, wb, s, k).value);
    }
  }

  /** Writing back a whole optimizer result: every parameter it returns
      holds its first value at entry `off` of batch `wb`. */
  lemma WriteBackResult(batches: seq<Params>, wb: nat, off: nat, cur: Fitted)
    requires Reconstruct.AllValid(batches) && WriteBack(batches, wb, off, Entries(cur)).error.None?
    ensures var after := WriteBack(batches, wb, off, Entries(cur)).state;
            forall s, k :: Slot([cur], 0, s, k).Some? ==>
              Slot(batches, wb, s, k).Some? && |Slot([cur], 0, s, k).value| > 0 &&
              Slot(after, wb, s, k) == Some(Place(Slot(batches, wb, s, k).value, off, Slot([cur], 0, s, k).value[0]))
  {
    var es := Entries(cur);
    EntriesIds(cur);
    WriteBackSets(batches, wb, off, es);
    forall s, k | Slot([cur], 0, s, k).Some?
      ensures exists j :: 0 <= j < |es| && es[j] == ((s, k), Slot([cur], 0, s, k).value)
    {
      var j :| 0 <= j < |Ids(es)| && Ids(es)[j] == (s, k);
      assert es[j] == ((s, k), Slot([cur], 0, s, k).value);
    }
  }

  /** The write-back of sample `i` goes to slot `i % tbs` of batch
      `i / tbs`: after a pass that raises nothing, every parameter the
      optimizer returns holds its first value there. */
  lemma RefitOneWrite(st: RefitState, tbs: nat, active: map<ParamId, bool>, optimize: Optimizer, i: nat)
    requires tbs > 0 && Reconstruct.AllValid(st.batches)
    requires i != 0 && RefitOne(st, tbs, active, optimize, i).error.None?
    ensures var r := RefitOne(st, tbs, active, optimize, i);
            var cur := optimize(r.state.vals, i);
            forall s, k :: Slot([cur], 0, s, k).Some? ==>
              Slot(st.batches, BatchOf(i, tbs), s, k).Some? && |Slot([cur], 0, s, k).value| > 0 &&
              Slot(r.state.batches, BatchOf(i, tbs), s, k) ==
              Some(Place(Slot(st.batches, BatchOf(i, tbs), s, k).value, OffsetOf(i, tbs), Slot([cur], 0, s, k).value[0]))
  {
    var r := RefitOne(st, tbs, active, optimize, i);
    var cur := optimize(r.state.vals, i);
    RefitOneBack(st, tbs, active, optimize, i);
    WriteBackResult(st.batches, BatchOf(i, tbs), OffsetOf(i, tbs), cur);
  }

  /** A pass that gets past the warm start ends with the write-back of the
      optimizer's result for the warm-started values. */
  lemma RefitOneBack(st: RefitState, tbs: nat, active: map<ParamId, bool>, optimize: Optimizer, i: nat)
    requires tbs > 0 && Reconstruct.AllValid(st.batches)
    requires i != 0 && RefitOne(st, tbs, active, optimize, i).error.None?
    ensures var r := RefitOne(st, tbs, active, optimize, i);
            var cur: Fitted := optimize(r.state.vals, i);
            var back := WriteBack(st.batches, BatchOf(i, tbs), OffsetOf(i, tbs), Entries(cur));
            r.state.batches == back.state && back.error.None?
  {
  }

  /** Two weights that agree outside one slot of batch `wb` agree on every
      other batch. */
  lemma SameBatch(x: seq<Params>, y: seq<Params>, wb: nat, off: nat, b: nat)
    requires Reconstruct.AllValid(x) && Reconstruct.AllValid(y) && SameExceptSlot(x, y, wb, off)
    requires b < |x| && b != wb
    ensures y[b] == x[b]
  {
    assert ValidParams(x[b]) && ValidParams(y[b]);
    forall s | s in x[b].m ensures y[b].m[s] == x[b].m[s] {
      forall k | k in x[b].m[s].m ensures y[b].m[s].m[k] == x[b].m[s].m[k] {
        assert Slot(x, b, s, k).Some?;
      }
      assert y[b].m[s].m.Keys == x[b].m[s].m.Keys;
    }
    assert y[b].m.Keys == x[b].m.Keys;
  }

  lemma RefitOneKeepsBatch(st: RefitState, tbs: nat, active: map<ParamId, bool>, optimize: Optimizer, i: nat, b: nat)
    requires tbs > 0 && Reconstruct.AllValid(st.batches)
    requires b < |st.batches| && (i == 0 || BatchOf(i, tbs) != b)
    ensures |RefitOne(st, tbs, active, optimize, i).state.batches| == |st.batches|
    ensures RefitOne(st, tbs, active, optimize, i).state.batches[b] == st.batches[b]
  {
    RefitOneShape(st, tbs, active, optimize, i);
    if i != 0 {
      SameBatch(st.batches, RefitOne(st, tbs, active, optimize, i).state.batches, BatchOf(i, tbs), OffsetOf(i, tbs), b);
    }
  }

  /** Over the whole loop: the weights keep their shape, a batch no
      refitted sample maps to is untouched, and `batch_size` is 1 as soon
      as one sample other than 0 has been reached. */
  lemma {:induction false} RefitAllShape(st: RefitState, tbs: nat, active: map<ParamId, bool>, optimize: Optimizer,
                                         chosen: seq<nat>)
    requires tbs > 0 && Reconstruct.AllValid(st.batches)
    ensures var r := RefitAll(st, tbs, active, optimize, chosen);
            |r.state.batches| == |st.batches| &&
            forall b :: 0 <= b < |st.batches| && (forall t :: 0 <= t < |chosen| && chosen[t] != 0 ==> BatchOf(chosen[t], tbs) != b) ==>
              r.state.batches[b] == st.batches[b]
    ensures (forall t :: 0 <= t < |chosen| ==> chosen[t] == 0) ==> RefitAll(st, tbs, active, optimize, chosen) == Run(st, None)
    ensures (exists t :: 0 <= t < |chosen| && chosen[t] != 0) ==> RefitAll(st, tbs, active, optimize, chosen).state.batchSize == 1
  {
    if chosen != [] {
      var n := |chosen| - 1;
      var init := chosen[..n];
      RefitAllShape(st, tbs, active, optimize, init);
      var mid := RefitAll(st, tbs, active, optimize, init);
      assert forall t :: 0 <= t < n ==> init[t] == chosen[t];
      if mid.error.None? {
        var i := chosen[n];
        RefitOneShape(mid.state, tbs, active, optimize, i);
        forall b | 0 <= b < |st.batches| && (forall t :: 0 <= t < |chosen| && chosen[t] != 0 ==> BatchOf(chosen[t], tbs) != b)
          ensures RefitOne(mid.state, tbs, active, optimize, i).state.batches[b] == st.batches[b]
        {
          assert i == 0 || BatchOf(i, tbs) != b;
          RefitOneKeepsBatch(mid.state, tbs, active, optimize, i, b);
        }
      }
    }
  }

  /** The entries the loop may write: entry `i % tbs` of batch `i // tbs`
      for every nonzero selected index `i`. */
  function RefitSlots(chosen: seq<nat>, tbs: nat): set<(nat, nat)>
    requires tbs > 0
  {
    set t | 0 <= t < |chosen| && chosen[t] != 0 :: (BatchOf(chosen[t], tbs), OffsetOf(chosen[t], tbs))
  }

  /** Across the whole loop, raising or not, every fitted entry keeps its
      value unless it is entry `i % tbs` of batch `i // tbs` for a nonzero
      selected `i`, and the batches, species, keys and array lengths stay. */
  lemma {:induction false} RefitAllFrame(st: RefitState, tbs: nat, active: map<ParamId, bool>, optimize: Optimizer,
                                         chosen: seq<nat>)
    requires tbs > 0 && Reconstruct.AllValid(st.batches)
    ensures SameExceptSlots(st.batches, RefitAll(st, tbs, active, optimize, chosen).state.batches, RefitSlots(chosen, tbs))
  {
    if chosen != [] {
      var n := |chosen| - 1;
      var init := chosen[..n];
      RefitAllFrame(st, tbs, active, optimize, init);
      var mid := RefitAll(st, tbs, active, optimize, init);
      RefitSlotsSnoc(chosen, tbs);
      SameExceptSlotsMono(st.batches, mid.state.batches, RefitSlots(init, tbs), RefitSlots(chosen, tbs));
      if mid.error.None? {
        var i := chosen[n];
        RefitOneShape(mid.state, tbs, active, optimize, i);
        if i != 0 {
          var r := RefitOne(mid.state, tbs, active, optimize, i);
          SameExceptSlotWiden(mid.state.batches, r.state.batches, BatchOf(i, tbs), OffsetOf(i, tbs), RefitSlots(chosen, tbs));
          SameExceptSlotsTrans(st.batches, mid.state.batches, r.state.batches, RefitSlots(chosen, tbs));
        }
      }
    }
  }

  lemma RefitSlotsSnoc(chosen: seq<nat>, tbs: nat)
    requires tbs > 0 && chosen != []
    ensures RefitSlots(chosen[..|chosen| - 1], tbs) <= RefitSlots(chosen, tbs)
    ensures var i := chosen[|chosen| - 1];
            i != 0 ==> (BatchOf(i, tbs), OffsetOf(i, tbs)) in RefitSlots(chosen, tbs)
  {
    var init := chosen[..|chosen| - 1];
    forall x | x in RefitSlots(init, tbs) ensures x in RefitSlots(chosen, tbs) {
      var t :| 0 <= t < |init| && init[t] != 0 && x == (BatchOf(init[t], tbs), OffsetOf(init[t], tbs));
      assert chosen[t] == init[t];
    }
  }

  /** An inactive or unconfigured parameter keeps its configured value. */
  lemma {:induction false} RefitAllKeepsInactive(st: RefitState, tbs: nat, active: map<ParamId, bool>, optimize: Optimizer,
                                                 chosen: seq<nat>)
    requires tbs > 0 && Reconstruct.AllValid(st.batches)
    ensures var r := RefitAll(st, tbs, active, optimize, chosen);
            forall id :: !(id in active && active[id]) ==>
              (id in r.state.vals <==> id in st.vals) && (id in st.vals ==> r.state.vals[id] == st.vals[id])
  {
    if chosen != [] {
      var n := |chosen| - 1;
      RefitAllKeepsInactive(st, tbs, active, optimize, chosen[..n]);
      var mid := RefitAll(st, tbs, active, optimize, chosen[..n]);
      if mid.error.None? {
        RefitOneKeepsInactive(mid.state, tbs, active, optimize, chosen[n]);
      }
    }
  }

  /** One pass leaves an inactive or unconfigured parameter as it was. */
  lemma RefitOneKeepsInactive(st: RefitState, tbs: nat, active: map<ParamId, bool>, optimize: Optimizer, i: nat)
    requires tbs > 0 && Reconstruct.AllValid(st.batches)
    ensures var r := RefitOne(st, tbs, active, optimize, i);
            forall id :: !(id in active && active[id]) ==>
              (id in r.state.vals <==> id in st.vals) && (id in st.vals ==> r.state.vals[id] == st.vals[id])
  {
    if i != 0 && BatchOf(i - 1, tbs) < |st.batches| {
      var batch := st.batches[BatchOf(i - 1, tbs)];
      assert ValidParams(batch);
      WarmStartKeeps(active, OffsetOf(i - 1, tbs), st.vals, Entries(batch));
    }
  }

  /** Line 287 restores `batch_size` only when the loop ran to its end; an
      exception during a refit leaves it at 1. The configured values the
      warm starts wrote stay written either way. */
  lemma RefitRestores(st: RefitState, active: map<ParamId, bool>, optimize: Optimizer, chosen: seq<nat>)
    requires st.batchSize > 0 && Reconstruct.AllValid(st.batches)
    ensures var r := Refitted(st, active, optimize, chosen);
            r.state.vals == RefitAll(st, st.batchSize as nat, active, optimize, chosen).state.vals &&
            (r.error.None? ==> r.state.batchSize == st.batchSize) &&
            (r.error.Some? ==> r.state.batchSize == 1)
  {
    RefitAllShape(st, st.batchSize as nat, active, optimize, chosen);
  }

  // ---------------------------------------------------------------------
  // Loop positions inside the nested `for species ... for key ...` loops
  // ---------------------------------------------------------------------

  lemma KeyEntriesSnoc(s: Species, d: Dict<Key, seq<real>>, ks: seq<Key>, ki: nat)
    requires ki < |ks| && forall k :: k in ks ==> k in d.m
    ensures KeyEntries(s, d, ks[..ki + 1]) == KeyEntries(s, d, ks[..ki]) + [((s, ks[ki]), d.m[ks[ki]])]
    ensures KeyEntries(s, d, ks[..ki]) == KeyEntries(s, d, ks)[..ki]
  {
    assert KeyEntries(s, d, ks[..ki + 1]) == KeyEntries(s, d, ks[..ki]) + [((s, ks[ki]), d.m[ks[ki]])];
  }

  lemma SpeciesEntriesSnoc(batch: Params, ss: seq<Species>, si: nat)
    requires ValidParams(batch) && si < |ss| && forall s :: s in ss ==> s in batch.m
    ensures SpeciesEntries(batch, ss[..si + 1]) ==
            SpeciesEntries(batch, ss[..si]) + KeyEntries(ss[si], batch.m[ss[si]], batch.m[ss[si]].keys)
  {
    assert ss[..si + 1][..si] == ss[..si];
  }

  lemma {:induction false} SpeciesEntriesPrefix(batch: Params, ss: seq<Species>, j: nat)
    requires ValidParams(batch) && j <= |ss| && forall s :: s in ss ==> s in batch.m
    ensures |SpeciesEntries(batch, ss[..j])| <= |SpeciesEntries(batch, ss)|
    ensures SpeciesEntries(batch, ss)[..|SpeciesEntries(batch, ss[..j])|] == SpeciesEntries(batch, ss[..j])
  {
    if j < |ss| {
      var n := |ss| - 1;
      assert ss[..n][..j] == ss[..j];
      SpeciesEntriesPrefix(batch, ss[..n], j);
    } else {
      assert ss[..j] == ss;
    }
  }

  /** The entries visited before key `ki` of species `si` come first in
      `Entries(batch)`. */
  lemma EntriesPrefix(batch: Params, si: nat, ki: nat)
    requires ValidParams(batch) && si < |batch.keys| && ki <= |batch.m[batch.keys[si]].keys|
    ensures var s := batch.keys[si];
            var pre := SpeciesEntries(batch, batch.keys[..si]) + KeyEntries(s, batch.m[s], batch.m[s].keys[..ki]);
            |pre| <= |Entries(batch)| && Entries(batch)[..|pre|] == pre
  {
    var s := batch.keys[si];
    var d := batch.m[s];
    assert d.Valid();
    var a := SpeciesEntries(batch, batch.keys[..si]);
    var ke := KeyEntries(s, d, d.keys);
    assert KeyEntries(s, d, d.keys[..ki]) == ke[..ki];
    var b := SpeciesEntries(batch, batch.keys[..si + 1]);
    SpeciesEntriesSnoc(batch, batch.keys, si);
    SpeciesEntriesPrefix(batch, batch.keys, si + 1);
    var full := Entries(batch);
    PrefixCompose(full, b, a, ke, KeyEntries(s, d, d.keys[..ki]), ki);
  }

  /** If `a + ke` starts `full`, so does `a` followed by a prefix of `ke`. */
  lemma PrefixCompose<T>(full: seq<T>, b: seq<T>, a: seq<T>, ke: seq<T>, kp: seq<T>, ki: nat)
    requires |b| <= |full| && full[..|b|] == b && b == a + ke && ki <= |ke| && kp == ke[..ki]
    ensures |a + kp| <= |full| && full[..|a + kp|] == a + kp
  {
    assert forall j :: 0 <= j < |a + kp| ==> full[j] == b[j];
  }

  /** A warm start that raises at some entry raises the same way for the
      whole batch. */
  lemma WarmStartRaisesAt(active: map<ParamId, bool>, off: nat, vals: map<ParamId, real>, batch: Params,
                          si: nat, ki: nat)
    requires ValidParams(batch) && si < |batch.keys| && ki <= |batch.m[batch.keys[si]].keys|
    requires var s := batch.keys[si];
             WarmStart(active, off, vals, SpeciesEntries(batch, batch.keys[..si]) +
                                          KeyEntries(s, batch.m[s], batch.m[s].keys[..ki])).error.Some?
    ensures var s := batch.keys[si];
            WarmStart(active, off, vals, Entries(batch)) ==
            WarmStart(active, off, vals, SpeciesEntries(batch, batch.keys[..si]) +
                                         KeyEntries(s, batch.m[s], batch.m[s].keys[..ki]))
  {
    var s := batch.keys[si];
    var pre := SpeciesEntries(batch, batch.keys[..si]) + KeyEntries(s, batch.m[s], batch.m[s].keys[..ki]);
    EntriesPrefix(batch, si, ki);
    var full := Entries(batch);
    assert full == pre + full[|pre|..];
    WarmStartStops(active, off, vals, pre, full[|pre|..]);
  }

  lemma {:induction false} WriteBackStops(batches: seq<Params>, wb: nat, off: nat, es: seq<Entry>, rest: seq<Entry>)
    requires Reconstruct.AllValid(batches) && WriteBack(batches, wb, off, es).error.Some?
    ensures WriteBack(batches, wb, off, es + rest) == WriteBack(batches, wb, off, es)
  {
    if rest != [] {
      var n := |rest| - 1;
      assert (es + rest)[..|es + rest| - 1] == es + rest[..n];
      WriteBackStops(batches, wb, off, es, rest[..n]);
    } else {
      assert es + rest == es;
    }
  }

  lemma WriteBackRaisesAt(batches: seq<Params>, wb: nat, off: nat, cur: Params, si: nat, ki: nat)
    requires Reconstruct.AllValid(batches)
    requires ValidParams(cur) && si < |cur.keys| && ki <= |cur.m[cur.keys[si]].keys|
    requires var s := cur.keys[si];
             WriteBack(batches, wb, off, SpeciesEntries(cur, cur.keys[..si]) +
                                         KeyEntries(s, cur.m[s], cur.m[s].keys[..ki])).error.Some?
    ensures var s := cur.keys[si];
            WriteBack(batches, wb, off, Entries(cur)) ==
            WriteBack(batches, wb, off, SpeciesEntries(cur, cur.keys[..si]) + KeyEntries(s, cur.m[s], cur.m[s].keys[..ki]))
  {
    var s := cur.keys[si];
    var pre := SpeciesEntries(cur, cur.keys[..si]) + KeyEntries(s, cur.m[s], cur.m[s].keys[..ki]);
    EntriesPrefix(cur, si, ki);
    var full := Entries(cur);
    assert full == pre + full[|pre|..];
    WriteBackStops(batches, wb, off, pre, full[|pre|..]);
  }

  // ---------------------------------------------------------------------
  // The caller's objects
  // ---------------------------------------------------------------------

  /** The entries of `config` the refit reads or writes. `batchSize` is
      `config["optimizer"]["batch_size"]`; `vals` and `active` are the
      `val` and `active` entries of `config["parameters"][species][key]`.
      `copy.copy` (line 248) shares every nested dictionary, so writes
      through `temp_cfg` land here. */
  class Config {
    var batchSize: int
    var vals: map<ParamId, real>
    const species: seq<Species>
    const active: map<ParamId, bool>
    const loadIon: bool
    const loadEle: bool
    const refitThresh: real

    constructor (batchSize: int, vals: map<ParamId, real>, species: seq<Species>, active: map<ParamId, bool>,
                 loadIon: bool, loadEle: bool, refitThresh: real)
      ensures this.batchSize == batchSize && this.vals == vals && this.species == species
      ensures this.active == active && this.loadIon == loadIon && this.loadEle == loadEle
      ensures this.refitThresh == refitThresh
    {
      this.batchSize := batchSize;
      this.vals := vals;
      this.species := species;
      this.active := active;
      this.loadIon := loadIon;
      this.loadEle := loadEle;
      this.refitThresh := refitThresh;
    }

    function Options(): Evaluate.Options
      reads this
    {
      Evaluate.Options(batchSize, species, loadIon, loadEle)
    }
  }

  /** The caller's `fitted_weights` list of per-batch dictionaries. */
  class Weights {
    var batches: seq<Params>

    constructor (batches: seq<Params>)
      ensures this.batches == batches
    {
      this.batches := batches;
    }
  }

  function StateOf(cfg: Config, w: Weights): RefitState
    reads cfg, w
  {
    RefitState(cfg.batchSize, cfg.vals, w.batches)
  }

  /** The entries visited after key `ki` of species `s` are those visited
      before it, followed by that key's entry. */
  lemma EntryStep(done: seq<Entry>, s: Species, d: Dict<Key, seq<real>>, ki: nat)
    requires d.Valid() && ki < |d.keys|
    ensures var pre := done + KeyEntries(s, d, d.keys[..ki]);
            var e := ((s, d.keys[ki]), d.m[d.keys[ki]]);
            done + KeyEntries(s, d, d.keys[..ki + 1]) == pre + [e] &&
            (pre + [e])[..|pre|] == pre && (pre + [e])[|pre|] == e
  {
    KeyEntriesSnoc(s, d, d.keys, ki);
  }

  /** Lines 251-255 for one `(species, key)` of the warm-start batch. */
  method WarmEntry(cfg: Config, off: nat, e: Entry) returns (err: Option<Error>)
    modifies cfg
    ensures var r := WarmStep(cfg.active, off, old(cfg.vals), e);
            (r.Ok? <==> err.None?) && (r.Ok? ==> cfg.vals == r.value) &&
            (r.Err? ==> err == Some(r.error) && cfg.vals == old(cfg.vals))
    ensures cfg.batchSize == old(cfg.batchSize)
  {
    if e.0 !in cfg.active {
      return Some(KeyError);
    }
    if cfg.active[e.0] {
      var arr := e.1;
      if |arr| == 0 {
        return Some(IndexError);
      }
      cfg.vals := cfg.vals[e.0 := if off < |arr| then arr[off] else arr[|arr| - 1]];
    }
    return None;
  }

  /** Line 250-255 for the keys of species `batch.keys[si]`, after the
      entries `done` of the species before it. */
  method WarmSpecies(cfg: Config, batch: Params, off: nat, si: nat, ghost v0: map<ParamId, real>) returns (err: Option<Error>)
    requires ValidParams(batch) && si < |batch.keys|
    requires WarmStart(cfg.active, off, v0, SpeciesEntries(batch, batch.keys[..si])) == Run(cfg.vals, None)
    modifies cfg
    ensures err.Some? ==> Run(cfg.vals, err) == WarmStart(cfg.active, off, v0, Entries(batch))
    ensures err.None? ==> Run(cfg.vals, None) == WarmStart(cfg.active, off, v0, SpeciesEntries(batch, batch.keys[..si + 1]))
    ensures cfg.batchSize == old(cfg.batchSize)
  {
    var s := batch.keys[si];
    var d := batch.m[s];
    assert d.Valid();
    ghost var done := SpeciesEntries(batch, batch.keys[..si]);
    ghost var active := cfg.active;
    assert done + KeyEntries(s, d, d.keys[..0]) == done;
    for ki := 0 to |d.keys|
      invariant WarmStart(active, off, v0, done + KeyEntries(s, d, d.keys[..ki])) == Run(cfg.vals, None)
      invariant cfg.batchSize == old(cfg.batchSize)
    {
      var k := d.keys[ki];
      EntryStep(done, s, d, ki);
      WarmStartSnoc(active, off, v0, done + KeyEntries(s, d, d.keys[..ki]), ((s, k), d.m[k]), cfg.vals);
      err := WarmEntry(cfg, off, ((s, k), d.m[k]));
      if err.Some? {
        WarmStartRaisesAt(active, off, v0, batch, si, ki + 1);
        return;
      }
    }
    assert d.keys[..|d.keys|] == d.keys;
    SpeciesEntriesSnoc(batch, batch.keys, si);
    return None;
  }

  /** Lines 249-255: the nested loops over the warm-start batch. */
  method WarmStartInto(cfg: Config, batch: Params, off: nat) returns (err: Option<Error>)
    requires ValidParams(batch)
    modifies cfg
    ensures Run(cfg.vals, err) == WarmStart(cfg.active, off, old(cfg.vals), Entries(batch))
    ensures cfg.batchSize == old(cfg.batchSize)
  {
    ghost var v0 := cfg.vals;
    for si := 0 to |batch.keys|
      invariant WarmStart(cfg.active, off, v0, SpeciesEntries(batch, batch.keys[..si])) == Run(cfg.vals, None)
      invariant cfg.batchSize == old(cfg.batchSize)
    {
      err := WarmSpecies(cfg, batch, off, si, v0);
      if err.Some? {
        return;
      }
    }
    assert batch.keys[..|batch.keys|] == batch.keys;
    return None;
  }

  /** Line 274-278 for one `(species, key)` of the optimizer's result. */
  method WriteEntry(w: Weights, wb: nat, off: nat, e: Entry) returns (err: Option<Error>)
    requires Reconstruct.AllValid(w.batches)
    modifies w
    ensures var r := WriteStep(old(w.batches), wb, off, e);
            (r.Ok? <==> err.None?) && (r.Ok? ==> w.batches == r.value) &&
            (r.Err? ==> err == Some(r.error) && w.batches == old(w.batches))
  {
    var (s, k) := e.0;
    if wb >= |w.batches| {
      return Some(IndexError);
    }
    var batch := w.batches[wb];
    if s !in batch.m || k !in batch.m[s].m {
      return Some(KeyError);
    }
    if |e.1| == 0 {
      return Some(IndexError);
    }
    assert ValidParams(batch);
    var inner := batch.m[s];
    w.batches := w.batches[wb := batch.Put(s, inner.Put(k, Place(inner.m[k], off, e.1[0])))];
    return None;
  }

  /** Lines 273-278 for the keys of species `cur.keys[si]`. */
  method WriteSpecies(w: Weights, wb: nat, off: nat, cur: Fitted, si: nat, ghost b0: seq<Params>) returns (err: Option<Error>)
    requires Reconstruct.AllValid(b0) && si < |cur.keys|
    requires WriteBack(b0, wb, off, SpeciesEntries(cur, cur.keys[..si])) == Run(w.batches, None)
    modifies w
    ensures err.Some? ==> Run(w.batches, err) == WriteBack(b0, wb, off, Entries(cur))
    ensures err.None? ==> Run(w.batches, None) == WriteBack(b0, wb, off, SpeciesEntries(cur, cur.keys[..si + 1]))
  {
    var s := cur.keys[si];
    var d := cur.m[s];
    assert d.Valid();
    ghost var done := SpeciesEntries(cur, cur.keys[..si]);
    assert done + KeyEntries(s, d, d.keys[..0]) == done;
    for ki := 0 to |d.keys|
      invariant WriteBack(b0, wb, off, done + KeyEntries(s, d, d.keys[..ki])) == Run(w.batches, None)
    {
      var k := d.keys[ki];
      EntryStep(done, s, d, ki);
      WriteBackSnoc(b0, wb, off, done + KeyEntries(s, d, d.keys[..ki]), ((s, k), d.m[k]), w.batches);
      err := WriteEntry(w, wb, off, ((s, k), d.m[k]));
      if err.Some? {
        WriteBackRaisesAt(b0, wb, off, cur, si, ki + 1);
        return;
      }
    }
    assert d.keys[..|d.keys|] == d.keys;
    SpeciesEntriesSnoc(cur, cur.keys, si);
    return None;
  }

  /** Lines 272-278: the nested loops over the optimizer's result. */
  method WriteBackInto(w: Weights, wb: nat, off: nat, cur: Fitted) returns (err: Option<Error>)
    requires Reconstruct.AllValid(w.batches)
    modifies w
    ensures Run(w.batches, err) == WriteBack(old(w.batches), wb, off, Entries(cur))
  {
    ghost var b0 := w.batches;
    for si := 0 to |cur.keys|
      invariant WriteBack(b0, wb, off, SpeciesEntries(cur, cur.keys[..si])) == Run(w.batches, None)
    {
      err := WriteSpecies(w, wb, off, cur, si, b0);
      if err.Some? {
        return;
      }
    }
    assert cur.keys[..|cur.keys|] == cur.keys;
    return None;
  }

  // ---------------------------------------------------------------------
  // The loop of lines 234-285 and line 287
  // ---------------------------------------------------------------------

  /** The loop stops at the first pass that raises. */
  lemma {:induction false} RefitAllStops(st: RefitState, tbs: nat, active: map<ParamId, bool>, optimize: Optimizer,
                                         chosen: seq<nat>, t: nat)
    requires tbs > 0 && Reconstruct.AllValid(st.batches) && t <= |chosen|
    requires RefitAll(st, tbs, active, optimize, chosen[..t]).error.Some?
    ensures RefitAll(st, tbs, active, optimize, chosen) == RefitAll(st, tbs, active, optimize, chosen[..t])
    decreases |chosen| - t
  {
    if t < |chosen| {
      var n := |chosen| - 1;
      assert chosen[..n][..t] == chosen[..t];
      RefitAllStops(st, tbs, active, optimize, chosen[..n], t);
    } else {
      assert chosen[..t] == chosen;
    }
  }

  /** The loop after `t` of the selected indices, one more index later. */
  lemma RefitAllSnoc(st: RefitState, tbs: nat, active: map<ParamId, bool>, optimize: Optimizer,
                     chosen: seq<nat>, t: nat, mid: RefitState)
    requires tbs > 0 && Reconstruct.AllValid(st.batches) && t < |chosen|
    requires RefitAll(st, tbs, active, optimize, chosen[..t]) == Run(mid, None)
    ensures Reconstruct.AllValid(mid.batches)
    ensures RefitAll(st, tbs, active, optimize, chosen[..t + 1]) == RefitOne(mid, tbs, active, optimize, chosen[t])
  {
    assert chosen[..t + 1][..t] == chosen[..t];
  }

  /** Lines 238-285 for one selected sample `i != 0`: `batch_size` set to 1
      through the shallow copy, the warm start from the sample before `i`,
      the optimizer, and the write-back. */
  method RefitSample(cfg: Config, w: Weights, tbs: nat, optimize: Optimizer, i: nat) returns (err: Option<Error>)
    requires tbs > 0 && Reconstruct.AllValid(w.batches) && i != 0
    modifies cfg, w
    ensures Run(StateOf(cfg, w), err) == RefitOne(old(StateOf(cfg, w)), tbs, cfg.active, optimize, i)
  {
    cfg.batchSize := 1;
    var wb := BatchOf(i - 1, tbs);
    if wb >= |w.batches| {
      return Some(IndexError);
    }
    var batch := w.batches[wb];
    assert ValidParams(batch);
    err := WarmStartInto(cfg, batch, OffsetOf(i - 1, tbs));
    if err.Some? {
      return;
    }
    var cur: Fitted := optimize(cfg.vals, i);
    err := WriteBackInto(w, BatchOf(i, tbs), OffsetOf(i, tbs), cur);
  }

  /** Lines 234-285: every selected index in turn, skipping sample 0 and
      stopping at the first exception. */
  method RefitLoop(cfg: Config, w: Weights, tbs: nat, optimize: Optimizer, chosen: seq<nat>) returns (err: Option<Error>)
    requires tbs > 0 && Reconstruct.AllValid(w.batches)
    modifies cfg, w
    ensures Run(StateOf(cfg, w), err) == RefitAll(old(StateOf(cfg, w)), tbs, cfg.active, optimize, chosen)
  {
    ghost var st0 := StateOf(cfg, w);
    for t := 0 to |chosen|
      invariant Reconstruct.AllValid(w.batches)
      invariant RefitAll(st0, tbs, cfg.active, optimize, chosen[..t]) == Run(StateOf(cfg, w), None)
    {
      var i := chosen[t];
      RefitAllSnoc(st0, tbs, cfg.active, optimize, chosen, t, StateOf(cfg, w));
      if i == 0 {
        continue;
      }
      err := RefitSample(cfg, w, tbs, optimize, i);
      if err.Some? {
        RefitAllStops(st0, tbs, cfg.active, optimize, chosen, t + 1);
        return;
      }
    }
    assert chosen[..|chosen|] == chosen;
    return None;
  }

  /** What `refit_bad_fits` leaves behind, or None when the recalculation
      of line 221 raises. `s` is `batch_indices` as the caller passed it. */
  ghost function BadFitsRun(st: RefitState, o: Evaluate.Options, d: Evaluate.DataShape, f: Evaluate.Forward,
                            s: seq<nat>, active: map<ParamId, bool>, thresh: real, optimize: Optimizer)
    : Option<Run<RefitState>>
    requires Reconstruct.AllValid(st.batches) && Sigmas.InverseShape(f.inv)
  {
    var p := Recalculate.PassOf(o, d, f, s, st.batches, false);
    if p.None? || !Evaluate.PassOk(p.value) || st.batchSize <= 0 then None
    else
      var losses := Evaluate.LossesAfter(p.value, |p.value.rows|);
      var chosen := Chosen(Layout.SortSeq(s), losses, Evaluate.UsedPoints(p.value), |o.species|, thresh);
      Some(Refitted(st, active, optimize, chosen))
  }

  /** A recalculation that runs to its end had a positive batch size. */
  lemma PassBatchSize(o: Evaluate.Options, d: Evaluate.DataShape, f: Evaluate.Forward, s: seq<nat>,
                      fw: seq<Params>, calcSigma: bool)
    requires Recalculate.PassOf(o, d, f, s, fw, calcSigma).Some?
    ensures o.batchSize > 0
    ensures Recalculate.PassOf(o, d, f, s, fw, calcSigma).value.n == |s|
  {
  }

  /** `refit_bad_fits` (lines 220-287). `batchIndices` is sorted in place by
      the recalculation; the configuration and the fitted weights change
      only through the refit loop. */
  method RefitBadFits(cfg: Config, w: Weights, d: Evaluate.DataShape, f: Evaluate.Forward,
                      batchIndices: array<nat>, optimize: Optimizer) returns (err: Option<Error>)
    requires Sigmas.InverseShape(f.inv) && Distinct(cfg.species) && Reconstruct.AllValid(w.batches)
    modifies cfg, w, batchIndices
    ensures batchIndices[..] == Layout.SortSeq(old(batchIndices[..]))
    ensures var r := BadFitsRun(old(StateOf(cfg, w)), old(cfg.Options()), d, f, old(batchIndices[..]),
                                cfg.active, cfg.refitThresh, optimize);
            (r.None? ==> err.Some? && StateOf(cfg, w) == old(StateOf(cfg, w))) &&
            (r.Some? ==> Run(StateOf(cfg, w), err) == r.value)
  {
    ghost var st0 := StateOf(cfg, w);
    ghost var s := batchIndices[..];
    var rec := Recalculate.RecalculateWithChosenWeights(cfg.Options(), d, f, batchIndices, w.batches, false);
    ghost var p := Recalculate.PassOf(cfg.Options(), d, f, s, w.batches, false);
    if rec.Err? {
      return Some(rec.error);
    }
    PassBatchSize(cfg.Options(), d, f, s, w.batches, false);
    Evaluate.OutcomeArrays(p.value, rec.value, Evaluate.SqdevEle);
    var tbs: nat := cfg.batchSize;
    var chosen := Chosen(batchIndices[..], rec.value.losses, rec.value.usedPoints, |rec.value.params.keys|,
                         cfg.refitThresh);
    assert chosen == Chosen(Layout.SortSeq(s), Evaluate.LossesAfter(p.value, |p.value.rows|), Evaluate.UsedPoints(p.value),
                            |cfg.species|, cfg.refitThresh);
    err := RefitLoop(cfg, w, tbs, optimize, chosen);
    if err.Some? {
      return;
    }
    cfg.batchSize := tbs;
    return None;
  }
}
