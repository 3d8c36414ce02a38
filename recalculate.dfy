// recalculate_with_chosen_weights (postprocess.py lines 13-123), chunked
// branch: sort the sample indices in place, reshape them into rows of
// batch_size, rebuild `all_params`, then run the chunk loop.

module Recalculate {
  import opened Base
  import Layout
  import Reconstruct
  import Sigmas
  import opened Evaluate

  /** The chunk loop's input for sample indices `s` (before sorting), or
      None when the reshape or the parameter reconstruction raises. */
  ghost function PassOf(o: Options, d: DataShape, f: Forward, s: seq<nat>, fw: seq<Params>, calcSigma: bool)
    : Option<Pass>
  {
    var rows := Layout.Reshape(Layout.SortSeq(s), o.batchSize);
    if rows.Err? || !(forall sp :: sp in o.species ==> Reconstruct.HasSpecies(fw, sp)) then None
    else Some(Pass(o, d, f, fw, calcSigma, o.batchSize as nat, |s|, rows.value, Reconstruct.NumParams(fw, o.species)))
  }

  /** Every sample index lands in exactly one chunk; distinct sample
      indices give chunks that never share a position. */
  lemma ChunksCoverSamples(o: Options, d: DataShape, f: Forward, s: seq<nat>, fw: seq<Params>, calcSigma: bool)
    requires PassOf(o, d, f, s, fw, calcSigma).Some?
    ensures multiset(Flatten(PassOf(o, d, f, s, fw, calcSigma).value.rows)) == multiset(s)
    ensures forall b :: 0 <= b < |PassOf(o, d, f, s, fw, calcSigma).value.rows| ==>
              |PassOf(o, d, f, s, fw, calcSigma).value.rows[b]| == o.batchSize
    ensures Distinct(s) ==> Distinct(Flatten(PassOf(o, d, f, s, fw, calcSigma).value.rows))
  {
    var t := Layout.SortSeq(s);
    Layout.SortSeqSorted(s);
    Layout.RowsFlatten(t, o.batchSize);
    Layout.RowsWidth(t, o.batchSize);
    if Distinct(s) {
      Layout.ChunksDisjoint(s, o.batchSize);
    }
  }

  /** Lines 31-123. `sampleIndices` is sorted in place (line 32); the
      reshape raises ValueError before anything else is evaluated. */
  method RecalculateWithChosenWeights(o: Options, d: DataShape, f: Forward, sampleIndices: array<nat>,
                                      fw: seq<Params>, calcSigma: bool) returns (r: Result<Evaluation>)
    requires Sigmas.InverseShape(f.inv) && Distinct(o.species) && Reconstruct.AllValid(fw)
    modifies sampleIndices
    ensures sampleIndices[..] == Layout.SortSeq(old(sampleIndices[..]))
    ensures Layout.Reshape(sampleIndices[..], o.batchSize).Err? ==> r == Err(ValueError)
    ensures var p := PassOf(o, d, f, old(sampleIndices[..]), fw, calcSigma);
            r.Ok? <==> p.Some? && PassOk(p.value)
    ensures var p := PassOf(o, d, f, old(sampleIndices[..]), fw, calcSigma);
            r.Ok? ==> p.Some? && PassOk(p.value) && Outcome(p.value, r.value) &&
                      Reconstruct.Reconstructed(Reconstruct.Reconstruction(r.value.params, p.value.numParams), o.species, fw)
  {
    ghost var s := sampleIndices[..];
    Layout.SortInPlace(sampleIndices);
    var rows := Layout.Reshape(sampleIndices[..], o.batchSize);
    if rows.Err? {
      return Err(rows.error);
    }
    var rec := Reconstruct.Reconstruct(o.species, fw);
    if rec.Err? {
      return Err(rec.error);
    }
    var p := Pass(o, d, f, fw, calcSigma, o.batchSize as nat, sampleIndices.Length, rows.value, rec.value.numParams);
    assert PassOf(o, d, f, s, fw, calcSigma) == Some(p);
    r := RunChunks(p, rec.value.params);
  }
}
