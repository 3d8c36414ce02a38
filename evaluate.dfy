// The chunked branch of recalculate_with_chosen_weights (postprocess.py
// lines 30-61 and 92-123): sort the sample indices in place, cut them into
// rows of batch_size, evaluate every chunk with its own fitted weights and
// scatter the chunk's results into dense arrays at the chunk's indices,
// with the Hessian-based sigmas behind the calc_sigma flag.

module Evaluate {
  import opened Base
  import Layout
  import Reconstruct
  import Sigmas

  /** One row of a two-dimensional numpy array. */
  type Row = seq<real>

  /** What `loss_fn.array_loss` returns for one chunk (line 103); its
      `params` part is not used by the chunked branch. */
  datatype ChunkOut = ChunkOut(loss: seq<real>, sqdevEle: seq<Row>, sqdevIon: seq<Row>,
                               usedPoints: real, fitEle: seq<Row>, fitIon: seq<Row>)

  /** The foreign computations, left abstract: `array_loss`,
      `h_loss_wrt_params` (None when it raises), `np.linalg.inv` (None on
      LinAlgError) and `np.sqrt`. */
  datatype Forward = Forward(eval: (Params, seq<nat>) -> ChunkOut,
                             hess: (Params, seq<nat>) -> Option<Sigmas.Hessian>,
                             inv: Sigmas.Matrix -> Option<Sigmas.Matrix>,
                             sqrt: real -> real)

  /** Shapes of the arrays in `all_data`: the electron arrays (`e_data`,
      `e_amps`, `noiseE`) have `eRows` rows of `eWidth` points, the ion arrays
      `iRows` rows of `iWidth`. */
  datatype DataShape = DataShape(eRows: nat, eWidth: nat, iRows: nat, iWidth: nat)

  /** The configuration entries the function reads. */
  datatype Options = Options(batchSize: int, species: seq<Species>, loadIon: bool, loadEle: bool)

  /** One evaluation of the chunk loop: everything it depends on. `n` is
      the number of sample indices, `rows` the reshaped sorted indices and
      `numParams` the count from the parameter reconstruction. */
  datatype Pass = Pass(o: Options, d: DataShape, f: Forward, fw: seq<Params>, calcSigma: bool,
                       bs: nat, n: nat, rows: seq<seq<nat>>, numParams: nat)

  /** The returned tuple, with `fits` and `sqdevs` split per spectrum. */
  datatype Evaluation = Evaluation(losses: seq<real>, sqdevEle: seq<Row>, sqdevIon: seq<Row>,
                                   usedPoints: real, fitsEle: seq<Row>, fitsIon: seq<Row>,
                                   sigmas: seq<Row>, params: Params)

  function Zeros(w: nat): Row {
    seq(w, _ => 0.0)
  }

  function ZeroRows(n: nat, w: nat): seq<Row> {
    seq(n, _ => Zeros(w))
  }

  predicate RowsOfWidth(xs: seq<Row>, n: nat, w: nat) {
    |xs| == n && forall j :: 0 <= j < n ==> |xs[j]| == w
  }

  /** A chunk's results fit the slots they are assigned to (lines 113-115
      and 119-120). */
  predicate ShapeOk(out: ChunkOut, n: nat, d: DataShape) {
    |out.loss| == n &&
    RowsOfWidth(out.sqdevEle, n, d.eWidth) && RowsOfWidth(out.sqdevIon, n, d.iWidth) &&
    RowsOfWidth(out.fitEle, n, d.eWidth) && RowsOfWidth(out.fitIon, n, d.iWidth)
  }

  /** The number of rows of `sigmas` (lines 57-61): the electron assignment
      runs second and wins; None when neither spectrum is loaded and
      `sigmas` is never bound. */
  function SigmaCount(o: Options, d: DataShape): Option<nat> {
    if o.loadEle then Some(d.eRows) else if o.loadIon then Some(d.iRows) else None
  }

  /** `calc_sigma` when chunk `b` starts: it was true on entry and the
      Hessian of every earlier chunk was computed. */
  predicate Live(p: Pass, b: nat)
    requires b <= |p.rows|
  {
    p.calcSigma && forall c :: 0 <= c < b ==> c < |p.fw| && p.f.hess(p.fw[c], p.rows[c]).Some?
  }

  /** Chunk `b` writes its sigmas: the flag is still set after its Hessian. */
  predicate WritesSigmas(p: Pass, b: nat)
    requires b < |p.rows|
  {
    Live(p, b + 1)
  }

  /** The flag after a chunk whose Hessian call gave `h` (lines 105-111, with
      the guarded call the `try` evidently intends). */
  function HessianFlag(flag: bool, h: Option<Sigmas.Hessian>): bool {
    flag && h.Some?
  }

  /** The flag as written: the unguarded call at line 106 raises before the
      `try` is reached, so a failing Hessian aborts the whole evaluation. */
  function HessianFlagAsWritten(flag: bool, h: Option<Sigmas.Hessian>): Result<bool> {
    if flag && h.None? then Err(ModelError) else Ok(flag)
  }

  /** As written, the degraded path of lines 109-111 is dead: whenever the
      call returns, the flag is what it was. */
  lemma AsWrittenNeverClears(flag: bool, h: Option<Sigmas.Hessian>)
    ensures HessianFlagAsWritten(flag, h).Ok? ==> HessianFlagAsWritten(flag, h).value == flag
    ensures HessianFlagAsWritten(flag, h).Err? <==> HessianFlag(flag, h) != flag
  {
  }

  /** A chunk whose Hessian fails while `calc_sigma` is set aborts as written,
      where the evident intent is to clear the flag and go on. */
  lemma AsWrittenAborts()
    ensures HessianFlagAsWritten(true, None).Err?
    ensures !HessianFlag(true, None)
  {
  }

  /** The corrected flag never rises, and falls exactly when the Hessian fails. */
  lemma HessianFlagMeaning(flag: bool, h: Option<Sigmas.Hessian>)
    ensures HessianFlag(flag, h) ==> flag
    ensures flag ==> (HessianFlag(flag, h) <==> h.Some?)
  {
  }

  /** `get_sigmas(hess, batch_size)` for chunk `b`. */
  function ChunkSigmas(p: Pass, b: nat): Option<Sigmas.Matrix>
    requires Sigmas.InverseShape(p.f.inv) && b < |p.rows| && b < |p.fw|
  {
    var h := p.f.hess(p.fw[b], p.rows[b]);
    if h.None? then None else Sigmas.SigmasSpec(h.value, p.bs, p.f.inv, p.f.sqrt)
  }

  /** Chunk `b` runs to its end without raising (lines 94-120). */
  predicate ChunkOk(p: Pass, b: nat)
    requires Sigmas.InverseShape(p.f.inv) && b < |p.rows|
  {
    var inds := p.rows[b];
    b < |p.fw| &&
    Layout.InRange(inds, p.d.eRows) && Layout.InRange(inds, p.d.iRows) &&
    ShapeOk(p.f.eval(p.fw[b], inds), |inds|, p.d) && Layout.InRange(inds, p.n) &&
    (WritesSigmas(p, b) ==>
       SigmaCount(p.o, p.d).Some? && Layout.InRange(inds, SigmaCount(p.o, p.d).value) &&
       ChunkSigmas(p, b).Some? && RowsOfWidth(ChunkSigmas(p, b).value, |inds|, p.numParams))
  }

  predicate ChunksOk(p: Pass, k: nat)
    requires Sigmas.InverseShape(p.f.inv) && k <= |p.rows|
  {
    forall b :: 0 <= b < k ==> ChunkOk(p, b)
  }

  /** The loop and the return statement raise nothing: every chunk runs,
      `used_points` is bound by at least one chunk and `sigmas` is bound. */
  predicate PassOk(p: Pass)
    requires Sigmas.InverseShape(p.f.inv)
  {
    |p.rows| > 0 && SigmaCount(p.o, p.d).Some? && ChunksOk(p, |p.rows|)
  }

  /** How many chunks write their sigmas among the first `k`: the longest
      prefix processed while the flag is set. */
  function LiveCount(p: Pass, k: nat): (c: nat)
    requires k <= |p.rows|
    ensures c <= k
  {
    if k == 0 then 0 else if Live(p, k) then k else LiveCount(p, k - 1)
  }

  /** The field of a chunk's results a dense array receives. */
  datatype Field = SqdevEle | SqdevIon | FitEle | FitIon

  function Pick(out: ChunkOut, field: Field): seq<Row> {
    match field
    case SqdevEle => out.sqdevEle
    case SqdevIon => out.sqdevIon
    case FitEle => out.fitEle
    case FitIon => out.fitIon
  }

  /** The losses of the first `k` chunks, one sequence per chunk. */
  function LossVals(p: Pass, k: nat): seq<seq<real>>
    requires k <= |p.rows| && k <= |p.fw|
  {
    seq(k, b requires 0 <= b < k => p.f.eval(p.fw[b], p.rows[b]).loss)
  }

  function FieldVals(p: Pass, k: nat, field: Field): seq<seq<Row>>
    requires k <= |p.rows| && k <= |p.fw|
  {
    seq(k, b requires 0 <= b < k => Pick(p.f.eval(p.fw[b], p.rows[b]), field))
  }

  function SigmaVals(p: Pass, k: nat): seq<seq<Row>>
    requires Sigmas.InverseShape(p.f.inv) && k <= |p.rows| && k <= |p.fw|
  {
    seq(k, b requires 0 <= b < k => SigmasOrEmpty(p, b))
  }

  function SigmasOrEmpty(p: Pass, b: nat): seq<Row>
    requires Sigmas.InverseShape(p.f.inv) && b < |p.rows| && b < |p.fw|
  {
    var s := ChunkSigmas(p, b);
    if s.Some? then s.value else []
  }

  /** The field's dense array: rows of the electron or the ion data. */
  function FieldRows(d: DataShape, field: Field): nat {
    if field == SqdevEle || field == FitEle then d.eRows else d.iRows
  }

  function FieldWidth(d: DataShape, field: Field): nat {
    if field == SqdevEle || field == FitEle then d.eWidth else d.iWidth
  }

  /** `Live` is closed under prefixes by definition, so this lemma alone
      says little: that the calc_sigma flag never goes from false back to
      true is carried by `EvalChunk`'s `flag' == WritesSigmas(p, b)` together
      with `ChunkLoop`'s invariant tying the flag to `Live`. */
  lemma LiveNeverRises(p: Pass, b: nat, b': nat)
    requires b <= b' <= |p.rows| && Live(p, b')
    ensures Live(p, b)
  {
  }

  /** The chunks that write sigmas are exactly the first `LiveCount(p, k)`:
      chunk `b` writes them exactly when the flag is still set after its
      Hessian. */
  lemma {:induction false} LiveCountMeaning(p: Pass, k: nat)
    requires k <= |p.rows|
    ensures LiveCount(p, k) <= k
    ensures forall b :: 0 <= b < k ==> (b < LiveCount(p, k) <==> WritesSigmas(p, b))
  {
    if k > 0 && !Live(p, k) {
      LiveCountMeaning(p, k - 1);
      assert LiveCount(p, k) == LiveCount(p, k - 1);
      forall b | 0 <= b < k ensures b < LiveCount(p, k) <==> WritesSigmas(p, b) {
        if b == k - 1 {
          assert !WritesSigmas(p, b);
        }
      }
    } else if k > 0 {
      forall b | 0 <= b < k ensures WritesSigmas(p, b) {
        LiveNeverRises(p, b + 1, k);
      }
    }
  }

  lemma LossesFit(p: Pass, k: nat)
    requires Sigmas.InverseShape(p.f.inv) && k <= |p.rows| && ChunksOk(p, k)
    ensures k <= |p.fw| && Layout.RowsFit(p.n, p.rows[..k], LossVals(p, k))
  {
    if k > 0 {
      assert ChunkOk(p, k - 1);
    }
    forall b | 0 <= b < k ensures |LossVals(p, k)[b]| == |p.rows[..k][b]| && Layout.InRange(p.rows[..k][b], p.n) {
      assert ChunkOk(p, b);
    }
  }

  lemma FieldFit(p: Pass, k: nat, field: Field)
    requires Sigmas.InverseShape(p.f.inv) && k <= |p.rows| && ChunksOk(p, k)
    ensures k <= |p.fw| && Layout.RowsFit(FieldRows(p.d, field), p.rows[..k], FieldVals(p, k, field))
  {
    if k > 0 {
      assert ChunkOk(p, k - 1);
    }
    forall b | 0 <= b < k
      ensures |FieldVals(p, k, field)[b]| == |p.rows[..k][b]| && Layout.InRange(p.rows[..k][b], FieldRows(p.d, field))
    {
      assert ChunkOk(p, b);
    }
  }

  lemma SigmasFit(p: Pass, k: nat)
    requires Sigmas.InverseShape(p.f.inv) && k <= |p.rows| && ChunksOk(p, k) && SigmaCount(p.o, p.d).Some?
    ensures LiveCount(p, k) <= |p.fw|
    ensures Layout.RowsFit(SigmaCount(p.o, p.d).value, p.rows[..LiveCount(p, k)], SigmaVals(p, LiveCount(p, k)))
  {
    var c := LiveCount(p, k);
    if k > 0 {
      assert ChunkOk(p, k - 1);
    }
    LiveCountMeaning(p, k);
    forall b | 0 <= b < c
      ensures |SigmaVals(p, c)[b]| == |p.rows[..c][b]| && Layout.InRange(p.rows[..c][b], SigmaCount(p.o, p.d).value)
    {
      assert WritesSigmas(p, b) && ChunkOk(p, b);
    }
  }

  /** `losses` after the first `k` chunks (line 113). */
  function LossesAfter(p: Pass, k: nat): (r: seq<real>)
    requires Sigmas.InverseShape(p.f.inv) && k <= |p.rows| && ChunksOk(p, k)
    ensures |r| == p.n
  {
    if k == 0 then Zeros(p.n)
    else
      assert ChunkOk(p, k - 1);
      Layout.Scattered(LossesAfter(p, k - 1), p.rows[k - 1], p.f.eval(p.fw[k - 1], p.rows[k - 1]).loss)
  }

  /** A `sqdevs` or `fits` array after the first `k` chunks (lines 114-115
      and 119-120). */
  function FieldAfter(p: Pass, k: nat, field: Field): (r: seq<Row>)
    requires Sigmas.InverseShape(p.f.inv) && k <= |p.rows| && ChunksOk(p, k)
    ensures |r| == FieldRows(p.d, field)
  {
    if k == 0 then ZeroRows(FieldRows(p.d, field), FieldWidth(p.d, field))
    else
      assert ChunkOk(p, k - 1);
      Layout.Scattered(FieldAfter(p, k - 1, field), p.rows[k - 1], Pick(p.f.eval(p.fw[k - 1], p.rows[k - 1]), field))
  }

  /** `sigmas` after the first `k` chunks (line 117): a chunk writes only
      while the flag is set. */
  function SigmasAfter(p: Pass, k: nat): (r: seq<Row>)
    requires Sigmas.InverseShape(p.f.inv) && k <= |p.rows| && ChunksOk(p, k) && SigmaCount(p.o, p.d).Some?
    ensures |r| == SigmaCount(p.o, p.d).value
  {
    if k == 0 then ZeroRows(SigmaCount(p.o, p.d).value, p.numParams)
    else
      assert ChunkOk(p, k - 1);
      var before := SigmasAfter(p, k - 1);
      if WritesSigmas(p, k - 1) then Layout.Scattered(before, p.rows[k - 1], SigmasOrEmpty(p, k - 1))
      else before
  }

  lemma LiveStep(p: Pass, b: nat)
    requires b < |p.rows|
    ensures WritesSigmas(p, b) <==> Live(p, b) && b < |p.fw| && p.f.hess(p.fw[b], p.rows[b]).Some?
  {
    if Live(p, b) && b < |p.fw| && p.f.hess(p.fw[b], p.rows[b]).Some? {
      forall c | 0 <= c < b + 1 ensures c < |p.fw| && p.f.hess(p.fw[c], p.rows[c]).Some? {
        if c < b {
          assert c < |p.fw| && p.f.hess(p.fw[c], p.rows[c]).Some?;
        }
      }
      assert Live(p, b + 1);
    }
    if WritesSigmas(p, b) {
      LiveAt(p, b + 1, b);
      LiveNeverRises(p, b, b + 1);
    }
  }

  /** While the flag is set, every earlier chunk's Hessian call returned. */
  lemma LiveAt(p: Pass, k: nat, c: nat)
    requires k <= |p.rows| && Live(p, k) && c < k
    ensures c < |p.fw| && p.f.hess(p.fw[c], p.rows[c]).Some?
  {
  }

  lemma LiveCountStep(p: Pass, b: nat)
    requires b < |p.rows|
    ensures LiveCount(p, b + 1) == if WritesSigmas(p, b) then b + 1 else LiveCount(p, b)
    ensures WritesSigmas(p, b) ==> LiveCount(p, b) == b
  {
    if WritesSigmas(p, b) {
      assert Live(p, b + 1);
      assert LiveCount(p, b + 1) == b + 1;
      if b > 0 {
        LiveNeverRises(p, b, b + 1);
        assert LiveCount(p, b) == b;
      }
    } else {
      assert !Live(p, b + 1);
      assert LiveCount(p, b + 1) == LiveCount(p, b);
    }
  }

  lemma SigmaValsSnoc(p: Pass, b: nat)
    requires Sigmas.InverseShape(p.f.inv) && b < |p.rows| && b < |p.fw|
    ensures SigmaVals(p, b + 1) == SigmaVals(p, b) + [SigmasOrEmpty(p, b)]
  {
    var l, r := SigmaVals(p, b + 1), SigmaVals(p, b) + [SigmasOrEmpty(p, b)];
    assert |l| == |r|;
    forall c | 0 <= c < b + 1 ensures l[c] == r[c] {
      if c < b {
        assert l[c] == SigmasOrEmpty(p, c);
      }
    }
  }

  lemma FieldValsSnoc(p: Pass, b: nat, field: Field)
    requires b < |p.rows| && b < |p.fw|
    ensures FieldVals(p, b + 1, field) == FieldVals(p, b, field) + [Pick(p.f.eval(p.fw[b], p.rows[b]), field)]
  {
    var l, r := FieldVals(p, b + 1, field), FieldVals(p, b, field) + [Pick(p.f.eval(p.fw[b], p.rows[b]), field)];
    assert |l| == |r|;
    forall c | 0 <= c < b + 1 ensures l[c] == r[c] {
      if c < b {
        assert l[c] == Pick(p.f.eval(p.fw[c], p.rows[c]), field);
      }
    }
  }

  /** A chunk that raises makes the whole pass raise. */
  lemma ChunkFails(p: Pass, b: nat)
    requires Sigmas.InverseShape(p.f.inv) && b < |p.rows| && !ChunkOk(p, b)
    ensures !PassOk(p)
  {
  }

  /** `losses` holds every chunk's losses scattered at the chunk's indices. */
  lemma {:induction false} LossesAfterScatter(p: Pass, k: nat)
    requires Sigmas.InverseShape(p.f.inv) && k <= |p.rows| && ChunksOk(p, k)
    ensures k <= |p.fw| && Layout.RowsFit(p.n, p.rows[..k], LossVals(p, k))
    ensures LossesAfter(p, k) == Layout.ScatteredRows(Zeros(p.n), p.rows[..k], LossVals(p, k))
  {
    LossesFit(p, k);
    if k > 0 {
      var b := k - 1;
      var v := p.f.eval(p.fw[b], p.rows[b]).loss;
      assert ChunkOk(p, b);
      LossesAfterScatter(p, b);
      PrefixSnoc(p.rows, b);
      assert LossVals(p, k) == LossVals(p, b) + [v];
      Layout.RowsFitLast(p.n, p.rows[..b], LossVals(p, b), p.rows[b], v);
      Layout.ScatteredRowsSnoc(Zeros(p.n), p.rows[..b], LossVals(p, b), p.rows[b], v);
    }
  }

  /** Chunk `b` scatters its rows of one field onto the array the earlier
      chunks left. */
  lemma FieldStep(p: Pass, b: nat, field: Field)
    requires Sigmas.InverseShape(p.f.inv) && b < |p.rows| && ChunksOk(p, b + 1)
    ensures ChunksOk(p, b) && b < |p.fw|
    ensures var v := Pick(p.f.eval(p.fw[b], p.rows[b]), field);
            |v| == |p.rows[b]| && Layout.InRange(p.rows[b], FieldRows(p.d, field)) &&
            FieldAfter(p, b + 1, field) == Layout.Scattered(FieldAfter(p, b, field), p.rows[b], v)
  {
    assert ChunkOk(p, b);
  }

  /** Each `sqdevs` and `fits` array holds every chunk's rows scattered at
      the chunk's indices. */
  lemma {:induction false} FieldAfterScatter(p: Pass, k: nat, field: Field)
    requires Sigmas.InverseShape(p.f.inv) && k <= |p.rows| && ChunksOk(p, k)
    ensures k <= |p.fw| && Layout.RowsFit(FieldRows(p.d, field), p.rows[..k], FieldVals(p, k, field))
    ensures FieldAfter(p, k, field) ==
      Layout.ScatteredRows(ZeroRows(FieldRows(p.d, field), FieldWidth(p.d, field)), p.rows[..k], FieldVals(p, k, field))
  {
    FieldFit(p, k, field);
    if k > 0 {
      var b := k - 1;
      FieldStep(p, b, field);
      var v := Pick(p.f.eval(p.fw[b], p.rows[b]), field);
      FieldAfterScatter(p, b, field);
      PrefixSnoc(p.rows, b);
      FieldValsSnoc(p, b, field);
      var z := ZeroRows(FieldRows(p.d, field), FieldWidth(p.d, field));
      Layout.ScatterStep(z, p.rows[..b], FieldVals(p, b, field), p.rows[b], v, p.rows[..k], FieldVals(p, k, field),
                         FieldAfter(p, b, field), FieldAfter(p, k, field));
    }
  }

  /** `sigmas` holds the sigmas of exactly the chunks processed while the
      flag was set, scattered at their indices. */
  lemma {:induction false} SigmasAfterScatter(p: Pass, k: nat)
    requires Sigmas.InverseShape(p.f.inv) && k <= |p.rows| && ChunksOk(p, k) && SigmaCount(p.o, p.d).Some?
    ensures LiveCount(p, k) <= |p.fw|
    ensures Layout.RowsFit(SigmaCount(p.o, p.d).value, p.rows[..LiveCount(p, k)], SigmaVals(p, LiveCount(p, k)))
    ensures SigmasAfter(p, k) ==
      Layout.ScatteredRows(ZeroRows(SigmaCount(p.o, p.d).value, p.numParams), p.rows[..LiveCount(p, k)], SigmaVals(p, LiveCount(p, k)))
  {
    SigmasFit(p, k);
    if k > 0 {
      var b := k - 1;
      assert ChunkOk(p, b);
      SigmasAfterScatter(p, b);
      LiveCountStep(p, b);
      if WritesSigmas(p, b) {
        SigmasScatterStep(p, b);
      }
    }
  }

  /** A chunk that writes its sigmas scatters them onto the earlier chunks'. */
  lemma SigmasScatterStep(p: Pass, b: nat)
    requires Sigmas.InverseShape(p.f.inv) && b < |p.rows| && ChunksOk(p, b + 1) && SigmaCount(p.o, p.d).Some?
    requires WritesSigmas(p, b) && b < |p.fw|
    requires Layout.RowsFit(SigmaCount(p.o, p.d).value, p.rows[..b], SigmaVals(p, b))
    requires Layout.RowsFit(SigmaCount(p.o, p.d).value, p.rows[..b + 1], SigmaVals(p, b + 1))
    requires SigmasAfter(p, b) ==
      Layout.ScatteredRows(ZeroRows(SigmaCount(p.o, p.d).value, p.numParams), p.rows[..b], SigmaVals(p, b))
    ensures SigmasAfter(p, b + 1) ==
      Layout.ScatteredRows(ZeroRows(SigmaCount(p.o, p.d).value, p.numParams), p.rows[..b + 1], SigmaVals(p, b + 1))
  {
    var n := SigmaCount(p.o, p.d).value;
    var v := SigmasOrEmpty(p, b);
    PrefixSnoc(p.rows, b);
    SigmaValsSnoc(p, b);
    Layout.RowsFitLast(n, p.rows[..b], SigmaVals(p, b), p.rows[b], v);
    Layout.ScatteredRowsSnoc(ZeroRows(n, p.numParams), p.rows[..b], SigmaVals(p, b), p.rows[b], v);
  }

  /** The contents of the six dense arrays. */
  datatype DenseContents = DenseContents(losses: seq<real>, sqdevEle: seq<Row>, sqdevIon: seq<Row>,
                                         fitsEle: seq<Row>, fitsIon: seq<Row>, sigmas: seq<Row>)

  /** `sigmas` after the first `k` chunks; empty when it is never bound. */
  function SigmasOrUnbound(p: Pass, k: nat): seq<Row>
    requires Sigmas.InverseShape(p.f.inv) && k <= |p.rows| && ChunksOk(p, k)
  {
    if SigmaCount(p.o, p.d).Some? then SigmasAfter(p, k) else []
  }

  /** Every dense array after the first `k` chunks. */
  function After(p: Pass, k: nat): DenseContents
    requires Sigmas.InverseShape(p.f.inv) && k <= |p.rows| && ChunksOk(p, k)
  {
    DenseContents(LossesAfter(p, k), FieldAfter(p, k, SqdevEle), FieldAfter(p, k, SqdevIon),
                  FieldAfter(p, k, FitEle), FieldAfter(p, k, FitIon), SigmasOrUnbound(p, k))
  }

  /** What a pass that raises nothing returns. */
  ghost predicate Outcome(p: Pass, e: Evaluation)
    requires Sigmas.InverseShape(p.f.inv) && PassOk(p)
  {
    DenseContents(e.losses, e.sqdevEle, e.sqdevIon, e.fitsEle, e.fitsIon, e.sigmas) == After(p, |p.rows|) &&
    e.usedPoints == UsedPoints(p)
  }

  /** `used_points` after the loop: the value the last chunk bound. */
  function UsedPoints(p: Pass): real
    requires Sigmas.InverseShape(p.f.inv) && PassOk(p)
  {
    var k := |p.rows|;
    assert ChunkOk(p, k - 1);
    p.f.eval(p.fw[k - 1], p.rows[k - 1]).usedPoints
  }

  /** The results chunk `b` delivers (lines 94-117): `array_loss`'s output,
      and `get_sigmas` of its Hessian when the flag is still set. */
  datatype ChunkResults = ChunkResults(out: ChunkOut, sigmas: Option<Sigmas.Matrix>)

  /** Lines 94-117 for chunk `b` up to the writes: build the batch, evaluate
      it, update the flag and compute the sigmas, raising where the source
      raises. The dense arrays are locals of the function, so whether a write
      happens before an exception is not observable. */
  method EvalChunk(p: Pass, b: nat, flag: bool) returns (r: Result<ChunkResults>, flag': bool)
    requires Sigmas.InverseShape(p.f.inv) && b < |p.rows| && flag == Live(p, b)
    ensures flag' == WritesSigmas(p, b)
    ensures r.Ok? <==> ChunkOk(p, b)
    ensures r.Ok? ==> r.value.out == p.f.eval(p.fw[b], p.rows[b])
    ensures r.Ok? && flag' ==> r.value.sigmas == ChunkSigmas(p, b)
  {
    LiveStep(p, b);
    flag' := flag && b < |p.fw| && p.f.hess(p.fw[b], p.rows[b]).Some?;
    if b >= |p.fw| {
      return Err(IndexError), flag';
    }
    var inds := p.rows[b];
    if !Layout.InRange(inds, p.d.eRows) || !Layout.InRange(inds, p.d.iRows) {
      return Err(IndexError), flag';
    }
    var out := p.f.eval(p.fw[b], inds);
    var h: Option<Sigmas.Hessian> := None;
    if flag {
      h := p.f.hess(p.fw[b], inds);
      assert HessianFlag(flag, h) == flag';
    }
    if !Layout.InRange(inds, p.n) {
      return Err(IndexError), flag';
    }
    if !ShapeOk(out, |inds|, p.d) {
      return Err(ValueError), flag';
    }
    var sig: Option<Sigmas.Matrix> := None;
    if flag' {
      var count := SigmaCount(p.o, p.d);
      if count.None? {
        return Err(NameError), flag';
      }
      var g := Sigmas.GetSigmas(h.value, p.bs, p.f.inv, p.f.sqrt);
      if g.Err? {
        return Err(g.error), flag';
      }
      if !Layout.InRange(inds, count.value) {
        return Err(IndexError), flag';
      }
      if !RowsOfWidth(g.value, |inds|, p.numParams) {
        return Err(ValueError), flag';
      }
      sig := Some(g.value);
    }
    return Ok(ChunkResults(out, sig)), flag';
  }

  /** Line 113: `losses[inds] = loss`. */
  method WriteLosses(p: Pass, b: nat, loss: seq<real>, losses: array<real>)
    requires Sigmas.InverseShape(p.f.inv) && b < |p.rows| && ChunksOk(p, b + 1)
    requires b < |p.fw| && loss == p.f.eval(p.fw[b], p.rows[b]).loss
    requires losses[..] == LossesAfter(p, b)
    modifies losses
    ensures losses[..] == LossesAfter(p, b + 1)
  {
    assert ChunkOk(p, b);
    Layout.ScatterInto(losses, p.rows[b], loss);
  }

  /** Lines 114-115 and 119-120: one `sqdevs` or `fits` array. */
  method WriteField(p: Pass, b: nat, field: Field, vals: seq<Row>, dense: array<Row>)
    requires Sigmas.InverseShape(p.f.inv) && b < |p.rows| && ChunksOk(p, b + 1)
    requires b < |p.fw| && vals == Pick(p.f.eval(p.fw[b], p.rows[b]), field)
    requires dense[..] == FieldAfter(p, b, field)
    modifies dense
    ensures dense[..] == FieldAfter(p, b + 1, field)
  {
    assert ChunkOk(p, b);
    Layout.ScatterInto(dense, p.rows[b], vals);
  }

  /** Line 117: `sigmas[inds] = get_sigmas(hess, batch_size)` while the flag is set. */
  method WriteSigmas(p: Pass, b: nat, flag: bool, vals: seq<Row>, sigmas: array<Row>)
    requires Sigmas.InverseShape(p.f.inv) && b < |p.rows| && ChunksOk(p, b + 1) && SigmaCount(p.o, p.d).Some?
    requires flag == WritesSigmas(p, b) && sigmas[..] == SigmasAfter(p, b)
    requires flag ==> b < |p.fw| && vals == SigmasOrEmpty(p, b)
    modifies sigmas
    ensures sigmas[..] == SigmasAfter(p, b + 1)
  {
    assert ChunkOk(p, b);
    if flag {
      Layout.ScatterInto(sigmas, p.rows[b], vals);
    }
  }

  /** `np.zeros(n)`. */
  method NewZeros(n: nat) returns (a: array<real>)
    ensures fresh(a) && a[..] == Zeros(n)
  {
    a := new real[n](_ => 0.0);
  }

  /** `np.zeros((n, w))`. */
  method NewZeroRows(n: nat, w: nat) returns (a: array<Row>)
    ensures fresh(a) && a[..] == ZeroRows(n, w)
  {
    a := new Row[n](_ => Zeros(w));
  }

  /** The preallocated result arrays of lines 31 and 50-61: `losses`, the
      `sqdevs` and `fits` dictionaries' electron and ion arrays, and
      `sigmas` (of length zero when it is never bound). */
  class Dense {
    const losses: array<real>
    const sqdevEle: array<Row>
    const sqdevIon: array<Row>
    const fitsEle: array<Row>
    const fitsIon: array<Row>
    const sigmas: array<Row>

    ghost predicate Valid() {
      sqdevEle != sqdevIon && sqdevEle != fitsEle && sqdevEle != fitsIon && sqdevEle != sigmas &&
      sqdevIon != fitsEle && sqdevIon != fitsIon && sqdevIon != sigmas &&
      fitsEle != fitsIon && fitsEle != sigmas && fitsIon != sigmas
    }

    function Contents(): DenseContents
      reads losses, sqdevEle, sqdevIon, fitsEle, fitsIon, sigmas
    {
      DenseContents(losses[..], sqdevEle[..], sqdevIon[..], fitsEle[..], fitsIon[..], sigmas[..])
    }

    /** All arrays zero-filled, shaped after the data. */
    constructor (p: Pass)
      requires Sigmas.InverseShape(p.f.inv)
      ensures Valid() && ChunksOk(p, 0) && Contents() == After(p, 0)
      ensures fresh(losses) && fresh(sqdevEle) && fresh(sqdevIon) && fresh(fitsEle) && fresh(fitsIon) && fresh(sigmas)
    {
      var count := SigmaCount(p.o, p.d);
      var l := NewZeros(p.n);
      var se := NewZeroRows(p.d.eRows, p.d.eWidth);
      var si := NewZeroRows(p.d.iRows, p.d.iWidth);
      var fe := NewZeroRows(p.d.eRows, p.d.eWidth);
      var fi := NewZeroRows(p.d.iRows, p.d.iWidth);
      var sg := NewZeroRows(if count.Some? then count.value else 0, p.numParams);
      losses, sqdevEle, sqdevIon, fitsEle, fitsIon, sigmas := l, se, si, fe, fi, sg;
      new;
    }

    /** Lines 113-120 for chunk `b`: every array receives the chunk's
        results at its indices, `sigmas` only while the flag is set. */
    method Write(p: Pass, b: nat, flag: bool, c: ChunkResults)
      requires Sigmas.InverseShape(p.f.inv) && b < |p.rows| && ChunkOk(p, b)
      requires b < |p.fw| && c.out == p.f.eval(p.fw[b], p.rows[b])
      requires flag == WritesSigmas(p, b) && (flag ==> c.sigmas == ChunkSigmas(p, b))
      requires Valid() && ChunksOk(p, b) && Contents() == After(p, b)
      modifies losses, sqdevEle, sqdevIon, fitsEle, fitsIon, sigmas
      ensures ChunksOk(p, b + 1) && Contents() == After(p, b + 1)
    {
      assert ChunksOk(p, b + 1);
      WriteLosses(p, b, c.out.loss, losses);
      WriteField(p, b, SqdevEle, c.out.sqdevEle, sqdevEle);
      WriteField(p, b, SqdevIon, c.out.sqdevIon, sqdevIon);
      if SigmaCount(p.o, p.d).Some? {
        WriteSigmas(p, b, flag, if c.sigmas.Some? then c.sigmas.value else [], sigmas);
      }
      WriteField(p, b, FitEle, c.out.fitEle, fitsEle);
      WriteField(p, b, FitIon, c.out.fitIon, fitsIon);
    }
  }

  /** Lines 92-121: the chunk loop. It stops at the first chunk that raises;
      otherwise every dense array ends `After` the last chunk and `used` is
      the `used_points` of the last chunk. */
  method ChunkLoop(p: Pass, dense: Dense) returns (err: Option<Error>, used: real)
    requires Sigmas.InverseShape(p.f.inv)
    requires dense.Valid() && dense.Contents() == After(p, 0)
    modifies dense.losses, dense.sqdevEle, dense.sqdevIon, dense.fitsEle, dense.fitsIon, dense.sigmas
    ensures err.None? <==> ChunksOk(p, |p.rows|)
    ensures err.None? ==> dense.Contents() == After(p, |p.rows|)
    ensures err.None? && |p.rows| > 0 ==> PassOk(p) || SigmaCount(p.o, p.d).None?
    ensures err.None? && PassOk(p) ==> used == UsedPoints(p)
  {
    var flag := p.calcSigma;
    used := 0.0;
    for b := 0 to |p.rows|
      invariant ChunksOk(p, b) && flag == Live(p, b)
      invariant b > 0 ==> b <= |p.fw| && used == p.f.eval(p.fw[b - 1], p.rows[b - 1]).usedPoints
      invariant dense.Contents() == After(p, b)
    {
      var res, flag' := EvalChunk(p, b, flag);
      if res.Err? {
        ChunkFails(p, b);
        return Some(res.error), used;
      }
      dense.Write(p, b, flag', res.value);
      flag := flag';
      used := res.value.out.usedPoints;
    }
    return None, used;
  }

  /** Lines 50-61 and 92-123: the dense arrays, the chunk loop and the
      returned tuple; `params` is the reconstructed `all_params`. */
  method RunChunks(p: Pass, params: Params) returns (r: Result<Evaluation>)
    requires Sigmas.InverseShape(p.f.inv)
    ensures r.Ok? <==> PassOk(p)
    ensures r.Ok? ==> Outcome(p, r.value) && r.value.params == params
  {
    var dense := new Dense(p);
    var err, used := ChunkLoop(p, dense);
    if err.Some? {
      return Err(err.value);
    }
    if |p.rows| == 0 || SigmaCount(p.o, p.d).None? {
      return Err(NameError);
    }
    var c := dense.Contents();
    return Ok(Evaluation(c.losses, c.sqdevEle, c.sqdevIon, used, c.fitsEle, c.fitsIon, c.sigmas, params));
  }

  /** The `sqdevs` or `fits` array of the returned tuple. */
  function FieldOf(e: Evaluation, field: Field): seq<Row> {
    match field
    case SqdevEle => e.sqdevEle
    case SqdevIon => e.sqdevIon
    case FitEle => e.fitsEle
    case FitIon => e.fitsIon
  }

  /** The returned arrays are `After` the last chunk; this holds by the
      definition of `Outcome`, and `ChunkLoop`'s postcondition is what
      establishes `Outcome`. */
  lemma OutcomeArrays(p: Pass, e: Evaluation, field: Field)
    requires Sigmas.InverseShape(p.f.inv) && PassOk(p) && Outcome(p, e)
    ensures e.losses == LossesAfter(p, |p.rows|)
    ensures FieldOf(e, field) == FieldAfter(p, |p.rows|, field)
    ensures e.sigmas == SigmasAfter(p, |p.rows|)
    ensures |e.losses| == p.n
  {
  }

  /** With distinct sample indices, `losses[rows[b][j]]` is the `j`-th loss
      of chunk `b` (line 113). */
  lemma LossLands(p: Pass, e: Evaluation, b: nat, j: nat)
    requires Sigmas.InverseShape(p.f.inv) && PassOk(p) && Outcome(p, e) && Distinct(Flatten(p.rows))
    requires b < |p.rows| && j < |p.rows[b]|
    ensures b < |p.fw| && p.rows[b][j] < |e.losses| && j < |p.f.eval(p.fw[b], p.rows[b]).loss|
    ensures e.losses[p.rows[b][j]] == p.f.eval(p.fw[b], p.rows[b]).loss[j]
  {
    var k := |p.rows|;
    assert ChunkOk(p, b);
    OutcomeArrays(p, e, SqdevEle);
    LossesAfterScatter(p, k);
    assert p.rows[..k] == p.rows;
    Layout.ScatteredRowsAt(Zeros(p.n), p.rows, LossVals(p, k), b, j);
  }

  /** A position no chunk names keeps its zero. */
  lemma LossUntouched(p: Pass, e: Evaluation, i: nat)
    requires Sigmas.InverseShape(p.f.inv) && PassOk(p) && Outcome(p, e)
    requires i < p.n && i !in Flatten(p.rows)
    ensures i < |e.losses| && e.losses[i] == 0.0
  {
    var k := |p.rows|;
    OutcomeArrays(p, e, SqdevEle);
    LossesAfterScatter(p, k);
    assert p.rows[..k] == p.rows;
    Layout.ScatteredRowsElsewhere(Zeros(p.n), p.rows, LossVals(p, k), i);
  }

  /** With distinct sample indices, row `rows[b][j]` of a `sqdevs` or
      `fits` array is the chunk's `j`-th row (lines 114-115, 119-120). */
  lemma FieldLands(p: Pass, e: Evaluation, field: Field, b: nat, j: nat)
    requires Sigmas.InverseShape(p.f.inv) && PassOk(p) && Outcome(p, e) && Distinct(Flatten(p.rows))
    requires b < |p.rows| && j < |p.rows[b]|
    ensures b < |p.fw| && p.rows[b][j] < |FieldOf(e, field)| && j < |Pick(p.f.eval(p.fw[b], p.rows[b]), field)|
    ensures FieldOf(e, field)[p.rows[b][j]] == Pick(p.f.eval(p.fw[b], p.rows[b]), field)[j]
  {
    var k := |p.rows|;
    assert ChunkOk(p, b);
    OutcomeArrays(p, e, field);
    FieldAfterScatter(p, k, field);
    assert p.rows[..k] == p.rows;
    Layout.ScatteredRowsAt(ZeroRows(FieldRows(p.d, field), FieldWidth(p.d, field)), p.rows, FieldVals(p, k, field), b, j);
  }

  /** A row no chunk names stays a row of zeros of the data's width. */
  lemma FieldUntouched(p: Pass, e: Evaluation, field: Field, i: nat)
    requires Sigmas.InverseShape(p.f.inv) && PassOk(p) && Outcome(p, e)
    requires i < FieldRows(p.d, field) && i !in Flatten(p.rows)
    ensures i < |FieldOf(e, field)| && FieldOf(e, field)[i] == Zeros(FieldWidth(p.d, field))
  {
    var k := |p.rows|;
    OutcomeArrays(p, e, field);
    FieldAfterScatter(p, k, field);
    assert p.rows[..k] == p.rows;
    Layout.ScatteredRowsElsewhere(ZeroRows(FieldRows(p.d, field), FieldWidth(p.d, field)), p.rows, FieldVals(p, k, field), i);
  }

  lemma DistinctPrefix(rows: seq<seq<nat>>, c: nat)
    requires Distinct(Flatten(rows)) && c <= |rows|
    ensures Distinct(Flatten(rows[..c]))
    ensures forall i :: i !in Flatten(rows) ==> i !in Flatten(rows[..c])
  {
    assert rows == rows[..c] + rows[c..];
    FlattenAppend(rows[..c], rows[c..]);
    Layout.DistinctSplit(Flatten(rows[..c]), Flatten(rows[c..]));
  }

  /** A chunk processed while the flag is set leaves its sigmas at its
      indices (line 117). */
  lemma SigmaLands(p: Pass, e: Evaluation, b: nat, j: nat)
    requires Sigmas.InverseShape(p.f.inv) && PassOk(p) && Outcome(p, e) && Distinct(Flatten(p.rows))
    requires b < |p.rows| && j < |p.rows[b]| && WritesSigmas(p, b)
    ensures b < |p.fw| && ChunkSigmas(p, b).Some? && j < |ChunkSigmas(p, b).value| && p.rows[b][j] < |e.sigmas|
    ensures e.sigmas[p.rows[b][j]] == ChunkSigmas(p, b).value[j]
  {
    var k := |p.rows|;
    assert ChunkOk(p, b);
    OutcomeArrays(p, e, SqdevEle);
    SigmasAfterScatter(p, k);
    var c := LiveCount(p, k);
    LiveCountMeaning(p, k);
    DistinctPrefix(p.rows, c);
    Layout.ScatteredRowsAt(ZeroRows(SigmaCount(p.o, p.d).value, p.numParams), p.rows[..c], SigmaVals(p, c), b, j);
  }

  /** Once the flag is cleared, a chunk's positions keep zero sigmas. */
  lemma SigmaSkipped(p: Pass, e: Evaluation, b: nat, j: nat)
    requires Sigmas.InverseShape(p.f.inv) && PassOk(p) && Outcome(p, e) && Distinct(Flatten(p.rows))
    requires b < |p.rows| && j < |p.rows[b]| && !WritesSigmas(p, b) && p.rows[b][j] < |e.sigmas|
    ensures e.sigmas[p.rows[b][j]] == Zeros(p.numParams)
  {
    var k := |p.rows|;
    OutcomeArrays(p, e, SqdevEle);
    SigmasAfterScatter(p, k);
    var c := LiveCount(p, k);
    LiveCountMeaning(p, k);
    assert c <= b;
    Layout.NotInEarlierChunks(p.rows, c, b, j);
    Layout.ScatteredRowsElsewhere(ZeroRows(SigmaCount(p.o, p.d).value, p.numParams), p.rows[..c], SigmaVals(p, c), p.rows[b][j]);
  }

  /** A sigmas row no chunk names stays zero. */
  lemma SigmaUntouched(p: Pass, e: Evaluation, i: nat)
    requires Sigmas.InverseShape(p.f.inv) && PassOk(p) && Outcome(p, e) && Distinct(Flatten(p.rows))
    requires i < |e.sigmas| && i !in Flatten(p.rows)
    ensures e.sigmas[i] == Zeros(p.numParams)
  {
    var k := |p.rows|;
    OutcomeArrays(p, e, SqdevEle);
    SigmasAfterScatter(p, k);
    var c := LiveCount(p, k);
    DistinctPrefix(p.rows, c);
    Layout.ScatteredRowsElsewhere(ZeroRows(SigmaCount(p.o, p.d).value, p.numParams), p.rows[..c], SigmaVals(p, c), i);
  }
}
