// get_sigmas (postprocess.py lines 126-189): for each sample of a batch,
// assemble a square curvature matrix from the [i, i] entry of every Hessian
// block, invert it, and report sign(d) * sqrt(|d|) for each diagonal entry d
// of the inverse.

module Sigmas {
  import opened Base

  type Matrix = seq<seq<real>>

  /** One block `hess[s1][k1][s2][k2]`: `width` is its `shape[1]` (read for the
      diagonal blocks at line 144) and `entries` the squeezed matrix whose
      `[i, i]` entry line 160 reads. */
  datatype Block = Block(width: nat, entries: Matrix)

  /** The nested Hessian dictionary, flattened: `order` lists the (species,
      key) pairs as `for species in hess.keys(): for key in hess[species].keys()`
      visits them, and `blocks` maps a pair of pairs to its block. */
  datatype Hessian = Hessian(order: seq<ParamId>, blocks: map<(ParamId, ParamId), Block>)

  predicate IsSquare(m: Matrix, n: nat) {
    |m| == n && forall r :: 0 <= r < n ==> |m[r]| == n
  }

  /** np.linalg.inv, left abstract: None when it raises LinAlgError; an
      inverse it returns has the size of its argument. */
  ghost predicate InverseShape(inv: Matrix -> Option<Matrix>) {
    forall m :: inv(m).Some? ==> IsSquare(inv(m).value, |m|)
  }

  ghost predicate IsSqrt(sqrt: real -> real) {
    forall x :: 0.0 <= x ==> 0.0 <= sqrt(x) && sqrt(x) * sqrt(x) == x
  }

  function Sign(d: real): real {
    if d < 0.0 then -1.0 else if d > 0.0 then 1.0 else 0.0
  }

  function Abs(d: real): real {
    if d < 0.0 then -d else d
  }

  /** `np.sign(d) * np.sqrt(np.abs(d))` (line 180). */
  function SignedRoot(sqrt: real -> real, d: real): real {
    Sign(d) * sqrt(Abs(d))
  }

  /** A reported sigma is negative exactly when the inverse's diagonal entry
      is, zero exactly when it is, and its square is that entry's magnitude. */
  lemma SignedRootMeaning(sqrt: real -> real, d: real)
    requires IsSqrt(sqrt)
    ensures SignedRoot(sqrt, d) < 0.0 <==> d < 0.0
    ensures SignedRoot(sqrt, d) == 0.0 <==> d == 0.0
    ensures SignedRoot(sqrt, d) * SignedRoot(sqrt, d) == Abs(d)
  {
    var q := sqrt(Abs(d));
    assert 0.0 <= q && q * q == Abs(d);
    if d != 0.0 {
      assert q != 0.0;
    }
  }

  /** The sizes dictionary of lines 143-147 can be built: every diagonal
      block `hess[s][k][s][k]` of the first `a` pairs exists. */
  predicate DiagDefined(h: Hessian, a: nat) {
    a <= |h.order| && forall b :: 0 <= b < a ==> (h.order[b], h.order[b]) in h.blocks
  }

  /** The width of pair `b`: `shape[1]` of its diagonal block (line 144). */
  function Width(h: Hessian, b: nat): nat
    requires b < |h.order| && (h.order[b], h.order[b]) in h.blocks
  {
    h.blocks[(h.order[b], h.order[b])].width
  }

  /** The name line 144 files a pair under: `key + species`. */
  function SizeName(p: ParamId): string {
    p.1 + p.0
  }

  /** `sizes` after the comprehension has visited the first `a` pairs: a
      pair whose name is already present overwrites its width in place. */
  function Sizes(h: Hessian, a: nat): (d: Dict<string, nat>)
    requires DiagDefined(h, a)
    ensures d.Valid()
  {
    if a == 0 then EmptyDict()
    else Sizes(h, a - 1).Put(SizeName(h.order[a - 1]), Width(h, a - 1))
  }

  /** The summed widths filed under the names `ks` (line 149). */
  function SumSizes(d: Dict<string, nat>, ks: seq<string>): nat
    requires forall k :: k in ks ==> k in d.m
  {
    if ks == [] then 0 else SumSizes(d, ks[..|ks| - 1]) + d.m[ks[|ks| - 1]]
  }

  /** `actual_num_params`: the sum over the names of `sizes`. */
  function NumActive(h: Hessian): nat
    requires DiagDefined(h, |h.order|)
  {
    var d := Sizes(h, |h.order|);
    SumSizes(d, d.keys)
  }

  /** The summed widths of the first `a` pairs, one term per pair. */
  function WidthSum(h: Hessian, a: nat): nat
    requires DiagDefined(h, a)
  {
    if a == 0 then 0 else WidthSum(h, a - 1) + Width(h, a - 1)
  }

  /** No two pairs share a name in `sizes`. */
  predicate NamesDistinct(h: Hessian) {
    forall b, c :: 0 <= b < c < |h.order| ==> SizeName(h.order[b]) != SizeName(h.order[c])
  }

  /** Pair `b` is the last of the first `a` pairs filed under its name. */
  predicate LastOfName(h: Hessian, a: nat, b: nat)
    requires b < a <= |h.order|
  {
    forall c :: b < c < a ==> SizeName(h.order[c]) != SizeName(h.order[b])
  }

  /** The names the first `a` pairs are filed under. */
  function NamesOf(h: Hessian, a: nat): (s: set<string>)
    requires a <= |h.order|
    ensures forall b :: 0 <= b < a ==> SizeName(h.order[b]) in s
  {
    if a == 0 then {} else NamesOf(h, a - 1) + {SizeName(h.order[a - 1])}
  }

  /** A name is among those of the first `a` pairs exactly when one of them
      is filed under it. */
  lemma {:induction false} NamesOfMembers(h: Hessian, a: nat, nm: string)
    requires a <= |h.order|
    ensures nm in NamesOf(h, a) <==> exists b :: 0 <= b < a && SizeName(h.order[b]) == nm
  {
    if a > 0 {
      NamesOfMembers(h, a - 1, nm);
      if nm == SizeName(h.order[a - 1]) {
        assert 0 <= a - 1 < a && SizeName(h.order[a - 1]) == nm;
      }
    }
  }

  /** The names of `d` are exactly those of the first `a` pairs, and each
      holds the width of the last pair filed under it. */
  ghost predicate FiledAsVisited(h: Hessian, a: nat, d: Dict<string, nat>)
    requires DiagDefined(h, a)
  {
    d.m.Keys == NamesOf(h, a) &&
    (forall b :: 0 <= b < a && LastOfName(h, a, b) ==> d.m[SizeName(h.order[b])] == Width(h, b))
  }

  /** The names of `sizes` are exactly the visited pairs' names, and each
      holds the width of the last pair filed under it. */
  lemma {:induction false} SizesMembers(h: Hessian, a: nat)
    requires DiagDefined(h, a)
    ensures Sizes(h, a).m.Keys == NamesOf(h, a)
    ensures forall b :: 0 <= b < a && LastOfName(h, a, b) ==> Sizes(h, a).m[SizeName(h.order[b])] == Width(h, b)
  {
    SizesFiled(h, a);
  }

  lemma {:induction false} SizesFiled(h: Hessian, a: nat)
    requires DiagDefined(h, a)
    ensures FiledAsVisited(h, a, Sizes(h, a))
  {
    if a > 0 {
      var a0 := a - 1;
      SizesFiled(h, a0);
      var d := Sizes(h, a0);
      var d' := d.Put(SizeName(h.order[a0]), Width(h, a0));
      assert d' == Sizes(h, a);
      SizesMembersStep(h, a0, a, d, d');
    }
  }

  /** One step of the comprehension, on the dictionaries before and after it. */
  lemma SizesMembersStep(h: Hessian, a0: nat, a: nat, d: Dict<string, nat>, d': Dict<string, nat>)
    requires DiagDefined(h, a) && a == a0 + 1
    requires d'.m == d.m[SizeName(h.order[a0]) := Width(h, a0)]
    requires FiledAsVisited(h, a0, d)
    ensures FiledAsVisited(h, a, d')
  {
    var last := SizeName(h.order[a0]);
    assert d'.m.Keys == d.m.Keys + {last};
    forall b | 0 <= b < a && LastOfName(h, a, b) ensures d'.m[SizeName(h.order[b])] == Width(h, b) {
      var nm := SizeName(h.order[b]);
      if b < a0 {
        assert last != nm;
        assert LastOfName(h, a0, b);
      }
    }
  }

  lemma {:induction false} SumSizesSame(d: Dict<string, nat>, d': Dict<string, nat>, ks: seq<string>)
    requires forall k :: k in ks ==> k in d.m && k in d'.m && d.m[k] == d'.m[k]
    ensures SumSizes(d, ks) == SumSizes(d', ks)
  {
    if ks != [] {
      SumSizesSame(d, d', ks[..|ks| - 1]);
    }
  }

  /** `d` lists the names of the first `a` pairs, in order, and holds their
      widths' sum. */
  ghost predicate ListedInOrder(h: Hessian, a: nat, d: Dict<string, nat>)
    requires DiagDefined(h, a) && d.Valid()
  {
    |d.keys| == a && (forall b :: 0 <= b < a ==> d.keys[b] == SizeName(h.order[b])) &&
    SumSizes(d, d.keys) == WidthSum(h, a)
  }

  /** When no two pairs share a name, `sizes` lists every pair in order and
      `actual_num_params` is the sum of all widths. */
  lemma {:induction false} SizesDistinct(h: Hessian, a: nat)
    requires DiagDefined(h, a) && NamesDistinct(h)
    ensures ListedInOrder(h, a, Sizes(h, a))
  {
    if a > 0 {
      var a0 := a - 1;
      SizesDistinct(h, a0);
      var d := Sizes(h, a0);
      NameFresh(h, a0, d);
      var d' := d.Put(SizeName(h.order[a0]), Width(h, a0));
      assert d' == Sizes(h, a);
      SizesDistinctStep(h, a0, a, d, d');
    }
  }

  lemma SizesDistinctStep(h: Hessian, a0: nat, a: nat, d: Dict<string, nat>, d': Dict<string, nat>)
    requires DiagDefined(h, a) && a == a0 + 1
    requires d.Valid() && SizeName(h.order[a0]) !in d.keys && d' == d.Put(SizeName(h.order[a0]), Width(h, a0))
    requires ListedInOrder(h, a0, d)
    ensures ListedInOrder(h, a, d')
  {
    var nm := SizeName(h.order[a0]);
    assert d'.keys == d.keys + [nm];
    forall b | 0 <= b < a ensures d'.keys[b] == SizeName(h.order[b]) {
      if b < a0 {
        assert d'.keys[b] == d.keys[b];
      }
    }
    assert d'.keys[..|d'.keys| - 1] == d.keys;
    SumSizesSame(d, d', d.keys);
  }

  /** With distinct names, the next pair's name is not yet in `sizes`. */
  lemma NameFresh(h: Hessian, a0: nat, d: Dict<string, nat>)
    requires NamesDistinct(h) && a0 < |h.order|
    requires d.Valid() && DiagDefined(h, a0) && ListedInOrder(h, a0, d)
    ensures SizeName(h.order[a0]) !in d.keys
  {
    forall b | 0 <= b < a0 ensures d.keys[b] != SizeName(h.order[a0]) {
      assert SizeName(h.order[b]) != SizeName(h.order[a0]);
    }
  }

  lemma NumActiveDistinct(h: Hessian)
    requires DiagDefined(h, |h.order|) && NamesDistinct(h)
    ensures NumActive(h) == WidthSum(h, |h.order|)
  {
    SizesDistinct(h, |h.order|);
    assert ListedInOrder(h, |h.order|, Sizes(h, |h.order|));
  }

  /** Two pairs with the same `key + species`, species "a" with key "bc" and
      species "ca" with key "b", share one entry of `sizes`: the later width
      is counted once and the earlier one is lost. */
  lemma NamesCollide()
    ensures var h := Hessian([("a", "bc"), ("ca", "b")],
                             map[(("a", "bc"), ("a", "bc")) := Block(2, []), (("ca", "b"), ("ca", "b")) := Block(3, [])]);
            DiagDefined(h, |h.order|) && NumActive(h) == 3 && WidthSum(h, |h.order|) == 5
  {
    var h := Hessian([("a", "bc"), ("ca", "b")],
                     map[(("a", "bc"), ("a", "bc")) := Block(2, []), (("ca", "b"), ("ca", "b")) := Block(3, [])]);
    assert SizeName(h.order[0]) == "bca" == SizeName(h.order[1]);
    var d1 := Sizes(h, 1);
    assert d1.keys == ["bca"] && d1.m["bca"] == 2;
    var d := Sizes(h, 2);
    assert d.keys == ["bca"] && d.m["bca"] == 3;
    assert d.keys[..0] == [];
    assert NumActive(h) == SumSizes(d, d.keys) == SumSizes(d, []) + 3;
  }

  /** Line 160 can read block (r, c) at `[i, i]`. */
  predicate EntryOk(h: Hessian, i: nat, r: nat, c: nat)
    requires r < |h.order| && c < |h.order|
  {
    var key := (h.order[r], h.order[c]);
    key in h.blocks && i < |h.blocks[key].entries| && i < |h.blocks[key].entries[i]|
  }

  function Entry(h: Hessian, i: nat, r: nat, c: nat): real
    requires r < |h.order| && c < |h.order| && EntryOk(h, i, r, c)
  {
    h.blocks[(h.order[r], h.order[c])].entries[i][i]
  }

  /** Assembling sample `i`'s matrix raises nothing: every block exists and
      has an `[i, i]` entry, and the counters `k1`, `k2` stay inside `temp`. */
  predicate RowOk(h: Hessian, i: nat, n: nat) {
    |h.order| <= n &&
    forall r, c :: 0 <= r < |h.order| && 0 <= c < |h.order| ==> EntryOk(h, i, r, c)
  }

  /** `temp` after lines 153-162: entry `[k1, k2]` is the `[i, i]` entry of the
      `k1`-th/`k2`-th block pair; the counters step by one per pair, so rows
      and columns past the number of pairs keep their zero. */
  function Assembled(h: Hessian, i: nat, n: nat): (m: Matrix)
    requires RowOk(h, i, n)
    ensures IsSquare(m, n)
  {
    seq(n, r => AssembledRow(h, i, n, r))
  }

  /** Row `r` of `temp`. */
  function AssembledRow(h: Hessian, i: nat, n: nat, r: int): (row: seq<real>)
    ensures |row| == n
  {
    seq(n, c => AssembledEntry(h, i, r, c))
  }

  /** Entry `[r, c]` of `temp`: zero past the number of pairs. */
  function AssembledEntry(h: Hessian, i: nat, r: int, c: int): real {
    if 0 <= r < |h.order| && 0 <= c < |h.order| && EntryOk(h, i, r, c) then Entry(h, i, r, c) else 0.0
  }

  /** Row `i` of the result (lines 152-180), or None when one of its steps raises. */
  function SigmaRow(h: Hessian, i: nat, n: nat, inv: Matrix -> Option<Matrix>, sqrt: real -> real): (row: Option<seq<real>>)
    requires InverseShape(inv)
    ensures row.Some? ==> |row.value| == n
  {
    if !RowOk(h, i, n) then None
    else
      var m := inv(Assembled(h, i, n));
      if m.None? then None
      else Some(DiagonalRoots(m.value, n, sqrt))
  }

  /** The signed roots of the diagonal of a square matrix. */
  function DiagonalRoots(d: Matrix, n: nat, sqrt: real -> real): (row: seq<real>)
    requires IsSquare(d, n)
    ensures |row| == n
  {
    seq(n, j requires 0 <= j < n => SignedRoot(sqrt, d[j][j]))
  }

  /** The first `count` rows, or None when one of them raises. */
  function SigmaRows(h: Hessian, count: nat, n: nat, inv: Matrix -> Option<Matrix>, sqrt: real -> real): (rows: Option<Matrix>)
    requires InverseShape(inv)
    ensures rows.Some? ==> |rows.value| == count
  {
    if count == 0 then Some([])
    else
      var rows := SigmaRows(h, count - 1, n, inv, sqrt);
      var row := SigmaRow(h, count - 1, n, inv, sqrt);
      if rows.None? || row.None? then None else Some(rows.value + [row.value])
  }

  /** What `get_sigmas(hess, batch_size)` returns, or None when it raises. */
  function SigmasSpec(h: Hessian, bs: nat, inv: Matrix -> Option<Matrix>, sqrt: real -> real): Option<Matrix>
    requires InverseShape(inv)
  {
    if !DiagDefined(h, |h.order|) then None else SigmaRows(h, bs, NumActive(h), inv, sqrt)
  }

  lemma {:induction false} SigmaRowsFail(h: Hessian, count: nat, more: nat, n: nat, inv: Matrix -> Option<Matrix>, sqrt: real -> real)
    requires InverseShape(inv) && SigmaRows(h, count, n, inv, sqrt).None? && count <= more
    ensures SigmaRows(h, more, n, inv, sqrt).None?
    decreases more
  {
    if more > count {
      SigmaRowsFail(h, count, more - 1, n, inv, sqrt);
    }
  }

  /** When the first `count` rows exist, so do the first `count - 1` and row
      `count - 1`, and the rows are those followed by it. */
  lemma SigmaRowsSnoc(h: Hessian, count: nat, n: nat, inv: Matrix -> Option<Matrix>, sqrt: real -> real)
    requires InverseShape(inv) && count > 0 && SigmaRows(h, count, n, inv, sqrt).Some?
    ensures SigmaRows(h, count - 1, n, inv, sqrt).Some? && SigmaRow(h, count - 1, n, inv, sqrt).Some?
    ensures SigmaRows(h, count, n, inv, sqrt).value ==
            SigmaRows(h, count - 1, n, inv, sqrt).value + [SigmaRow(h, count - 1, n, inv, sqrt).value]
  {
  }

  /** `get_sigmas` returns a `batch_size x actual_num_params` array whose row
      `i` holds the signed roots of the inverse's diagonal for sample `i`. */
  lemma {:induction false} SigmaRowsShape(h: Hessian, count: nat, n: nat, inv: Matrix -> Option<Matrix>, sqrt: real -> real)
    requires InverseShape(inv) && SigmaRows(h, count, n, inv, sqrt).Some?
    ensures |SigmaRows(h, count, n, inv, sqrt).value| == count
    ensures forall i :: 0 <= i < count ==>
      SigmaRow(h, i, n, inv, sqrt).Some? &&
      SigmaRows(h, count, n, inv, sqrt).value[i] == SigmaRow(h, i, n, inv, sqrt).value &&
      |SigmaRows(h, count, n, inv, sqrt).value[i]| == n
    decreases count
  {
    if count > 0 {
      SigmaRowsSnoc(h, count, n, inv, sqrt);
      SigmaRowsShape(h, count - 1, n, inv, sqrt);
      var rows := SigmaRows(h, count - 1, n, inv, sqrt).value;
      var row := SigmaRow(h, count - 1, n, inv, sqrt).value;
      var all := SigmaRows(h, count, n, inv, sqrt).value;
      forall i | 0 <= i < count
        ensures SigmaRow(h, i, n, inv, sqrt).Some? && all[i] == SigmaRow(h, i, n, inv, sqrt).value
      {
        if i < count - 1 {
          assert all[i] == rows[i];
        } else {
          assert i == count - 1 && all[i] == row;
        }
      }
    }
  }

  /** Each reported sigma has the sign of the inverse's diagonal entry and
      squares to its magnitude. */
  lemma SigmaSigns(h: Hessian, i: nat, n: nat, inv: Matrix -> Option<Matrix>, sqrt: real -> real, j: nat)
    requires InverseShape(inv) && IsSqrt(sqrt) && SigmaRow(h, i, n, inv, sqrt).Some? && j < n
    ensures RowOk(h, i, n) && inv(Assembled(h, i, n)).Some?
    ensures
      var sigma := SigmaRow(h, i, n, inv, sqrt).value[j];
      var d := inv(Assembled(h, i, n)).value[j][j];
      (sigma < 0.0 <==> d < 0.0) && (sigma == 0.0 <==> d == 0.0) && sigma * sigma == Abs(d)
  {
    SignedRootMeaning(sqrt, inv(Assembled(h, i, n)).value[j][j]);
  }

  /** Entry `[k1, k2]` of sample `i`'s matrix is the `[i, i]` entry of the
      `k1`-th/`k2`-th block pair in key order; the rows and columns past the
      number of pairs are zero. */
  lemma AssembledAt(h: Hessian, i: nat, n: nat, k1: nat, k2: nat)
    requires RowOk(h, i, n) && k1 < n && k2 < n
    ensures k1 < |h.order| && k2 < |h.order| ==>
              EntryOk(h, i, k1, k2) &&
              Assembled(h, i, n)[k1][k2] == h.blocks[(h.order[k1], h.order[k2])].entries[i][i]
    ensures !(k1 < |h.order| && k2 < |h.order|) ==> Assembled(h, i, n)[k1][k2] == 0.0
  {
  }

  /** What `get_sigmas` returns when it raises nothing: `batch_size` rows of
      `actual_num_params` sigmas, row `i` the signed roots of the diagonal of
      the inverse of sample `i`'s assembled matrix. */
  lemma SigmasShape(h: Hessian, bs: nat, inv: Matrix -> Option<Matrix>, sqrt: real -> real)
    requires InverseShape(inv) && SigmasSpec(h, bs, inv, sqrt).Some?
    ensures DiagDefined(h, |h.order|) && |SigmasSpec(h, bs, inv, sqrt).value| == bs
    ensures forall i :: 0 <= i < bs ==>
      var n := NumActive(h);
      RowOk(h, i, n) && inv(Assembled(h, i, n)).Some? &&
      SigmasSpec(h, bs, inv, sqrt).value[i] == DiagonalRoots(inv(Assembled(h, i, n)).value, n, sqrt) &&
      |SigmasSpec(h, bs, inv, sqrt).value[i]| == n
  {
    var n := NumActive(h);
    SigmaRowsShape(h, bs, n, inv, sqrt);
    forall i | 0 <= i < bs
      ensures RowOk(h, i, n) && inv(Assembled(h, i, n)).Some? &&
              SigmasSpec(h, bs, inv, sqrt).value[i] == DiagonalRoots(inv(Assembled(h, i, n)).value, n, sqrt)
    {
      assert SigmaRow(h, i, n, inv, sqrt).Some?;
    }
  }

  /** Two blocks of the same width whose entries `[i, i]` of the batch exist
      in both or in neither, with the same values. */
  predicate SameBlockDiagonal(b: Block, b': Block, bs: nat) {
    b.width == b'.width &&
    forall i :: 0 <= i < bs ==>
      (i < |b.entries| && i < |b.entries[i]| <==> i < |b'.entries| && i < |b'.entries[i]|) &&
      (i < |b.entries| && i < |b.entries[i]| ==> b.entries[i][i] == b'.entries[i][i])
  }

  /** Two Hessians that agree on the pair order, on which blocks exist, on
      the diagonal blocks' widths, on the block shapes and on every entry
      `[i, i]` of the batch: they may differ anywhere off the diagonal. */
  ghost predicate SameDiagonals(h: Hessian, h': Hessian, bs: nat) {
    h.order == h'.order && h.blocks.Keys == h'.blocks.Keys &&
    (forall key :: key in h.blocks ==> SameBlockDiagonal(h.blocks[key], h'.blocks[key], bs))
  }

  /** Hessians with the same diagonals file the same widths in `sizes`. */
  lemma {:induction false} SizesSame(h: Hessian, h': Hessian, bs: nat, a: nat)
    requires SameDiagonals(h, h', bs) && DiagDefined(h, a)
    ensures DiagDefined(h', a) && Sizes(h, a) == Sizes(h', a)
  {
    if a > 0 {
      SizesSame(h, h', bs, a - 1);
    }
  }

  lemma AssembledSame(h: Hessian, h': Hessian, bs: nat, i: nat, n: nat)
    requires SameDiagonals(h, h', bs) && i < bs
    ensures RowOk(h, i, n) <==> RowOk(h', i, n)
    ensures RowOk(h, i, n) ==> Assembled(h, i, n) == Assembled(h', i, n)
  {
    if RowOk(h, i, n) {
      forall r, c | 0 <= r < |h.order| && 0 <= c < |h.order|
        ensures EntryOk(h', i, r, c) && Entry(h, i, r, c) == Entry(h', i, r, c)
      {
        assert EntryOk(h, i, r, c);
      }
      forall r | 0 <= r < n ensures Assembled(h, i, n)[r] == Assembled(h', i, n)[r] {
        assert forall c :: 0 <= c < n ==> Assembled(h, i, n)[r][c] == Assembled(h', i, n)[r][c];
      }
    }
    if RowOk(h', i, n) {
      forall r, c | 0 <= r < |h.order| && 0 <= c < |h.order| ensures EntryOk(h, i, r, c) {
        assert EntryOk(h', i, r, c);
        var key := (h.order[r], h.order[c]);
        assert key in h'.blocks.Keys;
        assert SameBlockDiagonal(h.blocks[key], h'.blocks[key], bs);
      }
    }
  }

  lemma SigmaRowsSame(h: Hessian, h': Hessian, bs: nat, count: nat, n: nat,
                      inv: Matrix -> Option<Matrix>, sqrt: real -> real)
    requires InverseShape(inv) && SameDiagonals(h, h', bs) && count <= bs
    ensures SigmaRows(h, count, n, inv, sqrt) == SigmaRows(h', count, n, inv, sqrt)
  {
    forall i | 0 <= i < count ensures SigmaRow(h, i, n, inv, sqrt) == SigmaRow(h', i, n, inv, sqrt) {
      SigmaRowSame(h, h', bs, i, n, inv, sqrt);
    }
    SigmaRowsEq(h, h', count, n, inv, sqrt);
  }

  /** Hessians whose first `count` rows agree give the same rows. */
  lemma {:induction false} SigmaRowsEq(h: Hessian, h': Hessian, count: nat, n: nat,
                                       inv: Matrix -> Option<Matrix>, sqrt: real -> real)
    requires InverseShape(inv)
    requires forall i :: 0 <= i < count ==> SigmaRow(h, i, n, inv, sqrt) == SigmaRow(h', i, n, inv, sqrt)
    ensures SigmaRows(h, count, n, inv, sqrt) == SigmaRows(h', count, n, inv, sqrt)
  {
    if count > 0 {
      SigmaRowsEq(h, h', count - 1, n, inv, sqrt);
    }
  }

  lemma SigmaRowSame(h: Hessian, h': Hessian, bs: nat, i: nat, n: nat, inv: Matrix -> Option<Matrix>, sqrt: real -> real)
    requires InverseShape(inv) && SameDiagonals(h, h', bs) && i < bs
    ensures SigmaRow(h, i, n, inv, sqrt) == SigmaRow(h', i, n, inv, sqrt)
  {
    AssembledSame(h, h', bs, i, n);
  }

  /** Cross-sample entries of the blocks are never read: changing them leaves
      the result of `get_sigmas` unchanged. */
  lemma OffDiagonalIgnored(h: Hessian, h': Hessian, bs: nat, inv: Matrix -> Option<Matrix>, sqrt: real -> real)
    requires InverseShape(inv) && SameDiagonals(h, h', bs)
    ensures SigmasSpec(h, bs, inv, sqrt) == SigmasSpec(h', bs, inv, sqrt)
  {
    assert DiagDefined(h, |h.order|) <==> DiagDefined(h', |h'.order|);
    if DiagDefined(h, |h.order|) {
      SizesSame(h, h', bs, |h.order|);
      SigmaRowsSame(h, h', bs, bs, NumActive(h), inv, sqrt);
    }
  }

  function Snapshot(a: array2<real>): (m: Matrix)
    reads a
    ensures |m| == a.Length0 && forall r :: 0 <= r < a.Length0 ==> |m[r]| == a.Length1
  {
    seq(a.Length0, r requires 0 <= r < a.Length0 reads a =>
      seq(a.Length1, c requires 0 <= c < a.Length1 reads a => a[r, c]))
  }

  /** Lines 143-149: `sizes` files each pair's width under `key + species`,
      a later pair overwriting an earlier one of the same name, and the
      widths it holds are summed; KeyError when a diagonal block is missing. */
  method CountParams(h: Hessian) returns (r: Result<nat>)
    ensures r.Ok? <==> DiagDefined(h, |h.order|)
    ensures r.Ok? ==> r.value == NumActive(h)
  {
    var sizes: Dict<string, nat> := EmptyDict();
    for a := 0 to |h.order|
      invariant DiagDefined(h, a) && sizes == Sizes(h, a)
    {
      var p := h.order[a];
      if (p, p) !in h.blocks {
        return Err(KeyError);
      }
      sizes := sizes.Put(p.1 + p.0, h.blocks[(p, p)].width);
    }
    var n := SumValues(sizes);
    return Ok(n);
  }

  /** Line 149: the widths `sizes` holds, summed in key order. */
  method SumValues(sizes: Dict<string, nat>) returns (n: nat)
    requires sizes.Valid()
    ensures n == SumSizes(sizes, sizes.keys)
  {
    n := 0;
    for j := 0 to |sizes.keys|
      invariant n == SumSizes(sizes, sizes.keys[..j])
    {
      assert sizes.keys[..j + 1][..j] == sizes.keys[..j];
      n := n + sizes.m[sizes.keys[j]];
    }
    assert sizes.keys[..|sizes.keys|] == sizes.keys;
  }

  /** Lines 155-162 for row `a` of sample `i`'s `temp`: one entry per pair,
      with `k1 == a` and `k2` counting the pairs. */
  method FillRow(h: Hessian, i: nat, temp: array2<real>, a: nat) returns (e: Option<Error>)
    requires temp.Length0 == temp.Length1 && a < |h.order|
    modifies temp
    ensures e.None? <==> a < temp.Length0 && |h.order| <= temp.Length1 &&
                         forall c :: 0 <= c < |h.order| ==> EntryOk(h, i, a, c)
    ensures e.None? ==> forall r, c :: 0 <= r < temp.Length0 && 0 <= c < temp.Length1 ==>
      temp[r, c] == if r == a && c < |h.order| then Entry(h, i, r, c) else old(temp[r, c])
  {
    var n := temp.Length0;
    var k1 := a;
    var k2 := 0;
    for c := 0 to |h.order|
      invariant k2 == c <= n
      invariant forall c' :: 0 <= c' < c ==> a < n && EntryOk(h, i, a, c')
      invariant forall r, c' :: 0 <= r < n && 0 <= c' < n ==>
        temp[r, c'] == if r == a && c' < c then Entry(h, i, r, c') else old(temp[r, c'])
    {
      var key := (h.order[a], h.order[c]);
      if key !in h.blocks {
        assert !EntryOk(h, i, a, c);
        return Some(KeyError);
      }
      var entries := h.blocks[key].entries;
      if i >= |entries| || i >= |entries[i]| {
        assert !EntryOk(h, i, a, c);
        return Some(IndexError);
      }
      if k1 >= n || k2 >= n {
        return Some(IndexError);
      }
      temp[k1, k2] := entries[i][i];
      k2 := k2 + 1;
    }
    assert a < n && EntryOk(h, i, a, 0);
    return None;
  }

  /** Lines 153-162 for sample `i`: `temp` filled pair by pair. */
  method Assemble(h: Hessian, i: nat, n: nat) returns (r: Result<Matrix>)
    ensures r.Ok? <==> RowOk(h, i, n)
    ensures r.Ok? ==> r.value == Assembled(h, i, n)
  {
    var temp := new real[n, n]((_, _) => 0.0);
    var p := |h.order|;
    for a := 0 to p
      invariant a > 0 ==> p <= n
      invariant forall r, c :: 0 <= r < a && 0 <= c < p ==> EntryOk(h, i, r, c)
      invariant forall r, c :: 0 <= r < n && 0 <= c < n ==>
        temp[r, c] == if r < a && c < p then Entry(h, i, r, c) else 0.0
    {
      var e := FillRow(h, i, temp, a);
      if e.Some? {
        return Err(e.value);
      }
    }
    var m := Snapshot(temp);
    forall r | 0 <= r < n ensures m[r] == Assembled(h, i, n)[r] {
      assert forall c :: 0 <= c < n ==> m[r][c] == Assembled(h, i, n)[r][c];
    }
    return Ok(m);
  }

  /** Line 180 for row `i`: the signed roots of the inverse's diagonal. */
  method WriteSigmaRow(sigmas: array2<real>, i: nat, d: Matrix, sqrt: real -> real)
    requires i < sigmas.Length0 && IsSquare(d, sigmas.Length1)
    modifies sigmas
    ensures Snapshot(sigmas) == old(Snapshot(sigmas))[i := DiagonalRoots(d, sigmas.Length1, sqrt)]
  {
    var n := sigmas.Length1;
    ghost var before := Snapshot(sigmas);
    for j := 0 to n
      invariant forall r, c :: 0 <= r < sigmas.Length0 && 0 <= c < n ==>
        sigmas[r, c] == if r == i && c < j then SignedRoot(sqrt, d[c][c]) else before[r][c]
    {
      sigmas[i, j] := SignedRoot(sqrt, d[j][j]);
    }
    ghost var row := DiagonalRoots(d, n, sqrt);
    forall r | 0 <= r < sigmas.Length0 ensures Snapshot(sigmas)[r] == before[i := row][r] {
      assert forall c :: 0 <= c < n ==> Snapshot(sigmas)[r][c] == before[i := row][r][c];
    }
  }

  /** Lines 153-165 for sample `i`: the inverse of its assembled matrix. */
  method InvertAssembled(h: Hessian, i: nat, n: nat, inv: Matrix -> Option<Matrix>) returns (r: Result<Matrix>)
    requires InverseShape(inv)
    ensures r.Ok? <==> RowOk(h, i, n) && inv(Assembled(h, i, n)).Some?
    ensures r.Ok? ==> r.value == inv(Assembled(h, i, n)).value && IsSquare(r.value, n)
  {
    var temp := Assemble(h, i, n);
    if temp.Err? {
      return Err(temp.error);
    }
    var m := inv(temp.value);
    if m.None? {
      return Err(LinAlgError);
    }
    return Ok(m.value);
  }

  lemma SigmaRowsStep(h: Hessian, i: nat, n: nat, inv: Matrix -> Option<Matrix>, sqrt: real -> real,
                      before: Matrix, after: Matrix)
    requires InverseShape(inv) && RowOk(h, i, n) && inv(Assembled(h, i, n)).Some?
    requires SigmaRows(h, i, n, inv, sqrt).Some? && i < |before| && before[..i] == SigmaRows(h, i, n, inv, sqrt).value
    requires after == before[i := DiagonalRoots(inv(Assembled(h, i, n)).value, n, sqrt)]
    ensures SigmaRows(h, i + 1, n, inv, sqrt).Some? && after[..i + 1] == SigmaRows(h, i + 1, n, inv, sqrt).value
  {
    assert after[..i + 1] == before[..i] + [after[i]];
  }

  /** `get_sigmas(hess, batch_size)`: the signed per-parameter uncertainty of
      every sample of the batch, or the exception it raises. */
  method GetSigmas(h: Hessian, bs: nat, inv: Matrix -> Option<Matrix>, sqrt: real -> real) returns (r: Result<Matrix>)
    requires InverseShape(inv)
    ensures r.Ok? <==> SigmasSpec(h, bs, inv, sqrt).Some?
    ensures r.Ok? ==> r.value == SigmasSpec(h, bs, inv, sqrt).value
  {
    var count := CountParams(h);
    if count.Err? {
      return Err(count.error);
    }
    r := SampleSigmas(h, bs, count.value, inv, sqrt);
  }

  /** Lines 151-180: one row of sigmas per sample, written into the
      `batch_size x n` array of zeros. */
  method SampleSigmas(h: Hessian, bs: nat, n: nat, inv: Matrix -> Option<Matrix>, sqrt: real -> real) returns (r: Result<Matrix>)
    requires InverseShape(inv)
    ensures r.Ok? <==> SigmaRows(h, bs, n, inv, sqrt).Some?
    ensures r.Ok? ==> r.value == SigmaRows(h, bs, n, inv, sqrt).value
  {
    var sigmas := new real[bs, n]((_, _) => 0.0);
    for i := 0 to bs
      invariant SigmaRows(h, i, n, inv, sqrt).Some?
      invariant Snapshot(sigmas)[..i] == SigmaRows(h, i, n, inv, sqrt).value
    {
      var d := InvertAssembled(h, i, n, inv);
      if d.Err? {
        SigmaRowsFail(h, i + 1, bs, n, inv, sqrt);
        return Err(d.error);
      }
      ghost var before := Snapshot(sigmas);
      WriteSigmaRow(sigmas, i, d.value, sqrt);
      SigmaRowsStep(h, i, n, inv, sqrt, before, Snapshot(sigmas));
    }
    assert Snapshot(sigmas) == Snapshot(sigmas)[..bs];
    return Ok(Snapshot(sigmas));
  }
}
