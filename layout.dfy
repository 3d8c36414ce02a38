// Chunk layout of recalculate_with_chosen_weights: the in-place sort of the
// sample indices, their reshape into rows of `batch_size`, and the scatter of
// each chunk's results into dense per-sample arrays at the chunk's indices.

module Layout {
  import opened Base

  predicate Sorted(s: seq<nat>) {
    forall i, j :: 0 <= i < j < |s| ==> s[i] <= s[j]
  }

  function Insert(x: nat, s: seq<nat>): (r: seq<nat>)
    ensures |r| == |s| + 1
  {
    if s == [] then [x] else if x <= s[0] then [x] + s else [s[0]] + Insert(x, s[1..])
  }

  /** The ascending arrangement of `s` (what ndarray.sort leaves in the array). */
  function SortSeq(s: seq<nat>): (r: seq<nat>)
    ensures |r| == |s|
  {
    if s == [] then [] else Insert(s[0], SortSeq(s[1..]))
  }

  lemma SortedCons(h: nat, t: seq<nat>)
    requires Sorted(t) && forall k :: 0 <= k < |t| ==> h <= t[k]
    ensures Sorted([h] + t)
  {
    forall i, j | 0 <= i < j < |[h] + t| ensures ([h] + t)[i] <= ([h] + t)[j] {
      if i > 0 { assert ([h] + t)[i] == t[i - 1]; }
      assert ([h] + t)[j] == t[j - 1];
    }
  }

  lemma {:induction false} InsertBound(x: nat, s: seq<nat>, h: nat)
    requires h <= x && forall k :: 0 <= k < |s| ==> h <= s[k]
    ensures forall k :: 0 <= k < |Insert(x, s)| ==> h <= Insert(x, s)[k]
  {
    if s != [] && x > s[0] {
      InsertBound(x, s[1..], h);
    }
  }

  lemma {:induction false} InsertSorted(x: nat, s: seq<nat>)
    requires Sorted(s)
    ensures Sorted(Insert(x, s))
  {
    if s == [] {
    } else if x <= s[0] {
      SortedCons(x, s);
    } else {
      InsertSorted(x, s[1..]);
      InsertBound(x, s[1..], s[0]);
      SortedCons(s[0], Insert(x, s[1..]));
    }
  }

  lemma {:induction false} InsertMultiset(x: nat, s: seq<nat>)
    ensures multiset(Insert(x, s)) == multiset{x} + multiset(s)
  {
    if s != [] && x > s[0] {
      InsertMultiset(x, s[1..]);
      assert s == [s[0]] + s[1..];
    }
  }

  lemma {:induction false} SortSeqSorted(s: seq<nat>)
    ensures Sorted(SortSeq(s))
    ensures multiset(SortSeq(s)) == multiset(s)
  {
    if s != [] {
      SortSeqSorted(s[1..]);
      InsertSorted(s[0], SortSeq(s[1..]));
      InsertMultiset(s[0], SortSeq(s[1..]));
      assert s == [s[0]] + s[1..];
    }
  }

  lemma MultisetTail(t: seq<nat>)
    requires t != []
    ensures multiset(t[1..]) == multiset(t) - multiset{t[0]}
  {
    assert t == [t[0]] + t[1..];
  }

  lemma HeadIsLeast(t: seq<nat>, x: nat)
    requires Sorted(t) && x in multiset(t)
    ensures t[0] <= x
  {
    var i :| 0 <= i < |t| && t[i] == x;
  }

  /** Two ascending sequences with the same elements are the same sequence, so
      the sorted array does not depend on the algorithm numpy uses. */
  lemma {:induction false} SortedUnique(t: seq<nat>, u: seq<nat>)
    requires Sorted(t) && Sorted(u) && multiset(t) == multiset(u)
    ensures t == u
  {
    assert |t| == |multiset(t)| == |multiset(u)| == |u|;
    if t != [] {
      assert t[0] in multiset(t) && u[0] in multiset(u);
      HeadIsLeast(u, t[0]);
      HeadIsLeast(t, u[0]);
      MultisetTail(t);
      MultisetTail(u);
      SortedTail(t);
      SortedTail(u);
      SortedUnique(t[1..], u[1..]);
      SameHeadTail(t, u);
    }
  }

  lemma SortedTail(t: seq<nat>)
    requires Sorted(t) && t != []
    ensures Sorted(t[1..])
  {
    forall i, j | 0 <= i < j < |t| - 1 ensures t[1..][i] <= t[1..][j] {
      assert t[1..][i] == t[i + 1] && t[1..][j] == t[j + 1];
    }
  }

  lemma SameHeadTail(t: seq<nat>, u: seq<nat>)
    requires t != [] && u != [] && t[0] == u[0] && t[1..] == u[1..]
    ensures t == u
  {
    assert t == [t[0]] + t[1..] && u == [u[0]] + u[1..];
  }

  lemma DistinctByMultiset(s: seq<nat>, t: seq<nat>)
    requires Distinct(s) && multiset(s) == multiset(t)
    ensures Distinct(t)
  {
    forall i, j | 0 <= i < j < |t| ensures t[i] != t[j] {
      OccursOnce(s, t[i]);
      RepeatCounts(t, i, j);
    }
  }

  lemma RepeatCounts(t: seq<nat>, i: nat, j: nat)
    requires i < j < |t|
    ensures t[i] == t[j] ==> multiset(t)[t[i]] >= 2
  {
    assert t == t[..i] + [t[i]] + t[i + 1..j] + [t[j]] + t[j + 1..];
  }

  lemma {:induction false} OccursOnce(s: seq<nat>, x: nat)
    requires Distinct(s)
    ensures multiset(s)[x] <= 1
  {
    if s != [] {
      assert s == [s[0]] + s[1..];
      OccursOnce(s[1..], x);
      if s[0] == x {
        forall m | 0 <= m < |s[1..]| ensures s[1..][m] != x {
          assert s[m + 1] != s[0];
        }
        assert x !in multiset(s[1..]);
      }
    }
  }

  /** `ndarray.sort()`: sorts the caller's array in place. */
  method SortInPlace(a: array<nat>)
    modifies a
    ensures a[..] == SortSeq(old(a[..]))
    ensures Sorted(a[..]) && multiset(a[..]) == multiset(old(a[..]))
  {
    var s := SortSeq(a[..]);
    SortSeqSorted(a[..]);
    for k := 0 to a.Length
      invariant a[..k] == s[..k]
      invariant multiset(s) == multiset(old(a[..]))
    {
      a[k] := s[k];
      assert a[..k + 1] == a[..k] + [a[k]];
    }
    assert a[..] == a[..a.Length];
  }

  /** The rows of `np.reshape(s, (-1, bs))` for a length that `bs` divides. */
  function Rows<T>(s: seq<T>, bs: nat): seq<seq<T>>
    requires bs > 0 && |s| % bs == 0
    decreases |s|
  {
    if |s| == 0 then []
    else
      SubDivisible(|s|, bs);
      [s[..bs]] + Rows(s[bs..], bs)
  }

  lemma MulStep(k: int, bs: int)
    ensures (k + 1) * bs == k * bs + bs
  {
  }

  lemma MulAtLeast(d: int, bs: int)
    requires bs > 0 && d >= 1
    ensures d * bs >= bs
  {
    var k := d - 1;
    assert d * bs == k * bs + bs;
    assert k * bs >= 0;
  }

  /** Euclidean division is determined by quotient and remainder. */
  lemma DivUnique(m: int, bs: int, q: int, r: int)
    requires bs > 0 && m == q * bs + r && 0 <= r < bs
    ensures m / bs == q && m % bs == r
  {
    var q', r' := m / bs, m % bs;
    assert m == q' * bs + r';
    var d := q - q';
    assert d * bs == r' - r;
    if d >= 1 { MulAtLeast(d, bs); }
    else if d <= -1 { MulAtLeast(-d, bs); }
  }

  lemma SubDivisible(n: nat, bs: nat)
    requires bs > 0 && n % bs == 0 && n > 0
    ensures n >= bs && (n - bs) % bs == 0 && (n - bs) / bs == n / bs - 1
  {
    var q := n / bs;
    assert n == q * bs;
    assert n - bs == (q - 1) * bs;
    MulAtLeast(q, bs);
    DivUnique(n - bs, bs, q - 1, 0);
  }

  /** `np.reshape(s, (-1, bs))`: numpy refuses a width that is not positive or
      that does not divide the number of elements. */
  function Reshape<T>(s: seq<T>, bs: int): (r: Result<seq<seq<T>>>)
    ensures r.Ok? <==> bs > 0 && |s| % bs == 0
    ensures r.Err? ==> r.error == ValueError
  {
    if bs > 0 && |s| % bs == 0 then Ok(Rows(s, bs)) else Err(ValueError)
  }

  /** Row `b` of the reshape holds exactly positions `b*bs .. b*bs+bs-1`. */
  lemma {:induction false} RowsAt<T>(s: seq<T>, bs: nat, b: nat)
    requires bs > 0 && |s| % bs == 0
    ensures |Rows(s, bs)| == |s| / bs
    ensures b < |s| / bs ==> b * bs + bs <= |s| && Rows(s, bs)[b] == s[b * bs .. b * bs + bs]
    decreases |s|
  {
    if |s| > 0 {
      SubDivisible(|s|, bs);
      var rest := s[bs..];
      RowsAt(rest, bs, if b > 0 then b - 1 else 0);
      if 0 < b < |s| / bs {
        MulStep(b - 1, bs);
        assert rest[(b - 1) * bs .. (b - 1) * bs + bs] == s[b * bs .. b * bs + bs];
      }
    }
  }

  /** Round trip: flattening the reshaped rows gives back the sequence. */
  lemma {:induction false} RowsFlatten<T>(s: seq<T>, bs: nat)
    requires bs > 0 && |s| % bs == 0
    ensures Flatten(Rows(s, bs)) == s
    decreases |s|
  {
    if |s| > 0 {
      SubDivisible(|s|, bs);
      RowsFlatten(s[bs..], bs);
      FlattenCons(s[..bs], Rows(s[bs..], bs));
      assert s == s[..bs] + s[bs..];
    }
  }

  lemma RowsWidth<T>(s: seq<T>, bs: nat)
    requires bs > 0 && |s| % bs == 0
    ensures forall b :: 0 <= b < |Rows(s, bs)| ==> |Rows(s, bs)[b]| == bs
  {
    forall b | 0 <= b < |Rows(s, bs)| ensures |Rows(s, bs)[b]| == bs {
      RowsAt(s, bs, b);
    }
  }

  /** Reshaping arrays of `bs` values laid end to end gives the arrays back. */
  lemma {:induction false} FlattenRows<T>(xs: seq<seq<T>>, bs: nat)
    requires bs > 0 && forall i :: 0 <= i < |xs| ==> |xs[i]| == bs
    ensures |Flatten(xs)| == |xs| * bs && |Flatten(xs)| % bs == 0
    ensures Rows(Flatten(xs), bs) == xs
  {
    if xs == [] {
      assert |Flatten(xs)| == 0 == 0 * bs;
    } else {
      var rest := xs[1..];
      FlattenRows(rest, bs);
      assert xs == [xs[0]] + rest;
      FlattenCons(xs[0], rest);
      var f := Flatten(xs);
      MulStep(|rest|, bs);
      assert |f| == bs + |rest| * bs;
      DivUnique(|f|, bs, |xs|, 0);
      assert f[..bs] == xs[0] && f[bs..] == Flatten(rest);
    }
  }

  predicate InRange(inds: seq<nat>, n: nat) {
    forall j :: 0 <= j < |inds| ==> inds[j] < n
  }

  /** `a[inds] = vals` on a numpy array: the writes happen in index order, so
      of two writes to one position the later one stays. */
  function Scattered<T>(a: seq<T>, inds: seq<nat>, vals: seq<T>): (r: seq<T>)
    requires |vals| == |inds| && InRange(inds, |a|)
    ensures |r| == |a|
  {
    if inds == [] then a
    else Scattered(a, inds[..|inds| - 1], vals[..|vals| - 1])[inds[|inds| - 1] := vals[|vals| - 1]]
  }

  /** With distinct indices, position `inds[j]` receives `vals[j]`. */
  lemma {:induction false} ScatteredAt<T>(a: seq<T>, inds: seq<nat>, vals: seq<T>, j: nat)
    requires |vals| == |inds| && InRange(inds, |a|) && Distinct(inds) && j < |inds|
    ensures Scattered(a, inds, vals)[inds[j]] == vals[j]
  {
    var n := |inds| - 1;
    if j < n {
      ScatteredAt(a, inds[..n], vals[..n], j);
    }
  }

  /** A position no index names keeps its old value. */
  lemma {:induction false} ScatteredElsewhere<T>(a: seq<T>, inds: seq<nat>, vals: seq<T>, p: nat)
    requires |vals| == |inds| && InRange(inds, |a|) && p < |a| && p !in inds
    ensures Scattered(a, inds, vals)[p] == a[p]
  {
    if inds != [] {
      var n := |inds| - 1;
      assert p != inds[n];
      assert p !in inds[..n];
      ScatteredElsewhere(a, inds[..n], vals[..n], p);
    }
  }

  method ScatterInto<T>(a: array<T>, inds: seq<nat>, vals: seq<T>)
    requires |vals| == |inds| && InRange(inds, a.Length)
    modifies a
    ensures a[..] == Scattered(old(a[..]), inds, vals)
  {
    for j := 0 to |inds|
      invariant a[..] == Scattered(old(a[..]), inds[..j], vals[..j])
    {
      a[inds[j]] := vals[j];
      assert inds[..j + 1][..j] == inds[..j];
      assert vals[..j + 1][..j] == vals[..j];
    }
    assert inds[..|inds|] == inds && vals[..|vals|] == vals;
  }

  ghost predicate RowsFit<T>(n: nat, rows: seq<seq<nat>>, vals: seq<seq<T>>) {
    |vals| == |rows| &&
    forall b :: 0 <= b < |rows| ==> |vals[b]| == |rows[b]| && InRange(rows[b], n)
  }

  /** The dense array after every chunk `b` scattered `vals[b]` at `rows[b]`. */
  function ScatteredRows<T>(a: seq<T>, rows: seq<seq<nat>>, vals: seq<seq<T>>): (r: seq<T>)
    requires RowsFit(|a|, rows, vals)
    ensures |r| == |a|
  {
    if rows == [] then a
    else
      var n := |rows| - 1;
      Scattered(ScatteredRows(a, rows[..n], vals[..n]), rows[n], vals[n])
  }

  lemma DistinctSplit<T>(x: seq<T>, y: seq<T>)
    requires Distinct(x + y)
    ensures Distinct(x) && Distinct(y)
    ensures forall v :: v in x ==> v !in y
  {
    assert forall i :: 0 <= i < |x| ==> (x + y)[i] == x[i];
    assert forall i :: 0 <= i < |y| ==> (x + y)[|x| + i] == y[i];
    forall v | v in x ensures v !in y {
      var i :| 0 <= i < |x| && x[i] == v;
      forall k | 0 <= k < |y| ensures y[k] != v {
        assert (x + y)[i] != (x + y)[|x| + k];
      }
    }
  }

  lemma {:induction false} InFlatten<T>(rows: seq<seq<T>>, b: nat, j: nat)
    requires b < |rows| && j < |rows[b]|
    ensures rows[b][j] in Flatten(rows)
  {
    var n := |rows| - 1;
    if b < n {
      InFlatten(rows[..n], b, j);
    }
  }

  /** With pairwise distinct indices across all chunks, position `rows[b][j]`
      holds chunk `b`'s `j`-th value: no chunk overwrites another. */
  lemma {:induction false} ScatteredRowsAt<T>(a: seq<T>, rows: seq<seq<nat>>, vals: seq<seq<T>>, b: nat, j: nat)
    requires RowsFit(|a|, rows, vals) && Distinct(Flatten(rows))
    requires b < |rows| && j < |rows[b]|
    ensures ScatteredRows(a, rows, vals)[rows[b][j]] == vals[b][j]
  {
    var n := |rows| - 1;
    var init := rows[..n];
    assert rows == init + [rows[n]];
    DistinctSplit(Flatten(init), rows[n]);
    var before := ScatteredRows(a, init, vals[..n]);
    if b == n {
      ScatteredAt(before, rows[n], vals[n], j);
    } else {
      InFlatten(init, b, j);
      ScatteredElsewhere(before, rows[n], vals[n], rows[b][j]);
      ScatteredRowsAt(a, init, vals[..n], b, j);
    }
  }

  /** Positions no chunk names keep their initial value. */
  lemma {:induction false} ScatteredRowsElsewhere<T>(a: seq<T>, rows: seq<seq<nat>>, vals: seq<seq<T>>, p: nat)
    requires RowsFit(|a|, rows, vals) && p < |a| && p !in Flatten(rows)
    ensures ScatteredRows(a, rows, vals)[p] == a[p]
  {
    if rows != [] {
      var n := |rows| - 1;
      var init := rows[..n];
      assert rows == init + [rows[n]];
      assert Flatten(rows) == Flatten(init) + rows[n];
      ScatteredElsewhere(ScatteredRows(a, init, vals[..n]), rows[n], vals[n], p);
      ScatteredRowsElsewhere(a, init, vals[..n], p);
    }
  }

  /** One more chunk scattered after the others. */
  lemma ScatteredRowsSnoc<T>(a: seq<T>, rows: seq<seq<nat>>, vals: seq<seq<T>>, inds: seq<nat>, v: seq<T>)
    requires RowsFit(|a|, rows, vals) && |v| == |inds| && InRange(inds, |a|)
    ensures RowsFit(|a|, rows + [inds], vals + [v])
    ensures ScatteredRows(a, rows + [inds], vals + [v]) == Scattered(ScatteredRows(a, rows, vals), inds, v)
  {
    assert (rows + [inds])[..|rows|] == rows;
    assert (vals + [v])[..|vals|] == vals;
  }

  /** Scattering one more chunk onto the dense array of the earlier ones. */
  lemma ScatterStep<T>(a: seq<T>, rows: seq<seq<nat>>, vals: seq<seq<T>>, inds: seq<nat>, v: seq<T>,
                       rows': seq<seq<nat>>, vals': seq<seq<T>>, prev: seq<T>, next: seq<T>)
    requires rows' == rows + [inds] && vals' == vals + [v] && RowsFit(|a|, rows', vals')
    requires RowsFit(|a|, rows, vals) && prev == ScatteredRows(a, rows, vals)
    requires |v| == |inds| && InRange(inds, |a|) && next == Scattered(prev, inds, v)
    ensures next == ScatteredRows(a, rows', vals')
  {
    ScatteredRowsSnoc(a, rows, vals, inds, v);
  }

  /** The last chunk of rows that fit fits on its own, and so do the others. */
  lemma RowsFitLast<T>(n: nat, rows: seq<seq<nat>>, vals: seq<seq<T>>, inds: seq<nat>, v: seq<T>)
    requires RowsFit(n, rows + [inds], vals + [v])
    ensures RowsFit(n, rows, vals) && |v| == |inds| && InRange(inds, n)
  {
    assert (rows + [inds])[|rows|] == inds && (vals + [v])[|rows|] == v;
    forall b | 0 <= b < |rows| ensures |vals[b]| == |rows[b]| && InRange(rows[b], n) {
      assert (rows + [inds])[b] == rows[b] && (vals + [v])[b] == vals[b];
    }
  }

  /** With pairwise distinct indices, a position named by chunk `b` is not
      named by any chunk before `k <= b`. */
  lemma NotInEarlierChunks(rows: seq<seq<nat>>, k: nat, b: nat, j: nat)
    requires Distinct(Flatten(rows)) && k <= b < |rows| && j < |rows[b]|
    ensures rows[b][j] !in Flatten(rows[..k])
  {
    assert rows == rows[..k] + rows[k..];
    FlattenAppend(rows[..k], rows[k..]);
    DistinctSplit(Flatten(rows[..k]), Flatten(rows[k..]));
    InFlatten(rows[k..], b - k, j);
  }

  /** Distinct sample indices give chunks that never share a position. */
  lemma ChunksDisjoint(s: seq<nat>, bs: nat)
    requires Distinct(s) && bs > 0 && |s| % bs == 0
    ensures Distinct(Flatten(Rows(SortSeq(s), bs)))
  {
    SortSeqSorted(s);
    DistinctByMultiset(s, SortSeq(s));
    RowsFlatten(SortSeq(s), bs);
  }
}
