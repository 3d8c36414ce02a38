// Parameter reconstruction in recalculate_with_chosen_weights (postprocess.py
// lines 36-49): the per-batch `species -> key -> array` dictionaries become one
// `species -> key -> concatenated array` dictionary, and `num_params` counts
// the scalars of all concatenated arrays.

module Reconstruct {
  import opened Base
  import Layout

  /** Every batch has an entry for species `s`; `unnormed_params[k]` raises
      KeyError otherwise. */
  ghost predicate HasSpecies(fw: seq<Params>, s: Species) {
    forall b :: 0 <= b < |fw| ==> s in fw[b].m
  }

  ghost predicate AllValid(fw: seq<Params>) {
    forall b :: 0 <= b < |fw| ==> ValidParams(fw[b])
  }

  /** `ks` followed by the keys of `incoming` not seen before, in their order:
      the order in which a defaultdict acquires its keys. */
  function AddUnseen(ks: seq<Key>, incoming: seq<Key>): seq<Key> {
    if incoming == [] then ks
    else
      var before := AddUnseen(ks, incoming[..|incoming| - 1]);
      var k := incoming[|incoming| - 1];
      if k in before then before else before + [k]
  }

  /** The key order of `all_params[s]`: first appearance across the batches. */
  function KeyOrder(fw: seq<Params>, s: Species): seq<Key>
    requires HasSpecies(fw, s)
  {
    if fw == [] then []
    else AddUnseen(KeyOrder(fw[..|fw| - 1], s), fw[|fw| - 1].m[s].keys)
  }

  /** The arrays appended to `all_params[s][k]`, in batch order; a batch
      without key `k` contributes nothing. */
  function Pieces(fw: seq<Params>, s: Species, k: Key): seq<seq<real>>
    requires HasSpecies(fw, s)
  {
    if fw == [] then []
    else
      var last := fw[|fw| - 1].m[s];
      Pieces(fw[..|fw| - 1], s, k) + (if k in last.m then [last.m[k]] else [])
  }

  /** Scalars contributed by the keys `ks` of species `s`. */
  function KeysTotal(fw: seq<Params>, s: Species, ks: seq<Key>): nat
    requires HasSpecies(fw, s)
  {
    if ks == [] then 0
    else KeysTotal(fw, s, ks[..|ks| - 1]) + |Flatten(Pieces(fw, s, ks[|ks| - 1]))|
  }

  /** `num_params`: the summed lengths of all concatenated arrays. */
  function NumParams(fw: seq<Params>, species: seq<Species>): nat
    requires forall s :: s in species ==> HasSpecies(fw, s)
  {
    if species == [] then 0
    else
      var s := species[|species| - 1];
      NumParams(fw, species[..|species| - 1]) + KeysTotal(fw, s, KeyOrder(fw, s))
  }

  datatype Reconstruction = Reconstruction(params: Params, numParams: nat)

  lemma {:induction false} AddUnseenMembers(ks: seq<Key>, incoming: seq<Key>)
    ensures forall k :: k in AddUnseen(ks, incoming) <==> k in ks || k in incoming
    ensures Distinct(ks) ==> Distinct(AddUnseen(ks, incoming))
  {
    if incoming != [] {
      var n := |incoming| - 1;
      AddUnseenMembers(ks, incoming[..n]);
      assert incoming == incoming[..n] + [incoming[n]];
    }
  }

  /** `all_params[s]` acquires exactly the keys some batch has, each once. */
  lemma {:induction false} KeyOrderMembers(fw: seq<Params>, s: Species)
    requires HasSpecies(fw, s) && AllValid(fw)
    ensures Distinct(KeyOrder(fw, s))
    ensures forall k :: k in KeyOrder(fw, s) <==> exists b :: 0 <= b < |fw| && k in fw[b].m[s].m
  {
    if fw != [] {
      var n := |fw| - 1;
      var init := fw[..n];
      KeyOrderMembers(init, s);
      AddUnseenMembers(KeyOrder(init, s), fw[n].m[s].keys);
      forall k | k in KeyOrder(fw, s) ensures exists b :: 0 <= b < |fw| && k in fw[b].m[s].m {
        if k !in fw[n].m[s].m {
          var b :| 0 <= b < |init| && k in init[b].m[s].m;
          assert fw[b] == init[b];
        }
      }
      forall k | exists b :: 0 <= b < |fw| && k in fw[b].m[s].m ensures k in KeyOrder(fw, s) {
        var b :| 0 <= b < |fw| && k in fw[b].m[s].m;
        if b < n {
          assert init[b] == fw[b];
        }
      }
    }
  }

  /** A key no batch has collects nothing. */
  lemma {:induction false} PiecesOutside(fw: seq<Params>, s: Species, k: Key)
    requires HasSpecies(fw, s) && AllValid(fw) && k !in KeyOrder(fw, s)
    ensures Pieces(fw, s, k) == []
  {
    if fw != [] {
      var n := |fw| - 1;
      AddUnseenMembers(KeyOrder(fw[..n], s), fw[n].m[s].keys);
      assert ValidParams(fw[n]);
      PiecesOutside(fw[..n], s, k);
    }
  }

  /** Re-chunking the reconstructed array gives back every batch's own array
      when each batch holds `bs` values of the key. */
  lemma {:induction false} PiecesAllBatches(fw: seq<Params>, s: Species, k: Key)
    requires HasSpecies(fw, s)
    requires forall b :: 0 <= b < |fw| ==> k in fw[b].m[s].m
    ensures Pieces(fw, s, k) == seq(|fw|, b requires 0 <= b < |fw| => fw[b].m[s].m[k])
  {
    if fw != [] {
      var n := |fw| - 1;
      PiecesAllBatches(fw[..n], s, k);
    }
  }

  lemma ReconstructRechunk(fw: seq<Params>, s: Species, k: Key, bs: nat)
    requires HasSpecies(fw, s) && bs > 0
    requires forall b :: 0 <= b < |fw| ==> k in fw[b].m[s].m && |fw[b].m[s].m[k]| == bs
    ensures |Flatten(Pieces(fw, s, k))| == |fw| * bs
    ensures |Flatten(Pieces(fw, s, k))| % bs == 0
    ensures Layout.Rows(Flatten(Pieces(fw, s, k)), bs) == seq(|fw|, b requires 0 <= b < |fw| => fw[b].m[s].m[k])
  {
    var xs := seq(|fw|, b requires 0 <= b < |fw| => fw[b].m[s].m[k]);
    PiecesAllBatches(fw, s, k);
    assert Pieces(fw, s, k) == xs;
    assert forall i :: 0 <= i < |xs| ==> |xs[i]| == bs;
    Layout.FlattenRows(xs, bs);
  }

  /** After the batches `fw`, the defaultdict of species `s` in `lists` has
      acquired the keys in KeyOrder and holds each key's pieces. */
  ghost predicate Gathered(lists: map<Species, Dict<Key, seq<seq<real>>>>, fw: seq<Params>, s: Species) {
    HasSpecies(fw, s) && s in lists && lists[s].Valid() &&
    lists[s].keys == KeyOrder(fw, s) &&
    forall k :: k in lists[s].m ==> lists[s].m[k] == Pieces(fw, s, k)
  }

  function Get(d: Dict<Key, seq<seq<real>>>, k: Key): seq<seq<real>> {
    if k in d.m then d.m[k] else []
  }

  /** After the first `i` keys of `x`, every list holds its old pieces
      followed by `x`'s array when one of those keys is its own. */
  ghost predicate AppendedUpTo(d: Dict<Key, seq<seq<real>>>, x: Dict<Key, seq<real>>, i: nat,
                               d': Dict<Key, seq<seq<real>>>)
    requires x.Valid() && i <= |x.keys|
  {
    d'.Valid() && d'.keys == AddUnseen(d.keys, x.keys[..i]) &&
    forall k :: k in d'.m ==> d'.m[k] == Get(d, k) + (if k in x.keys[..i] then [x.m[k]] else [])
  }

  lemma AppendKeyStep(d: Dict<Key, seq<seq<real>>>, x: Dict<Key, seq<real>>, i: nat,
                      cur: Dict<Key, seq<seq<real>>>, next: Dict<Key, seq<seq<real>>>)
    requires d.Valid() && x.Valid() && i < |x.keys| && AppendedUpTo(d, x, i, cur)
    requires next == cur.Put(x.keys[i], Get(cur, x.keys[i]) + [x.m[x.keys[i]]])
    ensures AppendedUpTo(d, x, i + 1, next)
  {
    var k := x.keys[i];
    PrefixSnoc(x.keys, i);
    assert k !in x.keys[..i];
    AddUnseenMembers(d.keys, x.keys[..i]);
    assert x.keys[..i + 1][..i] == x.keys[..i];
    assert next.keys == AddUnseen(d.keys, x.keys[..i + 1]);
    forall j | j in next.m
      ensures next.m[j] == Get(d, j) + (if j in x.keys[..i + 1] then [x.m[j]] else [])
    {
      if j == k {
        assert Get(cur, k) == Get(d, k);
      } else {
        assert j in x.keys[..i + 1] <==> j in x.keys[..i];
      }
    }
  }

  /** One batch's arrays of one species appended to its defaultdict of lists:
      the loop `for k2 in unnormed_params[k].keys()` at lines 41-42. */
  method AppendBatch(d: Dict<Key, seq<seq<real>>>, x: Dict<Key, seq<real>>)
      returns (d': Dict<Key, seq<seq<real>>>)
    requires d.Valid() && x.Valid()
    ensures d'.Valid() && d'.keys == AddUnseen(d.keys, x.keys)
    ensures forall k :: k in d'.m ==> d'.m[k] == Get(d, k) + (if k in x.m then [x.m[k]] else [])
  {
    d' := d;
    for i := 0 to |x.keys|
      invariant AppendedUpTo(d, x, i, d')
    {
      var k := x.keys[i];
      var next := d'.Put(k, Get(d', k) + [x.m[k]]);
      AppendKeyStep(d, x, i, d', next);
      d' := next;
    }
    assert x.keys[..|x.keys|] == x.keys;
  }

  lemma HasSpeciesExtend(fw: seq<Params>, b: nat, s: Species)
    requires b < |fw| && HasSpecies(fw[..b], s) && s in fw[b].m
    ensures HasSpecies(fw[..b + 1], s)
  {
    var p, q := fw[..b + 1], fw[..b];
    forall c | 0 <= c < |p| ensures s in p[c].m {
      if c < b { assert p[c] == q[c]; }
    }
  }

  /** Appending batch `b` moves a species' defaultdict from the first `b`
      batches to the first `b + 1`. */
  lemma GatheredStep(lists: map<Species, Dict<Key, seq<seq<real>>>>, fw: seq<Params>, b: nat, s: Species,
                     d': Dict<Key, seq<seq<real>>>)
    requires AllValid(fw) && b < |fw| && Gathered(lists, fw[..b], s) && s in fw[b].m
    requires d'.Valid() && d'.keys == AddUnseen(lists[s].keys, fw[b].m[s].keys)
    requires forall k :: k in d'.m ==>
      d'.m[k] == Get(lists[s], k) + (if k in fw[b].m[s].m then [fw[b].m[s].m[k]] else [])
    ensures Gathered(lists[s := d'], fw[..b + 1], s)
  {
    HasSpeciesExtend(fw, b, s);
    var p := fw[..b + 1];
    assert p[..b] == fw[..b] && p[b] == fw[b];
    assert KeyOrder(p, s) == AddUnseen(KeyOrder(fw[..b], s), fw[b].m[s].keys);
    forall k | k in d'.m ensures d'.m[k] == Pieces(p, s, k) {
      assert Pieces(p, s, k) == Pieces(fw[..b], s, k) + (if k in fw[b].m[s].m then [fw[b].m[s].m[k]] else []);
      if k !in lists[s].m {
        PiecesOutside(fw[..b], s, k);
      }
    }
  }

  /** Updating one species' list leaves every other species' list as it was. */
  lemma GatheredOther(lists: map<Species, Dict<Key, seq<seq<real>>>>, fw: seq<Params>, s: Species,
                      d: Dict<Key, seq<seq<real>>>, u: Species)
    requires u != s && Gathered(lists, fw, u)
    ensures Gathered(lists[s := d], fw, u)
  {
    assert lists[s := d][u] == lists[u];
  }

  /** The loop over the species of batch `b` after updating species `j`: the
      species before it and `j` itself have seen `b + 1` batches, the rest `b`. */
  lemma GatherSpeciesStep(cur: map<Species, Dict<Key, seq<seq<real>>>>, species: seq<Species>, fw: seq<Params>,
                          b: nat, j: nat, d: Dict<Key, seq<seq<real>>>)
    requires Distinct(species) && b < |fw| && j < |species|
    requires forall t :: 0 <= t < j ==> species[t] in fw[b].m && Gathered(cur, fw[..b + 1], species[t])
    requires forall t :: j < t < |species| ==> Gathered(cur, fw[..b], species[t])
    requires species[j] in fw[b].m && Gathered(cur[species[j] := d], fw[..b + 1], species[j])
    ensures forall t :: 0 <= t < j + 1 ==>
              species[t] in fw[b].m && Gathered(cur[species[j] := d], fw[..b + 1], species[t])
    ensures forall t :: j + 1 <= t < |species| ==> Gathered(cur[species[j] := d], fw[..b], species[t])
  {
    forall t | 0 <= t < j ensures Gathered(cur[species[j] := d], fw[..b + 1], species[t]) {
      GatheredOther(cur, fw[..b + 1], species[j], d, species[t]);
    }
    forall t | j + 1 <= t < |species| ensures Gathered(cur[species[j] := d], fw[..b], species[t]) {
      GatheredOther(cur, fw[..b], species[j], d, species[t]);
    }
  }

  /** Lines 38-42 for batch `b`: append its arrays to every species' lists. */
  method GatherBatch(lists: map<Species, Dict<Key, seq<seq<real>>>>, species: seq<Species>, fw: seq<Params>, b: nat)
      returns (r: Result<map<Species, Dict<Key, seq<seq<real>>>>>)
    requires Distinct(species) && AllValid(fw) && b < |fw|
    requires forall s :: s in species ==> Gathered(lists, fw[..b], s)
    ensures r.Ok? <==> forall s :: s in species ==> s in fw[b].m
    ensures r.Err? ==> r.error == KeyError
    ensures r.Ok? ==> forall s :: s in species ==> Gathered(r.value, fw[..b + 1], s)
  {
    var cur := lists;
    for j := 0 to |species|
      invariant forall t :: 0 <= t < j ==> species[t] in fw[b].m && Gathered(cur, fw[..b + 1], species[t])
      invariant forall t :: j <= t < |species| ==> Gathered(cur, fw[..b], species[t])
    {
      var s := species[j];
      if s !in fw[b].m {
        return Err(KeyError);
      }
      assert ValidParams(fw[b]);
      var d := AppendBatch(cur[s], fw[b].m[s]);
      GatheredStep(cur, fw, b, s, d);
      GatherSpeciesStep(cur, species, fw, b, j, d);
      cur := cur[s := d];
    }
    forall s | s in species ensures s in fw[b].m && Gathered(cur, fw[..b + 1], s) {
      var t :| 0 <= t < |species| && species[t] == s;
    }
    return Ok(cur);
  }

  /** Lines 36-42: collect, per species and key, the list of per-batch arrays. */
  method Gather(species: seq<Species>, fw: seq<Params>)
      returns (r: Result<map<Species, Dict<Key, seq<seq<real>>>>>)
    requires Distinct(species) && AllValid(fw)
    ensures r.Ok? <==> forall s :: s in species ==> HasSpecies(fw, s)
    ensures r.Err? ==> r.error == KeyError
    ensures r.Ok? ==> forall s :: s in species ==> Gathered(r.value, fw, s)
  {
    var lists: map<Species, Dict<Key, seq<seq<real>>>> := map s | s in species :: EmptyDict();
    for b := 0 to |fw|
      invariant forall s :: s in species ==> Gathered(lists, fw[..b], s)
    {
      var next := GatherBatch(lists, species, fw, b);
      if next.Err? {
        var s :| s in species && s !in fw[b].m;
        assert !HasSpecies(fw, s);
        return next;
      }
      lists := next.value;
    }
    assert fw[..|fw|] == fw;
    return Ok(lists);
  }

  /** Lines 47-49 for one species: concatenate each list, in key order, and
      count the scalars. */
  method ConcatSpecies(fw: seq<Params>, s: Species, d: Dict<Key, seq<seq<real>>>)
      returns (cd: Dict<Key, seq<real>>, total: nat)
    requires HasSpecies(fw, s) && d.Valid()
    requires forall k :: k in d.m ==> d.m[k] == Pieces(fw, s, k)
    ensures cd.Valid() && cd.keys == d.keys
    ensures forall k :: k in cd.m ==> cd.m[k] == Flatten(Pieces(fw, s, k))
    ensures total == KeysTotal(fw, s, d.keys)
  {
    cd := EmptyDict();
    total := 0;
    for i := 0 to |d.keys|
      invariant cd.Valid() && cd.keys == d.keys[..i]
      invariant forall k :: k in cd.m ==> cd.m[k] == Flatten(Pieces(fw, s, k))
      invariant total == KeysTotal(fw, s, d.keys[..i])
    {
      var k := d.keys[i];
      assert k !in d.keys[..i];
      assert k !in cd.m;
      PrefixSnoc(d.keys, i);
      assert d.keys[..i + 1][..i] == d.keys[..i];
      assert KeysTotal(fw, s, d.keys[..i + 1]) == KeysTotal(fw, s, d.keys[..i]) + |Flatten(Pieces(fw, s, k))|;
      var v := Flatten(d.m[k]);
      cd := cd.Put(k, v);
      total := total + |v|;
    }
    assert d.keys[..|d.keys|] == d.keys;
  }

  /** `out[s]` is the concatenated dictionary of species `s`. */
  ghost predicate Concatenated(out: Params, fw: seq<Params>, s: Species) {
    HasSpecies(fw, s) && s in out.m && out.m[s].Valid() &&
    out.m[s].keys == KeyOrder(fw, s) &&
    forall k :: k in out.m[s].m ==> out.m[s].m[k] == Flatten(Pieces(fw, s, k))
  }

  lemma NumParamsStep(fw: seq<Params>, species: seq<Species>, j: nat, total: nat)
    requires j < |species| && forall s :: s in species ==> HasSpecies(fw, s)
    requires total == KeysTotal(fw, species[j], KeyOrder(fw, species[j]))
    ensures NumParams(fw, species[..j + 1]) == NumParams(fw, species[..j]) + total
  {
    var pre := species[..j + 1];
    assert pre[..j] == species[..j] && pre[j] == species[j];
    assert forall x :: x in pre ==> x in species;
  }

  /** `all_params` after the first `j` species of the loop at lines 45-49. */
  ghost predicate ConcatUpTo(out: Params, fw: seq<Params>, species: seq<Species>, j: nat)
    requires j <= |species|
  {
    out.Valid() && out.keys == species[..j] &&
    (forall s :: s in out.m ==> out.m[s].Valid()) &&
    forall t :: 0 <= t < j ==> Concatenated(out, fw, species[t])
  }

  lemma ConcatStep(before: Params, fw: seq<Params>, species: seq<Species>, j: nat, cd: Dict<Key, seq<real>>)
    requires Distinct(species) && j < |species| && HasSpecies(fw, species[j])
    requires ConcatUpTo(before, fw, species, j)
    requires cd.Valid() && cd.keys == KeyOrder(fw, species[j])
    requires forall k :: k in cd.m ==> cd.m[k] == Flatten(Pieces(fw, species[j], k))
    ensures ConcatUpTo(before.Put(species[j], cd), fw, species, j + 1)
  {
    var s := species[j];
    assert s !in species[..j];
    PrefixSnoc(species, j);
    var out := before.Put(s, cd);
    forall t | 0 <= t < j ensures Concatenated(out, fw, species[t]) {
      ConcatOther(before, fw, species[t], s, cd);
    }
    assert Concatenated(out, fw, s);
  }

  /** Adding species `s` leaves the entry of every other species as it was. */
  lemma ConcatOther(before: Params, fw: seq<Params>, u: Species, s: Species, cd: Dict<Key, seq<real>>)
    requires before.Valid() && u != s && Concatenated(before, fw, u)
    ensures Concatenated(before.Put(s, cd), fw, u)
  {
    assert before.Put(s, cd).m[u] == before.m[u];
  }

  /** Lines 45-49: concatenate every list and count the scalars. */
  method ConcatAll(species: seq<Species>, fw: seq<Params>, lists: map<Species, Dict<Key, seq<seq<real>>>>)
      returns (out: Params, num: nat)
    requires Distinct(species) && AllValid(fw)
    requires forall s :: s in species ==> HasSpecies(fw, s)
    requires forall s :: s in species ==> Gathered(lists, fw, s)
    ensures ValidParams(out) && out.keys == species
    ensures forall s :: s in species ==> Concatenated(out, fw, s)
    ensures num == NumParams(fw, species)
  {
    out := EmptyDict();
    num := 0;
    for j := 0 to |species|
      invariant ConcatUpTo(out, fw, species, j)
      invariant num == NumParams(fw, species[..j])
    {
      var s := species[j];
      assert Gathered(lists, fw, s);
      var cd, total := ConcatSpecies(fw, s, lists[s]);
      NumParamsStep(fw, species, j, total);
      ConcatStep(out, fw, species, j, cd);
      out := out.Put(s, cd);
      num := num + total;
    }
    ConcatDone(out, fw, species);
  }

  lemma ConcatDone(out: Params, fw: seq<Params>, species: seq<Species>)
    requires ConcatUpTo(out, fw, species, |species|)
    ensures ValidParams(out) && out.keys == species
    ensures forall s :: s in species ==> Concatenated(out, fw, s)
  {
    assert species[..|species|] == species;
    forall s | s in species ensures Concatenated(out, fw, s) {
      var t :| 0 <= t < |species| && species[t] == s;
    }
  }

  /** `all_params` and `num_params` after line 49: one entry per species in
      configuration order, its keys in order of first appearance, each the
      concatenation of that key's per-batch arrays, and the scalar count. */
  ghost predicate Reconstructed(r: Reconstruction, species: seq<Species>, fw: seq<Params>) {
    var p := r.params;
    ValidParams(p) && p.keys == species &&
    (forall s :: s in species ==> HasSpecies(fw, s)) &&
    (forall s :: s in species ==>
       p.m[s].keys == KeyOrder(fw, s) &&
       forall k :: k in p.m[s].m ==> p.m[s].m[k] == Flatten(Pieces(fw, s, k))) &&
    r.numParams == NumParams(fw, species)
  }

  /** `recalculate_with_chosen_weights` lines 36-49: turn the list of
      per-batch dictionaries into one dictionary of concatenated arrays. */
  method Reconstruct(species: seq<Species>, fw: seq<Params>) returns (r: Result<Reconstruction>)
    requires Distinct(species) && AllValid(fw)
    ensures r.Ok? <==> forall s :: s in species ==> HasSpecies(fw, s)
    ensures r.Err? ==> r.error == KeyError
    ensures r.Ok? ==> Reconstructed(r.value, species, fw)
  {
    var g := Gather(species, fw);
    if g.Err? {
      return Err(g.error);
    }
    var out, num := ConcatAll(species, fw, g.value);
    assert forall s :: s in species ==> Concatenated(out, fw, s);
    return Ok(Reconstruction(out, num));
  }
}
