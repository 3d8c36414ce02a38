// Shared vocabulary of the postprocessing model: the exceptions Python can
// raise, an insertion-ordered dictionary, and small facts about sequences.

module Base {

  /** The Python exceptions the modelled code can raise. */
  datatype Error =
    | KeyError          // a dict lookup of a missing key
    | IndexError        // an array index out of range
    | ValueError        // a reshape or an assignment whose shapes do not fit
    | NameError         // a local variable read before it was bound
    | LinAlgError       // np.linalg.inv of a singular matrix
    | ModelError        // raised inside the forward model or its Hessian

  /** A call either returns a value or raises. */
  datatype Result<T> = Ok(value: T) | Err(error: Error)

  datatype Option<T> = None | Some(value: T)

  type Species = string
  type Key = string
  /** A fitted parameter is addressed by its species and its name. */
  type ParamId = (Species, Key)

  predicate Distinct<T(==)>(s: seq<T>) {
    forall i, j :: 0 <= i < j < |s| ==> s[i] != s[j]
  }

  /**
   * A Python dict: `keys` is the insertion order, `m` the entries.
   * Assigning to an existing key keeps its position; a new key goes last.
   */
  datatype Dict<K(==, !new), V> = Dict(keys: seq<K>, m: map<K, V>) {

    ghost predicate Valid() {
      Distinct(keys) && (forall k :: k in m <==> k in keys)
    }

    function Put(k: K, v: V): (d: Dict<K, V>)
      requires Valid()
      ensures d.Valid()
      ensures d.m == m[k := v]
      ensures k in m ==> d.keys == keys
      ensures k !in m ==> d.keys == keys + [k]
    {
      if k in m then Dict(keys, m[k := v]) else Dict(keys + [k], m[k := v])
    }
  }

  function EmptyDict<K(==, !new), V>(): (d: Dict<K, V>)
    ensures d.Valid() && d.keys == []
  {
    Dict([], map[])
  }

  /** Per-batch fitted values: species -> parameter name -> one value per sample. */
  type Params = Dict<Species, Dict<Key, seq<real>>>

  ghost predicate ValidParams(p: Params) {
    p.Valid() && forall s :: s in p.m ==> p.m[s].Valid()
  }

  /** np.concatenate of a list of one-dimensional arrays. */
  function Flatten<T>(xs: seq<seq<T>>): seq<T> {
    if xs == [] then [] else Flatten(xs[..|xs| - 1]) + xs[|xs| - 1]
  }

  lemma {:induction false} FlattenAppend<T>(xs: seq<seq<T>>, ys: seq<seq<T>>)
    ensures Flatten(xs + ys) == Flatten(xs) + Flatten(ys)
  {
    if ys == [] {
      assert xs + ys == xs;
    } else {
      var init := ys[..|ys| - 1];
      assert (xs + ys)[..|xs + ys| - 1] == xs + init;
      FlattenAppend(xs, init);
    }
  }

  lemma PrefixSnoc<T>(s: seq<T>, b: nat)
    requires b < |s|
    ensures s[..b + 1] == s[..b] + [s[b]]
  {
  }

  lemma FlattenCons<T>(x: seq<T>, xs: seq<seq<T>>)
    ensures Flatten([x] + xs) == x + Flatten(xs)
  {
    FlattenAppend([x], xs);
    assert Flatten([x]) == Flatten([x][..0]) + x;
  }
}
