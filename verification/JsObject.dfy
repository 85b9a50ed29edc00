/** JavaScript objects as insertion-ordered association lists: what `JSON.parse` yields and `JSON.stringify` prints. */
module JsObject {
  datatype Option<+T> = None | Some(value: T)

  type Obj<K, V> = seq<(K, V)>

  predicate Has<K(==), V>(o: Obj<K, V>, k: K) {
    exists i :: 0 <= i < |o| && o[i].0 == k
  }

  function Get<K(==), V>(o: Obj<K, V>, k: K): Option<V> {
    if o == [] then None
    else if o[0].0 == k then Some(o[0].1)
    else Get(o[1..], k)
  }

  /** `o[k] = v`: an existing key keeps its position, a new key goes last. */
  function Put<K(==), V>(o: Obj<K, V>, k: K, v: V): Obj<K, V> {
    if o == [] then [(k, v)]
    else if o[0].0 == k then [(k, v)] + o[1..]
    else [o[0]] + Put(o[1..], k, v)
  }

  /** `delete o[k]`. */
  function Remove<K(==), V>(o: Obj<K, V>, k: K): Obj<K, V> {
    if o == [] then []
    else if o[0].0 == k then Remove(o[1..], k)
    else [o[0]] + Remove(o[1..], k)
  }

  /** `{ ...a, ...b }`. */
  function Spread<K(==), V>(a: Obj<K, V>, b: Obj<K, V>): Obj<K, V>
    decreases |b|
  {
    if b == [] then a else Spread(Put(a, b[0].0, b[0].1), b[1..])
  }

  lemma {:induction false} GetHas<K, V>(o: Obj<K, V>, k: K)
    ensures Get(o, k).Some? <==> Has(o, k)
  {
    if o == [] {
    } else if o[0].0 != k {
      GetHas(o[1..], k);
      if Has(o, k) {
        var i :| 0 <= i < |o| && o[i].0 == k;
        assert o[1..][i - 1].0 == k;
      }
      if Has(o[1..], k) {
        var i :| 0 <= i < |o[1..]| && o[1..][i].0 == k;
        assert o[i + 1].0 == k;
      }
    }
  }

  lemma {:induction false} GetPut<K, V>(o: Obj<K, V>, k: K, v: V, j: K)
    ensures Get(Put(o, k, v), j) == if j == k then Some(v) else Get(o, j)
  {
    if o != [] && o[0].0 != k {
      GetPut(o[1..], k, v, j);
      assert Put(o, k, v)[1..] == Put(o[1..], k, v);
    } else if o != [] {
      assert Put(o, k, v)[1..] == o[1..];
    }
  }

  /** A new key goes last. */
  lemma {:induction false} PutNew<K, V>(o: Obj<K, V>, k: K, v: V)
    requires Get(o, k).None?
    ensures Put(o, k, v) == o + [(k, v)]
  {
    if o != [] { PutNew(o[1..], k, v); }
  }

  /** Overwriting and then writing the old value back restores the object, key order included. */
  lemma {:induction false} PutBack<K, V>(o: Obj<K, V>, k: K, v: V, w: V)
    ensures Put(Put(o, k, v), k, w) == Put(o, k, w)
    ensures Get(o, k) == Some(w) ==> Put(o, k, w) == o
  {
    if o != [] && o[0].0 != k {
      PutBack(o[1..], k, v, w);
      assert Put(o, k, v)[1..] == Put(o[1..], k, v);
    } else if o != [] {
      assert Put(o, k, v)[1..] == o[1..];
    }
  }

  /** Writes to two different existing keys commute. */
  lemma {:induction false} PutCommutes<K, V>(o: Obj<K, V>, k: K, v: V, j: K, w: V)
    requires k != j && Get(o, k).Some?
    ensures Put(Put(o, k, v), j, w) == Put(Put(o, j, w), k, v)
  {
    if o[0].0 == k {
      assert Put(o, k, v)[1..] == o[1..];
      assert Put(o, j, w)[1..] == Put(o[1..], j, w);
    } else if o[0].0 == j {
      assert Put(o, k, v)[1..] == Put(o[1..], k, v);
      assert Put(o, j, w)[1..] == o[1..];
    } else {
      PutCommutes(o[1..], k, v, j, w);
      assert Put(o, k, v)[1..] == Put(o[1..], k, v);
      assert Put(o, j, w)[1..] == Put(o[1..], j, w);
    }
  }

  lemma {:induction false} PutOverAppend<K, V>(o: Obj<K, V>, ext: Obj<K, V>, k: K, v: V)
    requires Get(o, k).Some?
    ensures Put(o + ext, k, v) == Put(o, k, v) + ext && Get(o + ext, k) == Get(o, k)
  {
    assert (o + ext)[1..] == o[1..] + ext;
    if o[0].0 != k { PutOverAppend(o[1..], ext, k, v); }
  }

  lemma {:induction false} RemoveOverAppend<K, V>(o: Obj<K, V>, ext: Obj<K, V>, k: K)
    requires Get(o, k).None?
    ensures Remove(o + ext, k) == o + Remove(ext, k) && Get(o + ext, k) == Get(ext, k)
  {
    if o == [] {
      assert o + ext == ext;
    } else {
      assert (o + ext)[1..] == o[1..] + ext;
      RemoveOverAppend(o[1..], ext, k);
    }
  }

  lemma {:induction false} PutKeepsKeys<K, V>(o: Obj<K, V>, k: K, v: V)
    requires Get(o, k).Some?
    ensures |Put(o, k, v)| == |o|
    ensures forall i :: 0 <= i < |o| ==> Put(o, k, v)[i].0 == o[i].0
  {
    if o[0].0 != k {
      PutKeepsKeys(o[1..], k, v);
    }
  }
}
