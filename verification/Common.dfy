/** Value types shared by every component of the model. */
module Common {

  datatype Option<+T> = None | Some(value: T) {
    /** JavaScript's `??`. */
    function GetOr(default: T): T {
      match this
      case Some(v) => v
      case None => default
    }
  }

  /** A call that either returns or throws. */
  datatype Result<+T, +E> = Ok(value: T) | Err(error: E)

  /** Which of the two keys a wrapping of the DEK is for. */
  datatype Purpose = Master | Recovery

  type byte = x: int | 0 <= x < 256

  /** The contents of a byte buffer. */
  type Bytes = seq<byte>

  lemma MulDistributes(a: int, b: int, c: int)
    ensures a * (b + c) == a * b + a * c
  {
  }

  function Zeros(n: nat): (z: Bytes)
    ensures |z| == n && forall i :: 0 <= i < n ==> z[i] == 0
  {
    seq(n, _ => 0)
  }

  /** JavaScript's `Map`: a lookup table that also remembers the order in which its keys were first set. */
  datatype JsMap<K(==,!new), V> = JsMap(order: seq<K>, entries: map<K, V>) {

    ghost predicate Valid() {
      && (forall k :: k in order <==> k in entries)
      && (forall i, j :: 0 <= i < j < |order| ==> order[i] != order[j])
    }

    function Get(k: K): Option<V> {
      if k in entries then Some(entries[k]) else None
    }

    function Set(k: K, v: V): (m: JsMap<K, V>)
      ensures Valid() ==> m.Valid()
    {
      JsMap(if k in entries then order else order + [k], entries[k := v])
    }
  }
}
