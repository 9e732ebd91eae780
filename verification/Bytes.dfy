/** Octets, octet strings and the few sequence facts that the other modules share. */
module Bytes {

  /** An octet where the code works on its bits. */
  type byte = bv8

  /** An octet where the code computes with its value. */
  type octet = n: nat | n < 256

  datatype Option<+T> = None | Some(value: T)

  lemma AppendAssociates<T>(a: seq<T>, b: seq<T>, c: seq<T>)
    ensures (a + b) + c == a + (b + c)
  {
  }

  lemma AppendNothing<T>(a: seq<T>)
    ensures a + [] == a && [] + a == a
  {
  }

  /** The concatenation of a list of strings. */
  function Flatten<T>(parts: seq<seq<T>>): seq<T> {
    if parts == [] then [] else parts[0] + Flatten(parts[1..])
  }

  lemma {:induction false} FlattenAppend<T>(a: seq<seq<T>>, b: seq<seq<T>>)
    ensures Flatten(a + b) == Flatten(a) + Flatten(b)
  {
    if a == [] {
      assert a + b == b;
    } else {
      assert (a + b)[1..] == a[1..] + b;
      FlattenAppend(a[1..], b);
    }
  }

  function Zeros(n: nat): seq<byte> {
    seq(n, _ => 0)
  }
}
