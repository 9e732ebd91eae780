/** Length-prefixed framing of signaling objects: a 32-bit little-endian length, then the object. */
module Framing {
  import opened Bytes

  type message = seq<octet>

  const UINT32_MODULUS: nat := 0x1_0000_0000

  function Le32(n: nat): (b: seq<octet>)
    requires n < UINT32_MODULUS
    ensures |b| == 4
  {
    [n % 0x100, n / 0x100 % 0x100, n / 0x1_0000 % 0x100, n / 0x100_0000]
  }

  function FromLe32(b: seq<octet>): (n: nat)
    requires |b| == 4
    ensures n < UINT32_MODULUS
  {
    (b[0] as nat) + (b[1] as nat) * 0x100 + (b[2] as nat) * 0x1_0000 + (b[3] as nat) * 0x100_0000
  }

  /** One octet of a number and the rest of it. */
  lemma Split(n: nat)
    ensures n == n / 0x100 * 0x100 + n % 0x100
  {
  }

  lemma Shifted(n: nat)
    ensures n / 0x1_0000 == n / 0x100 / 0x100
    ensures n / 0x100_0000 == n / 0x1_0000 / 0x100
  {
  }

  /** The least significant octet comes first; the round trip holds for every number of 32 bits. */
  lemma Le32RoundTrip(n: nat)
    requires n < UINT32_MODULUS
    ensures FromLe32(Le32(n)) == n
    ensures var b := Le32(n);
            n == b[0] as nat + 0x100 * (b[1] as nat + 0x100 * (b[2] as nat + 0x100 * (b[3] as nat)))
  {
    var b := Le32(n);
    Shifted(n);
    Split(n);
    Split(n / 0x100);
    Split(n / 0x1_0000);
    var n1, n2 := n / 0x100, n / 0x1_0000;
    assert n2 == (b[3] as nat) * 0x100 + b[2] as nat;
    assert n1 == n2 * 0x100 + b[1] as nat;
    assert n == n1 * 0x100 + b[0] as nat;
  }

  /** The part of a message that is framed: its size is converted to 32 bits. */
  function Clip(m: message): (c: message)
    ensures |c| == |m| % UINT32_MODULUS
  {
    m[..|m| % UINT32_MODULUS]
  }

  lemma ClipIff(m: message)
    ensures Clip(m) == m <==> |m| < 0x1_0000_0000
  {
    if |m| < UINT32_MODULUS {
      assert |m| % UINT32_MODULUS == |m|;
    }
  }

  /** Messages whose buffer, of a size computed in 32 bits, holds the frame. */
  predicate Sendable(m: message) {
    |m| % 0x1_0000_0000 + 4 < 0x1_0000_0000
  }

  function RawFrame(c: message): seq<octet>
    requires |c| < UINT32_MODULUS
  {
    Le32(|c|) + c
  }

  function Frame(m: message): seq<octet> {
    RawFrame(Clip(m))
  }
}
