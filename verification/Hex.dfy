/** Hexadecimal text: printing octets, and the parser that adds up nibbles in a caller's buffer. */
module Hex {
  import opened Bytes

  function Digit(c: char): (d: Option<nat>)
    ensures d.Some? ==> d.value < 16
  {
    if '0' <= c <= '9' then Some(c as nat - '0' as nat)
    else if 'A' <= c <= 'F' then Some(10 + (c as nat - 'A' as nat))
    else if 'a' <= c <= 'f' then Some(10 + (c as nat - 'a' as nat))
    else None
  }

  function LowerDigit(d: nat): (c: char)
    requires d < 16
    ensures Digit(c) == Some(d)
  {
    if d < 10 then ('0' as nat + d) as char else ('a' as nat + (d - 10)) as char
  }

  function UpperDigit(d: nat): (c: char)
    requires d < 16
    ensures Digit(c) == Some(d)
  {
    if d < 10 then ('0' as nat + d) as char else ('A' as nat + (d - 10)) as char
  }

  // --- Printing -----------------------------------------------------------------------------

  function HexText(data: seq<octet>): (s: string)
    ensures |s| == 2 * |data|
    decreases |data|
  {
    if data == [] then ""
    else
      var n := |data| - 1;
      HexText(data[..n]) + [LowerDigit(data[n] / 16), LowerDigit(data[n] % 16)]
  }

  method ToHex(data: seq<octet>) returns (stream: string)
    ensures stream == HexText(data)
  {
    stream := "";
    for i := 0 to |data|
      invariant stream == HexText(data[..i])
    {
      assert data[..i + 1][..i] == data[..i];
      stream := stream + [LowerDigit(data[i] / 16), LowerDigit(data[i] % 16)];
    }
    assert data[..|data|] == data;
  }

  // --- Parsing in place ---------------------------------------------------------------------

  /** The buffer has room for the digits. */
  predicate Fits(hex: string, n: nat) {
    (|hex| + 1) / 2 <= n
  }

  ghost predicate AllDigits(hex: string, k: nat) {
    k <= |hex| && forall i :: 0 <= i < k ==> Digit(hex[i]).Some?
  }

  /** What the first `k` digits have added to the buffer; octets wrap around. */
  function Accumulated(data: seq<octet>, hex: string, k: nat): (r: seq<octet>)
    requires Fits(hex, |data|) && AllDigits(hex, k)
    ensures |r| == |data|
  {
    if k == 0 then data
    else
      var before := Accumulated(data, hex, k - 1);
      var j, i := (k - 1) / 2, (k - 1) % 2;
      before[j := Sum(before[j], Digit(hex[k - 1]).value, i)]
  }

  /** An octet with a nibble added: the high one for digit 0 of a pair, the low one for digit 1. */
  function Sum(b: octet, d: nat, digit: nat): octet {
    (b + if digit == 0 then d * 16 else d) % 256
  }

  function Cleared(data: seq<octet>, n: nat): (r: seq<octet>)
    requires n <= |data|
    ensures |r| == |data| && r[n..] == data[n..]
    ensures forall i :: 0 <= i < n ==> r[i] == 0
  {
    seq(n, _ => 0) + data[n..]
  }

  function ValidDigits(hex: string): (k: nat)
    ensures AllDigits(hex, k)
    ensures k < |hex| ==> Digit(hex[k]) == None
    decreases |hex|
  {
    if hex == "" || Digit(hex[0]) == None then 0
    else
      var k := ValidDigits(hex[1..]);
      assert forall i :: 1 <= i < k + 1 ==> hex[i] == hex[1..][i - 1];
      k + 1
  }

  lemma ValidDigitsIs(hex: string, k: nat)
    requires AllDigits(hex, k)
    requires k == |hex| || Digit(hex[k]) == None
    ensures ValidDigits(hex) == k
  {
    var v := ValidDigits(hex);
    if v < k {
      assert false;
    }
  }

  method FromHex(hex: string, data: array<octet>) returns (ok: bool)
    requires Fits(hex, data.Length)
    modifies data
    ensures ok <==> ValidDigits(hex) == |hex|
    ensures data[..] == Accumulated(Cleared(old(data[..]), |hex| / 2), hex, ValidDigits(hex))
  {
    var dataLength := |hex| / 2;
    forall j | 0 <= j < dataLength {
      data[j] := 0;
    }
    ghost var cleared := Cleared(old(data[..]), dataLength);
    assert data[..] == cleared;
    var index := 0;
    while index < |hex|
      invariant AllDigits(hex, index)
      invariant data[..] == Accumulated(cleared, hex, index)
    {
      var value := Digit(hex[index]);
      if value == None {
        ValidDigitsIs(hex, index);
        return false;
      }
      ghost var before := data[..];
      var shifted := if (index + 1) % 2 == 1 then value.value * 16 else value.value;
      data[index / 2] := (data[index / 2] + shifted) % 256;
      assert data[..] == before[index / 2 := Sum(before[index / 2], value.value, index % 2)];
      index := index + 1;
    }
    ValidDigitsIs(hex, index);
    return true;
  }

  // --- Round trip ---------------------------------------------------------------------------

  lemma {:induction false} HexTextDigits(data: seq<octet>, i: nat)
    requires i < |data|
    ensures Digit(HexText(data)[2 * i]) == Some(data[i] / 16)
    ensures Digit(HexText(data)[2 * i + 1]) == Some(data[i] % 16)
    decreases |data|
  {
    var n := |data| - 1;
    if i < n {
      HexTextDigits(data[..n], i);
    }
  }

  /** Each octet is printed as the lower-case digits of its two halves. */
  lemma {:induction false} HexTextIs(data: seq<octet>, i: nat)
    requires i < |data|
    ensures HexText(data)[2 * i] == "0123456789abcdef"[data[i] / 16]
    ensures HexText(data)[2 * i + 1] == "0123456789abcdef"[data[i] % 16]
    decreases |data|
  {
    var n := |data| - 1;
    if i < n {
      HexTextIs(data[..n], i);
    } else {
      LowerDigitIs(data[n] / 16);
      LowerDigitIs(data[n] % 16);
    }
  }

  lemma LowerDigitIs(d: nat)
    requires d < 16
    ensures LowerDigit(d) == "0123456789abcdef"[d]
  {
  }

  lemma UpperDigitIs(d: nat)
    requires d < 16
    ensures UpperDigit(d) == "0123456789ABCDEF"[d]
  {
  }

  /** The parser takes the digits of both cases and nothing else. */
  lemma DigitIff(c: char, d: nat)
    ensures Digit(c) == Some(d) <==> d < 16 && (c == "0123456789abcdef"[d] || c == "0123456789ABCDEF"[d])
  {
    if d < 16 {
      LowerDigitIs(d);
      UpperDigitIs(d);
    }
  }

  lemma HexTextIsValid(data: seq<octet>)
    ensures AllDigits(HexText(data), |HexText(data)|)
    ensures ValidDigits(HexText(data)) == |HexText(data)|
  {
    forall i | 0 <= i < |HexText(data)| ensures Digit(HexText(data)[i]).Some? {
      HexTextDigits(data, i / 2);
    }
    ValidDigitsIs(HexText(data), |HexText(data)|);
  }

  lemma AddDigit(data: seq<octet>, hex: string, k: nat, j: nat, i: nat)
    requires Fits(hex, |data|) && AllDigits(hex, k + 1)
    requires j == k / 2 && i == k % 2
    ensures j < |data| && AllDigits(hex, k)
    ensures var b := Accumulated(data, hex, k);
            Accumulated(data, hex, k + 1) == b[j := Sum(b[j], Digit(hex[k]).value, i)]
  {
  }

  lemma SumPair(b: octet)
    ensures Sum(Sum(0, b / 16, 0), b % 16, 1) == b
  {
    var hi, lo := b / 16 * 16, b % 16;
    assert b == hi + lo;
    assert Sum(0, b / 16, 0) == hi;
  }

  /** The two digits of an octet added to a clear one, the high digit first. */
  lemma PairFills(data: seq<octet>, hex: string, k: nat, b: octet)
    requires Fits(hex, |data|) && AllDigits(hex, 2 * k + 2)
    requires Digit(hex[2 * k]) == Some(b / 16) && Digit(hex[2 * k + 1]) == Some(b % 16)
    ensures k < |data| && AllDigits(hex, 2 * k)
    ensures var before := Accumulated(data, hex, 2 * k);
            before[k] == 0 ==> Accumulated(data, hex, 2 * (k + 1)) == before[k := b]
  {
    AddDigit(data, hex, 2 * k, k, 0);
    AddDigit(data, hex, 2 * k + 1, k, 1);
    SumPair(b);
  }

  /** One more octet taken from the data. */
  lemma OneMore(data: seq<octet>, rest: seq<octet>, k: nat)
    requires 0 < k <= |data| <= |rest|
    ensures |data[..k - 1] + rest[k - 1..]| == |rest|
    ensures (data[..k - 1] + rest[k - 1..])[k - 1] == rest[k - 1]
    ensures (data[..k - 1] + rest[k - 1..])[k - 1 := data[k - 1]] == data[..k] + rest[k..]
  {
  }

  lemma {:induction false} PairsFill(data: seq<octet>, buffer: seq<octet>, k: nat)
    requires k <= |data| <= |buffer|
    ensures AllDigits(HexText(data), 2 * k)
    ensures Accumulated(Cleared(buffer, |data|), HexText(data), 2 * k)
         == data[..k] + Cleared(buffer, |data|)[k..]
    decreases k
  {
    var hex, cleared := HexText(data), Cleared(buffer, |data|);
    HexTextIsValid(data);
    if k == 0 {
      assert data[..0] + cleared[0..] == cleared;
    } else {
      PairsFill(data, buffer, k - 1);
      HexTextDigits(data, k - 1);
      OneMore(data, cleared, k);
      PairFills(cleared, hex, k - 1, data[k - 1]);
    }
  }

  /** Parsing what was printed restores the octets, whatever the buffer held, and touches no others. */
  lemma HexRoundTrip(data: seq<octet>, buffer: seq<octet>)
    requires |data| <= |buffer|
    ensures var hex := HexText(data);
            && ValidDigits(hex) == |hex|
            && Accumulated(Cleared(buffer, |hex| / 2), hex, |hex|) == data + buffer[|data|..]
  {
    var hex, n := HexText(data), |data|;
    assert |hex| / 2 == n;
    HexTextIsValid(data);
    PairsFill(data, buffer, n);
    assert data[..n] == data;
  }

  lemma {:induction false} LaterUntouched(data: seq<octet>, hex: string, k: nat, j: nat)
    requires Fits(hex, |data|) && AllDigits(hex, k) && k <= 2 * j && j < |data|
    ensures Accumulated(data, hex, k)[j] == data[j]
    decreases k
  {
    if k > 0 {
      LaterUntouched(data, hex, k - 1, j);
    }
  }

  /**
   An odd number of digits: the octet of the last one is not cleared, so the digit is added to what the
   buffer held, although a comment at util.cpp:151 allows for such a length.
   */
  lemma OddDigitAdded(hex: string, buffer: seq<octet>)
    requires |hex| % 2 == 1 && AllDigits(hex, |hex|) && Fits(hex, |buffer|)
    ensures var n := |hex| / 2;
            && n < |buffer|
            && Accumulated(Cleared(buffer, n), hex, |hex|)[n]
               == (buffer[n] + 16 * Digit(hex[|hex| - 1]).value) % 256
  {
    var n := |hex| / 2;
    var cleared := Cleared(buffer, n);
    assert 2 * n == |hex| - 1;
    LaterUntouched(cleared, hex, 2 * n, n);
    AddDigit(cleared, hex, 2 * n, n, 0);
    assert cleared[n] == cleared[n..][0] == buffer[n..][0] == buffer[n];
  }
}
