/** Byte strings, BLAKE3 as an uninterpreted function, and lower-case hex.

    `Blake3` has no definition: every theorem in the project holds for every
    function from byte strings to 32-byte digests.  No global collision freedom
    is ever assumed (no such function exists); a binding theorem names the
    finite set of inputs that were hashed and asks for freedom from collisions
    on that set alone. */
module Bytes {
  import opened Wrappers

  newtype Byte = x: int | 0 <= x < 256

  type Bytes = seq<Byte>

  type Bytes32 = b: Bytes | |b| == 32 witness seq(32, _ => 0)

  datatype Digest = Digest(bytes: Bytes32)

  const ZERO_DIGEST := Digest(Zeros(32))

  function Zeros(n: nat): (b: Bytes)
    ensures |b| == n
  {
    if n == 0 then [] else [0] + Zeros(n - 1)
  }

  const Blake3: Bytes -> Digest

  /** The hash separates any two distinct members of `inputs`. */
  ghost predicate CollisionFreeOn(inputs: set<Bytes>)
  {
    forall x, y | x in inputs && y in inputs && Blake3(x) == Blake3(y) :: x == y
  }

  /** No member of `inputs` hashes to the all-zero root of the empty tree. */
  ghost predicate NeverZeroOn(inputs: set<Bytes>)
  {
    forall x | x in inputs :: Blake3(x) != ZERO_DIGEST
  }

  /** A concatenation determines its parts once the length of one is known. */
  lemma {:induction false} SplitEqual(a: Bytes, b: Bytes, a': Bytes, b': Bytes)
    requires a + b == a' + b'
    requires |a| == |a'| || |b| == |b'|
    ensures a == a' && b == b'
  {
    assert |a + b| == |a' + b'|;
    assert a == (a + b)[..|a|] && a' == (a' + b')[..|a|];
    assert b == (a + b)[|a|..] && b' == (a' + b')[|a|..];
  }

  function HexDigit(n: int): (c: char)
    requires 0 <= n < 16
    ensures '0' <= c <= '9' || 'a' <= c <= 'f'
  {
    "0123456789abcdef"[n]
  }

  /** `hex::encode`: two lower-case digits per byte. */
  function HexEncode(b: Bytes): (s: string)
    ensures |s| == 2 * |b|
  {
    if b == [] then "" else [HexDigit(b[0] as int / 16), HexDigit(b[0] as int % 16)] + HexEncode(b[1..])
  }

  /** High digit first, in lower case, byte after byte. */
  lemma {:induction false} HexText(b: Bytes, i: nat)
    requires i < |b|
    ensures HexEncode(b)[2 * i] == "0123456789abcdef"[b[i] as int / 16]
    ensures HexEncode(b)[2 * i + 1] == "0123456789abcdef"[b[i] as int % 16]
    decreases |b|
  {
    if i > 0 {
      HexText(b[1..], i - 1);
    }
  }

  /** The value of one hex digit, in either case. */
  function HexValue(c: char): (r: Option<int>)
    ensures r.Some? ==> 0 <= r.value < 16
  {
    if '0' <= c <= '9' then Some(c as int - '0' as int)
    else if 'a' <= c <= 'f' then Some(c as int - 'a' as int + 10)
    else if 'A' <= c <= 'F' then Some(c as int - 'A' as int + 10)
    else None
  }

  /** `hex::decode`: both cases are accepted, odd lengths are not. */
  function HexDecode(s: string): (r: Option<Bytes>)
    ensures r.Some? ==> |s| == 2 * |r.value|
  {
    if s == "" then Some([])
    else if |s| == 1 then None
    else
      var hi, lo, rest := HexValue(s[0]), HexValue(s[1]), HexDecode(s[2..]);
      if hi.Some? && lo.Some? && rest.Some?
      then Some([(hi.value * 16 + lo.value) as Byte] + rest.value)
      else None
  }

  lemma {:induction false} HexDigitValue(n: int)
    requires 0 <= n < 16
    ensures HexValue(HexDigit(n)) == Some(n)
  {
  }

  lemma {:induction false} HexDecodeStep(hi: int, lo: int, rest: string)
    requires 0 <= hi < 16 && 0 <= lo < 16 && HexDecode(rest).Some?
    ensures HexDecode([HexDigit(hi), HexDigit(lo)] + rest) == Some([(hi * 16 + lo) as Byte] + HexDecode(rest).value)
  {
    hide HexDigit, HexValue;
    HexDigitValue(hi);
    HexDigitValue(lo);
    var text := [HexDigit(hi), HexDigit(lo)] + rest;
    assert text[2..] == rest && text[0] == HexDigit(hi) && text[1] == HexDigit(lo);
  }

  /** Decoding undoes encoding. */
  lemma {:induction false} HexRoundTrip(b: Bytes)
    ensures HexDecode(HexEncode(b)) == Some(b)
  {
    hide HexDigit, HexValue, HexDecode;
    if b == [] {
      EmptyHex();
    } else {
      HexRoundTrip(b[1..]);
      HexDecodeStep(b[0] as int / 16, b[0] as int % 16, HexEncode(b[1..]));
      assert b == [b[0]] + b[1..];
    }
  }

  lemma {:induction false} EmptyHex()
    ensures HexDecode("") == Some([])
  {
  }
}
