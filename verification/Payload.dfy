/** The signed payload of a log entry, byte for byte: a CBOR map (RFC 8949,
    section 3) from five field names to a 16-byte string, an unsigned integer
    and three 32-byte strings. */
module Payload {
  import opened Bytes
  import opened Wrappers

  const U64_LIMIT: nat := 0x1_0000_0000_0000_0000

  type Bytes16 = b: Bytes | |b| == 16 witness seq(16, _ => 0)

  datatype LogId = LogId(bytes: Bytes16)

  // The field names in ASCII.
  const LOG_ID: Bytes := [0x6c, 0x6f, 0x67, 0x5f, 0x69, 0x64]
  const INDEX: Bytes := [0x69, 0x6e, 0x64, 0x65, 0x78]
  const PREV_ROOT: Bytes := [0x70, 0x72, 0x65, 0x76, 0x5f, 0x72, 0x6f, 0x6f, 0x74]
  const EVENT_HASH: Bytes := [0x65, 0x76, 0x65, 0x6e, 0x74, 0x5f, 0x68, 0x61, 0x73, 0x68]
  const NEW_ROOT: Bytes := [0x6e, 0x65, 0x77, 0x5f, 0x72, 0x6f, 0x6f, 0x74]

  /** The low `width` bytes of n, most significant first. */
  function BigEndian(n: nat, width: nat): (b: Bytes)
    ensures |b| == width
    decreases width
  {
    if width == 0 then [] else BigEndian(n / 256, width - 1) + [(n % 256) as Byte]
  }

  function Pow256(width: nat): (p: nat)
    ensures p >= 1
  {
    if width == 0 then 1 else 256 * Pow256(width - 1)
  }

  /** The number a big-endian byte string denotes. */
  function FromBigEndian(b: Bytes): nat
  {
    if b == [] then 0 else 256 * FromBigEndian(b[..|b| - 1]) + b[|b| - 1] as nat
  }

  lemma {:induction false} FromBigEndianInverse(n: nat, width: nat)
    requires n < Pow256(width)
    ensures FromBigEndian(BigEndian(n, width)) == n
    decreases width
  {
    if width > 0 {
      var b := BigEndian(n, width);
      assert b[..width - 1] == BigEndian(n / 256, width - 1);
      FromBigEndianInverse(n / 256, width - 1);
    }
  }

  lemma {:induction false} BigEndianInjective(m: nat, n: nat, width: nat)
    requires m < Pow256(width) && n < Pow256(width)
    requires BigEndian(m, width) == BigEndian(n, width)
    ensures m == n
  {
    FromBigEndianInverse(m, width);
    FromBigEndianInverse(n, width);
  }

  /** CBOR major type 0 in its shortest form, as the encoder writes it. */
  function Uint(n: nat): (b: Bytes)
    ensures |b| == 1 + UintWidth(n)
  {
    if n < 24 then [n as Byte]
    else if n < 0x100 then [24] + BigEndian(n, 1)
    else if n < 0x1_0000 then [25] + BigEndian(n, 2)
    else if n < 0x1_0000_0000 then [26] + BigEndian(n, 4)
    else [27] + BigEndian(n, 8)
  }

  function UintWidth(n: nat): nat
  {
    if n < 24 then 0 else if n < 0x100 then 1 else if n < 0x1_0000 then 2
    else if n < 0x1_0000_0000 then 4 else 8
  }

  lemma {:induction false} WidthFits(n: nat)
    requires 24 <= n < U64_LIMIT
    ensures n < Pow256(UintWidth(n))
  {
    assert Pow256(1) == 0x100;
    assert Pow256(2) == 256 * Pow256(1);
    assert Pow256(4) == 256 * Pow256(3) && Pow256(3) == 256 * Pow256(2);
    assert Pow256(8) == 256 * Pow256(7) && Pow256(7) == 256 * Pow256(6) && Pow256(6) == 256 * Pow256(5)
           && Pow256(5) == 256 * Pow256(4);
  }

  lemma {:induction false} UintInjective(m: nat, n: nat)
    requires m < U64_LIMIT && n < U64_LIMIT
    requires Uint(m) == Uint(n)
    ensures m == n
  {
    var w := UintWidth(m);
    assert w == UintWidth(n);
    if w > 0 {
      assert Uint(m)[1..] == BigEndian(m, w) && Uint(n)[1..] == BigEndian(n, w);
      WidthFits(m);
      WidthFits(n);
      BigEndianInjective(m, n, w);
    } else {
      assert Uint(m)[0] == Uint(n)[0];
    }
  }

  /** Everything before the index value. */
  function Prologue(logId: LogId): (b: Bytes)
    ensures |b| == 31
  {
    [0xa5] + [0x66] + LOG_ID + [0x50] + logId.bytes + [0x65] + INDEX
  }

  /** A 32-byte field: its name as a text string, its value as a byte string. */
  function DigestField(name: Bytes, d: Digest): (b: Bytes)
    requires |name| < 24
    ensures |b| == 1 + |name| + 2 + 32
    ensures b[|name| + 3..] == d.bytes
  {
    [(0x60 + |name|) as Byte] + name + [0x58, 0x20] + d.bytes
  }

  function Epilogue(prevRoot: Digest, eventHash: Digest, newRoot: Digest): (b: Bytes)
    ensures |b| == 132
  {
    DigestField(PREV_ROOT, prevRoot) + DigestField(EVENT_HASH, eventHash) + DigestField(NEW_ROOT, newRoot)
  }

  /** The message an entry's signature covers. */
  function PayloadBytes(logId: LogId, index: nat, prevRoot: Digest, eventHash: Digest, newRoot: Digest): (b: Bytes)
    ensures |b| >= 164
  {
    Prologue(logId) + Uint(index) + Epilogue(prevRoot, eventHash, newRoot)
  }

  lemma {:induction false} PrologueInjective(a: LogId, b: LogId)
    requires Prologue(a) == Prologue(b)
    ensures a == b
  {
    assert Prologue(a)[9..25] == a.bytes && Prologue(b)[9..25] == b.bytes;
  }

  lemma {:induction false} EpilogueInjective(p: Digest, e: Digest, n: Digest, p': Digest, e': Digest, n': Digest)
    requires Epilogue(p, e, n) == Epilogue(p', e', n')
    ensures p == p' && e == e' && n == n'
  {
    var p1, p2 := DigestField(PREV_ROOT, p), DigestField(PREV_ROOT, p');
    var e1, e2 := DigestField(EVENT_HASH, e), DigestField(EVENT_HASH, e');
    var n1, n2 := DigestField(NEW_ROOT, n), DigestField(NEW_ROOT, n');
    SplitEqual(p1 + e1, n1, p2 + e2, n2);
    SplitEqual(p1, e1, p2, e2);
  }

  /** A signature on a payload binds all five fields: no two field tuples have
      the same encoding. */
  lemma {:induction false} PayloadInjective(
      a: LogId, i: nat, p: Digest, e: Digest, n: Digest,
      a': LogId, i': nat, p': Digest, e': Digest, n': Digest)
    requires i < U64_LIMIT && i' < U64_LIMIT
    requires PayloadBytes(a, i, p, e, n) == PayloadBytes(a', i', p', e', n')
    ensures a == a' && i == i' && p == p' && e == e' && n == n'
  {
    SplitEqual(Prologue(a) + Uint(i), Epilogue(p, e, n), Prologue(a') + Uint(i'), Epilogue(p', e', n'));
    SplitEqual(Prologue(a), Uint(i), Prologue(a'), Uint(i'));
    PrologueInjective(a, a');
    UintInjective(i, i');
    EpilogueInjective(p, e, n, p', e', n');
  }

  // ----- a CBOR reader for what is signed: section 3 of RFC 8949 ------------

  datatype Scalar = UInt(n: nat) | ByteString(bytes: Bytes) | Text(bytes: Bytes)

  /** The head of an item: major type, argument, and what follows. */
  function ReadHead(b: Bytes): Option<(nat, nat, Bytes)>
  {
    if b == [] then None
    else
      var major, info := b[0] as nat / 32, b[0] as nat % 32;
      if info < 24 then Some((major, info, b[1..]))
      else if info < 28 then
        var w := if info == 24 then 1 else if info == 25 then 2 else if info == 26 then 4 else 8;
        if |b| < 1 + w then None else Some((major, FromBigEndian(b[1..1 + w]), b[1 + w..]))
      else None
  }

  function ReadScalar(b: Bytes): (r: Option<(Scalar, Bytes)>)
  {
    match ReadHead(b)
    case None => None
    case Some((major, n, rest)) =>
      if major == 0 then Some((UInt(n), rest))
      else if major == 2 && n <= |rest| then Some((ByteString(rest[..n]), rest[n..]))
      else if major == 3 && n <= |rest| then Some((Text(rest[..n]), rest[n..]))
      else None
  }

  /** n key-value pairs. */
  function ReadPairs(n: nat, b: Bytes): Option<(seq<(Scalar, Scalar)>, Bytes)>
  {
    if n == 0 then Some(([], b))
    else
      match ReadScalar(b)
      case None => None
      case Some((key, rest)) =>
        match ReadScalar(rest)
        case None => None
        case Some((value, rest')) =>
          match ReadPairs(n - 1, rest')
          case None => None
          case Some((more, end)) => Some(([(key, value)] + more, end))
  }

  function ReadMap(b: Bytes): Option<(seq<(Scalar, Scalar)>, Bytes)>
  {
    match ReadHead(b)
    case None => None
    case Some((major, n, rest)) => if major == 5 then ReadPairs(n, rest) else None
  }

  lemma {:induction false} ReadsUint(n: nat, rest: Bytes)
    requires n < U64_LIMIT
    ensures ReadScalar(Uint(n) + rest) == Some((UInt(n), rest))
  {
    if n < 24 {
      assert (Uint(n) + rest)[1..] == rest;
    } else {
      ReadsWideUint(n, rest);
    }
  }

  lemma {:induction false} ReadsWideUint(n: nat, rest: Bytes)
    requires 24 <= n < U64_LIMIT
    ensures ReadScalar(Uint(n) + rest) == Some((UInt(n), rest))
  {
    hide Uint, BigEndian, FromBigEndian, Pow256;
    var b, w := Uint(n) + rest, UintWidth(n);
    WidthFits(n);
    FromBigEndianInverse(n, w);
    UintParts(n);
    assert b[0] == Uint(n)[0] && b[1..1 + w] == Uint(n)[1..1 + w] && b[1 + w..] == rest;
  }

  lemma {:induction false} UintParts(n: nat)
    requires n >= 24
    ensures Uint(n)[1..1 + UintWidth(n)] == BigEndian(n, UintWidth(n))
    ensures Uint(n)[0] as int == match UintWidth(n) case 1 => 24 case 2 => 25 case 4 => 26 case _ => 27
  {
    hide BigEndian;
  }

  lemma {:induction false} ReadsText(name: Bytes, rest: Bytes)
    requires |name| < 24
    ensures ReadScalar([(0x60 + |name|) as Byte] + name + rest) == Some((Text(name), rest))
  {
    var b := [(0x60 + |name|) as Byte] + name + rest;
    assert b[1..] == name + rest;
    assert (name + rest)[..|name|] == name && (name + rest)[|name|..] == rest;
  }

  lemma {:induction false} ReadsShortBytes(x: Bytes, rest: Bytes)
    requires |x| < 24
    ensures ReadScalar([(0x40 + |x|) as Byte] + x + rest) == Some((ByteString(x), rest))
  {
    var b := [(0x40 + |x|) as Byte] + x + rest;
    assert b[1..] == x + rest;
    assert (x + rest)[..|x|] == x && (x + rest)[|x|..] == rest;
  }

  lemma {:induction false} ReadsDigest(d: Digest, rest: Bytes)
    ensures ReadScalar([0x58, 0x20] + d.bytes + rest) == Some((ByteString(d.bytes), rest))
  {
    var b := [0x58, 0x20] + d.bytes + rest;
    assert b[1..2] == [0x20] && [0x20 as Byte][..0] == [];
    assert FromBigEndian(b[1..2]) == 32;
    assert b[2..] == d.bytes + rest;
    assert (d.bytes + rest)[..32] == d.bytes && (d.bytes + rest)[32..] == rest;
  }

  lemma {:induction false} ReadsPair(n: nat, b: Bytes, key: Scalar, rest: Bytes, value: Scalar, rest': Bytes)
    requires n > 0 && ReadScalar(b) == Some((key, rest)) && ReadScalar(rest) == Some((value, rest'))
    ensures ReadPairs(n, b) == match ReadPairs(n - 1, rest')
                               case None => None
                               case Some((more, end)) => Some(([(key, value)] + more, end))
  {
    hide ReadScalar;
  }

  lemma {:induction false} ReadsDigestField(n: nat, name: Bytes, d: Digest, rest: Bytes)
    requires n > 0 && |name| < 24
    ensures ReadPairs(n, DigestField(name, d) + rest) ==
            match ReadPairs(n - 1, rest)
            case None => None
            case Some((more, end)) => Some(([(Text(name), ByteString(d.bytes))] + more, end))
  {
    hide ReadScalar, ReadPairs;
    var value := [0x58, 0x20] + d.bytes + rest;
    ReadsText(name, value);
    ReadsDigest(d, rest);
    assert DigestField(name, d) + rest == [(0x60 + |name|) as Byte] + name + value;
    ReadsPair(n, DigestField(name, d) + rest, Text(name), value, ByteString(d.bytes), rest);
  }

  lemma {:induction false} ReadsEpilogue(p: Digest, e: Digest, n: Digest)
    ensures ReadPairs(3, Epilogue(p, e, n)) ==
            Some(([(Text(PREV_ROOT), ByteString(p.bytes)), (Text(EVENT_HASH), ByteString(e.bytes)),
                   (Text(NEW_ROOT), ByteString(n.bytes))], []))
  {
    hide ReadScalar, DigestField;
    var a, b, c := DigestField(PREV_ROOT, p), DigestField(EVENT_HASH, e), DigestField(NEW_ROOT, n);
    assert Epilogue(p, e, n) == a + (b + c) && c + [] == c;
    ReadsDigestField(3, PREV_ROOT, p, b + c);
    ReadsDigestField(2, EVENT_HASH, e, c);
    ReadsDigestField(1, NEW_ROOT, n, []);
    var x, y, z := (Text(PREV_ROOT), ByteString(p.bytes)), (Text(EVENT_HASH), ByteString(e.bytes)),
                   (Text(NEW_ROOT), ByteString(n.bytes));
    assert ReadPairs(0, []) == Some(([], []));
    assert ReadPairs(1, c) == Some(([z], [])) by {
      assert [z] + [] == [z];
    }
    assert ReadPairs(2, b + c) == Some(([y, z], [])) by {
      assert [y] + [z] == [y, z];
    }
    assert [x] + [y, z] == [x, y, z];
  }

  predicate Ascii(b: Bytes, s: string)
  {
    |b| == |s| && forall i | 0 <= i < |b| :: b[i] as int == s[i] as int
  }

  /** What is signed, read by anyone with a CBOR reader: a map of five entries,
      in this order and under these names, holding the log id, the index, the
      two roots and the event hash, and nothing after it. */
  lemma {:induction false} PayloadReads(logId: LogId, index: nat, prevRoot: Digest, eventHash: Digest, newRoot: Digest)
    requires index < U64_LIMIT
    ensures ReadMap(PayloadBytes(logId, index, prevRoot, eventHash, newRoot)) ==
            Some(([(Text(LOG_ID), ByteString(logId.bytes)), (Text(INDEX), UInt(index)),
                   (Text(PREV_ROOT), ByteString(prevRoot.bytes)), (Text(EVENT_HASH), ByteString(eventHash.bytes)),
                   (Text(NEW_ROOT), ByteString(newRoot.bytes))], []))
    ensures Ascii(LOG_ID, "log_id") && Ascii(INDEX, "index") && Ascii(PREV_ROOT, "prev_root")
    ensures Ascii(EVENT_HASH, "event_hash") && Ascii(NEW_ROOT, "new_root")
  {
    hide ReadScalar, ReadPairs, Epilogue, Uint;
    var e := Epilogue(prevRoot, eventHash, newRoot);
    var afterIndex := Uint(index) + e;
    var indexField := [0x65] + INDEX + afterIndex;
    var afterId := [0x50] + logId.bytes + indexField;
    var b := PayloadBytes(logId, index, prevRoot, eventHash, newRoot);
    assert b[0] == 0xa5 && b[1..] == [0x66] + LOG_ID + afterId;
    ReadsText(LOG_ID, afterId);
    ReadsShortBytes(logId.bytes, indexField);
    ReadsText(INDEX, afterIndex);
    ReadsUint(index, e);
    ReadsPair(5, b[1..], Text(LOG_ID), afterId, ByteString(logId.bytes), indexField);
    ReadsPair(4, indexField, Text(INDEX), afterIndex, UInt(index), e);
    ReadsEpilogue(prevRoot, eventHash, newRoot);
    var three := [(Text(PREV_ROOT), ByteString(prevRoot.bytes)), (Text(EVENT_HASH), ByteString(eventHash.bytes)),
                  (Text(NEW_ROOT), ByteString(newRoot.bytes))];
    assert ReadPairs(4, indexField) == Some(([(Text(INDEX), UInt(index))] + three, []));
    assert ReadHead(b) == Some((5, 5, b[1..]));
    var first := (Text(LOG_ID), ByteString(logId.bytes));
    assert ReadPairs(5, b[1..]) == Some(([first] + ([(Text(INDEX), UInt(index))] + three), []));
    assert [first] + ([(Text(INDEX), UInt(index))] + three) ==
           [first, (Text(INDEX), UInt(index)), three[0], three[1], three[2]];
  }
}
