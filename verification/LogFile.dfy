/** The `.qa` file format: magic, one CBOR header, then CBOR entries to the end
    of the file. */
module LogFile {
  import opened Bytes
  import opened Wrappers
  import opened LogModel

  const MAGIC: Bytes := [0x51, 0x41, 0x55, 0x44, 0x49, 0x54, 0x30, 0x31]

  /** A stream codec: `dec` reads one item off the front of a byte string and
      says how many bytes it took. */
  datatype Codec<!T> = Codec(enc: T -> Bytes, dec: Bytes -> Option<(T, nat)>)

  /** What CBOR items are (section 3 of RFC 8949): an encoding decodes to what
      was encoded, and decoding looks at no byte beyond the item it returns. */
  ghost predicate SelfDelimiting<T(!new)>(c: Codec<T>)
  {
    && (forall x :: c.dec(c.enc(x)) == Some((x, |c.enc(x)|)))
    && (forall b | c.dec(b).Some? :: 0 < c.dec(b).value.1 <= |b|)
    && (forall b, rest | c.dec(b).Some? :: c.dec(b + rest) == c.dec(b))
  }

  const HeaderCbor: Codec<LogHeader>
  const EntryCbor: Codec<LogEntry>

  /** The assumption every theorem here makes on the CBOR library. */
  ghost predicate CborIsSelfDelimiting()
  {
    SelfDelimiting(HeaderCbor) && SelfDelimiting(EntryCbor)
  }

  // ----- writing and reading, as functions ----------------------------------

  function EntriesBytes(entries: seq<LogEntry>): Bytes
  {
    if entries == [] then [] else EntryCbor.enc(entries[0]) + EntriesBytes(entries[1..])
  }

  function HeaderBytes(h: LogHeader): Bytes { MAGIC + HeaderCbor.enc(h) }

  function FileBytes(log: Log): Bytes { HeaderBytes(log.header) + EntriesBytes(log.entries) }

  lemma {:induction false} EntriesBytesSnoc(entries: seq<LogEntry>, i: nat)
    requires i < |entries|
    ensures EntriesBytes(entries[..i + 1]) == EntriesBytes(entries[..i]) + EntryCbor.enc(entries[i])
  {
    assert entries[..i + 1] == entries[..i] + [entries[i]];
    EntriesBytesConcat(entries[..i], [entries[i]]);
  }

  /** Entry after entry until the input is used up; input that stops inside an
      entry is an error. */
  function ParseEntries(b: Bytes): Result<seq<LogEntry>, LogError>
    decreases |b|
  {
    if b == [] then Ok([])
    else
      match EntryCbor.dec(b)
      case None => Err(BadCbor)
      case Some((e, n)) =>
        if n == 0 || n > |b| then Err(BadCbor)
        else
          match ParseEntries(b[n..])
          case Err(f) => Err(f)
          case Ok(rest) => Ok([e] + rest)
  }

  function ParseFile(b: Bytes): Result<Log, LogError>
  {
    if |b| < |MAGIC| then Err(UnexpectedEof)
    else if b[..|MAGIC|] != MAGIC then Err(BadHeader)
    else
      match HeaderCbor.dec(b[|MAGIC|..])
      case None => Err(BadCbor)
      case Some((h, n)) =>
        if n > |b| - |MAGIC| then Err(BadCbor)
        else if HeaderFault(h).Some? then Err(HeaderFault(h).value)
        else
          match ParseEntries(b[|MAGIC| + n..])
          case Err(f) => Err(f)
          case Ok(entries) => Ok(Log(h, entries))
  }

  // ----- the codec at item boundaries ---------------------------------------

  /** An item followed by anything decodes to the item. */
  lemma {:induction false} DecodesThenRest<T(!new)>(c: Codec<T>, x: T, rest: Bytes)
    requires SelfDelimiting(c)
    ensures c.enc(x) != []
    ensures c.dec(c.enc(x) + rest) == Some((x, |c.enc(x)|))
  {
    assert c.dec(c.enc(x)).Some?;
  }

  /** A strict prefix of an item does not decode. */
  lemma {:induction false} CutItemFails<T(!new)>(c: Codec<T>, x: T, k: nat)
    requires SelfDelimiting(c) && k < |c.enc(x)|
    ensures c.dec(c.enc(x)[..k]).None?
  {
    var b := c.enc(x);
    var front, rest := b[..k], b[k..];
    assert b == front + rest;
    assert c.dec(b) == Some((x, |b|));
    assert c.dec(front).Some? ==> c.dec(front + rest) == c.dec(front);
  }

  // ----- round trip ---------------------------------------------------------

  lemma {:induction false} ParseOneMore(e: LogEntry, rest: Bytes)
    requires SelfDelimiting(EntryCbor)
    ensures ParseEntries(EntryCbor.enc(e) + rest) ==
            match ParseEntries(rest) case Err(f) => Err(f) case Ok(more) => Ok([e] + more)
  {
    var b := EntryCbor.enc(e);
    DecodesThenRest(EntryCbor, e, rest);
    assert (b + rest)[|b|..] == rest;
  }

  lemma {:induction false} ParseEntriesOfBytes(entries: seq<LogEntry>)
    requires SelfDelimiting(EntryCbor)
    ensures ParseEntries(EntriesBytes(entries)) == Ok(entries)
    decreases |entries|
  {
    if entries != [] {
      ParseOneMore(entries[0], EntriesBytes(entries[1..]));
      ParseEntriesOfBytes(entries[1..]);
      assert entries == [entries[0]] + entries[1..];
    }
  }

  lemma {:induction false} ParseAfterHeader(h: LogHeader, rest: Bytes)
    requires SelfDelimiting(HeaderCbor)
    ensures ParseFile(HeaderBytes(h) + rest) ==
            if HeaderFault(h).Some? then Err(HeaderFault(h).value)
            else match ParseEntries(rest) case Err(f) => Err(f) case Ok(entries) => Ok(Log(h, entries))
  {
    hide ParseEntries;
    var e := HeaderCbor.enc(h);
    var b := HeaderBytes(h) + rest;
    DecodesThenRest(HeaderCbor, h, rest);
    assert b[..8] == MAGIC;
    assert b[8..] == e + rest;
    assert b[8 + |e|..] == rest;
  }

  /** Reading back a saved log restores header and entries exactly when its
      header is one the reader accepts. */
  lemma {:induction false} ReadAfterSave(log: Log)
    requires CborIsSelfDelimiting()
    ensures ParseFile(FileBytes(log)) ==
            if ValidHeader(log.header) then Ok(log) else Err(HeaderFault(log.header).value)
  {
    ParseAfterHeader(log.header, EntriesBytes(log.entries));
    ParseEntriesOfBytes(log.entries);
  }

  /** Nothing but this file format is read: eight bytes of magic and a header of
      this version and suite with a key of the right length. */
  lemma {:induction false} OnlyOwnFormat(b: Bytes)
    ensures ParseFile(b).Ok? ==>
              && |b| >= 8 && (forall i | 0 <= i < 8 :: b[i] as int == "QAUDIT01"[i] as int)
              && var h := ParseFile(b).value.header;
                 h.wireVersion == 1 && h.suite == "cspq-2026" && |h.pubkey| == 2592
  {
    hide ParseEntries;
    if ParseFile(b).Ok? {
      forall i | 0 <= i < 8 ensures b[i] as int == "QAUDIT01"[i] as int {
        assert b[i] == b[..8][i] == MAGIC[i];
      }
    }
  }

  // ----- truncation ---------------------------------------------------------

  /** Where the first n entries end. */
  function Boundary(log: Log, n: nat): nat
    requires n <= |log.entries|
  {
    |FileBytes(Prefix(log, n))|
  }

  lemma {:induction false} EntriesBytesConcat(a: seq<LogEntry>, b: seq<LogEntry>)
    ensures EntriesBytes(a + b) == EntriesBytes(a) + EntriesBytes(b)
    decreases |a|
  {
    if a == [] {
      assert a + b == b;
    } else {
      assert (a + b)[1..] == a[1..] + b;
      EntriesBytesConcat(a[1..], b);
    }
  }

  /** A cut inside the entries parses exactly at an entry boundary. */
  lemma {:induction false} CutEntries(entries: seq<LogEntry>, k: nat) returns (n: nat)
    requires SelfDelimiting(EntryCbor) && k < |EntriesBytes(entries)|
    ensures n < |entries|
    ensures |EntriesBytes(entries[..n])| <= k < |EntriesBytes(entries[..n + 1])|
    ensures ParseEntries(EntriesBytes(entries)[..k]) ==
            if k == |EntriesBytes(entries[..n])| then Ok(entries[..n]) else Err(BadCbor)
    decreases |entries|
  {
    hide SelfDelimiting, ParseEntries;
    var e, rest := EntryCbor.enc(entries[0]), EntriesBytes(entries[1..]);
    if k < |e| {
      n := 0;
      assert entries[..0] == [] && entries[..1] == [entries[0]];
      assert EntriesBytes([entries[0]]) == e + EntriesBytes([]);
      assert (e + rest)[..k] == e[..k];
      CutFirstEntry(entries[0], k);
    } else {
      var m := CutEntries(entries[1..], k - |e|);
      n := m + 1;
      ConsPrefix(entries, m);
      ConsPrefix(entries, m + 1);
      assert (e + rest)[..k] == e + rest[..k - |e|];
      ParseOneMore(entries[0], rest[..k - |e|]);
      assert entries[..n] == [entries[0]] + entries[1..][..m];
    }
  }

  lemma {:induction false} ConsPrefix(entries: seq<LogEntry>, m: nat)
    requires m < |entries|
    ensures EntriesBytes(entries[..m + 1]) == EntryCbor.enc(entries[0]) + EntriesBytes(entries[1..][..m])
  {
    assert entries[..m + 1][1..] == entries[1..][..m];
  }

  lemma {:induction false} CutFirstEntry(e: LogEntry, k: nat)
    requires SelfDelimiting(EntryCbor) && k < |EntryCbor.enc(e)|
    ensures ParseEntries(EntryCbor.enc(e)[..k]) == if k == 0 then Ok([]) else Err(BadCbor)
  {
    CutItemFails(EntryCbor, e, k);
  }

  /** A cut before the first entry is always rejected. */
  lemma {:induction false} CutHeaderRejected(log: Log, k: nat)
    requires CborIsSelfDelimiting() && k < |HeaderBytes(log.header)|
    ensures ParseFile(FileBytes(log)[..k]).Err?
  {
    var b := FileBytes(log)[..k];
    if k >= 8 {
      var e := HeaderCbor.enc(log.header);
      assert b[8..] == e[..k - 8];
      CutItemFails(HeaderCbor, log.header, k - 8);
    }
  }

  /** Truncation: a saved file cut anywhere short of its end is rejected,
      unless the cut falls exactly on an entry boundary, and then it reads
      back as the log with that prefix of entries. */
  lemma {:induction false} TruncatedFile(log: Log, k: nat)
    requires CborIsSelfDelimiting() && ValidHeader(log.header) && k < |FileBytes(log)|
    ensures ParseFile(FileBytes(log)[..k]).Ok? <==>
            exists n | 0 <= n < |log.entries| :: k == Boundary(log, n)
    ensures forall n | 0 <= n < |log.entries| && k == Boundary(log, n) ::
              ParseFile(FileBytes(log)[..k]) == Ok(Prefix(log, n))
  {
    hide ParseFile, ParseEntries, SelfDelimiting, EntriesBytes;
    var h := HeaderBytes(log.header);
    if k < |h| {
      CutHeaderRejected(log, k);
    } else {
      var body := EntriesBytes(log.entries);
      var m := CutEntries(log.entries, k - |h|);
      assert FileBytes(log)[..k] == h + body[..k - |h|];
      ParseAfterHeader(log.header, body[..k - |h|]);
      assert Boundary(log, m) == |h| + |EntriesBytes(log.entries[..m])|;
      forall n | 0 <= n < |log.entries| && k == Boundary(log, n) ensures n == m {
        BoundariesAscend(log.entries, n, m);
        BoundariesAscend(log.entries, m, n);
      }
    }
  }

  /** Distinct entry counts end at distinct bytes. */
  lemma {:induction false} BoundariesAscend(entries: seq<LogEntry>, m: nat, n: nat)
    requires SelfDelimiting(EntryCbor) && m <= |entries| && n <= |entries|
    ensures m < n ==> |EntriesBytes(entries[..m])| < |EntriesBytes(entries[..m + 1])| <= |EntriesBytes(entries[..n])|
  {
    if m < n {
      assert entries[..n] == entries[..m + 1] + entries[m + 1..n];
      EntriesBytesConcat(entries[..m + 1], entries[m + 1..n]);
      assert entries[..m + 1] == entries[..m] + [entries[m]];
      EntriesBytesConcat(entries[..m], [entries[m]]);
      DecodesThenRest(EntryCbor, entries[m], []);
    }
  }
}
