/** TLS records on a byte stream: sealing as an opaque encoding that the peer can undo (section 6.2 of RFC 5246). */
module TlsRecords {
  import opened Bytes

  const CHANGE_CIPHER_SPEC: nat := 20
  const ALERT: nat := 21
  const HANDSHAKE: nat := 22
  const APPLICATION_DATA: nat := 23

  datatype Record = Record(kind: nat, body: seq<byte>)
  datatype Opened = Opened(record: Record, used: nat)

  /** Sealing and opening record number n. Sealing may fail; overhead is SSL_max_seal_overhead. */
  datatype Cipher = Cipher(seal: (nat, Record) -> Option<seq<byte>>, open: (nat, seq<byte>) -> Option<Opened>,
                           overhead: nat)

  ghost predicate SealLaw(c: Cipher, n: nat, r: Record) {
    c.seal(n, r).Some? ==> Opens(c, n, r, c.seal(n, r).value)
  }

  ghost predicate Opens(c: Cipher, n: nat, r: Record, s: seq<byte>) {
    && |s| > 0
    && (forall rest: seq<byte> :: c.open(n, s + rest) == Some(Opened(r, |s|)))
    && forall k | 0 <= k < |s| :: c.open(n, s[..k]) == None
  }

  /** What was sealed opens again, whatever follows; an incomplete record does not open. */
  ghost predicate Lawful(c: Cipher) {
    forall n: nat, r: Record :: SealLaw(c, n, r)
  }

  ghost predicate Bounded(c: Cipher) {
    forall n: nat, r: Record :: c.seal(n, r).Some? ==> |c.seal(n, r).value| <= |r.body| + c.overhead
  }

  ghost predicate Sealable(c: Cipher, records: seq<Record>) {
    forall i | 0 <= i < |records| :: c.seal(i, records[i]).Some?
  }

  /** The bytes of records i up to j. */
  ghost function Sealed(c: Cipher, records: seq<Record>, i: nat, j: nat): seq<byte>
    requires Sealable(c, records) && i <= j <= |records|
    decreases j - i
  {
    if i == j then [] else c.seal(i, records[i]).value + Sealed(c, records, i + 1, j)
  }

  /** What a receiver makes of bytes that start at record n. */
  ghost function OpenAll(c: Cipher, n: nat, bytes: seq<byte>): seq<Record>
    decreases |bytes|
  {
    match c.open(n, bytes)
    case None => []
    case Some(Opened(r, used)) =>
      if 0 < used <= |bytes| then [r] + OpenAll(c, n + 1, bytes[used..]) else []
  }

  /** The application bytes in some records. */
  function AppData(records: seq<Record>): seq<byte> {
    if records == [] then []
    else (if records[0].kind == APPLICATION_DATA then records[0].body else []) + AppData(records[1..])
  }

  /** The handshake records ssl3_add_message cuts a message into; an empty one still takes a record. */
  function Chunks(msg: seq<byte>, max: nat): (records: seq<Record>)
    requires max > 0
    ensures records != [] && forall r | r in records :: r.kind == HANDSHAKE && |r.body| <= max
    decreases |msg|
  {
    if |msg| <= max then [Record(HANDSHAKE, msg)] else [Record(HANDSHAKE, msg[..max])] + Chunks(msg[max..], max)
  }

  lemma {:induction false} SealedSplit(c: Cipher, records: seq<Record>, i: nat, m: nat, j: nat)
    requires Sealable(c, records) && i <= m <= j <= |records|
    ensures Sealed(c, records, i, j) == Sealed(c, records, i, m) + Sealed(c, records, m, j)
    decreases m - i
  {
    if i < m { SealedSplit(c, records, i + 1, m, j); }
  }

  lemma {:induction false} SealedOfMore(c: Cipher, records: seq<Record>, more: seq<Record>, i: nat, j: nat)
    requires Sealable(c, records) && Sealable(c, records + more) && i <= j <= |records|
    ensures Sealed(c, records + more, i, j) == Sealed(c, records, i, j)
    decreases j - i
  {
    if i < j { SealedOfMore(c, records, more, i + 1, j); }
  }

  /** Appending a record appends its bytes. */
  lemma SealedSnoc(c: Cipher, records: seq<Record>, r: Record, i: nat)
    requires Sealable(c, records) && c.seal(|records|, r).Some? && i <= |records|
    ensures Sealable(c, records + [r])
    ensures Sealed(c, records + [r], i, |records| + 1) == Sealed(c, records, i, |records|) + c.seal(|records|, r).value
  {
    SealedSplit(c, records + [r], i, |records|, |records| + 1);
    SealedOfMore(c, records, [r], i, |records|);
    assert Sealed(c, records + [r], |records|, |records| + 1) == c.seal(|records|, r).value + [];
  }

  lemma {:induction false} AppDataConcat(a: seq<Record>, b: seq<Record>)
    ensures AppData(a + b) == AppData(a) + AppData(b)
  {
    if a == [] {
      assert a + b == b;
    } else {
      assert (a + b)[1..] == a[1..] + b;
      AppDataConcat(a[1..], b);
    }
  }

  lemma {:induction false} NoAppData(records: seq<Record>)
    requires forall r | r in records :: r.kind != APPLICATION_DATA
    ensures AppData(records) == []
  {
    if records != [] { NoAppData(records[1..]); }
  }

  /**
   From any prefix of the sealed records a receiver opens a prefix of them, and all that are complete.
   */
  lemma {:induction false} OpenPrefix(c: Cipher, records: seq<Record>, i: nat, m: nat, bytes: seq<byte>)
    requires Lawful(c) && Sealable(c, records) && i <= m <= |records|
    requires Sealed(c, records, i, m) <= bytes <= Sealed(c, records, i, |records|)
    ensures records[i..m] <= OpenAll(c, i, bytes) <= records[i..]
    decreases |records| - i
  {
    if i == |records| {
      EmptyOpensToNothing(c, i, records);
    } else {
      var s, tail := c.seal(i, records[i]).value, Sealed(c, records, i + 1, |records|);
      assert SealLaw(c, i, records[i]);
      if |bytes| < |s| {
        assert bytes == s[..|bytes|];
        assert i == m;
      } else {
        assert bytes == s + bytes[|s|..];
        assert bytes[|s|..] <= tail;
        if i < m { assert Sealed(c, records, i + 1, m) <= bytes[|s|..]; }
        OpenPrefix(c, records, i + 1, if i < m then m else i + 1, bytes[|s|..]);
        assert records[i..] == [records[i]] + records[i + 1..];
        if i < m { assert records[i..m] == [records[i]] + records[i + 1..m]; }
      }
    }
  }

  lemma EmptyOpensToNothing(c: Cipher, n: nat, records: seq<Record>)
    ensures OpenAll(c, n, []) == []
  {
  }
}
