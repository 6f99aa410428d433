/**
  The signed audit chain of waf-governance (audit.rs and the append of store.rs). SHA-256 and
  Ed25519 are parameters; what is assumed of them is stated by each theorem.
*/
module AuditChain {
  import opened Prelude

  newtype Byte = x: int | 0 <= x < 256
  const TWO_63: int := 0x8000_0000_0000_0000
  const TWO_64: int := 0x1_0000_0000_0000_0000

  type I64 = x: int | -TWO_63 <= x < TWO_63
  /** Unix nanoseconds of the years -9999 to 9999, the range of `OffsetDateTime`. */
  type Timestamp = x: int | -377_705_116_800_000_000_000 <= x <= 253_402_300_799_999_999_999
  /** UTF-8 text in memory: its length fits a `u64`. */
  type Text = s: seq<Byte> | |s| < TWO_64

  function Repeat(b: Byte, n: nat): (r: seq<Byte>)
    ensures |r| == n
  {
    if n == 0 then [] else [b] + Repeat(b, n - 1)
  }

  /** The fixed `prev_hash` of the first record: 64 ASCII zeros. */
  const GENESIS_PREV: Text := Repeat(48, 64)

  datatype AuditRecord = AuditRecord(
    seqNo: I64, ts: Timestamp, actor: Text, action: Text, target: Option<Text>, details: Text,
    prevHash: Text, hash: Text, signature: Text)

  /** The fields the hash covers; an absent target is hashed as the empty one. */
  datatype Content = Content(
    seqNo: I64, micros: I64, actor: Text, action: Text, target: Text, details: Text, prevHash: Text)

  /** `verify(key, hash, signature)`. */
  datatype Crypto = Crypto(hash: seq<Byte> -> Text, verify: (Text, Text, Text) -> bool)

  /** The digest of hashed fields: SHA-256 after the encoding. */
  function Digest(crypto: Crypto): Content -> Text { (c: Content) => crypto.hash(Encode(c)) }

  /** Nanoseconds to microseconds, truncating toward zero. */
  function TsMicros(nanos: Timestamp): I64 {
    var n: int := nanos;
    if n >= 0 then n / 1000 else -(-n / 1000)
  }

  function Shown(target: Option<Text>): Text { if target.Some? then target.value else [] }

  function ContentOf(r: AuditRecord): Content {
    Content(r.seqNo, TsMicros(r.ts), r.actor, r.action, Shown(r.target), r.details, r.prevHash)
  }

  // ── what the hash covers, field by field ──────────────────────────────────────────────────────

  /** `t` lies in microsecond `m`, counted toward zero from both sides of 1970. */
  predicate InMicrosecond(t: Timestamp, m: int) {
    if t >= 0 then 1000 * m <= t < 1000 * m + 1000 else 1000 * m - 1000 < t <= 1000 * m
  }

  ghost predicate SameMicrosecond(s: Timestamp, t: Timestamp) {
    exists m :: InMicrosecond(s, m) && InMicrosecond(t, m)
  }

  predicate Blank(target: Option<Text>) { target == None || target == Some([]) }

  /** Two records the hash cannot tell apart. */
  ghost predicate SameFields(r: AuditRecord, s: AuditRecord) {
    && r.seqNo == s.seqNo && r.actor == s.actor && r.action == s.action && r.details == s.details
    && r.prevHash == s.prevHash
    && (r.target == s.target || (Blank(r.target) && Blank(s.target)))
    && SameMicrosecond(r.ts, s.ts)
  }

  lemma TsMicrosExact(t: Timestamp, m: int)
    ensures InMicrosecond(t, m) <==> m == TsMicros(t)
  {}

  lemma SameMicrosecondIff(s: Timestamp, t: Timestamp)
    ensures SameMicrosecond(s, t) <==> TsMicros(s) == TsMicros(t)
  {
    TsMicrosExact(s, TsMicros(s));
    TsMicrosExact(t, TsMicros(s));
    if SameMicrosecond(s, t) {
      var m :| InMicrosecond(s, m) && InMicrosecond(t, m);
      TsMicrosExact(s, m);
      TsMicrosExact(t, m);
    }
  }

  /** The hashed fields of two records agree exactly when the records do, up to blank targets and microseconds. */
  lemma HashedAlikeIff(r: AuditRecord, s: AuditRecord)
    ensures ContentOf(r) == ContentOf(s) <==> SameFields(r, s)
  {
    SameMicrosecondIff(r.ts, s.ts);
  }

  /** Timestamps on one side of 1970 share a microsecond only when less than a microsecond apart. */
  lemma FarApart(s: Timestamp, t: Timestamp)
    requires t - s >= (if s < 0 < t then 1999 else 1000)
    ensures !SameMicrosecond(s, t) && !SameMicrosecond(t, s)
  {}

  // ── the encoding and its reader ───────────────────────────────────────────────────────────────

  function Pow256(n: nat): nat { if n == 0 then 1 else 256 * Pow256(n - 1) }

  /** `n` bytes, most significant first. */
  function BigEndian(x: nat, n: nat): (b: seq<Byte>)
    ensures |b| == n
  {
    if n == 0 then [] else BigEndian(x / 256, n - 1) + [(x % 256) as Byte]
  }

  function FromBigEndian(b: seq<Byte>): nat {
    if b == [] then 0 else 256 * FromBigEndian(b[..|b| - 1]) + b[|b| - 1] as nat
  }

  function I64Bytes(x: I64): seq<Byte> { BigEndian(if x < 0 then x + TWO_64 else x, 8) }

  /** A variable field: its length, then its bytes. */
  function Field(f: Text): seq<Byte> { BigEndian(|f|, 8) + f }

  function FieldBytes(actor: Text, action: Text, target: Text, details: Text, prevHash: Text): seq<Byte> {
    Field(actor) + (Field(action) + (Field(target) + (Field(details) + Field(prevHash))))
  }

  function Encode(c: Content): seq<Byte> {
    I64Bytes(c.seqNo) + (I64Bytes(c.micros) + FieldBytes(c.actor, c.action, c.target, c.details, c.prevHash))
  }

  method ComputeHash(crypto: Crypto, seqNo: I64, micros: I64, actor: Text, action: Text, target: Option<Text>,
                     details: Text, prevHash: Text) returns (digest: Text)
    ensures digest == Digest(crypto)(Content(seqNo, micros, actor, action, Shown(target), details, prevHash))
  {
    var ctx := I64Bytes(seqNo);
    ctx := ctx + I64Bytes(micros);
    ctx := Feed(ctx, actor);
    ctx := Feed(ctx, action);
    ctx := Feed(ctx, Shown(target));
    ctx := Feed(ctx, details);
    ctx := Feed(ctx, prevHash);
    FeedsAssociate(I64Bytes(seqNo), I64Bytes(micros), Field(actor), Field(action), Field(Shown(target)), Field(details),
                   Field(prevHash));
    assert ctx == Encode(Content(seqNo, micros, actor, action, Shown(target), details, prevHash));
    return crypto.hash(ctx);
  }

  lemma FeedsAssociate(r: seq<Byte>, s: seq<Byte>, a: seq<Byte>, b: seq<Byte>, c: seq<Byte>, d: seq<Byte>, e: seq<Byte>)
    ensures r + s + a + b + c + d + e == r + (s + (a + (b + (c + (d + e)))))
  {}

  method Feed(ctx: seq<Byte>, field: Text) returns (r: seq<Byte>)
    ensures r == ctx + Field(field)
  {
    r := ctx + BigEndian(|field|, 8);
    r := r + field;
  }

  function ReadI64(b: seq<Byte>): Option<(I64, seq<Byte>)> {
    if |b| < 8 then None
    else
      var n := FromBigEndian(b[..8]);
      if n >= TWO_64 then None else Some((if n < TWO_63 then n else n - TWO_64, b[8..]))
  }

  function ReadField(b: seq<Byte>): Option<(Text, seq<Byte>)> {
    if |b| < 8 then None
    else
      var n := FromBigEndian(b[..8]);
      if 8 + n > |b| || n >= TWO_64 then None else Some((b[8..8 + n], b[8 + n..]))
  }

  function Decode(b: seq<Byte>): Option<Content> {
    match ReadI64(b) case None => None case Some((seqNo, b)) =>
    match ReadI64(b) case None => None case Some((micros, b)) =>
    match ReadField(b) case None => None case Some((actor, b)) =>
    match ReadField(b) case None => None case Some((action, b)) =>
    match ReadField(b) case None => None case Some((target, b)) =>
    match ReadField(b) case None => None case Some((details, b)) =>
    match ReadField(b) case None => None case Some((prevHash, b)) =>
    if b == [] then Some(Content(seqNo, micros, actor, action, target, details, prevHash)) else None
  }

  lemma {:induction false} BigEndianRoundTrip(x: nat, n: nat)
    requires x < Pow256(n)
    ensures FromBigEndian(BigEndian(x, n)) == x
  {
    if n > 0 {
      BigEndianRoundTrip(x / 256, n - 1);
      var b := BigEndian(x, n);
      assert b[..n - 1] == BigEndian(x / 256, n - 1);
    }
  }

  lemma Pow256Of8()
    ensures Pow256(8) == TWO_64
  {
    assert Pow256(2) == 0x1_0000;
    assert Pow256(4) == 0x1_0000_0000;
    assert Pow256(6) == 0x1_0000_0000_0000;
  }

  lemma ReadI64RoundTrip(x: I64, rest: seq<Byte>)
    ensures ReadI64(I64Bytes(x) + rest) == Some((x, rest))
  {
    Pow256Of8();
    BigEndianRoundTrip(if x < 0 then x + TWO_64 else x, 8);
    assert (I64Bytes(x) + rest)[..8] == I64Bytes(x);
  }

  lemma ReadFieldRoundTrip(f: Text, rest: seq<Byte>)
    ensures ReadField(Field(f) + rest) == Some((f, rest))
  {
    Pow256Of8();
    BigEndianRoundTrip(|f|, 8);
    var b := Field(f) + rest;
    assert b[..8] == BigEndian(|f|, 8);
    assert b[8..8 + |f|] == f && b[8 + |f|..] == rest;
  }

  /** The length prefixes leave no ambiguity: the encoding reads back as exactly the hashed fields. */
  lemma DecodeEncode(c: Content)
    ensures Decode(Encode(c)) == Some(c)
  {
    var f5 := Field(c.prevHash);
    assert f5 == f5 + [];
    ReadFieldRoundTrip(c.prevHash, []);
    var f4 := Field(c.details) + f5;
    ReadFieldRoundTrip(c.details, f5);
    var f3 := Field(c.target) + f4;
    ReadFieldRoundTrip(c.target, f4);
    var f2 := Field(c.action) + f3;
    ReadFieldRoundTrip(c.action, f3);
    var f1 := Field(c.actor) + f2;
    ReadFieldRoundTrip(c.actor, f2);
    ReadI64RoundTrip(c.micros, f1);
    ReadI64RoundTrip(c.seqNo, I64Bytes(c.micros) + f1);
  }

  /** The hashed bytes of a record read back as its own fields, its time as the microsecond it lies in. */
  lemma HashedBytesTell(r: AuditRecord) returns (c: Content)
    ensures Decode(Encode(ContentOf(r))) == Some(c)
    ensures c.seqNo == r.seqNo && InMicrosecond(r.ts, c.micros) && c.actor == r.actor && c.action == r.action
    ensures c.target == (match r.target case None => [] case Some(t) => t)
    ensures c.details == r.details && c.prevHash == r.prevHash
  {
    c := ContentOf(r);
    DecodeEncode(c);
    TsMicrosExact(r.ts, c.micros);
  }

  // ── verification ──────────────────────────────────────────────────────────────────────────────

  datatype Fault = PrevHashBroken | HashMismatch | BadSignature
  datatype ChainResult = Intact | Break(index: nat, seqNo: I64, fault: Fault)

  /** What a verifier is given: the digest, the signature check under its key, and the first link. */
  datatype Verifier = Verifier(digest: Content -> Text, signed: (Text, Text) -> bool, genesis: Text)

  function VerifierOf(crypto: Crypto, key: Text): Verifier {
    Verifier(Digest(crypto), (hash: Text, signature: Text) => crypto.verify(key, hash, signature), GENESIS_PREV)
  }

  /** The first check a record fails when it follows hash `prev`. */
  function FaultOf(v: Verifier, r: AuditRecord, prev: Text): Option<Fault> {
    if r.prevHash != prev then Some(PrevHashBroken)
    else if v.digest(ContentOf(r)) != r.hash then Some(HashMismatch)
    else if !v.signed(r.hash, r.signature) then Some(BadSignature)
    else None
  }

  /** The hash the next record must link to. */
  function Head(v: Verifier, records: seq<AuditRecord>): Text {
    if records == [] then v.genesis else records[|records| - 1].hash
  }

  /** Every record passes every check. */
  predicate Sound(v: Verifier, records: seq<AuditRecord>) {
    records == []
    || var prefix := records[..|records| - 1];
       Sound(v, prefix) && FaultOf(v, records[|records| - 1], Head(v, prefix)).None?
  }

  method VerifyChain(crypto: Crypto, records: seq<AuditRecord>, key: Text) returns (r: ChainResult)
    ensures r.Intact? <==> Sound(VerifierOf(crypto, key), records)
    ensures r.Break? ==>
              var v := VerifierOf(crypto, key);
              && r.index < |records| && r.seqNo == records[r.index].seqNo && Sound(v, records[..r.index])
              && FaultOf(v, records[r.index], Head(v, records[..r.index])) == Some(r.fault)
  {
    ghost var v := VerifierOf(crypto, key);
    var prev := GENESIS_PREV;
    for index := 0 to |records|
      invariant prev == Head(v, records[..index]) && Sound(v, records[..index])
    {
      var rec := records[index];
      OneMoreSound(v, records, index);
      if rec.prevHash != prev {
        return Break(index, rec.seqNo, PrevHashBroken);
      }
      var recomputed :=
        ComputeHash(crypto, rec.seqNo, TsMicros(rec.ts), rec.actor, rec.action, rec.target, rec.details, rec.prevHash);
      if recomputed != rec.hash {
        return Break(index, rec.seqNo, HashMismatch);
      }
      if !crypto.verify(key, rec.hash, rec.signature) {
        return Break(index, rec.seqNo, BadSignature);
      }
      prev := rec.hash;
    }
    assert records[..|records|] == records;
    return Intact;
  }

  /** A sound prefix grows by a record without fault, and a sound chain has no other. */
  lemma OneMoreSound(v: Verifier, a: seq<AuditRecord>, n: nat)
    requires n < |a| && Sound(v, a[..n])
    ensures FaultOf(v, a[n], Head(v, a[..n])).None? ==> Sound(v, a[..n + 1]) && Head(v, a[..n + 1]) == a[n].hash
    ensures Sound(v, a) ==> FaultOf(v, a[n], Head(v, a[..n])).None?
  {
    assert a[..n + 1][..n] == a[..n];
    if Sound(v, a) {
      PrefixSound(v, a, n + 1);
    }
  }

  lemma {:induction false} PrefixSound(v: Verifier, a: seq<AuditRecord>, n: nat)
    requires Sound(v, a) && n <= |a|
    ensures Sound(v, a[..n])
    decreases |a|
  {
    if n == |a| {
      assert a[..n] == a;
    } else {
      PrefixSound(v, a[..|a| - 1], n);
      assert a[..|a| - 1][..n] == a[..n];
    }
  }

  // ── the head pins the history ─────────────────────────────────────────────────────────────────

  /** No record of `a` and record of `b` digest alike with different content, and none digests to genesis. */
  predicate CollisionFree(v: Verifier, a: seq<AuditRecord>, b: seq<AuditRecord>) {
    && (forall x, y :: x in a && y in b && v.digest(ContentOf(x)) == v.digest(ContentOf(y)) ==>
          ContentOf(x) == ContentOf(y))
    && (forall x :: x in a + b ==> v.digest(ContentOf(x)) != v.genesis)
  }

  /** The same said of SHA-256 itself, on the encodings the two chains hash. */
  predicate NoHashCollision(crypto: Crypto, a: seq<AuditRecord>, b: seq<AuditRecord>) {
    && (forall x, y :: x in a && y in b && crypto.hash(Encode(ContentOf(x))) == crypto.hash(Encode(ContentOf(y)))
          ==> Encode(ContentOf(x)) == Encode(ContentOf(y)))
    && (forall x :: x in a + b ==> crypto.hash(Encode(ContentOf(x))) != GENESIS_PREV)
  }

  /** A collision-free hash makes a collision-free digest, because the encoding reads back. */
  lemma HashGivesDigest(crypto: Crypto, key: Text, a: seq<AuditRecord>, b: seq<AuditRecord>)
    requires NoHashCollision(crypto, a, b)
    ensures CollisionFree(VerifierOf(crypto, key), a, b)
  {
    var v := VerifierOf(crypto, key);
    forall x, y | x in a && y in b && v.digest(ContentOf(x)) == v.digest(ContentOf(y))
      ensures ContentOf(x) == ContentOf(y)
    {
      DecodeEncode(ContentOf(x));
      DecodeEncode(ContentOf(y));
    }
  }

  lemma PrefixCollisionFree(v: Verifier, a: seq<AuditRecord>, b: seq<AuditRecord>, m: nat, n: nat)
    requires CollisionFree(v, a, b) && m <= |a| && n <= |b|
    ensures CollisionFree(v, a[..m], b[..n])
  {
    assert forall x :: x in a[..m] ==> x in a;
    assert forall y :: y in b[..n] ==> y in b;
  }

  /** Record by record, the two tell the same under the same hashes. */
  ghost predicate SameHistory(a: seq<AuditRecord>, b: seq<AuditRecord>) {
    |a| == |b| && forall i :: 0 <= i < |a| ==> SameFields(a[i], b[i]) && a[i].hash == b[i].hash
  }

  lemma ExtendHistory(a: seq<AuditRecord>, b: seq<AuditRecord>)
    requires a != [] && b != [] && SameHistory(a[..|a| - 1], b[..|b| - 1])
    requires SameFields(a[|a| - 1], b[|b| - 1]) && a[|a| - 1].hash == b[|b| - 1].hash
    ensures SameHistory(a, b)
  {
    forall i | 0 <= i < |a| - 1 ensures SameFields(a[i], b[i]) && a[i].hash == b[i].hash {
      assert a[..|a| - 1][i] == a[i] && b[..|b| - 1][i] == b[i];
    }
  }

  /** Equal heads of non-empty chains mean equal last contents, hence equal heads before them. */
  lemma EqualHeadsStepBack(v: Verifier, a: seq<AuditRecord>, b: seq<AuditRecord>)
    requires Sound(v, a) && Sound(v, b) && CollisionFree(v, a, b) && Head(v, a) == Head(v, b)
    requires a != [] && b != []
    ensures SameFields(a[|a| - 1], b[|b| - 1])
    ensures Head(v, a[..|a| - 1]) == Head(v, b[..|b| - 1])
  {
    assert a[|a| - 1] in a && b[|b| - 1] in b;
    HashedAlikeIff(a[|a| - 1], b[|b| - 1]);
  }

  lemma HeadIsNotGenesis(v: Verifier, a: seq<AuditRecord>, b: seq<AuditRecord>)
    requires CollisionFree(v, a, b)
    ensures Sound(v, a) && a != [] ==> Head(v, a) != v.genesis
    ensures Sound(v, b) && b != [] ==> Head(v, b) != v.genesis
  {
    if a != [] { assert a[|a| - 1] in a + b; }
    if b != [] { assert b[|b| - 1] in a + b; }
  }

  /** Two chains that verify and end in the same hash record the same history. */
  lemma {:induction false} HeadPinsHistory(v: Verifier, a: seq<AuditRecord>, b: seq<AuditRecord>)
    requires Sound(v, a) && Sound(v, b) && CollisionFree(v, a, b) && Head(v, a) == Head(v, b)
    ensures SameHistory(a, b)
    decreases |a|
  {
    if a == [] || b == [] {
      HeadIsNotGenesis(v, a, b);
    } else {
      EqualHeadsStepBack(v, a, b);
      PrefixCollisionFree(v, a, b, |a| - 1, |b| - 1);
      HeadPinsHistory(v, a[..|a| - 1], b[..|b| - 1]);
      ExtendHistory(a, b);
    }
  }

  /**
    With a collision-free SHA-256, the last hash of a chain that verifies pins every field of every record,
    up to blank targets and to the microsecond.
  */
  lemma LastHashPinsHistory(crypto: Crypto, key: Text, a: seq<AuditRecord>, b: seq<AuditRecord>)
    requires Sound(VerifierOf(crypto, key), a) && Sound(VerifierOf(crypto, key), b) && NoHashCollision(crypto, a, b)
    requires a != [] && b != [] && a[|a| - 1].hash == b[|b| - 1].hash
    ensures SameHistory(a, b)
  {
    HashGivesDigest(crypto, key, a, b);
    HeadPinsHistory(VerifierOf(crypto, key), a, b);
  }

  lemma HeadsDistinct(v: Verifier, a: seq<AuditRecord>, i: nat, j: nat)
    requires Sound(v, a) && CollisionFree(v, a, a) && i < j <= |a|
    ensures Head(v, a[..i]) != Head(v, a[..j])
  {
    if Head(v, a[..i]) == Head(v, a[..j]) {
      PrefixSound(v, a, i);
      PrefixSound(v, a, j);
      PrefixCollisionFree(v, a, a, i, j);
      HeadPinsHistory(v, a[..i], a[..j]);
    }
  }

  lemma SoundAt(v: Verifier, a: seq<AuditRecord>, i: nat)
    requires Sound(v, a) && i < |a|
    ensures FaultOf(v, a[i], Head(v, a[..i])).None?
  {
    PrefixSound(v, a, i + 1);
    assert a[..i + 1][..i] == a[..i];
  }

  // ── what tampering goes unseen ────────────────────────────────────────────────────────────────

  /** Without the signing key: every signature in `b` that checks is over a hash the log `a` signed. */
  predicate Unforged(v: Verifier, a: seq<AuditRecord>, b: seq<AuditRecord>) {
    forall r :: r in b && v.signed(r.hash, r.signature) ==> exists s :: s in a && s.hash == r.hash
  }

  predicate AllSigned(v: Verifier, b: seq<AuditRecord>) { forall r :: r in b ==> v.signed(r.hash, r.signature) }

  lemma {:induction false} SoundIsSigned(v: Verifier, b: seq<AuditRecord>)
    requires Sound(v, b)
    ensures AllSigned(v, b)
    decreases |b|
  {
    if b != [] {
      SoundIsSigned(v, b[..|b| - 1]);
      assert b == b[..|b| - 1] + [b[|b| - 1]];
    }
  }

  /** The checks see only hashed fields, hashes and signatures. */
  lemma {:induction false} SameHistoryIsSound(v: Verifier, a: seq<AuditRecord>, b: seq<AuditRecord>)
    requires Sound(v, a) && SameHistory(b, a) && AllSigned(v, b)
    ensures Sound(v, b)
    decreases |b|
  {
    if b != [] {
      var n := |b| - 1;
      assert forall r :: r in b[..n] ==> r in b;
      assert SameHistory(b[..n], a[..n]);
      SameHistoryIsSound(v, a[..n], b[..n]);
      assert Head(v, b[..n]) == Head(v, a[..n]);
      assert b[n] in b;
      HashedAlikeIff(b[n], a[n]);
    }
  }

  lemma LastHashInLog(v: Verifier, a: seq<AuditRecord>, b: seq<AuditRecord>) returns (m: nat)
    requires Sound(v, b) && b != [] && Unforged(v, a, b)
    ensures m < |a| && a[m].hash == b[|b| - 1].hash
  {
    SoundIsSigned(v, b);
    var last := b[|b| - 1];
    assert last in b;
    var s :| s in a && s.hash == last.hash;
    m :| 0 <= m < |a| && a[m] == s;
  }

  lemma SoundIsPrefix(v: Verifier, a: seq<AuditRecord>, b: seq<AuditRecord>) returns (n: nat)
    requires Sound(v, a) && Sound(v, b) && CollisionFree(v, b, a) && Unforged(v, a, b)
    ensures n <= |a| && SameHistory(b, a[..n])
  {
    if b == [] {
      n := 0;
    } else {
      var m := LastHashInLog(v, a, b);
      n := m + 1;
      SameHeadPins(v, a, b, n);
    }
  }

  lemma SameHeadPins(v: Verifier, a: seq<AuditRecord>, b: seq<AuditRecord>, n: nat)
    requires Sound(v, a) && Sound(v, b) && CollisionFree(v, b, a) && 0 < n <= |a| && Head(v, b) == a[n - 1].hash
    ensures SameHistory(b, a[..n])
  {
    var prefix := a[..n];
    PrefixSound(v, a, n);
    SubsetCollisionFree(v, b, a, prefix);
    assert Head(v, prefix) == a[n - 1].hash;
    HeadPinsHistory(v, b, prefix);
  }

  lemma SubsetCollisionFree(v: Verifier, b: seq<AuditRecord>, a: seq<AuditRecord>, part: seq<AuditRecord>)
    requires CollisionFree(v, b, a) && forall x :: x in part ==> x in a
    ensures CollisionFree(v, b, part)
  {
    assert forall x :: x in b + part ==> x in b + a;
  }

  /**
    Whatever is done to the stored records without the signing key (altering, dropping, inserting,
    reordering), the result verifies exactly when it tells the history of a prefix of the log under
    signatures that check: only the newest records can be lost unseen.
  */
  lemma TamperingUnseenIff(v: Verifier, a: seq<AuditRecord>, b: seq<AuditRecord>)
    requires Sound(v, a) && CollisionFree(v, b, a) && Unforged(v, a, b)
    ensures Sound(v, b) <==> AllSigned(v, b) && exists n: nat :: n <= |a| && SameHistory(b, a[..n])
  {
    if Sound(v, b) {
      SoundIsSigned(v, b);
      var n := SoundIsPrefix(v, a, b);
    } else if AllSigned(v, b) && exists n: nat :: n <= |a| && SameHistory(b, a[..n]) {
      var n: nat :| n <= |a| && SameHistory(b, a[..n]);
      PrefixSound(v, a, n);
      SameHistoryIsSound(v, a[..n], b);
    }
  }

  /** A change that keeps what is hashed and the hash, under a signature that checks, goes unseen. */
  lemma UnhashedChangeUnseen(v: Verifier, a: seq<AuditRecord>, k: nat, r: AuditRecord)
    requires Sound(v, a) && k < |a|
    requires SameFields(r, a[k]) && r.hash == a[k].hash && v.signed(r.hash, r.signature)
    ensures Sound(v, a[k := r])
  {
    SoundIsSigned(v, a);
    var b := a[k := r];
    forall i | 0 <= i < |a| && i != k ensures SameFields(b[i], a[i]) {
      HashedAlikeIff(a[i], a[i]);
    }
    forall x | x in b
      ensures v.signed(x.hash, x.signature)
    {
      var i :| 0 <= i < |b| && b[i] == x;
      assert i != k ==> a[i] in a;
    }
    SameHistoryIsSound(v, a, b);
  }

  /** For one, an absent target may be replaced by an empty one. */
  lemma EmptyTargetUnseen(v: Verifier, a: seq<AuditRecord>, k: nat)
    requires Sound(v, a) && k < |a| && a[k].target == None
    ensures Sound(v, a[k := a[k].(target := Some([]))])
  {
    SoundIsSigned(v, a);
    assert a[k] in a;
    HashedAlikeIff(a[k], a[k].(target := Some([])));
    UnhashedChangeUnseen(v, a, k, a[k].(target := Some([])));
  }

  /** And a timestamp may cross 1970 inside the microsecond that both sides share. */
  lemma EpochCrossingUnseen(v: Verifier, a: seq<AuditRecord>, k: nat)
    requires Sound(v, a) && k < |a| && a[k].ts == -999
    ensures Sound(v, a[k := a[k].(ts := 999)])
  {
    SoundIsSigned(v, a);
    assert a[k] in a;
    assert InMicrosecond(-999, 0) && InMicrosecond(999, 0);
    UnhashedChangeUnseen(v, a, k, a[k].(ts := 999));
  }

  /** The same of SHA-256 itself. */
  lemma TamperingSeenUnlessPrefix(crypto: Crypto, key: Text, a: seq<AuditRecord>, b: seq<AuditRecord>)
    requires Sound(VerifierOf(crypto, key), a) && NoHashCollision(crypto, b, a)
            && Unforged(VerifierOf(crypto, key), a, b)
    ensures var v := VerifierOf(crypto, key);
            Sound(v, b) <==> AllSigned(v, b) && exists n: nat :: n <= |a| && SameHistory(b, a[..n])
  {
    HashGivesDigest(crypto, key, b, a);
    TamperingUnseenIff(VerifierOf(crypto, key), a, b);
  }

  /** The records of `a` at the given places, in the given order. */
  function Picked(a: seq<AuditRecord>, places: seq<nat>): (b: seq<AuditRecord>)
    requires forall i :: 0 <= i < |places| ==> places[i] < |a|
    ensures |b| == |places| && forall i :: 0 <= i < |b| ==> b[i] == a[places[i]]
  {
    if places == [] then [] else [a[places[0]]] + Picked(a, places[1..])
  }

  lemma HashesDistinct(v: Verifier, a: seq<AuditRecord>, i: nat, j: nat)
    requires Sound(v, a) && CollisionFree(v, a, a) && i < |a| && j < |a| && a[i].hash == a[j].hash
    ensures i == j
  {
    if i < j {
      HeadsDistinct(v, a, i + 1, j + 1);
    } else if j < i {
      HeadsDistinct(v, a, j + 1, i + 1);
    }
  }

  /**
    Dropping, repeating or reordering any records of a log leaves a chain that verifies exactly when
    the records kept are the oldest ones, once each and in order.
  */
  lemma DroppedRecordsUnseenIff(v: Verifier, a: seq<AuditRecord>, places: seq<nat>)
    requires Sound(v, a) && CollisionFree(v, a, a)
    requires forall i :: 0 <= i < |places| ==> places[i] < |a|
    ensures Sound(v, Picked(a, places)) <==> forall i :: 0 <= i < |places| ==> places[i] == i
  {
    var b := Picked(a, places);
    PickedFromLog(v, a, places);
    if Sound(v, b) {
      var n := SoundIsPrefix(v, a, b);
      forall i | 0 <= i < |places|
        ensures places[i] == i
      {
        assert b[i].hash == a[..n][i].hash;
        HashesDistinct(v, a, places[i], i);
      }
    } else if forall i :: 0 <= i < |places| ==> places[i] == i {
      PickedInPlace(a, places);
      PrefixSound(v, a, |places|);
    }
  }

  lemma PickedInPlace(a: seq<AuditRecord>, places: seq<nat>)
    requires forall i :: 0 <= i < |places| ==> places[i] < |a| && places[i] == i
    ensures |places| <= |a| && Picked(a, places) == a[..|places|]
  {
    if places != [] {
      assert places[|places| - 1] == |places| - 1;
    }
  }

  lemma PickedFromLog(v: Verifier, a: seq<AuditRecord>, places: seq<nat>)
    requires Sound(v, a) && CollisionFree(v, a, a) && forall i :: 0 <= i < |places| ==> places[i] < |a|
    ensures CollisionFree(v, Picked(a, places), a) && Unforged(v, a, Picked(a, places))
  {
    var b := Picked(a, places);
    assert forall r :: r in b ==> r in a;
    forall x | x in b + a
      ensures x in a + a
    {
    }
  }

  /** So the promise that any dropped record is noticed fails for the last one. */
  lemma DroppedLastRecordVerifies(v: Verifier, a: seq<AuditRecord>)
    requires Sound(v, a) && a != []
    ensures Sound(v, a[..|a| - 1])
  {
    PrefixSound(v, a, |a| - 1);
  }

  /** The first record that fails is at `i`, for reason `f`. */
  predicate BreaksAt(v: Verifier, b: seq<AuditRecord>, i: nat, f: Fault) {
    i < |b| && Sound(v, b[..i]) && FaultOf(v, b[i], Head(v, b[..i])) == Some(f)
  }

  /**
    One altered record is reported at its own index, or at the next one if the alteration carries its
    own hash and a signature that checks. Only a re-signed last record goes unseen.
  */
  lemma AlteredRecordLocated(v: Verifier, a: seq<AuditRecord>, k: nat, r: AuditRecord)
    requires Sound(v, a) && k < |a|
    requires !SameFields(r, a[k]) && CollisionFree(v, a, [r])
    ensures var b := a[k := r];
            var own := FaultOf(v, r, Head(v, a[..k]));
            && (r.hash == a[k].hash ==>
                  own == Some(if r.prevHash != a[k].prevHash then PrevHashBroken else HashMismatch))
            && (own.Some? ==> BreaksAt(v, b, k, own.value))
            && (own.None? && k + 1 < |a| ==> BreaksAt(v, b, k + 1, PrevHashBroken))
            && (own.None? && k + 1 == |a| ==> Sound(v, b))
  {
    var b := a[k := r];
    OwnFault(v, a, k, r);
    PrefixSound(v, a, k);
    assert b[..k] == a[..k];
    if FaultOf(v, r, Head(v, a[..k])).None? {
      assert b[..k + 1] == a[..k] + [r];
      SoundPush(v, a[..k], r);
      if k + 1 < |a| {
        NextLinkBroken(v, a, k, r);
      } else {
        assert b[..k + 1] == b;
      }
    }
  }

  lemma OwnFault(v: Verifier, a: seq<AuditRecord>, k: nat, r: AuditRecord)
    requires Sound(v, a) && k < |a|
    requires !SameFields(r, a[k]) && CollisionFree(v, a, [r])
    ensures var own := FaultOf(v, r, Head(v, a[..k]));
            && (r.hash == a[k].hash ==>
                  own == Some(if r.prevHash != a[k].prevHash then PrevHashBroken else HashMismatch))
            && (own.None? ==> r.hash != a[k].hash)
  {
    SoundAt(v, a, k);
    HashedAlikeIff(r, a[k]);
    assert a[k] in a && r in [r];
  }

  /** A change someone could notice: another text or number, a target that was not blank, or a time further off. */
  predicate Visible(r: AuditRecord, s: AuditRecord) {
    || r.seqNo != s.seqNo || r.actor != s.actor || r.action != s.action || r.details != s.details
    || r.prevHash != s.prevHash
    || (r.target != s.target && !(Blank(r.target) && Blank(s.target)))
    || r.ts - s.ts >= (if s.ts < 0 < r.ts then 1999 else 1000)
    || s.ts - r.ts >= (if r.ts < 0 < s.ts then 1999 else 1000)
  }

  /** A record changed in any of these ways under its old hash breaks the chain at its own index. */
  lemma VisibleChangeLocated(v: Verifier, a: seq<AuditRecord>, k: nat, r: AuditRecord)
    requires Sound(v, a) && k < |a| && CollisionFree(v, a, [r]) && r.hash == a[k].hash && Visible(r, a[k])
    ensures BreaksAt(v, a[k := r], k, if r.prevHash != a[k].prevHash then PrevHashBroken else HashMismatch)
  {
    var s := a[k];
    if r.ts - s.ts >= (if s.ts < 0 < r.ts then 1999 else 1000) {
      FarApart(s.ts, r.ts);
    } else if s.ts - r.ts >= (if r.ts < 0 < s.ts then 1999 else 1000) {
      FarApart(r.ts, s.ts);
    }
    AlteredRecordLocated(v, a, k, r);
  }

  lemma SoundPush(v: Verifier, a: seq<AuditRecord>, r: AuditRecord)
    requires Sound(v, a) && FaultOf(v, r, Head(v, a)).None?
    ensures Sound(v, a + [r])
  {
    assert (a + [r])[..|a|] == a;
  }

  lemma NextLinkBroken(v: Verifier, a: seq<AuditRecord>, k: nat, r: AuditRecord)
    requires Sound(v, a) && k + 1 < |a| && r.hash != a[k].hash
    ensures FaultOf(v, a[k + 1], Head(v, a[..k] + [r])) == Some(PrevHashBroken)
  {
    SoundAt(v, a, k + 1);
  }

  // ── appending ─────────────────────────────────────────────────────────────────────────────────

  datatype NewAudit = NewAudit(actor: Text, action: Text, target: Option<Text>, details: Text)

  function NextRecord(
    crypto: Crypto, sign: Text -> Text, log: seq<AuditRecord>, e: NewAudit, ts: Timestamp): AuditRecord
    requires log != [] ==> log[|log| - 1].seqNo < TWO_63 - 1
  {
    var seqNo := if log == [] then 1 else log[|log| - 1].seqNo + 1;
    var prevHash := if log == [] then GENESIS_PREV else log[|log| - 1].hash;
    var r := AuditRecord(seqNo, ts, e.actor, e.action, e.target, e.details, prevHash, [], []);
    var hash := Digest(crypto)(ContentOf(r));
    r.(hash := hash, signature := sign(hash))
  }

  class AuditLog {
    const crypto: Crypto
    const sign: Text -> Text
    var records: seq<AuditRecord>

    constructor (crypto: Crypto, sign: Text -> Text)
      ensures this.crypto == crypto && this.sign == sign && records == []
    {
      this.crypto, this.sign, records := crypto, sign, [];
    }

    method Append(e: NewAudit, ts: Timestamp) returns (r: AuditRecord)
      requires records != [] ==> records[|records| - 1].seqNo < TWO_63 - 1
      modifies this
      ensures r == NextRecord(crypto, sign, old(records), e, ts) && records == old(records) + [r]
    {
      var seqNo: I64, prevHash := 1, GENESIS_PREV;
      if records != [] {
        seqNo, prevHash := records[|records| - 1].seqNo + 1, records[|records| - 1].hash;
      }
      var hash := ComputeHash(crypto, seqNo, TsMicros(ts), e.actor, e.action, e.target, e.details, prevHash);
      r := AuditRecord(seqNo, ts, e.actor, e.action, e.target, e.details, prevHash, hash, sign(hash));
      records := records + [r];
    }
  }

  /** An append keeps a chain sound and numbered without gaps. */
  lemma AppendKeepsSound(
    crypto: Crypto, key: Text, sign: Text -> Text, log: seq<AuditRecord>, e: NewAudit, ts: Timestamp)
    requires Sound(VerifierOf(crypto, key), log) && |log| + 1 < TWO_63
    requires forall i :: 0 <= i < |log| ==> log[i].seqNo == i + 1
    requires forall h: Text :: crypto.verify(key, h, sign(h))
    ensures var grown := log + [NextRecord(crypto, sign, log, e, ts)];
            Sound(VerifierOf(crypto, key), grown) && forall i :: 0 <= i < |grown| ==> grown[i].seqNo == i + 1
  {
    var r := NextRecord(crypto, sign, log, e, ts);
    assert (log + [r])[..|log|] == log;
  }

  /** The log after a run of appends, numbered without gaps. */
  function Grown(crypto: Crypto, sign: Text -> Text, entries: seq<(NewAudit, Timestamp)>): (log: seq<AuditRecord>)
    requires |entries| < TWO_63
    ensures |log| == |entries| && forall i :: 0 <= i < |log| ==> log[i].seqNo == i + 1
    decreases |entries|
  {
    if entries == [] then []
    else
      var (e, ts) := entries[|entries| - 1];
      var log := Grown(crypto, sign, entries[..|entries| - 1]);
      log + [NextRecord(crypto, sign, log, e, ts)]
  }

  /** The first link as text: 64 times the digit zero. */
  predicate IsGenesisLink(h: Text) { |h| == 64 && forall j :: 0 <= j < 64 ==> h[j] == 48 }

  lemma {:induction false} RepeatIsConstant(b: Byte, n: nat)
    ensures forall j :: 0 <= j < n ==> Repeat(b, n)[j] == b
    decreases n
  {
    if n > 0 {
      RepeatIsConstant(b, n - 1);
    }
  }

  /** Record `i` tells entry `e` of time `ts`, is linked to the record before it and signed over its own hash. */
  predicate TellsEntry(log: seq<AuditRecord>, i: nat, e: NewAudit, ts: Timestamp, sign: Text -> Text) {
    && i < |log| && log[i].seqNo == i + 1 && log[i].ts == ts
    && log[i].actor == e.actor && log[i].action == e.action && log[i].target == e.target
    && log[i].details == e.details && log[i].signature == sign(log[i].hash)
    && (if i == 0 then IsGenesisLink(log[i].prevHash) else log[i].prevHash == log[i - 1].hash)
  }

  lemma AppendTells(crypto: Crypto, sign: Text -> Text, log: seq<AuditRecord>, e: NewAudit, ts: Timestamp)
    requires |log| < TWO_63 - 1 && forall i :: 0 <= i < |log| ==> log[i].seqNo == i + 1
    ensures TellsEntry(log + [NextRecord(crypto, sign, log, e, ts)], |log|, e, ts, sign)
  {
    RepeatIsConstant(48, 64);
  }

  lemma AppendKeepsTelling(
    log: seq<AuditRecord>, r: AuditRecord, i: nat, e: NewAudit, ts: Timestamp, sign: Text -> Text)
    requires TellsEntry(log, i, e, ts, sign)
    ensures TellsEntry(log + [r], i, e, ts, sign)
  {}

  lemma GrownSplits(crypto: Crypto, sign: Text -> Text, entries: seq<(NewAudit, Timestamp)>, n: nat)
    returns (before: seq<AuditRecord>, r: AuditRecord)
    requires |entries| < TWO_63 && |entries| == n + 1
    ensures before == Grown(crypto, sign, entries[..n]) && Grown(crypto, sign, entries) == before + [r]
    ensures TellsEntry(before + [r], n, entries[n].0, entries[n].1, sign)
  {
    before := Grown(crypto, sign, entries[..n]);
    r := NextRecord(crypto, sign, before, entries[n].0, entries[n].1);
    AppendTells(crypto, sign, before, entries[n].0, entries[n].1);
  }

  /** In every run of appends, record `i` tells entry `i`. */
  lemma {:induction false} GrownRecordTellsEntry(
    crypto: Crypto, sign: Text -> Text, entries: seq<(NewAudit, Timestamp)>, i: nat)
    requires |entries| < TWO_63 && i < |entries|
    ensures TellsEntry(Grown(crypto, sign, entries), i, entries[i].0, entries[i].1, sign)
    decreases |entries|
  {
    var n := |entries| - 1;
    var before, r := GrownSplits(crypto, sign, entries, n);
    if i < n {
      var front := entries[..n];
      GrownRecordTellsEntry(crypto, sign, front, i);
      assert TellsEntry(before, i, entries[i].0, entries[i].1, sign);
      AppendKeepsTelling(before, r, i, entries[i].0, entries[i].1, sign);
    }
  }

  /** Every log grown by appends alone verifies, under any hash, if what is signed checks. */
  lemma {:induction false} GrownLogVerifies(
    crypto: Crypto, key: Text, sign: Text -> Text, entries: seq<(NewAudit, Timestamp)>)
    requires |entries| < TWO_63 && forall h: Text :: crypto.verify(key, h, sign(h))
    ensures Sound(VerifierOf(crypto, key), Grown(crypto, sign, entries))
    decreases |entries|
  {
    if entries != [] {
      var n := |entries| - 1;
      GrownLogVerifies(crypto, key, sign, entries[..n]);
      AppendKeepsSound(crypto, key, sign, Grown(crypto, sign, entries[..n]), entries[n].0, entries[n].1);
    }
  }
}
