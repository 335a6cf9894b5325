/** The embedding cache: rows, codec and checksum (crates/ft-embed/src/cache.rs). */
module EmbedCache {
  import opened Utf8
  import opened Wrappers

  /** The bits of a 32-bit float. */
  type F32 = n: nat | n < 0x1_0000_0000

  // --- the codec ---------------------------------------------------------------------------------------------------

  /** `to_le_bytes`. */
  function LittleEndian(x: F32): (b: Bytes)
    ensures |b| == 4
  {
    [x % 0x100, x / 0x100 % 0x100, x / 0x1_0000 % 0x100, x / 0x100_0000]
  }

  function FromLittleEndian(a: Byte, b: Byte, c: Byte, d: Byte): F32 {
    a + 0x100 * b + 0x1_0000 * c + 0x100_0000 * d
  }

  function Encoded(v: seq<F32>): (b: Bytes)
    ensures |b| == 4 * |v|
  {
    if v == [] then [] else Encoded(v[..|v| - 1]) + LittleEndian(v[|v| - 1])
  }

  /** Whole chunks of four; a shorter rest is ignored. */
  function Decoded(b: Bytes): (v: seq<F32>)
    ensures |v| == |b| / 4
  {
    if |b| < 4 then [] else [FromLittleEndian(b[0], b[1], b[2], b[3])] + Decoded(b[4..])
  }

  /** `vec_f32_to_bytes`. */
  method EncodeVector(v: seq<F32>) returns (out: Bytes)
    ensures out == Encoded(v)
  {
    out := [];
    for i := 0 to |v|
      invariant out == Encoded(v[..i])
    {
      assert v[..i + 1][..i] == v[..i];
      out := out + LittleEndian(v[i]);
    }
    assert v[..|v|] == v;
  }

  /** `bytes_to_vec_f32`. */
  method DecodeVector(b: Bytes) returns (out: seq<F32>)
    ensures out == Decoded(b)
  {
    out := [];
    var at := 0;
    while at + 4 <= |b|
      invariant 0 <= at <= |b| && out + Decoded(b[at..]) == Decoded(b)
    {
      var x := FromLittleEndian(b[at], b[at + 1], b[at + 2], b[at + 3]);
      assert b[at..][4..] == b[at + 4..];
      assert out + Decoded(b[at..]) == out + [x] + Decoded(b[at + 4..]);
      out := out + [x];
      at := at + 4;
    }
  }

  lemma ShiftTwice(x: nat)
    ensures x / 0x1_0000 == x / 0x100 / 0x100
  {
  }

  lemma ShiftThrice(x: nat)
    ensures x / 0x100_0000 == x / 0x1_0000 / 0x100
  {
  }

  lemma LittleEndianRoundTrip(x: F32)
    ensures var b := LittleEndian(x); FromLittleEndian(b[0], b[1], b[2], b[3]) == x
  {
    ShiftTwice(x);
    ShiftThrice(x);
    var q1, q2 := x / 0x100, x / 0x1_0000;
    assert x == x % 0x100 + 0x100 * q1;
    assert q1 == q1 % 0x100 + 0x100 * q2;
    assert q2 == q2 % 0x100 + 0x100 * (x / 0x100_0000);
  }

  /** The lowest byte, and what is above it. */
  lemma LowByte(b: Byte, high: nat)
    ensures (b + 0x100 * high) % 0x100 == b && (b + 0x100 * high) / 0x100 == high
  {
  }

  lemma FromLittleEndianRoundTrip(a: Byte, b: Byte, c: Byte, d: Byte)
    ensures LittleEndian(FromLittleEndian(a, b, c, d)) == [a, b, c, d]
  {
    var x := FromLittleEndian(a, b, c, d);
    LowByte(a, b + 0x100 * (c + 0x100 * d));
    LowByte(b, c + 0x100 * d);
    LowByte(c, d);
    ShiftTwice(x);
    ShiftThrice(x);
  }

  lemma DecodedStep(a: Bytes, b: Bytes, rest: Bytes)
    requires |a| >= 4 && rest == a[4..] + b
    ensures (a + b)[4..] == rest
    ensures exists x :: Decoded(a) == [x] + Decoded(a[4..]) && Decoded(a + b) == [x] + Decoded(rest)
  {
    hide FromLittleEndian;
    assert (a + b)[4..] == rest;
    var x := FromLittleEndian(a[0], a[1], a[2], a[3]);
    assert Decoded(a) == [x] + Decoded(a[4..]);
    assert Decoded(a + b) == [x] + Decoded(rest);
  }

  lemma {:induction false} DecodedAppends(a: Bytes, b: Bytes)
    requires |a| % 4 == 0
    ensures Decoded(a + b) == Decoded(a) + Decoded(b)
  {
    if a == [] {
      assert a + b == b;
    } else {
      hide Decoded;
      DecodedStep(a, b, a[4..] + b);
      DecodedAppends(a[4..], b);
    }
  }

  lemma {:induction false} EncodedAppends(v: seq<F32>, w: seq<F32>)
    ensures Encoded(v + w) == Encoded(v) + Encoded(w)
  {
    hide LittleEndian;
    if w == [] {
      assert v + w == v;
    } else {
      assert (v + w)[..|v + w| - 1] == v + w[..|w| - 1];
      EncodedAppends(v, w[..|w| - 1]);
    }
  }

  /** A vector survives storage bit for bit. */
  lemma {:induction false} DecodeInvertsEncode(v: seq<F32>)
    ensures Decoded(Encoded(v)) == v
  {
    if v != [] {
      var n := |v| - 1;
      DecodeInvertsEncode(v[..n]);
      DecodedAppends(Encoded(v[..n]), LittleEndian(v[n]));
      DecodedOfOne(v[n]);
    }
  }

  lemma DecodedOfOne(x: F32)
    ensures Decoded(LittleEndian(x)) == [x]
  {
    LittleEndianRoundTrip(x);
    assert Decoded(LittleEndian(x)[4..]) == [];
  }

  /** Float `i` stands in bytes `4i` to `4i + 3`, the lowest byte first. */
  lemma {:induction false} EncodedIs(v: seq<F32>, i: nat)
    requires i < |v|
    ensures var b := Encoded(v);
            var x: int, y: int, z: int, w: int := b[4 * i], b[4 * i + 1], b[4 * i + 2], b[4 * i + 3];
            v[i] == x + 0x100 * y + 0x1_0000 * z + 0x100_0000 * w
    decreases |v|
  {
    var n := |v| - 1;
    if i < n {
      EncodedIs(v[..n], i);
    } else {
      LittleEndianRoundTrip(v[n]);
    }
  }

  /** The other way round, bytes come back exactly when they are whole floats. */
  lemma {:induction false} EncodeInvertsDecode(b: Bytes)
    ensures Encoded(Decoded(b)) == b[..|b| / 4 * 4]
    ensures Encoded(Decoded(b)) == b <==> |b| % 4 == 0
  {
    hide LittleEndian, FromLittleEndian;
    if |b| >= 4 {
      var x := FromLittleEndian(b[0], b[1], b[2], b[3]);
      EncodeInvertsDecode(b[4..]);
      EncodedAppends([x], Decoded(b[4..]));
      assert Encoded([x]) == LittleEndian(x) by {
        assert [x][..0] == [];
      }
      FromLittleEndianRoundTrip(b[0], b[1], b[2], b[3]);
      assert b[..|b| / 4 * 4] == [b[0], b[1], b[2], b[3]] + b[4..][..|b[4..]| / 4 * 4];
    }
    assert |b| % 4 == 0 ==> b[..|b| / 4 * 4] == b;
  }

  // --- hashes ------------------------------------------------------------------------------------------------------

  function HexDigit(n: nat): Byte
    requires n < 16
  {
    if n < 10 then 0x30 + n else 0x61 + n - 10
  }

  /** An ideal hash, in hex: different messages have different digests, and no digest holds a zero byte.
      The hex of the message itself is one such function; nothing else about it is used. */
  function HashHex(message: Bytes): Bytes {
    if message == [] then [] else [HexDigit(message[0] / 16), HexDigit(message[0] % 16)] + HashHex(message[1..])
  }

  lemma {:induction false} HashIsInjective(a: Bytes, b: Bytes)
    requires HashHex(a) == HashHex(b)
    ensures a == b
  {
    if a != [] && b != [] {
      assert HashHex(a)[2..] == HashHex(a[1..]) && HashHex(b)[2..] == HashHex(b[1..]);
      HashIsInjective(a[1..], b[1..]);
      assert HashHex(a)[0] == HashHex(b)[0] && HashHex(a)[1] == HashHex(b)[1];
      assert a == [a[0]] + a[1..] && b == [b[0]] + b[1..];
    }
  }

  lemma {:induction false} HashHasNoZero(a: Bytes)
    ensures 0 !in HashHex(a)
  {
    if a != [] {
      HashHasNoZero(a[1..]);
    }
  }

  // --- rows --------------------------------------------------------------------------------------------------------

  datatype Key = Key(modelId: Bytes, modelVersion: Bytes, contentHash: Bytes)

  datatype CacheRow = CacheRow(embedding: Bytes, checksum: Bytes, createdAt: int)

  type Rows = map<Key, CacheRow>

  datatype CacheError = IntegrityFailed(key: Key)

  /** What the checksum hashes. */
  function ChecksumMessage(k: Key, bytes: Bytes): Bytes {
    k.modelId + [0] + k.modelVersion + [0] + k.contentHash + [0] + bytes
  }

  function Checksum(k: Key, bytes: Bytes): Bytes {
    HashHex(ChecksumMessage(k, bytes))
  }

  /** `integrity_checksum` feeds the hasher piece by piece. */
  method IntegrityChecksum(k: Key, bytes: Bytes) returns (hex: Bytes)
    ensures hex == Checksum(k, bytes)
  {
    var fed: Bytes := k.modelId;
    fed := fed + [0];
    fed := fed + k.modelVersion;
    fed := fed + [0];
    fed := fed + k.contentHash;
    fed := fed + [0];
    fed := fed + bytes;
    hex := HashHex(fed);
  }

  predicate NoZero(k: Key) {
    0 !in k.modelId && 0 !in k.modelVersion && 0 !in k.contentHash
  }

  lemma ByteBeforeSeparator(a: Bytes, x: Bytes)
    requires 0 !in a
    ensures a == [] <==> (a + [0] + x)[0] == 0
    ensures a == [] ==> (a + [0] + x)[1..] == x
    ensures a != [] ==> (a + [0] + x)[0] == a[0] && (a + [0] + x)[1..] == a[1..] + [0] + x && a == [a[0]] + a[1..]
  {
  }

  /** A text without a zero byte is told apart from what follows the separator. */
  lemma {:induction false} SeparatorSplits(a: Bytes, b: Bytes, x: Bytes, y: Bytes)
    requires 0 !in a && 0 !in b && a + [0] + x == b + [0] + y
    ensures a == b && x == y
  {
    ByteBeforeSeparator(a, x);
    ByteBeforeSeparator(b, y);
    if a != [] {
      SeparatorSplits(a[1..], b[1..], x, y);
    }
  }

  /** The key part of what is hashed. */
  function KeyText(k: Key): Bytes {
    ChecksumMessage(k, [])
  }

  lemma MessageParts(k: Key, bytes: Bytes)
    ensures ChecksumMessage(k, bytes) == KeyText(k) + bytes
  {
  }

  /** Checksums agree exactly if what is hashed does. */
  lemma SameChecksum(j: Key, k: Key, a: Bytes, b: Bytes)
    ensures Checksum(j, a) == Checksum(k, b) <==> KeyText(j) + a == KeyText(k) + b
  {
    hide HashHex, ChecksumMessage;
    MessageParts(j, a);
    MessageParts(k, b);
    if Checksum(j, a) == Checksum(k, b) {
      HashIsInjective(ChecksumMessage(j, a), ChecksumMessage(k, b));
    }
  }

  /** Some rows of the two keys have the same checksum exactly if the text of one key starts that of the other. */
  lemma ChecksumsCanMeet(j: Key, k: Key)
    ensures (exists a, b :: Checksum(j, a) == Checksum(k, b)) <==> KeyText(j) <= KeyText(k) || KeyText(k) <= KeyText(j)
  {
    hide Checksum, KeyText;
    var p, q := KeyText(j), KeyText(k);
    forall a, b | Checksum(j, a) == Checksum(k, b)
      ensures p <= q || q <= p
    {
      SameChecksum(j, k, a, b);
      assert (p + a)[..|p|] == p && (q + b)[..|q|] == q;
    }
    if p <= q {
      SameChecksum(j, k, q[|p|..], []);
      assert p + q[|p|..] == q + [];
    } else if q <= p {
      SameChecksum(j, k, [], p[|q|..]);
      assert p + [] == q + p[|q|..];
    }
  }

  /** Keys without zero bytes: only the same key starts the same way. */
  lemma NoZeroKeysApart(j: Key, k: Key)
    requires NoZero(j) && NoZero(k) && KeyText(j) <= KeyText(k)
    ensures j == k
  {
    var rest := KeyText(k)[|KeyText(j)|..];
    var jTail, kTail := j.contentHash + [0] + rest, k.contentHash + [0] + [];
    assert KeyText(j) + rest == j.modelId + [0] + (j.modelVersion + [0] + jTail);
    assert KeyText(k) == k.modelId + [0] + (k.modelVersion + [0] + kTail);
    SeparatorSplits(j.modelId, k.modelId, j.modelVersion + [0] + jTail, k.modelVersion + [0] + kTail);
    SeparatorSplits(j.modelVersion, k.modelVersion, jTail, kTail);
    SeparatorSplits(j.contentHash, k.contentHash, rest, []);
  }

  /** So for keys without zero bytes the checksum commits to the key and the bytes. */
  lemma ChecksumCommits(j: Key, k: Key, a: Bytes, b: Bytes)
    requires NoZero(j) && NoZero(k) && Checksum(j, a) == Checksum(k, b)
    ensures j == k && a == b
  {
    hide Checksum, KeyText, NoZero;
    ChecksumsCanMeet(j, k);
    if KeyText(j) <= KeyText(k) {
      NoZeroKeysApart(j, k);
    } else {
      NoZeroKeysApart(k, j);
    }
    ChecksumCommitsToBytes(k, a, b);
  }

  /** With zero bytes, two keys can have the same text, and so the same checksum for the same bytes. */
  lemma ZeroBytesCollide(bytes: Bytes)
    ensures Key([0x61, 0, 0x62], [0x63], [0x64]) != Key([0x61], [0x62, 0, 0x63], [0x64])
    ensures KeyText(Key([0x61, 0, 0x62], [0x63], [0x64])) == KeyText(Key([0x61], [0x62, 0, 0x63], [0x64]))
    ensures Checksum(Key([0x61, 0, 0x62], [0x63], [0x64]), bytes)
         == Checksum(Key([0x61], [0x62, 0, 0x63], [0x64]), bytes)
  {
    var j, k := Key([0x61, 0, 0x62], [0x63], [0x64]), Key([0x61], [0x62, 0, 0x63], [0x64]);
    assert KeyText(j) == [0x61, 0, 0x62, 0, 0x63, 0, 0x64, 0] == KeyText(k);
    hide Checksum, KeyText;
    SameChecksum(j, k, bytes, bytes);
  }

  /** For one key the checksum commits to the bytes, whatever the key. */
  lemma ChecksumCommitsToBytes(k: Key, a: Bytes, b: Bytes)
    requires Checksum(k, a) == Checksum(k, b)
    ensures a == b
  {
    hide HashHex;
    HashIsInjective(ChecksumMessage(k, a), ChecksumMessage(k, b));
    var n := |ChecksumMessage(k, [])|;
    assert ChecksumMessage(k, a)[n..] == a && ChecksumMessage(k, b)[n..] == b;
  }

  function Looked(rows: Rows, k: Key): Result<Option<seq<F32>>, CacheError> {
    if k !in rows then Success(None)
    else if Checksum(k, rows[k].embedding) != rows[k].checksum then Failure(IntegrityFailed(k))
    else Success(Some(Decoded(rows[k].embedding)))
  }

  predicate RowIntact(rows: Rows, k: Key)
    requires k in rows
  {
    rows[k].checksum == Checksum(k, rows[k].embedding)
  }

  datatype IntegrityReport = IntegrityReport(scanned: nat, bad: seq<IntegrityIssue>)

  datatype IntegrityIssue = IntegrityIssue(key: Key, recorded: Bytes, recomputed: Bytes)

  /** A bad row, with both checksums. */
  predicate IsIssue(rows: Rows, x: IntegrityIssue) {
    && x.key in rows && !RowIntact(rows, x.key)
    && x.recorded == rows[x.key].checksum && x.recomputed == Checksum(x.key, rows[x.key].embedding)
  }

  ghost predicate Reported(bad: seq<IntegrityIssue>, k: Key) {
    exists x :: x in bad && x.key == k
  }

  class EmbeddingCache {
    var rows: Rows

    constructor Open()
      ensures rows == map[]
    {
      rows := map[];
    }

    method Lookup(k: Key) returns (res: Result<Option<seq<F32>>, CacheError>)
      ensures res == Looked(rows, k)
    {
      if k !in rows {
        return Success(None);
      }
      var recomputed := IntegrityChecksum(k, rows[k].embedding);
      if recomputed != rows[k].checksum {
        return Failure(IntegrityFailed(k));
      }
      var v := DecodeVector(rows[k].embedding);
      return Success(Some(v));
    }

    method Insert(k: Key, v: seq<F32>, now: int)
      modifies this
      ensures rows == old(rows)[k := CacheRow(Encoded(v), Checksum(k, Encoded(v)), now)]
    {
      var bytes := EncodeVector(v);
      var checksum := IntegrityChecksum(k, bytes);
      rows := rows[k := CacheRow(bytes, checksum, now)];
    }

    /** Every row is scanned, and the bad ones are reported, each once. */
    method VerifyIntegrity() returns (report: IntegrityReport)
      ensures report.scanned == |rows|
      ensures forall x :: x in report.bad ==> IsIssue(rows, x)
      ensures forall k :: k in rows && !RowIntact(rows, k) ==> Reported(report.bad, k)
      ensures forall i, j :: 0 <= i < j < |report.bad| ==> report.bad[i].key != report.bad[j].key
    {
      hide Checksum;
      var scanned := 0;
      var bad: seq<IntegrityIssue> := [];
      var left := rows.Keys;
      while left != {}
        invariant left <= rows.Keys && scanned + |left| == |rows|
        invariant forall x :: x in bad ==> IsIssue(rows, x) && x.key !in left
        invariant forall k :: k in rows && k !in left && !RowIntact(rows, k) ==> Reported(bad, k)
        invariant forall i, j :: 0 <= i < j < |bad| ==> bad[i].key != bad[j].key
      {
        var k :| k in left;
        left := left - {k};
        scanned := scanned + 1;
        var recomputed := IntegrityChecksum(k, rows[k].embedding);
        if recomputed != rows[k].checksum {
          var issue := IntegrityIssue(k, rows[k].checksum, recomputed);
          assert issue in bad + [issue];
          assert forall x :: Reported(bad, x) ==> Reported(bad + [issue], x) by {
            assert forall x :: x in bad ==> x in bad + [issue];
          }
          bad := bad + [issue];
        }
      }
      return IntegrityReport(scanned, bad);
    }
  }

  /** What was put in comes out. */
  lemma InsertedIsFound(rows: Rows, k: Key, v: seq<F32>, now: int, x: Key)
    ensures Looked(rows[k := CacheRow(Encoded(v), Checksum(k, Encoded(v)), now)], x) ==
            if x == k then Success(Some(v)) else Looked(rows, x)
  {
    DecodeInvertsEncode(v);
  }

  /** A row whose bytes alone were changed is refused: no other vector is ever returned. */
  lemma TamperedBytesAreRefused(rows: Rows, k: Key, bytes: Bytes)
    requires k in rows && RowIntact(rows, k) && bytes != rows[k].embedding
    ensures Looked(rows[k := rows[k].(embedding := bytes)], k) == Failure(IntegrityFailed(k))
  {
    hide Checksum;
    if Checksum(k, bytes) == Checksum(k, rows[k].embedding) {
      ChecksumCommitsToBytes(k, bytes, rows[k].embedding);
    }
  }

  /** A good row copied under another key is refused there, exactly if the two keys have different texts. */
  lemma MovedRowIsRefused(rows: Rows, j: Key, k: Key)
    requires j in rows && RowIntact(rows, j)
    ensures Looked(rows[k := rows[j]], k) == Failure(IntegrityFailed(k)) <==> KeyText(j) != KeyText(k)
    ensures NoZero(j) && NoZero(k) ==> (KeyText(j) != KeyText(k) <==> j != k)
  {
    hide Checksum, KeyText, NoZero;
    var bytes := rows[j].embedding;
    SameChecksum(j, k, bytes, bytes);
    SameTail(KeyText(j), KeyText(k), bytes);
    if NoZero(j) && NoZero(k) && KeyText(j) == KeyText(k) {
      NoZeroKeysApart(j, k);
    }
  }

  lemma SameTail(p: Bytes, q: Bytes, x: Bytes)
    ensures p + x == q + x <==> p == q
  {
    if p + x == q + x {
      assert |p| == |q|;
      assert (p + x)[..|p|] == p && (q + x)[..|q|] == q;
    }
  }
}
