/** Embedding through the cache (crates/ft-embed/src/service.rs). */
module EmbedService {
  import opened Utf8
  import opened Wrappers
  import opened EmbedCache

  datatype Model = Model(id: Bytes, version: Bytes)

  datatype EmbedError = EmbedFailed | DimensionMismatch(expected: nat, actual: nat) | Cache(e: CacheError)

  /** The embedders there are: for a model id and version, what it makes of a text, and how long its vectors are. */
  datatype World = World(embed: (Model, Bytes) -> Option<seq<F32>>, dim: Model -> nat)

  /** Embedding without a cache. */
  function Direct(w: World, m: Model, text: Bytes): Result<seq<F32>, EmbedError> {
    match w.embed(m, text)
    case None => Failure(EmbedFailed)
    case Some(v) => if |v| != w.dim(m) then Failure(DimensionMismatch(w.dim(m), |v|)) else Success(v)
  }

  /** A vector of the model's length, the length it has instead, or no vector. */
  lemma DirectIs(w: World, m: Model, text: Bytes)
    ensures Direct(w, m, text).Success? <==> w.embed(m, text).Some? && |w.embed(m, text).value| == w.dim(m)
    ensures Direct(w, m, text).Success? ==> Direct(w, m, text).value == w.embed(m, text).value
    ensures forall e :: Direct(w, m, text) == Failure(e) ==>
              (e == EmbedFailed <==> w.embed(m, text) == None)
              && (w.embed(m, text).Some? ==>
                    e == DimensionMismatch(w.dim(m), |w.embed(m, text).value|))
  {
  }

  function ContentHash(text: Bytes): Bytes {
    HashHex(text)
  }

  function KeyOf(m: Model, text: Bytes): Key {
    Key(m.id, m.version, ContentHash(text))
  }

  /** What a call answers, and what it leaves in the store. */
  function Answer(rows: Rows, w: World, m: Model, text: Bytes, hash: Bytes): Result<seq<F32>, EmbedError> {
    match Looked(rows, Key(m.id, m.version, hash))
    case Failure(e) => Failure(Cache(e))
    case Success(Some(v)) => Success(v)
    case Success(None) => Direct(w, m, text)
  }

  function Stored(rows: Rows, w: World, m: Model, text: Bytes, hash: Bytes, now: int): Rows {
    var k := Key(m.id, m.version, hash);
    if k !in rows && Direct(w, m, text).Success? then
      var bytes := Encoded(Direct(w, m, text).value);
      rows[k := CacheRow(bytes, Checksum(k, bytes), now)]
    else rows
  }

  /** `embed_text_with_hash`. The last result says whether the embedder was asked. */
  method EmbedTextWithHash(cache: EmbeddingCache, w: World, m: Model, text: Bytes, hash: Bytes, now: int)
    returns (res: Result<seq<F32>, EmbedError>, asked: bool)
    modifies cache
    ensures res == Answer(old(cache.rows), w, m, text, hash)
    ensures cache.rows == Stored(old(cache.rows), w, m, text, hash, now)
    ensures asked <==> Key(m.id, m.version, hash) !in old(cache.rows)
  {
    hide Checksum, Encoded, Decoded;
    var k := Key(m.id, m.version, hash);
    var found := cache.Lookup(k);
    if found.Failure? {
      return Failure(Cache(found.error)), false;
    }
    if found.value.Some? {
      return Success(found.value.value), false;
    }
    var v := w.embed(m, text);
    if v.None? {
      return Failure(EmbedFailed), true;
    }
    if |v.value| != w.dim(m) {
      return Failure(DimensionMismatch(w.dim(m), |v.value|)), true;
    }
    cache.Insert(k, v.value, now);
    return Success(v.value), true;
  }

  /** `embed_text`. */
  method EmbedText(cache: EmbeddingCache, w: World, m: Model, text: Bytes, now: int)
    returns (res: Result<seq<F32>, EmbedError>, asked: bool)
    modifies cache
    ensures res == Answer(old(cache.rows), w, m, text, ContentHash(text))
    ensures cache.rows == Stored(old(cache.rows), w, m, text, ContentHash(text), now)
    ensures asked <==> KeyOf(m, text) !in old(cache.rows)
    ensures Faithful(old(cache.rows), w) ==> res == Direct(w, m, text) && Faithful(cache.rows, w)
  {
    hide Answer, Stored, Direct, HashHex, Faithful;
    FaithfulAnswers(cache.rows, w, m, text, now);
    res, asked := EmbedTextWithHash(cache, w, m, text, ContentHash(text), now);
  }

  /** A row that holds what its model makes of the text its key stands for. */
  ghost predicate HonestRow(w: World, k: Key, row: CacheRow, text: Bytes) {
    var d := Direct(w, Model(k.modelId, k.modelVersion), text);
    && k.contentHash == ContentHash(text) && d.Success?
    && row.embedding == Encoded(d.value) && row.checksum == Checksum(k, row.embedding)
  }

  ghost predicate Faithful(rows: Rows, w: World) {
    forall k :: k in rows ==> exists text :: HonestRow(w, k, rows[k], text)
  }

  /** Over a faithful store the cache cannot be noticed. */
  lemma FaithfulAnswers(rows: Rows, w: World, m: Model, text: Bytes, now: int)
    ensures Faithful(rows, w) ==>
      Answer(rows, w, m, text, ContentHash(text)) == Direct(w, m, text)
      && Faithful(Stored(rows, w, m, text, ContentHash(text), now), w)
  {
    hide Encoded, Decoded, HashHex, Checksum, Direct;
    if Faithful(rows, w) {
      var k := KeyOf(m, text);
      if k in rows {
        var t :| HonestRow(w, k, rows[k], t);
        HashIsInjective(t, text);
        DecodeInvertsEncode(Direct(w, m, t).value);
      }
      StoredIsFaithful(rows, w, m, text, now);
    }
  }

  lemma StoredIsFaithful(rows: Rows, w: World, m: Model, text: Bytes, now: int)
    requires Faithful(rows, w)
    ensures Faithful(Stored(rows, w, m, text, ContentHash(text), now), w)
  {
    hide Encoded, Decoded, HashHex, Checksum, Direct;
    var after := Stored(rows, w, m, text, ContentHash(text), now);
    forall k | k in after
      ensures exists t :: HonestRow(w, k, after[k], t)
    {
      if k in rows {
        assert after[k] == rows[k];
      } else {
        assert HonestRow(w, k, after[k], text);
      }
    }
  }

  /** The content hash of a key brings no zero byte with it. */
  lemma KeysWithoutZero(m: Model, text: Bytes)
    ensures NoZero(KeyOf(m, text)) <==> 0 !in m.id && 0 !in m.version
  {
    HashHasNoZero(text);
  }

  /** For models named without zero bytes, the checksum of a row commits to model, text and bytes. */
  lemma RowCommits(m: Model, n: Model, s: Bytes, t: Bytes, a: Bytes, b: Bytes)
    requires 0 !in m.id && 0 !in m.version && 0 !in n.id && 0 !in n.version
    ensures Checksum(KeyOf(m, s), a) == Checksum(KeyOf(n, t), b) <==> m == n && s == t && a == b
  {
    hide Checksum, HashHex, NoZero;
    KeysWithoutZero(m, s);
    KeysWithoutZero(n, t);
    if Checksum(KeyOf(m, s), a) == Checksum(KeyOf(n, t), b) {
      ChecksumCommits(KeyOf(m, s), KeyOf(n, t), a, b);
      HashIsInjective(s, t);
    }
  }

  // --- runs --------------------------------------------------------------------------------------------------------

  /** A call of `embed_text` by a service for the model. */
  datatype Call = Call(model: Model, text: Bytes, now: int)

  /** The shared store after the calls, when it starts empty. */
  function StoreAfter(w: World, calls: seq<Call>): Rows {
    if calls == [] then map[]
    else
      var c := calls[|calls| - 1];
      Stored(StoreAfter(w, calls[..|calls| - 1]), w, c.model, c.text, ContentHash(c.text), c.now)
  }

  /** What call `i` answered. */
  function AnswerAt(w: World, calls: seq<Call>, i: nat): Result<seq<F32>, EmbedError>
    requires i < |calls|
  {
    Answer(StoreAfter(w, calls[..i]), w, calls[i].model, calls[i].text, ContentHash(calls[i].text))
  }

  /** Call `i` asked the embedder. */
  predicate AskedAt(w: World, calls: seq<Call>, i: nat)
    requires i < |calls|
  {
    KeyOf(calls[i].model, calls[i].text) !in StoreAfter(w, calls[..i])
  }

  /** Some of the calls got a vector for the text from the model. */
  ghost predicate Embedded(w: World, calls: seq<Call>, m: Model, text: Bytes) {
    exists c :: c in calls && c.model == m && c.text == text && Direct(w, m, text).Success?
  }

  lemma {:induction false} StoreIsFaithful(w: World, calls: seq<Call>)
    ensures Faithful(StoreAfter(w, calls), w)
  {
    hide Stored, ContentHash;
    if calls != [] {
      var c := calls[|calls| - 1];
      StoreIsFaithful(w, calls[..|calls| - 1]);
      StoredIsFaithful(StoreAfter(w, calls[..|calls| - 1]), w, c.model, c.text, c.now);
    }
  }

  /** Every answer of every run is the embedder's own. */
  lemma CacheIsInvisible(w: World, calls: seq<Call>, i: nat)
    requires i < |calls|
    ensures AnswerAt(w, calls, i) == Direct(w, calls[i].model, calls[i].text)
  {
    hide Answer, Direct, ContentHash, Stored, Faithful;
    StoreIsFaithful(w, calls[..i]);
    FaithfulAnswers(StoreAfter(w, calls[..i]), w, calls[i].model, calls[i].text, calls[i].now);
  }

  /** The store knows exactly the texts that were embedded. */
  lemma {:induction false} StoreKnows(w: World, calls: seq<Call>, m: Model, text: Bytes)
    ensures KeyOf(m, text) in StoreAfter(w, calls) <==> Embedded(w, calls, m, text)
  {
    hide Direct, HashHex, Encoded, Checksum;
    if calls != [] {
      var n := |calls| - 1;
      StoreKnows(w, calls[..n], m, text);
      assert calls == calls[..n] + [calls[n]];
      if KeyOf(calls[n].model, calls[n].text) == KeyOf(m, text) {
        HashIsInjective(calls[n].text, text);
      }
    }
  }

  /** The embedder is asked exactly when no call before got a vector for the same text from the same model. */
  lemma AskedExactlyWhenNew(w: World, calls: seq<Call>, i: nat)
    requires i < |calls|
    ensures AskedAt(w, calls, i) <==> !Embedded(w, calls[..i], calls[i].model, calls[i].text)
  {
    StoreKnows(w, calls[..i], calls[i].model, calls[i].text);
  }

  /** So each text a model can embed is embedded at most once. */
  lemma EmbeddedOnce(w: World, calls: seq<Call>, i: nat, j: nat)
    requires i < j < |calls| && calls[i].model == calls[j].model && calls[i].text == calls[j].text
    requires Direct(w, calls[i].model, calls[i].text).Success?
    ensures !AskedAt(w, calls, j)
  {
    hide AskedAt, Direct;
    AskedExactlyWhenNew(w, calls, j);
    assert calls[..j][i] == calls[i];
  }
}
