/**
  Encrypted-object manifests: checks and folds over chunks and wrapped keys, with a
  64-bit sum that must not overflow.
 */
module Manifest {
  import opened Options
  import opened Validation

  const MIN_CHUNK_SIZE := 64 * 1024
  const MAX_CHUNK_SIZE := 16 * 1024 * 1024
  const MAX_CHUNKS := 100_000
  const MAX_WRAPPED_KEYS := 128
  const MAX_STORAGE_KEY := 512
  const MAX_METADATA := 64 * 1024
  const MAX_OBJECT := 16 * 1024 * 1024 * 1024
  const U64_MAX := 0xffff_ffff_ffff_ffff

  datatype Chunk = Chunk(index: nat, length: nat, digest: string, nonce: string, storageKey: string)

  datatype WrappedKey = WrappedKey(
    recipient: string, keyId: string, algorithm: string, nonce: string, wrapped: string, dataHash: string)

  /** `metadata` is the size of the metadata's JSON text. */
  datatype Manifest = Manifest(
    manifestId: string, objectId: string, clipId: string, cipher: string,
    plaintextLength: nat, ciphertextLength: nat, chunkSize: nat,
    chunks: seq<Chunk>, wrappedKeys: seq<WrappedKey>, metadata: nat, digest: string)

  // ---------------------------------------------------------------------
  // The checks as they are written
  // ---------------------------------------------------------------------

  function HeaderFailure(m: Manifest, decode: Decoder): Option<CoreError> {
    if !PortableIdentifier(m.manifestId) || !PortableIdentifier(m.objectId) || !PortableIdentifier(m.clipId) then
      Some(InvalidIdentifier)
    else if m.cipher != "xchacha20poly1305-chunked-v1" && m.cipher != "aes-256-gcm-chunked-v1" then
      Some(UnsupportedCipher)
    else if !(MIN_CHUNK_SIZE <= m.chunkSize <= MAX_CHUNK_SIZE)
      || m.chunks == [] || |m.chunks| > MAX_CHUNKS
      || m.wrappedKeys == [] || |m.wrappedKeys| > MAX_WRAPPED_KEYS
      || m.ciphertextLength == 0 || m.ciphertextLength > MAX_OBJECT || m.plaintextLength > MAX_OBJECT then
      Some(InvalidManifest)
    else if !Sha256(decode, m.digest) then Some(InvalidManifest)
    else if m.metadata > MAX_METADATA then Some(SizeLimitExceeded)
    else None
  }

  function ChunkFailure(position: nat, c: Chunk, decode: Decoder): Option<CoreError> {
    if c.index != position || c.length == 0 then Some(InvalidManifest)
    else if !Sha256(decode, c.digest) then Some(InvalidManifest)
    else if !DecodesTo(decode, c.nonce, 64, 12, 24) then Some(InvalidManifest)
    else if !StorageKey(c.storageKey, MAX_STORAGE_KEY) then Some(InvalidStorageKey)
    else None
  }

  function KeyFailure(k: WrappedKey, earlier: seq<WrappedKey>, decode: Decoder): Option<CoreError> {
    if !PortableIdentifier(k.recipient) || !PortableIdentifier(k.keyId) || !PortableIdentifier(k.algorithm)
      || (exists i :: 0 <= i < |earlier| && earlier[i].recipient == k.recipient)
      || !DecodesTo(decode, k.nonce, 64, 12, 24)
      || !DecodesTo(decode, k.wrapped, 4096, 32, 4096)
      || !Sha256(decode, k.dataHash)
    then Some(InvalidWrappedKey) else None
  }

  /** The sum of the first `n` chunk lengths, adding with a 64-bit overflow check. */
  function CheckedSum(chunks: seq<Chunk>, n: nat, decode: Decoder): Checked<nat>
    requires n <= |chunks|
  {
    if n == 0 then Passed(0)
    else match CheckedSum(chunks, n - 1, decode)
      case Failed(error) => Failed(error)
      case Passed(sum) =>
        var own := ChunkFailure(n - 1, chunks[n - 1], decode);
        if own.Some? then Failed(own.value)
        else if sum + chunks[n - 1].length > U64_MAX then Failed(SizeLimitExceeded)
        else Passed(sum + chunks[n - 1].length)
  }

  function KeysFailure(keys: seq<WrappedKey>, n: nat, decode: Decoder): Option<CoreError>
    requires n <= |keys|
  {
    if n == 0 then None
    else
      var before := KeysFailure(keys, n - 1, decode);
      if before.Some? then before else KeyFailure(keys[n - 1], keys[..n - 1], decode)
  }

  function Failure(m: Manifest, decode: Decoder): Option<CoreError> {
    var header := HeaderFailure(m, decode);
    if header.Some? then header
    else match CheckedSum(m.chunks, |m.chunks|, decode)
      case Failed(error) => Some(error)
      case Passed(sum) =>
        if sum != m.ciphertextLength then Some(InvalidManifest)
        else KeysFailure(m.wrappedKeys, |m.wrappedKeys|, decode)
  }

  lemma {:induction false} SumFailureStays(chunks: seq<Chunk>, n: nat, k: nat, decode: Decoder)
    requires n <= k <= |chunks| && CheckedSum(chunks, n, decode).Failed?
    ensures CheckedSum(chunks, k, decode) == CheckedSum(chunks, n, decode)
    decreases k
  {
    if n == k {
    } else {
      SumFailureStays(chunks, n, k - 1, decode);
    }
  }

  lemma {:induction false} KeysFailureStays(keys: seq<WrappedKey>, n: nat, k: nat, decode: Decoder)
    requires n <= k <= |keys| && KeysFailure(keys, n, decode).Some?
    ensures KeysFailure(keys, k, decode) == KeysFailure(keys, n, decode)
    decreases k
  {
    if n == k {
    } else {
      KeysFailureStays(keys, n, k - 1, decode);
    }
  }

  method SumChunks(chunks: seq<Chunk>, decode: Decoder) returns (r: Checked<nat>)
    ensures r == CheckedSum(chunks, |chunks|, decode)
  {
    var sum: nat := 0;
    for n := 0 to |chunks|
      invariant CheckedSum(chunks, n, decode) == Passed(sum)
    {
      var own := ChunkFailure(n, chunks[n], decode);
      if own.Some? {
        SumFailureStays(chunks, n + 1, |chunks|, decode);
        return Failed(own.value);
      }
      if chunks[n].length > U64_MAX - sum {
        SumFailureStays(chunks, n + 1, |chunks|, decode);
        return Failed(SizeLimitExceeded);
      }
      sum := sum + chunks[n].length;
    }
    r := Passed(sum);
  }

  ghost predicate RecipientsOf(recipients: set<string>, keys: seq<WrappedKey>) {
    forall name :: name in recipients <==> exists i :: 0 <= i < |keys| && keys[i].recipient == name
  }

  lemma OneMoreRecipient(recipients: set<string>, keys: seq<WrappedKey>, n: nat)
    requires n < |keys| && RecipientsOf(recipients, keys[..n])
    ensures RecipientsOf(recipients + {keys[n].recipient}, keys[..n + 1])
  {
    var shorter, longer := keys[..n], keys[..n + 1];
    assert longer[n] == keys[n];
    assert forall i :: 0 <= i < n ==> longer[i] == shorter[i];
  }

  method CheckKeys(keys: seq<WrappedKey>, decode: Decoder) returns (r: Option<CoreError>)
    ensures r == KeysFailure(keys, |keys|, decode)
  {
    var recipients: set<string> := {};
    for n := 0 to |keys|
      invariant KeysFailure(keys, n, decode).None?
      invariant RecipientsOf(recipients, keys[..n])
    {
      var k := keys[n];
      var sound := PortableIdentifier(k.recipient) && PortableIdentifier(k.keyId) && PortableIdentifier(k.algorithm)
        && k.recipient !in recipients
        && DecodesTo(decode, k.nonce, 64, 12, 24) && DecodesTo(decode, k.wrapped, 4096, 32, 4096)
        && Sha256(decode, k.dataHash);
      if !sound {
        assert KeyFailure(k, keys[..n], decode).Some?;
        KeysFailureStays(keys, n + 1, |keys|, decode);
        return Some(InvalidWrappedKey);
      }
      OneMoreRecipient(recipients, keys, n);
      recipients := recipients + {k.recipient};
    }
    r := None;
  }

  method Validate(m: Manifest, decode: Decoder) returns (r: Option<CoreError>)
    ensures r == Failure(m, decode)
  {
    r := HeaderFailure(m, decode);
    if r.Some? {
      return;
    }
    var sum := SumChunks(m.chunks, decode);
    if sum.Failed? {
      return Some(sum.error);
    }
    if sum.value != m.ciphertextLength {
      return Some(InvalidManifest);
    }
    r := CheckKeys(m.wrappedKeys, decode);
  }

  // ---------------------------------------------------------------------
  // What is accepted
  // ---------------------------------------------------------------------

  /** The length of the first `n` chunks. */
  function Length(chunks: seq<Chunk>, n: nat): nat
    requires n <= |chunks|
  {
    if n == 0 then 0 else Length(chunks, n - 1) + chunks[n - 1].length
  }

  /** 32 bytes of Base64. */
  predicate Digested(decode: Decoder, s: string) {
    1 <= |s| <= 44 && decode(s) == Some(32)
  }

  /** 12 to 24 bytes of Base64. */
  predicate Nonce(decode: Decoder, s: string) {
    1 <= |s| <= 88 && decode(s).Some? && 12 <= decode(s).value <= 24
  }

  predicate Named(m: Manifest) {
    PortableIdentifier(m.manifestId) && PortableIdentifier(m.objectId) && PortableIdentifier(m.clipId)
  }

  predicate Ciphered(m: Manifest) {
    m.cipher in {"xchacha20poly1305-chunked-v1", "aes-256-gcm-chunked-v1"}
  }

  /** Sizes within their bounds: chunks of 64 KiB to 16 MiB, objects of up to 16 GiB. */
  predicate Sized(m: Manifest) {
    && 65_536 <= m.chunkSize <= 16_777_216 && 1 <= |m.chunks| <= 100_000 && 1 <= |m.wrappedKeys| <= 128
    && 1 <= m.ciphertextLength <= 17_179_869_184 && m.plaintextLength <= 17_179_869_184
  }

  predicate SoundHeader(m: Manifest, decode: Decoder) {
    Named(m) && Ciphered(m) && Sized(m) && Digested(decode, m.digest) && m.metadata <= 65_536
  }

  predicate SoundChunk(position: nat, c: Chunk, decode: Decoder) {
    && c.index == position && c.length >= 1 && Digested(decode, c.digest) && Nonce(decode, c.nonce)
    && StorageKey(c.storageKey, 512)
  }

  predicate ChunksSound(chunks: seq<Chunk>, n: nat, decode: Decoder)
    requires n <= |chunks|
  {
    forall i :: 0 <= i < n ==> SoundChunk(i, chunks[i], decode)
  }

  predicate KeySound(k: WrappedKey, decode: Decoder) {
    && PortableIdentifier(k.recipient) && PortableIdentifier(k.keyId) && PortableIdentifier(k.algorithm)
    && Nonce(decode, k.nonce) && Digested(decode, k.dataHash)
    && 1 <= |k.wrapped| <= 5_464 && decode(k.wrapped).Some? && 32 <= decode(k.wrapped).value <= 4_096
  }

  predicate Addressed(name: string, keys: seq<WrappedKey>) {
    exists i :: 0 <= i < |keys| && keys[i].recipient == name
  }

  lemma HeaderSoundExactly(m: Manifest, decode: Decoder)
    ensures HeaderFailure(m, decode).None? <==> SoundHeader(m, decode)
  {
  }

  lemma ChunkSoundExactly(position: nat, c: Chunk, decode: Decoder)
    ensures ChunkFailure(position, c, decode).None? <==> SoundChunk(position, c, decode)
  {
  }

  lemma KeySoundExactly(k: WrappedKey, earlier: seq<WrappedKey>, decode: Decoder)
    ensures KeyFailure(k, earlier, decode).None? <==> KeySound(k, decode) && !Addressed(k.recipient, earlier)
  {
  }

  predicate KeysSound(keys: seq<WrappedKey>, decode: Decoder) {
    && (forall i :: 0 <= i < |keys| ==> KeySound(keys[i], decode))
    && forall i, j :: 0 <= i < j < |keys| ==> keys[i].recipient != keys[j].recipient
  }

  /** Declaratively, with a sum that knows no overflow. */
  predicate WellFormed(m: Manifest, decode: Decoder) {
    && SoundHeader(m, decode)
    && ChunksSound(m.chunks, |m.chunks|, decode)
    && Length(m.chunks, |m.chunks|) == m.ciphertextLength
    && KeysSound(m.wrappedKeys, decode)
  }

  lemma {:induction false} SumExactly(chunks: seq<Chunk>, n: nat, decode: Decoder)
    requires n <= |chunks|
    ensures CheckedSum(chunks, n, decode).Passed? <==> ChunksSound(chunks, n, decode) && Length(chunks, n) <= U64_MAX
    ensures CheckedSum(chunks, n, decode).Passed? ==> CheckedSum(chunks, n, decode).value == Length(chunks, n)
    decreases n
  {
    if n == 0 {
    } else {
      SumExactly(chunks, n - 1, decode);
      ChunkSoundExactly(n - 1, chunks[n - 1], decode);
    }
  }

  lemma KeysSoundSnoc(keys: seq<WrappedKey>, k: WrappedKey, decode: Decoder)
    ensures KeysSound(keys + [k], decode) <==>
      KeysSound(keys, decode) && KeySound(k, decode) && !Addressed(k.recipient, keys)
  {
    var longer := keys + [k];
    assert longer[|keys|] == k;
    assert forall i :: 0 <= i < |keys| ==> longer[i] == keys[i];
  }

  lemma {:induction false} KeysExactly(keys: seq<WrappedKey>, n: nat, decode: Decoder)
    requires n <= |keys|
    ensures KeysFailure(keys, n, decode).None? <==> KeysSound(keys[..n], decode)
    decreases n
  {
    if n == 0 {
    } else {
      KeysExactly(keys, n - 1, decode);
      KeySoundExactly(keys[n - 1], keys[..n - 1], decode);
      KeysSoundSnoc(keys[..n - 1], keys[n - 1], decode);
      assert keys[..n] == keys[..n - 1] + [keys[n - 1]];
    }
  }

  /** The overflow check refuses nothing that should be accepted. */
  lemma AcceptedExactly(m: Manifest, decode: Decoder)
    ensures Failure(m, decode).None? <==> WellFormed(m, decode)
  {
    HeaderSoundExactly(m, decode);
    SumExactly(m.chunks, |m.chunks|, decode);
    KeysExactly(m.wrappedKeys, |m.wrappedKeys|, decode);
    assert m.wrappedKeys[..|m.wrappedKeys|] == m.wrappedKeys;
  }

  // ---------------------------------------------------------------------
  // What a refusal says
  // ---------------------------------------------------------------------

  predicate HeaderRefused(m: Manifest, decode: Decoder, error: CoreError) {
    match error
    case InvalidIdentifier => !Named(m)
    case UnsupportedCipher => Named(m) && !Ciphered(m)
    case InvalidManifest => Named(m) && Ciphered(m) && !(Sized(m) && Digested(decode, m.digest))
    case SizeLimitExceeded => Named(m) && Ciphered(m) && Sized(m) && Digested(decode, m.digest) && m.metadata > 65_536
    case _ => false
  }

  predicate ChunkRefused(position: nat, c: Chunk, decode: Decoder, error: CoreError) {
    var placed := c.index == position && c.length >= 1 && Digested(decode, c.digest) && Nonce(decode, c.nonce);
    match error
    case InvalidManifest => !placed
    case InvalidStorageKey => placed && !StorageKey(c.storageKey, 512)
    case _ => false
  }

  /** The `k`-th chunk ends the sum: it is refused itself, or the sum leaves 64 bits with it. */
  predicate SumRefusedAt(chunks: seq<Chunk>, k: nat, decode: Decoder, error: CoreError)
    requires k < |chunks|
  {
    && ChunksSound(chunks, k, decode) && Length(chunks, k) <= 0xffff_ffff_ffff_ffff
    && if SoundChunk(k, chunks[k], decode) then
         error == SizeLimitExceeded && Length(chunks, k + 1) > 0xffff_ffff_ffff_ffff
       else ChunkRefused(k, chunks[k], decode, error)
  }

  predicate SumRefused(chunks: seq<Chunk>, decode: Decoder, error: CoreError) {
    exists k :: 0 <= k < |chunks| && SumRefusedAt(chunks, k, decode, error)
  }

  lemma {:induction false} SumFailsAt(chunks: seq<Chunk>, n: nat, decode: Decoder) returns (k: nat)
    requires n <= |chunks| && CheckedSum(chunks, n, decode).Failed?
    ensures k < n && CheckedSum(chunks, k, decode).Passed?
    ensures CheckedSum(chunks, n, decode) == CheckedSum(chunks, k + 1, decode)
    decreases n
  {
    if CheckedSum(chunks, n - 1, decode).Failed? {
      k := SumFailsAt(chunks, n - 1, decode);
    } else {
      k := n - 1;
    }
  }

  lemma SumRefusedAtExactly(chunks: seq<Chunk>, k: nat, decode: Decoder, error: CoreError)
    requires k < |chunks|
    ensures SumRefusedAt(chunks, k, decode, error) <==>
      CheckedSum(chunks, k, decode).Passed? && CheckedSum(chunks, k + 1, decode) == Failed(error)
  {
    SumExactly(chunks, k, decode);
    ChunkSoundExactly(k, chunks[k], decode);
  }

  lemma SumRefusedEnds(chunks: seq<Chunk>, k: nat, decode: Decoder, error: CoreError)
    requires k < |chunks| && SumRefusedAt(chunks, k, decode, error)
    ensures CheckedSum(chunks, |chunks|, decode) == Failed(error)
  {
    SumRefusedAtExactly(chunks, k, decode, error);
    SumFailureStays(chunks, k + 1, |chunks|, decode);
  }

  lemma SumEndsRefused(chunks: seq<Chunk>, decode: Decoder, error: CoreError)
    requires CheckedSum(chunks, |chunks|, decode) == Failed(error)
    ensures SumRefused(chunks, decode, error)
  {
    var k := SumFailsAt(chunks, |chunks|, decode);
    SumRefusedAtExactly(chunks, k, decode, error);
  }

  lemma SumRefusedExactly(chunks: seq<Chunk>, decode: Decoder, error: CoreError)
    ensures CheckedSum(chunks, |chunks|, decode) == Failed(error) <==> SumRefused(chunks, decode, error)
  {
    if SumRefused(chunks, decode, error) {
      var k :| 0 <= k < |chunks| && SumRefusedAt(chunks, k, decode, error);
      SumRefusedEnds(chunks, k, decode, error);
    } else if CheckedSum(chunks, |chunks|, decode) == Failed(error) {
      SumEndsRefused(chunks, decode, error);
    }
  }

  lemma {:induction false} KeysFailOneWay(keys: seq<WrappedKey>, n: nat, decode: Decoder)
    requires n <= |keys| && KeysFailure(keys, n, decode).Some?
    ensures KeysFailure(keys, n, decode) == Some(InvalidWrappedKey)
    decreases n
  {
    if KeysFailure(keys, n - 1, decode).Some? {
      KeysFailOneWay(keys, n - 1, decode);
    }
  }

  lemma HeaderRefusedExactly(m: Manifest, decode: Decoder, error: CoreError)
    ensures HeaderFailure(m, decode) == Some(error) <==> HeaderRefused(m, decode, error)
  {
  }

  /** The error of a refused manifest: of the header, then of the first chunk in the way, of the sum, of the keys. */
  lemma RefusedExactly(m: Manifest, decode: Decoder, error: CoreError)
    ensures Failure(m, decode) == Some(error) <==>
      || HeaderRefused(m, decode, error)
      || (SoundHeader(m, decode) && SumRefused(m.chunks, decode, error))
      || (&& SoundHeader(m, decode) && ChunksSound(m.chunks, |m.chunks|, decode)
          && Length(m.chunks, |m.chunks|) <= 0xffff_ffff_ffff_ffff
          && if Length(m.chunks, |m.chunks|) != m.ciphertextLength then error == InvalidManifest
             else error == InvalidWrappedKey && !KeysSound(m.wrappedKeys, decode))
  {
    var n := |m.wrappedKeys|;
    HeaderRefusedExactly(m, decode, error);
    HeaderSoundExactly(m, decode);
    SumExactly(m.chunks, |m.chunks|, decode);
    SumRefusedExactly(m.chunks, decode, error);
    KeysExactly(m.wrappedKeys, n, decode);
    assert m.wrappedKeys[..n] == m.wrappedKeys;
    if KeysFailure(m.wrappedKeys, n, decode).Some? {
      KeysFailOneWay(m.wrappedKeys, n, decode);
    }
  }

  // ---------------------------------------------------------------------
  // Chunks tile the object
  // ---------------------------------------------------------------------

  predicate InChunk(chunks: seq<Chunk>, k: nat, offset: nat) {
    k < |chunks| && Length(chunks, k) <= offset < Length(chunks, k + 1)
  }

  lemma {:induction false} LengthGrows(chunks: seq<Chunk>, k: nat, n: nat)
    requires k <= n <= |chunks|
    ensures Length(chunks, k) <= Length(chunks, n)
    decreases n
  {
    if k == n {
    } else {
      LengthGrows(chunks, k, n - 1);
    }
  }

  lemma {:induction false} FindChunk(chunks: seq<Chunk>, n: nat, offset: nat) returns (k: nat)
    requires n <= |chunks| && offset < Length(chunks, n)
    ensures InChunk(chunks, k, offset)
    decreases n
  {
    if Length(chunks, n - 1) <= offset {
      k := n - 1;
    } else {
      k := FindChunk(chunks, n - 1, offset);
    }
  }

  lemma OneChunkOnly(chunks: seq<Chunk>, k: nat, l: nat, offset: nat)
    requires InChunk(chunks, k, offset) && InChunk(chunks, l, offset)
    ensures k == l
  {
    if k < l {
      LengthGrows(chunks, k + 1, l);
    } else if l < k {
      LengthGrows(chunks, l + 1, k);
    }
  }

  ghost predicate InSomeChunk(chunks: seq<Chunk>, offset: nat) {
    exists k: nat :: InChunk(chunks, k, offset)
  }

  lemma ChunksCover(chunks: seq<Chunk>, offset: nat)
    ensures offset < Length(chunks, |chunks|) <==> InSomeChunk(chunks, offset)
  {
    if offset < Length(chunks, |chunks|) {
      var k := FindChunk(chunks, |chunks|, offset);
    }
    if k: nat :| InChunk(chunks, k, offset) {
      LengthGrows(chunks, k + 1, |chunks|);
    }
  }

  /** Every offset of an accepted object lies in exactly one chunk, and offsets past the end in none. */
  lemma ChunksTile(m: Manifest, decode: Decoder, offset: nat)
    requires Failure(m, decode).None?
    ensures offset < m.ciphertextLength <==> InSomeChunk(m.chunks, offset)
    ensures forall k: nat, l: nat :: InChunk(m.chunks, k, offset) && InChunk(m.chunks, l, offset) ==> k == l
  {
    AcceptedExactly(m, decode);
    ChunksCover(m.chunks, offset);
    forall k: nat, l: nat | InChunk(m.chunks, k, offset) && InChunk(m.chunks, l, offset) ensures k == l {
      OneChunkOnly(m.chunks, k, l, offset);
    }
  }

  lemma RecipientsDistinct(m: Manifest, decode: Decoder)
    requires Failure(m, decode).None?
    ensures forall i, j :: 0 <= i < j < |m.wrappedKeys| ==> m.wrappedKeys[i].recipient != m.wrappedKeys[j].recipient
  {
    AcceptedExactly(m, decode);
  }

  /** Reads 44 characters as 32 bytes and 16 as 12, as Base64 does with `=` at the end of the 44. */
  function ByLength(): Decoder {
    (s: string) => if |s| == 44 then Some(32) else if |s| == 16 then Some(12) else None
  }

  /** `n` times the letter `A`. */
  function As(n: nat): (s: string)
    ensures |s| == n && forall i :: 0 <= i < n ==> s[i] == 'A'
  {
    seq(n, _ => 'A')
  }

  function OneChunk(length: nat, chunkSize: nat): Manifest {
    Manifest("m", "o", "c", "aes-256-gcm-chunked-v1", 1, length, chunkSize,
             [Chunk(0, length, As(44), As(16), As(16))],
             [WrappedKey("d", "k", "a", As(16), As(44), As(44))], 0, As(44))
  }

  lemma OneChunkSound(length: nat)
    requires 0 < length
    ensures SoundChunk(0, Chunk(0, length, As(44), As(16), As(16)), ByLength())
    ensures KeySound(WrappedKey("d", "k", "a", As(16), As(44), As(44)), ByLength())
  {
  }

  lemma OneChunkHeader(length: nat, chunkSize: nat)
    requires 0 < length <= MAX_OBJECT && MIN_CHUNK_SIZE <= chunkSize <= MAX_CHUNK_SIZE
    ensures SoundHeader(OneChunk(length, chunkSize), ByLength())
  {
  }

  /** A chunk may be as long as a whole object, however small the chunk size declared with it. */
  lemma ChunkMayExceedChunkSize(length: nat, chunkSize: nat)
    requires 0 < length <= MAX_OBJECT && MIN_CHUNK_SIZE <= chunkSize <= MAX_CHUNK_SIZE
    ensures Failure(OneChunk(length, chunkSize), ByLength()).None?
    ensures OneChunk(length, chunkSize).chunks[0].length == length && OneChunk(length, chunkSize).chunkSize == chunkSize
  {
    var m := OneChunk(length, chunkSize);
    OneChunkHeader(length, chunkSize);
    OneChunkSound(length);
    assert Length(m.chunks, 1) == Length(m.chunks, 0) + m.chunks[0].length;
    AcceptedExactly(m, ByLength());
  }

  /** For one: 16 GiB in a chunk of an object that declares chunks of 64 KiB. */
  lemma LongestChunkAccepted()
    ensures var m := OneChunk(MAX_OBJECT, MIN_CHUNK_SIZE);
      Failure(m, ByLength()).None? && m.chunks[0].length > m.chunkSize
  {
    ChunkMayExceedChunkSize(MAX_OBJECT, MIN_CHUNK_SIZE);
  }

  predicate ChunksFit(m: Manifest) {
    forall i :: 0 <= i < |m.chunks| ==> m.chunks[i].length <= m.chunkSize
  }

  /** In every accepted manifest of that length and chunk size, no chunk is longer than the chunk size. */
  ghost predicate AlwaysFit(length: nat, chunkSize: nat) {
    forall m: Manifest, decode: Decoder ::
      Failure(m, decode).None? && m.ciphertextLength == length && m.chunkSize == chunkSize ==> ChunksFit(m)
  }

  lemma ChunksWithinObject(m: Manifest, decode: Decoder)
    requires Failure(m, decode).None?
    ensures forall i :: 0 <= i < |m.chunks| ==> m.chunks[i].length <= m.ciphertextLength
  {
    AcceptedExactly(m, decode);
    forall i | 0 <= i < |m.chunks| ensures m.chunks[i].length <= m.ciphertextLength {
      LengthGrows(m.chunks, i + 1, |m.chunks|);
    }
  }

  /** The chunk size bounds the chunks of an object exactly when it bounds the object. */
  lemma ChunkSizeBoundsExactly(length: nat, chunkSize: nat)
    requires 0 < length <= MAX_OBJECT && MIN_CHUNK_SIZE <= chunkSize <= MAX_CHUNK_SIZE
    ensures AlwaysFit(length, chunkSize) <==> length <= chunkSize
  {
    if length <= chunkSize {
      forall m: Manifest, decode: Decoder |
        Failure(m, decode).None? && m.ciphertextLength == length && m.chunkSize == chunkSize
        ensures ChunksFit(m)
      {
        ChunksWithinObject(m, decode);
      }
    } else {
      ChunkMayExceedChunkSize(length, chunkSize);
      assert !ChunksFit(OneChunk(length, chunkSize));
    }
  }
}
