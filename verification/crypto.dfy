/**
 * The chunking engine, the reconstruction of a blob from its chunks, key
 * derivation, and the base64 packing around AES-GCM. The Web Crypto calls
 * (PBKDF2, AES-GCM) are function values handed in by the caller; the
 * properties an authenticated cipher has are the predicate `Ideal`.
 */
module Crypto {
  import opened Outcomes
  import opened Bytes
  import Base64

  /** Files are cut into blocks of 1 MiB. */
  const CHUNK_SIZE: nat := 0x10_0000

  /** AES-GCM initialisation vectors are 12 random bytes. */
  const IV_LENGTH: nat := 12

  /** Key derivation uses a fixed salt and a fixed iteration count of PBKDF2 over SHA-256. */
  const PBKDF2_SALT: string := "veltrain-salt"
  const PBKDF2_ITERATIONS: nat := 100000

  type Iv = s: Bytes | |s| == IV_LENGTH witness [0, 0, 0, 0, 0, 0, 0, 0, 0, 0, 0, 0]

  /** An opaque AES-256 key handle; it is never serialised. */
  datatype CryptoKey = CryptoKey(material: Bytes)

  /** PBKDF2 as the crypto provider runs it: passphrase, salt, iterations. */
  type Pbkdf2 = (string, string, nat) -> CryptoKey

  /**
   * AES-GCM as the crypto provider runs it: `seal` encrypts and appends the
   * tag, `open` checks the tag and decrypts, or fails (`None`).
   */
  datatype Aead = Aead(seal: (CryptoKey, Iv, Bytes) -> Bytes, open: (CryptoKey, Bytes, Bytes) -> Option<Bytes>)

  /**
   * What an authenticated cipher promises: opening a sealed text under the same
   * key and IV gives the plaintext back; `open` succeeds only on a text that
   * `seal` produced under that key and IV; and `seal` never gives two different
   * (key, IV, plaintext) triples the same output, so any other key fails.
   */
  ghost predicate Ideal(a: Aead)
  {
    && (forall k, iv: Iv, p :: a.open(k, iv, a.seal(k, iv, p)) == Some(p))
    && (forall k, n, c :: a.open(k, n, c).Some? ==>
          |n| == IV_LENGTH && c == a.seal(k, n, a.open(k, n, c).value))
    && (forall k1, n1: Iv, p1, k2, n2: Iv, p2 :: a.seal(k1, n1, p1) == a.seal(k2, n2, p2) ==>
          k1 == k2 && n1 == n2 && p1 == p2)
  }

  // ---------------------------------------------------------------- key derivation

  /** The white space and line terminators `String.prototype.trim` removes. */
  predicate IsJsWhitespace(c: char)
  {
    || c == '\t' || c == '\n' || c == '\U{B}' || c == '\U{C}' || c == '\r' || c == ' '
    || c == '\U{A0}' || c == '\U{1680}' || '\U{2000}' <= c <= '\U{200A}'
    || c == '\U{2028}' || c == '\U{2029}' || c == '\U{202F}' || c == '\U{205F}'
    || c == '\U{3000}' || c == '\U{FEFF}'
  }

  function TrimStart(s: string): (r: string)
    ensures |r| <= |s| && r == s[|s| - |r|..]
    ensures |r| > 0 ==> !IsJsWhitespace(r[0])
    ensures |r| == 0 <==> forall i :: 0 <= i < |s| ==> IsJsWhitespace(s[i])
  {
    if |s| == 0 then s
    else if IsJsWhitespace(s[0]) then TrimStart(s[1..])
    else s
  }

  function TrimEnd(s: string): (r: string)
    ensures |r| <= |s| && r == s[..|r|]
    ensures |r| > 0 ==> !IsJsWhitespace(r[|r| - 1])
    ensures |r| == 0 <==> forall i :: 0 <= i < |s| ==> IsJsWhitespace(s[i])
  {
    if |s| == 0 then s
    else if IsJsWhitespace(s[|s| - 1]) then TrimEnd(s[..|s| - 1])
    else s
  }

  function Trim(s: string): string
  {
    TrimEnd(TrimStart(s))
  }

  /**
   * The passphrase check of the setup form, then `deriveKey`: a passphrase that
   * trims to nothing is refused before any cryptographic work; otherwise the
   * untrimmed passphrase goes to PBKDF2 with the fixed salt and iteration count.
   */
  function DeriveKey(pbkdf2: Pbkdf2, passphrase: string): (r: Result<CryptoKey>)
    ensures r.Failure? <==> forall i :: 0 <= i < |passphrase| ==> IsJsWhitespace(passphrase[i])
    ensures r.Failure? ==> r.error == ValidationError
    ensures r.Success? ==> r.value == pbkdf2(passphrase, PBKDF2_SALT, PBKDF2_ITERATIONS)
  {
    if Trim(passphrase) == "" then Failure(ValidationError)
    else Success(pbkdf2(passphrase, PBKDF2_SALT, PBKDF2_ITERATIONS))
  }

  // ---------------------------------------------------------------- chunking

  /** `blob.slice(start, end)`: the end is clamped to the blob's size. */
  function Slice(data: Bytes, start: nat, end: nat): (r: Bytes)
    requires start <= |data|
  {
    var stop := if end < |data| then end else |data|;
    if stop < start then [] else data[start..stop]
  }

  /** Block `i` of `data`: the 1 MiB slice that starts at `i * CHUNK_SIZE`, nothing past the end. */
  function Block(data: Bytes, i: nat): Bytes
  {
    if i * CHUNK_SIZE <= |data| then Slice(data, i * CHUNK_SIZE, i * CHUNK_SIZE + CHUNK_SIZE) else []
  }

  /**
   * `chunkFile`: 1 MiB slices taken while the offset is below the size. The
   * blocks rebuild the input, all but the last are full, none is empty, and
   * there are ceil(size / CHUNK_SIZE) of them (none for an empty file).
   */
  method ChunkFile(data: Bytes) returns (chunks: seq<Bytes>)
    ensures Flatten(chunks) == data
    ensures |chunks| == (|data| + CHUNK_SIZE - 1) / CHUNK_SIZE
    ensures forall i :: 0 <= i < |chunks| - 1 ==> |chunks[i]| == CHUNK_SIZE
    ensures forall i :: 0 <= i < |chunks| ==> 0 < |chunks[i]| <= CHUNK_SIZE
    ensures forall i :: 0 <= i < |chunks| ==> chunks[i] == Block(data, i)
  {
    chunks := [];
    var offset: nat := 0;
    while offset < |data|
      invariant offset == |chunks| * CHUNK_SIZE
      invariant Flatten(chunks) == data[..if offset < |data| then offset else |data|]
      invariant |chunks| > 0 ==> (|chunks| - 1) * CHUNK_SIZE < |data|
      invariant forall i :: 0 <= i < |chunks| ==> 0 < |chunks[i]| <= CHUNK_SIZE
      invariant forall i :: 0 <= i < |chunks| && (i < |chunks| - 1 || offset <= |data|) ==>
                  |chunks[i]| == CHUNK_SIZE
    {
      var slice := Slice(data, offset, offset + CHUNK_SIZE);
      var end := if offset + CHUNK_SIZE < |data| then offset + CHUNK_SIZE else |data|;
      assert data[..end] == data[..offset] + slice;
      chunks := chunks + [slice];
      offset := offset + CHUNK_SIZE;
    }
    assert data[..|data|] == data;
    CeilCount(|chunks|, |data|);
    SplitIsBlocks(data, chunks);
  }

  /**
   * A split of `data` into non-empty blocks of at most 1 MiB, all full but the
   * last, is the 1 MiB split: block `i` is `Block(data, i)`.
   */
  lemma {:induction false} SplitIsBlocks(data: Bytes, chunks: seq<Bytes>)
    requires Flatten(chunks) == data
    requires forall i :: 0 <= i < |chunks| - 1 ==> |chunks[i]| == CHUNK_SIZE
    requires forall i :: 0 <= i < |chunks| ==> 0 < |chunks[i]| <= CHUNK_SIZE
    ensures |chunks| > 0 ==> |data| == (|chunks| - 1) * CHUNK_SIZE + |chunks[|chunks| - 1]|
    ensures forall i :: 0 <= i < |chunks| ==> chunks[i] == Block(data, i)
    decreases |chunks|
  {
    if |chunks| > 0 {
      var n := |chunks|;
      var pre := chunks[..n - 1];
      var head := Flatten(pre);
      assert data == head + chunks[n - 1];
      if n > 1 {
        SplitIsBlocks(head, pre);
        assert |head| == (n - 1) * CHUNK_SIZE;
      }
      assert |head| == (n - 1) * CHUNK_SIZE;
      forall i | 0 <= i < n
        ensures chunks[i] == Block(data, i)
      {
        if i < n - 1 {
          BlockOfPrefix(head, chunks[n - 1], i);
          assert chunks[i] == pre[i];
        } else {
          assert data[i * CHUNK_SIZE..] == chunks[n - 1];
        }
      }
    }
  }

  /** A block that ends inside `head` is the same block of `head + tail`. */
  lemma BlockOfPrefix(head: Bytes, tail: Bytes, i: nat)
    requires (i + 1) * CHUNK_SIZE <= |head|
    ensures Block(head, i) == Block(head + tail, i)
  {
    assert (head + tail)[i * CHUNK_SIZE..i * CHUNK_SIZE + CHUNK_SIZE] == head[i * CHUNK_SIZE..i * CHUNK_SIZE + CHUNK_SIZE];
  }

  lemma CeilCount(n: nat, size: nat)
    requires n * CHUNK_SIZE >= size
    requires n > 0 ==> (n - 1) * CHUNK_SIZE < size
    ensures n == (size + CHUNK_SIZE - 1) / CHUNK_SIZE
  {
  }

  // ---------------------------------------------------------------- reconstruction

  /** A typed byte sequence (`Blob`). */
  datatype Blob = Blob(bytes: Bytes, mimeType: string)

  /**
   * The `type` a `Blob` records: the empty string when the requested type has a
   * character outside U+0020 to U+007E, otherwise its ASCII lower-case form.
   */
  function BlobType(t: string): (r: string)
    ensures |r| == 0 || |r| == |t|
  {
    if exists i :: 0 <= i < |t| && !(' ' <= t[i] <= '~') then ""
    else seq(|t|, i requires 0 <= i < |t| => if 'A' <= t[i] <= 'Z' then (t[i] as int + 32) as char else t[i])
  }

  /** A printable type without upper-case letters is recorded as given. */
  lemma BlobTypeKeepsPlainType(t: string)
    requires forall i :: 0 <= i < |t| ==> ' ' <= t[i] <= '~' && !('A' <= t[i] <= 'Z')
    ensures BlobType(t) == t
  {
  }

  /**
   * `reconstructFile`: the blocks laid end to end in the given order, typed
   * with the requested MIME type; each block appears intact at its offset.
   */
  function ReconstructFile(chunks: seq<Bytes>, mimeType: string): (b: Blob)
    ensures |b.bytes| == TotalLength(chunks)
    ensures forall i :: 0 <= i < |chunks| ==>
              Offset(chunks, i) + |chunks[i]| <= |b.bytes| &&
              b.bytes[Offset(chunks, i)..Offset(chunks, i) + |chunks[i]|] == chunks[i]
    ensures b.mimeType == BlobType(mimeType)
  {
    FlattenLength(chunks);
    forall i | 0 <= i < |chunks|
      ensures Offset(chunks, i) + |chunks[i]| <= |Flatten(chunks)|
      ensures Flatten(chunks)[Offset(chunks, i)..Offset(chunks, i) + |chunks[i]|] == chunks[i]
    {
      FlattenSlice(chunks, i);
    }
    Blob(Flatten(chunks), BlobType(mimeType))
  }

  // ---------------------------------------------------------------- cipher packing

  /** What `encryptChunk` returns: the IV and the ciphertext, both as base64 text. */
  datatype Sealed = Sealed(iv: string, ciphertext: string)

  /**
   * `encryptChunk` with the freshly drawn IV `iv`: both parts are base64 and
   * decode back to exactly the IV and the bytes AES-GCM produced.
   */
  function EncryptChunk(aead: Aead, chunk: Bytes, key: CryptoKey, iv: Iv): (r: Sealed)
    ensures Base64.Atob(r.iv) == Success(iv)
    ensures Base64.Atob(r.ciphertext) == Success(aead.seal(key, iv, chunk))
    ensures |r.iv| == 16
  {
    Sealed(Base64.ToBase64(iv), Base64.ToBase64(aead.seal(key, iv, chunk)))
  }

  /**
   * `decryptChunk`: both arguments go through `atob` (an argument that is not a
   * string is first converted to one), then AES-GCM decryption. Under an ideal
   * cipher a success means the ciphertext is exactly what sealing the returned
   * plaintext under this key and IV produces.
   */
  function DecryptChunk(aead: Aead, iv: Field, ciphertext: Field, key: CryptoKey): (r: Result<Bytes>)
    ensures r.Failure? ==> r.error == InvalidCharacterError || r.error == OperationError
    ensures Ideal(aead) && r.Success? ==>
              && Base64.Atob(ToDomString(iv)).Success?
              && |Base64.Atob(ToDomString(iv)).value| == IV_LENGTH
              && Base64.Atob(ToDomString(ciphertext)).Success?
              && Base64.Atob(ToDomString(ciphertext)).value
                 == aead.seal(key, Base64.Atob(ToDomString(iv)).value, r.value)
  {
    var ivBytes :- Base64.Atob(ToDomString(iv));
    var cipherBytes :- Base64.Atob(ToDomString(ciphertext));
    match aead.open(key, ivBytes, cipherBytes)
    case None => Failure(OperationError)
    case Some(plain) => Success(plain)
  }

  /** The round trip the repository's test helpers exercise: decrypting what `encryptChunk` produced gives the plaintext. */
  lemma EncryptDecrypt(aead: Aead, chunk: Bytes, key: CryptoKey, iv: Iv)
    requires Ideal(aead)
    ensures var s := EncryptChunk(aead, chunk, key, iv);
            DecryptChunk(aead, Str(s.iv), Str(s.ciphertext), key) == Success(chunk)
  {
    var s := EncryptChunk(aead, chunk, key, iv);
    assert aead.open(key, iv, aead.seal(key, iv, chunk)) == Some(chunk);
  }

  /** Decrypting with any other key throws and yields no plaintext. */
  lemma WrongKeyRejected(aead: Aead, chunk: Bytes, key: CryptoKey, other: CryptoKey, iv: Iv)
    requires Ideal(aead) && other != key
    ensures var s := EncryptChunk(aead, chunk, key, iv);
            DecryptChunk(aead, Str(s.iv), Str(s.ciphertext), other) == Failure(OperationError)
  {
  }
}
