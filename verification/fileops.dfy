/**
 * The file operations of the application hook: the list filter, the upload
 * path, the per-chunk decode rule shared by preview and export, and the
 * migration that re-encrypts files stored without a key. The random IVs come
 * from a stream `random`; `drawn` counts how many values have been taken.
 */
module FileOps {
  import opened Outcomes
  import opened Bytes
  import opened Records
  import opened Listing
  import opened Crypto
  import opened Db
  import Base64
  import Backup

  // ---------------------------------------------------------------- listing

  /** The files whose `encrypted` flag is false, in their original order. */
  function Unencrypted(rows: seq<Keyed<FileMeta>>): (r: seq<Keyed<FileMeta>>)
    ensures forall x :: x in r <==> x in rows && !x.val.encrypted
    ensures forall i :: 0 <= i < |r| ==> !r[i].val.encrypted
    ensures |r| <= |rows|
  {
    if |rows| == 0 then []
    else
      var tail := Unencrypted(rows[1..]);
      assert rows == [rows[0]] + rows[1..];
      if !rows[0].val.encrypted then [rows[0]] + tail else tail
  }

  predicate Increasing(rows: seq<Keyed<FileMeta>>)
  {
    forall i, j :: 0 <= i < j < |rows| ==> rows[i].id < rows[j].id
  }

  /** Filtering keeps the ids in increasing order. */
  lemma {:induction false} UnencryptedOrdered(rows: seq<Keyed<FileMeta>>)
    requires Increasing(rows)
    ensures Increasing(Unencrypted(rows))
    ensures forall i :: 0 <= i < |Unencrypted(rows)| ==> rows[0].id <= Unencrypted(rows)[i].id
  {
    if |rows| > 0 {
      var tail := rows[1..];
      assert Increasing(tail);
      UnencryptedOrdered(tail);
      var u := Unencrypted(tail);
      if |tail| > 0 {
        assert rows[0].id < tail[0].id;
      }
      if !rows[0].val.encrypted {
        ConsIncreasing(rows[0], u);
      }
    }
  }

  lemma ConsIncreasing(x: Keyed<FileMeta>, u: seq<Keyed<FileMeta>>)
    requires Increasing(u) && forall i :: 0 <= i < |u| ==> x.id < u[i].id
    ensures Increasing([x] + u)
  {
  }

  /**
   * `loadFiles`: with `showUnencryptedOnly`, exactly the stored files whose
   * `encrypted` flag is false; otherwise every stored file.
   */
  function LoadFiles(s: Store, unencryptedOnly: bool): (r: seq<Keyed<FileMeta>>)
    ensures !unencryptedOnly ==> r == GetAllFiles(s)
    ensures unencryptedOnly ==> forall id :: HasKey(r, id) <==> id in s.files && !s.files[id].encrypted
    ensures forall i :: 0 <= i < |r| ==> r[i].id in s.files && s.files[r[i].id] == r[i].val
    ensures Increasing(r)
  {
    var all := GetAllFiles(s);
    if unencryptedOnly then
      UnencryptedOrdered(all);
      UnencryptedKeys(all, s.files);
      Unencrypted(all)
    else all
  }

  /** The filter over a complete listing of `files` selects exactly the unencrypted keys. */
  lemma UnencryptedKeys(all: seq<Keyed<FileMeta>>, files: map<nat, FileMeta>)
    requires forall i :: 0 <= i < |all| ==> all[i].id in files && files[all[i].id] == all[i].val
    requires forall id :: id in files ==> HasKey(all, id)
    ensures var r := Unencrypted(all);
            && (forall i :: 0 <= i < |r| ==> r[i].id in files && files[r[i].id] == r[i].val)
            && (forall id :: HasKey(r, id) <==> id in files && !files[id].encrypted)
  {
    var r := Unencrypted(all);
    forall i | 0 <= i < |r|
      ensures r[i].id in files && files[r[i].id] == r[i].val
    {
      assert r[i] in r;
      var k :| 0 <= k < |all| && all[k] == r[i];
    }
    forall id | id in files && !files[id].encrypted
      ensures HasKey(r, id)
    {
      var k :| 0 <= k < |all| && all[k].id == id;
      assert all[k] in all;
      var j :| 0 <= j < |r| && r[j] == all[k];
    }
  }

  // ---------------------------------------------------------------- decoding

  /**
   * The decode rule of preview and export: an encrypted chunk, when there is
   * a key, is decrypted; a plain chunk with `data` gives those numbers as
   * bytes; anything else is "Invalid chunk data".
   */
  function DecodeChunk(aead: Aead, key: Option<CryptoKey>, c: Chunk): (r: Result<Bytes>)
    ensures r == Failure(InvalidChunkData) <==>
              (c.encrypted && key.None?) || (!c.encrypted && c.data.None?)
    ensures r.Failure? ==> r.error in {InvalidChunkData, InvalidCharacterError, OperationError}
    ensures !c.encrypted && c.data.Some? ==> r.Success? && |r.value| == |c.data.value|
    ensures !c.encrypted && c.data.Some? && AllBytes(c.data.value) ==> r == Success(c.data.value)
    ensures c.encrypted && key.Some? && Ideal(aead) && r.Success? ==>
              Base64.Atob(ToDomString(c.iv)).Success? &&
              |Base64.Atob(ToDomString(c.iv)).value| == IV_LENGTH &&
              Base64.Atob(ToDomString(c.ciphertext)).Success? &&
              Base64.Atob(ToDomString(c.ciphertext)).value ==
                aead.seal(key.value, Base64.Atob(ToDomString(c.iv)).value, r.value)
  {
    if c.encrypted && key.Some? then DecryptChunk(aead, c.iv, c.ciphertext, key.value)
    else if !c.encrypted && c.data.Some? then
      assert AllBytes(c.data.value) ==> Uint8Array(c.data.value) == c.data.value;
      Success(Uint8Array(c.data.value))
    else Failure(InvalidChunkData)
  }

  /** Every chunk decoded in order; the first failure fails them all. */
  function DecodeChunks(aead: Aead, key: Option<CryptoKey>, rows: seq<Keyed<Chunk>>): (r: Result<seq<Bytes>>)
    ensures r.Success? <==> forall i :: 0 <= i < |rows| ==> DecodeChunk(aead, key, rows[i].val).Success?
    ensures r.Success? ==> |r.value| == |rows|
    ensures r.Success? ==> forall i :: 0 <= i < |rows| ==> Success(r.value[i]) == DecodeChunk(aead, key, rows[i].val)
    ensures r.Failure? ==> exists i :: 0 <= i < |rows| && DecodeChunk(aead, key, rows[i].val) == Failure(r.error)
  {
    if |rows| == 0 then Success([])
    else
      var head :- DecodeChunk(aead, key, rows[0].val);
      var tail := DecodeChunks(aead, key, rows[1..]);
      if tail.Failure? then
        var i :| 0 <= i < |rows| - 1 && DecodeChunk(aead, key, rows[1..][i].val) == Failure(tail.error);
        assert rows[i + 1] == rows[1..][i];
        Failure(tail.error)
      else
        Success([head] + tail.value)
  }

  /**
   * `handlePreview`: the file's chunks, in chunk-index order, each decoded,
   * then laid end to end as a blob of the file's MIME type. One undecodable
   * chunk means no blob at all.
   */
  function OpenFile(aead: Aead, key: Option<CryptoKey>, s: Store, file: Keyed<FileMeta>): (r: Result<Blob>)
    ensures r.Success? <==> DecodeChunks(aead, key, GetFileChunks(s, file.id)).Success?
    ensures r.Success? ==> && r.value.bytes == Flatten(DecodeChunks(aead, key, GetFileChunks(s, file.id)).value)
                           && r.value.mimeType == BlobType(file.val.mimeType)
    ensures r.Failure? ==> r.error in {InvalidChunkData, InvalidCharacterError, OperationError}
  {
    var blocks :- DecodeChunks(aead, key, GetFileChunks(s, file.id));
    Success(ReconstructFile(blocks, file.val.mimeType))
  }

  /** A blob handed to the browser as a download under a file name. */
  datatype Download = Download(blob: Blob, name: string)

  /** `handleExportFile`: the same blob as the preview, saved under the file's name. */
  function ExportFile(aead: Aead, key: Option<CryptoKey>, s: Store, file: Keyed<FileMeta>): (r: Result<Download>)
    ensures r.Success? <==> OpenFile(aead, key, s, file).Success?
    ensures r.Success? ==> r.value == Download(OpenFile(aead, key, s, file).value, file.val.name)
    ensures r.Failure? ==> r.error == OpenFile(aead, key, s, file).error
  {
    var blob :- OpenFile(aead, key, s, file);
    Success(Download(blob, file.val.name))
  }

  // ---------------------------------------------------------------- writing blocks

  /**
   * The record written for block `index` of file `fileId`: with a key, the
   * block sealed under it with the IV `iv`, both parts as base64 text and
   * `encrypted: true`; without one, the raw bytes in `data` and
   * `encrypted: false`.
   */
  function BlockRecord(aead: Aead, key: Option<CryptoKey>, iv: Iv, fileId: nat, index: nat, block: Bytes): (c: Chunk)
    ensures c.fileId == fileId && c.chunkIndex == index && c.encrypted == key.Some?
    ensures Canonical(c)
    ensures key.Some? ==> c.iv.Str? && c.ciphertext.Str? && c.data.None?
    ensures key.None? ==> c.data == Some(block) && c.iv.Absent? && c.ciphertext.Absent?
  {
    if key.Some? then
      var sealed := EncryptChunk(aead, block, key.value, iv);
      Chunk(fileId, index, true, Str(sealed.iv), Str(sealed.ciphertext), None)
    else
      Chunk(fileId, index, false, Absent, Absent, Some(block))
  }

  /** A record the upload path writes decodes back to its block. */
  lemma BlockRecordDecodes(aead: Aead, key: Option<CryptoKey>, iv: Iv, fileId: nat, index: nat, block: Bytes)
    requires key.Some? ==> Ideal(aead)
    ensures DecodeChunk(aead, key, BlockRecord(aead, key, iv, fileId, index, block)) == Success(block)
  {
    if key.Some? {
      EncryptDecrypt(aead, block, key.value, iv);
    }
  }

  /**
   * What restoring a backup does to an encrypted chunk the upload path wrote:
   * the chunk decrypts before, but the restore turns its base64 `iv` and
   * `ciphertext` into arrays, and `atob` then receives their comma-joined
   * decimal text, which it rejects, so the chunk can never be decrypted again.
   */
  lemma RestoredChunkUndecryptable(aead: Aead, key: CryptoKey, iv: Iv, fileId: nat, index: nat, block: Bytes)
    requires Ideal(aead)
    ensures var c := BlockRecord(aead, Some(key), iv, fileId, index, block);
            && DecodeChunk(aead, Some(key), c) == Success(block)
            && Backup.RestoreChunk(c).Success?
            && DecodeChunk(aead, Some(key), Backup.RestoreChunk(c).value) == Failure(InvalidCharacterError)
  {
    var c := BlockRecord(aead, Some(key), iv, fileId, index, block);
    BlockRecordDecodes(aead, Some(key), iv, fileId, index, block);
    var restored := Backup.RestoreChunk(c).value;
    assert restored.iv == Arr(iv);
    Base64.ForeignCharacterRejected(JoinNumbers(iv), ',');
  }

  /**
   * The same loss over a whole backup: after exporting a store, clearing it
   * and importing the document as written, a file that has an encrypted
   * chunk whose IV decodes to two bytes or more can no longer be opened,
   * whatever the key.
   */
  lemma RestoredFileUnreadable(aead: Aead, key: CryptoKey, s: Store, now: string, file: Keyed<FileMeta>, id: nat)
    requires Valid(s)
    requires forall k :: k in s.chunks ==> Canonical(s.chunks[k]) && Backup.RestoreChunk(s.chunks[k]).Success?
    requires id in s.chunks && s.chunks[id].fileId == file.id && s.chunks[id].encrypted && s.chunks[id].iv.Str?
    requires Base64.Atob(s.chunks[id].iv.text).Success? && |Base64.Atob(s.chunks[id].iv.text).value| >= 2
    ensures ExportBackupData(s, now).Success?
    ensures var r := ImportBackupData(ClearAllData(s), ExportBackupData(s, now).value);
            r.Success? && OpenFile(aead, Some(key), r.value, file).Failure?
  {
    BackupRoundTripAsWritten(s, now);
    var r := ImportBackupData(ClearAllData(s), ExportBackupData(s, now).value).value;
    RestoredChunkRejected(aead, key, s.chunks[id]);
    assert r.chunks[id] == Backup.RestoreChunk(s.chunks[id]).value;
    UnreadableChunk(aead, Some(key), r, file, id);
  }

  /** An encrypted chunk whose base64 IV has at least two bytes is undecodable once restored. */
  lemma RestoredChunkRejected(aead: Aead, key: CryptoKey, c: Chunk)
    requires c.encrypted && c.iv.Str? && Backup.RestoreChunk(c).Success?
    requires Base64.Atob(c.iv.text).Success? && |Base64.Atob(c.iv.text).value| >= 2
    ensures DecodeChunk(aead, Some(key), Backup.RestoreChunk(c).value) == Failure(InvalidCharacterError)
  {
    var bytes := Base64.Atob(c.iv.text).value;
    assert Backup.RestoreChunk(c).value.iv == Arr(bytes);
    Base64.ForeignCharacterRejected(JoinNumbers(bytes), ',');
  }

  /** One undecodable chunk of a file makes the whole file fail to open. */
  lemma UnreadableChunk(aead: Aead, key: Option<CryptoKey>, t: Store, file: Keyed<FileMeta>, id: nat)
    requires id in t.chunks && t.chunks[id].fileId == file.id
    requires DecodeChunk(aead, key, t.chunks[id]).Failure?
    ensures OpenFile(aead, key, t, file).Failure?
  {
    var rows := GetFileChunks(t, file.id);
    assert Keyed(id, t.chunks[id]) in rows;
    var i :| 0 <= i < |rows| && rows[i] == Keyed(id, t.chunks[id]);
  }

  /** No stored chunk belongs to file `f`. */
  predicate NoChunksOf(chunks: map<nat, Chunk>, f: nat)
  {
    forall k :: k in chunks ==> chunks[k].fileId != f
  }

  /** The IV at position `drawn + j` of the stream `random`: the one block `j` of an upload is sealed with. */
  function DrawnIv(random: nat -> Iv, drawn: nat, j: nat): Iv
  {
    random(drawn + j)
  }

  /** `c` is the record for block `c.chunkIndex`, below `bound`, of file `fileId`, block `j` sealed with the IV `DrawnIv(random, drawn, j)`. */
  predicate IsBlock(c: Chunk, aead: Aead, key: Option<CryptoKey>, random: nat -> Iv, drawn: nat,
                    fileId: nat, blocks: seq<Bytes>, bound: nat)
  {
    && c.fileId == fileId
    && c.chunkIndex < bound
    && c.chunkIndex < |blocks|
    && c == BlockRecord(aead, key, DrawnIv(random, drawn, c.chunkIndex), fileId, c.chunkIndex, blocks[c.chunkIndex])
  }

  /** Some stored chunk of file `f` has index `j`. */
  predicate HasBlock(chunks: map<nat, Chunk>, f: nat, j: nat)
  {
    exists k :: k in chunks && chunks[k].fileId == f && chunks[k].chunkIndex == j
  }

  /** What the chunk loop has achieved once blocks `0 .. i-1` are written from store `s`. */
  predicate Written(s: Store, t: Store, aead: Aead, key: Option<CryptoKey>, random: nat -> Iv, drawn: nat,
                    fileId: nat, blocks: seq<Bytes>, i: nat)
  {
    && i <= |blocks|
    && t.files == s.files && t.nextFileId == s.nextFileId
    && (forall k :: k in t.chunks && k !in s.chunks ==>
          IsBlock(t.chunks[k], aead, key, random, drawn, fileId, blocks, i))
    && (Valid(s) ==> && Valid(t)
                     && (forall k :: k in s.chunks ==> k in t.chunks && t.chunks[k] == s.chunks[k])
                     && (forall j :: 0 <= j < i ==> HasBlock(t.chunks, fileId, j)))
  }

  /** Writing block `i` extends what the loop has achieved by one block. */
  lemma WrittenStep(s: Store, t: Store, aead: Aead, key: Option<CryptoKey>, random: nat -> Iv, drawn: nat,
                    fileId: nat, blocks: seq<Bytes>, i: nat, saved: Saved)
    requires Written(s, t, aead, key, random, drawn, fileId, blocks, i) && i < |blocks|
    requires SaveChunk(t, BlockRecord(aead, key, DrawnIv(random, drawn, i), fileId, i, blocks[i]), None) == Success(saved)
    ensures Written(s, saved.store, aead, key, random, drawn, fileId, blocks, i + 1)
  {
    var record := BlockRecord(aead, key, DrawnIv(random, drawn, i), fileId, i, blocks[i]);
    var u := saved.store;
    assert IsBlock(record, aead, key, random, drawn, fileId, blocks, i + 1);
    forall k | k in u.chunks && k !in s.chunks
      ensures IsBlock(u.chunks[k], aead, key, random, drawn, fileId, blocks, i + 1)
    {
      if k == saved.id {
        assert u.chunks[k] == record;
      } else {
        assert u.chunks[k] == t.chunks[k];
        assert IsBlock(t.chunks[k], aead, key, random, drawn, fileId, blocks, i);
      }
    }
    if Valid(s) {
      HasBlocksStep(t.chunks, u.chunks, saved.id, record, fileId, i);
    }
  }

  /** Adding block `i` under a new key keeps blocks `0 .. i-1` and adds block `i`. */
  lemma HasBlocksStep(chunks: map<nat, Chunk>, u: map<nat, Chunk>, id: nat, record: Chunk, fileId: nat, i: nat)
    requires forall j :: 0 <= j < i ==> HasBlock(chunks, fileId, j)
    requires id !in chunks && u == chunks[id := record] && record.fileId == fileId && record.chunkIndex == i
    ensures forall j :: 0 <= j < i + 1 ==> HasBlock(u, fileId, j)
  {
    forall j | 0 <= j < i + 1
      ensures HasBlock(u, fileId, j)
    {
      if j == i {
        assert u[id] == record;
      } else {
        assert HasBlock(chunks, fileId, j);
        var k :| k in chunks && chunks[k].fileId == fileId && chunks[k].chunkIndex == j;
        assert u[k] == chunks[k];
      }
    }
  }

  /** On a valid store with no chunks of the file, block `i` never clashes with what is stored. */
  lemma WrittenNoClash(s: Store, t: Store, aead: Aead, key: Option<CryptoKey>, random: nat -> Iv, drawn: nat,
                       fileId: nat, blocks: seq<Bytes>, i: nat)
    requires Written(s, t, aead, key, random, drawn, fileId, blocks, i) && i < |blocks|
    requires Valid(s) && NoChunksOf(s.chunks, fileId)
    ensures SaveChunk(t, BlockRecord(aead, key, DrawnIv(random, drawn, i), fileId, i, blocks[i]), None).Success?
  {
    var record := BlockRecord(aead, key, DrawnIv(random, drawn, i), fileId, i, blocks[i]);
    forall k | k in t.chunks
      ensures !SameSlot(t.chunks[k], record)
    {
      if k in s.chunks {
        assert t.chunks[k] == s.chunks[k];
      }
    }
    SaveChunkInserts(t, record);
  }

  /**
   * The chunk loop of the upload path (and of the migration): block `i` is
   * written with `chunkIndex` `i`, in order, each with the next IV when there
   * is a key; a refused write stops the loop and leaves what was written.
   */
  method SaveBlocks(aead: Aead, key: Option<CryptoKey>, random: nat -> Iv, drawn: nat,
                    s: Store, fileId: nat, blocks: seq<Bytes>)
    returns (t: Store, used: nat, err: Option<Error>)
    ensures t.files == s.files && t.nextFileId == s.nextFileId
    ensures used <= |blocks|
    ensures err.None? ==> used == (if key.Some? then |blocks| else 0)
    ensures err.Some? ==> err.value == ConstraintError
    ensures forall k :: k in t.chunks && k !in s.chunks ==>
              IsBlock(t.chunks[k], aead, key, random, drawn, fileId, blocks, |blocks|)
    ensures Valid(s) ==> Valid(t)
    ensures Valid(s) ==> forall k :: k in s.chunks ==> k in t.chunks && t.chunks[k] == s.chunks[k]
    ensures Valid(s) && NoChunksOf(s.chunks, fileId) ==> err.None?
    ensures Valid(s) && err.None? ==> forall j :: 0 <= j < |blocks| ==> HasBlock(t.chunks, fileId, j)
    ensures key.Some? ==> forall k :: k in t.chunks && k !in s.chunks ==> t.chunks[k].chunkIndex < used
  {
    t := s;
    used := 0;
    err := None;
    var i := 0;
    while i < |blocks|
      invariant Written(s, t, aead, key, random, drawn, fileId, blocks, i)
      invariant used == (if key.Some? then i else 0)
    {
      var t1, failed := SaveNext(aead, key, random, drawn, s, t, fileId, blocks, i);
      if key.Some? {
        used := used + 1;
      }
      if failed.Some? {
        WrittenSoFar(s, t, aead, key, random, drawn, fileId, blocks, i);
        err := failed;
        return;
      }
      t := t1;
      i := i + 1;
    }
    WrittenSoFar(s, t, aead, key, random, drawn, fileId, blocks, i);
  }

  /** One pass of the chunk loop: save block `i`, or report the clash that stops the loop. */
  method SaveNext(aead: Aead, key: Option<CryptoKey>, random: nat -> Iv, drawn: nat,
                  s: Store, t: Store, fileId: nat, blocks: seq<Bytes>, i: nat)
    returns (t1: Store, err: Option<Error>)
    requires Written(s, t, aead, key, random, drawn, fileId, blocks, i) && i < |blocks|
    ensures err.None? ==> Written(s, t1, aead, key, random, drawn, fileId, blocks, i + 1)
    ensures err.Some? ==> err.value == ConstraintError && !(Valid(s) && NoChunksOf(s.chunks, fileId))
  {
    var record := BlockRecord(aead, key, DrawnIv(random, drawn, i), fileId, i, blocks[i]);
    var saved := SaveChunk(t, record, None);
    if saved.Failure? {
      if Valid(s) && NoChunksOf(s.chunks, fileId) {
        WrittenNoClash(s, t, aead, key, random, drawn, fileId, blocks, i);
      }
      return t, Some(saved.error);
    }
    WrittenStep(s, t, aead, key, random, drawn, fileId, blocks, i, saved.value);
    return saved.value.store, None;
  }

  /** Whatever the loop has written so far already meets what the whole loop promises. */
  lemma WrittenSoFar(s: Store, t: Store, aead: Aead, key: Option<CryptoKey>, random: nat -> Iv, drawn: nat,
                     fileId: nat, blocks: seq<Bytes>, i: nat)
    requires Written(s, t, aead, key, random, drawn, fileId, blocks, i)
    ensures t.files == s.files && t.nextFileId == s.nextFileId
    ensures forall k :: k in t.chunks && k !in s.chunks ==>
              IsBlock(t.chunks[k], aead, key, random, drawn, fileId, blocks, |blocks|)
    ensures forall k :: k in t.chunks && k !in s.chunks ==> t.chunks[k].chunkIndex < i
    ensures Valid(s) ==> Valid(t)
    ensures Valid(s) ==> forall k :: k in s.chunks ==> k in t.chunks && t.chunks[k] == s.chunks[k]
    ensures Valid(s) ==> forall j :: 0 <= j < i ==> HasBlock(t.chunks, fileId, j)
  {
  }

  /**
   * What the chunk loop leaves behind can be read back: the listing of the
   * file decodes to exactly the blocks, in order.
   */
  lemma BlocksReadBack(aead: Aead, key: Option<CryptoKey>, random: nat -> Iv, drawn: nat,
                       t: Store, fileId: nat, blocks: seq<Bytes>)
    requires key.Some? ==> Ideal(aead)
    requires Valid(t)
    requires forall k :: k in t.chunks && t.chunks[k].fileId == fileId ==>
               IsBlock(t.chunks[k], aead, key, random, drawn, fileId, blocks, |blocks|)
    requires forall j :: 0 <= j < |blocks| ==> HasBlock(t.chunks, fileId, j)
    ensures DecodeChunks(aead, key, GetFileChunks(t, fileId)) == Success(blocks)
    ensures |GetFileChunks(t, fileId)| == |blocks|
  {
    var r := GetFileChunks(t, fileId);
    BlockIndexBound(aead, key, random, drawn, t.chunks, fileId, blocks);
    BlockListing(t.chunks, r, fileId, |blocks|);
    ListingDecodes(aead, key, random, drawn, t.chunks, r, fileId, blocks);
  }

  lemma BlockIndexBound(aead: Aead, key: Option<CryptoKey>, random: nat -> Iv, drawn: nat,
                        chunks: map<nat, Chunk>, fileId: nat, blocks: seq<Bytes>)
    requires forall k :: k in chunks && chunks[k].fileId == fileId ==>
               IsBlock(chunks[k], aead, key, random, drawn, fileId, blocks, |blocks|)
    ensures forall k :: k in chunks && chunks[k].fileId == fileId ==> chunks[k].chunkIndex < |blocks|
  {
    forall k | k in chunks && chunks[k].fileId == fileId
      ensures chunks[k].chunkIndex < |blocks|
    {
      assert IsBlock(chunks[k], aead, key, random, drawn, fileId, blocks, |blocks|);
    }
  }

  /** A listing that holds the record of block `i` at position `i` decodes to the blocks. */
  lemma ListingDecodes(aead: Aead, key: Option<CryptoKey>, random: nat -> Iv, drawn: nat,
                       chunks: map<nat, Chunk>, r: seq<Keyed<Chunk>>, fileId: nat, blocks: seq<Bytes>)
    requires key.Some? ==> Ideal(aead)
    requires forall k :: k in chunks && chunks[k].fileId == fileId ==>
               IsBlock(chunks[k], aead, key, random, drawn, fileId, blocks, |blocks|)
    requires |r| == |blocks|
    requires forall i :: 0 <= i < |r| ==>
               r[i].val.chunkIndex == i && r[i].id in chunks && chunks[r[i].id] == r[i].val && r[i].val.fileId == fileId
    ensures DecodeChunks(aead, key, r) == Success(blocks)
  {
    forall i | 0 <= i < |r|
      ensures DecodeChunk(aead, key, r[i].val) == Success(blocks[i])
    {
      assert IsBlock(chunks[r[i].id], aead, key, random, drawn, fileId, blocks, |blocks|);
      BlockRecordDecodes(aead, key, DrawnIv(random, drawn, i), fileId, i, blocks[i]);
    }
    var d := DecodeChunks(aead, key, r);
    assert d.value == blocks;
  }

  /**
   * A listing of file `fileId` from a valid store that holds exactly one chunk
   * for each index below `n` has length `n` and carries index `i` at position `i`.
   */
  lemma BlockListing(chunks: map<nat, Chunk>, r: seq<Keyed<Chunk>>, fileId: nat, n: nat)
    requires forall x :: x in r <==> x.id in chunks && chunks[x.id] == x.val && x.val.fileId == fileId
    requires StrictByIndex(r)
    requires forall k :: k in chunks && chunks[k].fileId == fileId ==> chunks[k].chunkIndex < n
    requires forall j :: 0 <= j < n ==> HasBlock(chunks, fileId, j)
    ensures |r| == n
    ensures forall i :: 0 <= i < n ==>
              r[i].val.chunkIndex == i && r[i].id in chunks && chunks[r[i].id] == r[i].val && r[i].val.fileId == fileId
  {
    forall i | 0 <= i < |r|
      ensures r[i].val.chunkIndex < n && r[i].id in chunks && chunks[r[i].id] == r[i].val && r[i].val.fileId == fileId
    {
      assert r[i] in r;
    }
    forall v: nat | v < n
      ensures HasIndex(r, v)
    {
      assert HasBlock(chunks, fileId, v);
      var k :| k in chunks && chunks[k].fileId == fileId && chunks[k].chunkIndex == v;
      assert Keyed(k, chunks[k]) in r;
      var p :| 0 <= p < |r| && r[p] == Keyed(k, chunks[k]);
    }
    ContiguousIndices(r, n);
  }

  // ---------------------------------------------------------------- upload

  /** A file picked for upload: its name, its bytes and its reported MIME type. */
  datatype LocalFile = LocalFile(name: string, bytes: Bytes, mimeType: string)

  const DEFAULT_MIME_TYPE: string := "application/octet-stream"

  /**
   * The metadata record of an upload: size, the number of 1 MiB blocks, an
   * empty MIME type replaced by the generic binary type, the upload time, and
   * whether a key was present.
   */
  function UploadMeta(file: LocalFile, blockCount: nat, key: Option<CryptoKey>, now: string): (m: FileMeta)
    ensures m.name == file.name && m.size == |file.bytes| && m.createdAt == now
    ensures m.totalChunks == blockCount && m.encrypted == key.Some?
    ensures file.mimeType == "" ==> m.mimeType == DEFAULT_MIME_TYPE
    ensures file.mimeType != "" ==> m.mimeType == file.mimeType
  {
    FileMeta(file.name, |file.bytes|, if file.mimeType == "" then DEFAULT_MIME_TYPE else file.mimeType,
             now, blockCount, key.Some?)
  }

  /**
   * One file of `handleFileUpload`: the metadata record is added, then one
   * chunk record per 1 MiB block. On a sound store this cannot fail, and
   * opening the new file gives back exactly the uploaded bytes.
   */
  method UploadFile(aead: Aead, key: Option<CryptoKey>, random: nat -> Iv, drawn: nat,
                    s: Store, file: LocalFile, now: string)
    returns (t: Store, drawnAfter: nat, fileId: nat, err: Option<Error>)
    ensures err.Some? ==> err.value == ConstraintError
    ensures drawnAfter >= drawn
    ensures err.None? ==> drawnAfter == drawn + (if key.Some? then (|file.bytes| + CHUNK_SIZE - 1) / CHUNK_SIZE else 0)
    ensures forall k :: k in t.chunks && k !in s.chunks ==>
              DrawnBlock(t.chunks[k], aead, key, random, drawn, fileId, file.bytes, (|file.bytes| + CHUNK_SIZE - 1) / CHUNK_SIZE)
    ensures Sound(s) ==> && err.None?
                         && s.nextFileId <= fileId < t.nextFileId
                         && fileId !in s.files
                         && t.files == s.files[fileId := UploadMeta(file, (|file.bytes| + CHUNK_SIZE - 1) / CHUNK_SIZE, key, now)]
                         && (forall k :: k in s.chunks ==> k in t.chunks && t.chunks[k] == s.chunks[k])
                         && (forall k :: k in t.chunks && k !in s.chunks ==> t.chunks[k].fileId == fileId)
                         && Sound(t)
    ensures Sound(s) && NoOrphans(s) ==> NoOrphans(t)
    ensures Sound(s) && (key.Some? ==> Ideal(aead)) ==>
              ReadsBack(aead, key, t, Keyed(fileId, t.files[fileId]), file.bytes)
  {
    var blocks := ChunkFile(file.bytes);
    var meta := UploadMeta(file, |blocks|, key, now);
    var saved := SaveFileMetadata(s, meta);
    if saved.Failure? {
      return s, drawn, 0, Some(saved.error);
    }
    fileId := saved.value.id;
    t, drawnAfter, err := UploadBlocks(aead, key, random, drawn, s, saved.value.store, fileId, meta, blocks, file.bytes);
  }

  /**
   * The chunk half of an upload: `blocks`, the 1 MiB blocks of `bytes`, written
   * for the file `fileId` just added with `meta`, block `j` sealed with the IV
   * `DrawnIv(random, drawn, j)` when there is a key.
   */
  method UploadBlocks(aead: Aead, key: Option<CryptoKey>, random: nat -> Iv, drawn: nat,
                      s: Store, s1: Store, fileId: nat, meta: FileMeta, blocks: seq<Bytes>, bytes: Bytes)
    returns (t: Store, drawnAfter: nat, err: Option<Error>)
    requires Flatten(blocks) == bytes && meta.totalChunks == |blocks|
    requires forall j :: 0 <= j < |blocks| ==> blocks[j] == Block(bytes, j)
    requires SaveFileMetadata(s, meta) == Success(Saved(s1, fileId))
    ensures err.Some? ==> err.value == ConstraintError
    ensures err.None? ==> drawnAfter == drawn + (if key.Some? then |blocks| else 0)
    ensures drawnAfter >= drawn
    ensures forall k :: k in t.chunks && k !in s.chunks ==> DrawnBlock(t.chunks[k], aead, key, random, drawn, fileId, bytes, |blocks|)
    ensures Sound(s) ==> && err.None?
                         && s.nextFileId <= fileId < t.nextFileId
                         && fileId !in s.files
                         && t.files == s.files[fileId := meta]
                         && (forall k :: k in s.chunks ==> k in t.chunks && t.chunks[k] == s.chunks[k])
                         && Sound(t)
    ensures Sound(s) && NoOrphans(s) ==> NoOrphans(t)
    ensures Sound(s) && (key.Some? ==> Ideal(aead)) ==> ReadsBack(aead, key, t, Keyed(fileId, meta), bytes)
  {
    assert Sound(s) ==> NoChunksOf(s1.chunks, fileId);
    var used;
    t, used, err := SaveBlocks(aead, key, random, drawn, s1, fileId, blocks);
    drawnAfter := drawn + used;
    DrawnBlocks(aead, key, random, drawn, s1.chunks, t.chunks, fileId, blocks, bytes, |blocks|);
    if Sound(s) {
      UploadSound(aead, key, random, drawn, s, s1, t, fileId, meta, blocks, bytes);
    }
  }

  /**
   * `c` is the record for one of the first `count` 1 MiB blocks of `bytes`,
   * the block at its `chunkIndex`, of file `fileId`, sealed with the IV drawn at position
   * `drawn + chunkIndex` of the stream `random`.
   */
  predicate DrawnBlock(c: Chunk, aead: Aead, key: Option<CryptoKey>, random: nat -> Iv, drawn: nat,
                      fileId: nat, bytes: Bytes, count: nat)
  {
    && c.fileId == fileId
    && c.chunkIndex < count
    && c == BlockRecord(aead, key, DrawnIv(random, drawn, c.chunkIndex), fileId, c.chunkIndex, Block(bytes, c.chunkIndex))
  }

  /** The block records written for file `fileId`, restated with the 1 MiB blocks of `bytes` in place of `blocks`. */
  lemma DrawnBlocks(aead: Aead, key: Option<CryptoKey>, random: nat -> Iv, drawn: nat,
                    before: map<nat, Chunk>, after: map<nat, Chunk>, fileId: nat, blocks: seq<Bytes>, bytes: Bytes, bound: nat)
    requires forall j :: 0 <= j < |blocks| ==> blocks[j] == Block(bytes, j)
    requires forall k :: k in after && k !in before ==> IsBlock(after[k], aead, key, random, drawn, fileId, blocks, bound)
    ensures forall k :: k in after && k !in before ==> DrawnBlock(after[k], aead, key, random, drawn, fileId, bytes, bound)
  {
    forall k | k in after && k !in before
      ensures DrawnBlock(after[k], aead, key, random, drawn, fileId, bytes, bound)
    {
      assert IsBlock(after[k], aead, key, random, drawn, fileId, blocks, bound);
    }
  }

  // ---------------------------------------------------------------- IV positions

  /** The number of 1 MiB blocks of `bytes`: the chunks an upload of them writes, and the IVs it draws with a key. */
  function BlockCount(bytes: Bytes): nat
  {
    (|bytes| + CHUNK_SIZE - 1) / CHUNK_SIZE
  }

  /** The sum of `counts`. */
  function Sum(counts: seq<nat>): nat
  {
    if |counts| == 0 then 0 else Sum(counts[..|counts| - 1]) + counts[|counts| - 1]
  }

  /**
   * The stream position at which item `i` of a run starts drawing IVs, when
   * the run starts at `first` and item `j` draws `counts[j]` of them.
   */
  function StartOf(first: nat, counts: seq<nat>, i: nat): nat
    requires i <= |counts|
  {
    first + Sum(counts[..i])
  }

  /** Item `i + 1` starts where item `i` stops drawing. */
  lemma StartStep(first: nat, counts: seq<nat>, i: nat)
    requires i < |counts|
    ensures StartOf(first, counts, i + 1) == StartOf(first, counts, i) + counts[i]
  {
    assert counts[..i + 1][..i] == counts[..i];
  }

  /** Later items never start earlier. */
  lemma {:induction false} StartsGrow(first: nat, counts: seq<nat>, i: nat, j: nat)
    requires i <= j <= |counts|
    ensures StartOf(first, counts, i) <= StartOf(first, counts, j)
    decreases j - i
  {
    if i < j {
      StartStep(first, counts, j - 1);
      StartsGrow(first, counts, i, j - 1);
    }
  }

  /**
   * The IV of block `c` of item `i` is drawn at or after `first` and before
   * every IV of a later item `j`; with `j == |counts|`, before the position
   * at which the whole run stops.
   */
  lemma StreamPositionsApart(first: nat, counts: seq<nat>, i: nat, c: nat, j: nat)
    requires i < j <= |counts| && c < counts[i]
    ensures first <= StartOf(first, counts, i) + c < StartOf(first, counts, j)
  {
    StartStep(first, counts, i);
    StartsGrow(first, counts, i + 1, j);
  }

  /** Two different blocks of a run never draw their IVs at the same stream position. */
  lemma DistinctPositions(first: nat, counts: seq<nat>, i: nat, c: nat, j: nat, d: nat)
    requires i < |counts| && c < counts[i] && j < |counts| && d < counts[j]
    requires i != j || c != d
    ensures StartOf(first, counts, i) + c != StartOf(first, counts, j) + d
  {
    if i < j {
      StreamPositionsApart(first, counts, i, c, j);
    } else if j < i {
      StreamPositionsApart(first, counts, j, d, i);
    }
  }

  /**
   * Every chunk of file `id` in `t` is one of the 1 MiB blocks of `bytes`,
   * the block at its `chunkIndex`, sealed with the IV at stream position
   * `start + chunkIndex`.
   */
  predicate SealedFrom(t: Store, aead: Aead, key: Option<CryptoKey>, random: nat -> Iv, start: nat, id: nat, bytes: Bytes)
  {
    forall k :: k in t.chunks && t.chunks[k].fileId == id ==>
      DrawnBlock(t.chunks[k], aead, key, random, start, id, bytes, BlockCount(bytes))
  }

  /** A file whose chunks are all new since `before`, each a block drawn from `start`, is sealed from `start`. */
  lemma SealedFromNew(t: Store, before: map<nat, Chunk>, aead: Aead, key: Option<CryptoKey>, random: nat -> Iv,
                      start: nat, id: nat, bytes: Bytes)
    requires forall k :: k in t.chunks && t.chunks[k].fileId == id ==> k !in before
    requires forall k :: k in t.chunks && k !in before ==>
               DrawnBlock(t.chunks[k], aead, key, random, start, id, bytes, BlockCount(bytes))
    ensures SealedFrom(t, aead, key, random, start, id, bytes)
  {
  }

  /** A store that holds the same chunks of file `id` keeps how they were sealed. */
  lemma SealedKept(t: Store, t1: Store, aead: Aead, key: Option<CryptoKey>, random: nat -> Iv, start: nat, id: nat, bytes: Bytes)
    requires SealedFrom(t, aead, key, random, start, id, bytes) && SameChunksOf(t, t1, id)
    ensures SealedFrom(t1, aead, key, random, start, id, bytes)
  {
    forall k | k in t1.chunks && t1.chunks[k].fileId == id
      ensures DrawnBlock(t1.chunks[k], aead, key, random, start, id, bytes, BlockCount(bytes))
    {
      assert t1.chunks[k] == t.chunks[k];
    }
  }

  /**
   * On a sound store, a file at or above the generator has no chunks, so
   * once the chunks added for it are blocks drawn from `start`, it is sealed
   * from `start`.
   */
  lemma SealedNew(t: Store, t1: Store, aead: Aead, key: Option<CryptoKey>, random: nat -> Iv, start: nat, id: nat, bytes: Bytes)
    requires Sound(t) && t.nextFileId <= id
    requires forall k :: k in t1.chunks && k in t.chunks ==> t1.chunks[k] == t.chunks[k]
    requires forall k :: k in t1.chunks && k !in t.chunks ==>
               DrawnBlock(t1.chunks[k], aead, key, random, start, id, bytes, BlockCount(bytes))
    ensures SealedFrom(t1, aead, key, random, start, id, bytes)
  {
    forall k | k in t1.chunks && t1.chunks[k].fileId == id
      ensures DrawnBlock(t1.chunks[k], aead, key, random, start, id, bytes, BlockCount(bytes))
    {
      if k in t.chunks {
        assert false;
      }
    }
  }

  /**
   * File `file` of `t` is stored as exactly `bytes`: it has the number of
   * chunks its record announces, and opening it gives those bytes back with
   * the record's MIME type.
   */
  predicate ReadsBack(aead: Aead, key: Option<CryptoKey>, t: Store, file: Keyed<FileMeta>, bytes: Bytes)
  {
    && |GetFileChunks(t, file.id)| == file.val.totalChunks
    && OpenFile(aead, key, t, file) == Success(Blob(bytes, BlobType(file.val.mimeType)))
  }

  /** What the two steps of an upload leave behind on a sound store. */
  lemma UploadSound(aead: Aead, key: Option<CryptoKey>, random: nat -> Iv, drawn: nat,
                    s: Store, s1: Store, t: Store, fileId: nat, meta: FileMeta, blocks: seq<Bytes>, bytes: Bytes)
    requires Sound(s)
    requires Flatten(blocks) == bytes
    requires fileId !in s.files && s.nextFileId <= fileId < s1.nextFileId
    requires s1.files == s.files[fileId := meta] && s1.chunks == s.chunks && Valid(s1)
    requires meta.totalChunks == |blocks|
    requires Valid(t) && t.files == s1.files && t.nextFileId == s1.nextFileId
    requires forall k :: k in t.chunks && k !in s1.chunks ==>
               IsBlock(t.chunks[k], aead, key, random, drawn, fileId, blocks, |blocks|)
    requires forall k :: k in s1.chunks ==> k in t.chunks && t.chunks[k] == s1.chunks[k]
    requires forall j :: 0 <= j < |blocks| ==> HasBlock(t.chunks, fileId, j)
    ensures forall k :: k in t.chunks && k !in s.chunks ==> t.chunks[k].fileId == fileId
    ensures Sound(t)
    ensures NoOrphans(s) ==> NoOrphans(t)
    ensures (key.Some? ==> Ideal(aead)) ==> ReadsBack(aead, key, t, Keyed(fileId, meta), bytes)
  {
    NewChunksOfFile(aead, key, random, drawn, s1.chunks, t.chunks, fileId, blocks, s.nextFileId);
    if key.Some? ==> Ideal(aead) {
      BlocksOpen(aead, key, random, drawn, t, Keyed(fileId, meta), blocks, bytes);
    }
    BlocksBelong(aead, key, random, drawn, s1.chunks, t.chunks, fileId, blocks);
    if NoOrphans(s) {
      AddedFileNoOrphans(s, t, fileId, meta);
    }
  }

  /** Block records all name the file they were written for. */
  lemma BlocksBelong(aead: Aead, key: Option<CryptoKey>, random: nat -> Iv, drawn: nat, before: map<nat, Chunk>,
                     after: map<nat, Chunk>, fileId: nat, blocks: seq<Bytes>)
    requires forall k :: k in after && k !in before ==>
               IsBlock(after[k], aead, key, random, drawn, fileId, blocks, |blocks|)
    ensures forall k :: k in after && k !in before ==> after[k].fileId == fileId
  {
    forall k | k in after && k !in before
      ensures after[k].fileId == fileId
    {
      assert IsBlock(after[k], aead, key, random, drawn, fileId, blocks, |blocks|);
    }
  }

  /** Adding a file together with chunks of that file only leaves no chunk without its file. */
  lemma AddedFileNoOrphans(s: Store, t: Store, fileId: nat, meta: FileMeta)
    requires NoOrphans(s) && t.files == s.files[fileId := meta]
    requires forall k :: k in s.chunks ==> k in t.chunks && t.chunks[k] == s.chunks[k]
    requires forall k :: k in t.chunks && k !in s.chunks ==> t.chunks[k].fileId == fileId
    ensures NoOrphans(t)
  {
    forall k | k in t.chunks
      ensures t.chunks[k].fileId in t.files
    {
      if k in s.chunks {
        assert s.chunks[k].fileId in s.files;
      }
    }
  }

  /** A file whose chunks are exactly its blocks, one per index, opens to the blocks joined. */
  lemma BlocksOpen(aead: Aead, key: Option<CryptoKey>, random: nat -> Iv, drawn: nat,
                   t: Store, file: Keyed<FileMeta>, blocks: seq<Bytes>, bytes: Bytes)
    requires key.Some? ==> Ideal(aead)
    requires Valid(t) && Flatten(blocks) == bytes
    requires forall k :: k in t.chunks && t.chunks[k].fileId == file.id ==>
               IsBlock(t.chunks[k], aead, key, random, drawn, file.id, blocks, |blocks|)
    requires forall j :: 0 <= j < |blocks| ==> HasBlock(t.chunks, file.id, j)
    requires file.val.totalChunks == |blocks|
    ensures ReadsBack(aead, key, t, file, bytes)
  {
    BlocksReadBack(aead, key, random, drawn, t, file.id, blocks);
  }

  /** When the old chunks all name files below `bound`, the chunks of a file at or above it are all new blocks. */
  lemma NewChunksOfFile(aead: Aead, key: Option<CryptoKey>, random: nat -> Iv, drawn: nat, before: map<nat, Chunk>,
                        after: map<nat, Chunk>, fileId: nat, blocks: seq<Bytes>, bound: nat)
    requires forall k :: k in before ==> before[k].fileId < bound
    requires bound <= fileId
    requires forall k :: k in before ==> k in after && after[k] == before[k]
    requires forall k :: k in after && k !in before ==>
               IsBlock(after[k], aead, key, random, drawn, fileId, blocks, |blocks|)
    ensures forall k :: k in after && after[k].fileId == fileId ==>
              IsBlock(after[k], aead, key, random, drawn, fileId, blocks, |blocks|)
    ensures forall k :: k in after ==> after[k].fileId < bound || after[k].fileId == fileId
  {
    forall k | k in after
      ensures after[k].fileId < bound || after[k].fileId == fileId
      ensures after[k].fileId == fileId ==> IsBlock(after[k], aead, key, random, drawn, fileId, blocks, |blocks|)
    {
      if k !in before {
        assert IsBlock(after[k], aead, key, random, drawn, fileId, blocks, |blocks|);
      }
    }
  }

  /** The outcome of uploading a list of files. */
  datatype UploadOutcome = UploadOutcome(store: Store, drawn: nat, ids: seq<nat>, error: Option<Error>)

  /**
   * `handleFileUpload`: the files in order; the first error ends the whole
   * upload, and what was written before it stays. On a sound store every
   * file is uploaded, each under its own new id, with the record an upload
   * of it makes, and reads back as its bytes.
   */
  method UploadFiles(aead: Aead, key: Option<CryptoKey>, random: nat -> Iv, drawn: nat,
                     s: Store, files: seq<LocalFile>, now: string)
    returns (out: UploadOutcome)
    ensures out.error.Some? ==> out.error.value == ConstraintError
    ensures out.error.None? ==> |out.ids| == |files|
    ensures |out.ids| <= |files|
    ensures Sound(s) ==> out.error.None? && Sound(out.store)
    ensures Sound(s) ==> forall i :: 0 <= i < |out.ids| ==>
              && out.ids[i] !in s.files && out.ids[i] in out.store.files
              && out.store.files[out.ids[i]] == UploadMeta(files[i], (|files[i].bytes| + CHUNK_SIZE - 1) / CHUNK_SIZE, key, now)
    ensures Sound(s) && (key.Some? ==> Ideal(aead)) ==> forall i :: 0 <= i < |out.ids| ==>
              ReadsBack(aead, key, out.store, Keyed(out.ids[i], out.store.files[out.ids[i]]), files[i].bytes)
    ensures Sound(s) ==> forall i, j :: 0 <= i < j < |out.ids| ==> out.ids[i] < out.ids[j]
    ensures Sound(s) ==> forall id :: id in s.files ==> id in out.store.files && out.store.files[id] == s.files[id]
    ensures out.drawn >= UploadStart(key, drawn, files, |out.ids|)
    ensures out.error.None? ==> out.drawn == drawn + (if key.Some? then Sum(BlockCounts(files)) else 0)
    ensures Sound(s) ==> forall i :: 0 <= i < |out.ids| ==>
              SealedFrom(out.store, aead, key, random, UploadStart(key, drawn, files, i), out.ids[i], files[i].bytes)
  {
    var t := s;
    var d := drawn;
    var ids: seq<nat> := [];
    var i := 0;
    while i < |files|
      invariant 0 <= i <= |files| && |ids| == i
      invariant Uploading(aead, key, s, t, ids, files, now)
      invariant d == UploadStart(key, drawn, files, i)
      invariant Sound(s) ==> SealedUploads(aead, key, random, drawn, t, ids, files)
    {
      var t1, d1, id, err := UploadNext(aead, key, random, drawn, d, s, t, ids, files, now);
      if err.Some? {
        return UploadOutcome(t1, d1, ids, err);
      }
      t, d, ids := t1, d1, ids + [id];
      i := i + 1;
    }
    out := UploadOutcome(t, d, ids, None);
    UploadingMeans(aead, key, s, t, ids, files, now);
    assert BlockCounts(files)[..|files|] == BlockCounts(files);
  }

  /** The block counts of `files`, in order. */
  function BlockCounts(files: seq<LocalFile>): seq<nat>
  {
    seq(|files|, i requires 0 <= i < |files| => BlockCount(files[i].bytes))
  }

  /**
   * The stream position from which file `i` of an upload that starts at
   * `first` draws its IVs: with a key every earlier file draws one per block;
   * without a key nothing is drawn.
   */
  function UploadStart(key: Option<CryptoKey>, first: nat, files: seq<LocalFile>, i: nat): nat
    requires i <= |files|
  {
    if key.Some? then StartOf(first, BlockCounts(files), i) else first
  }

  /**
   * With a key, no two blocks of one upload, of the same file or of two
   * different files, are sealed with the IV of the same stream position.
   */
  lemma UploadPositionsDistinct(key: Option<CryptoKey>, first: nat, files: seq<LocalFile>, i: nat, c: nat, j: nat, d: nat)
    requires key.Some? && i < |files| && j < |files|
    requires c < BlockCount(files[i].bytes) && d < BlockCount(files[j].bytes)
    requires i != j || c != d
    ensures UploadStart(key, first, files, i) + c != UploadStart(key, first, files, j) + d
  {
    DistinctPositions(first, BlockCounts(files), i, c, j, d);
  }

  /** Upload `ids[j]` of `t` is sealed from the stream position of file `j` of an upload that starts at `first`. */
  ghost predicate SealedUploads(aead: Aead, key: Option<CryptoKey>, random: nat -> Iv, first: nat, t: Store,
                                ids: seq<nat>, files: seq<LocalFile>)
  {
    && |ids| <= |files|
    && forall j {:trigger SealedFrom(t, aead, key, random, UploadStart(key, first, files, j), ids[j], files[j].bytes)} ::
         0 <= j < |ids| ==> SealedFrom(t, aead, key, random, UploadStart(key, first, files, j), ids[j], files[j].bytes)
  }

  /**
   * One more upload, of a file at or above the generator of a sound store
   * whose new chunks are its blocks drawn from the next position, keeps the
   * earlier uploads sealed as they were and adds the new one.
   */
  lemma SealingStep(aead: Aead, key: Option<CryptoKey>, random: nat -> Iv, first: nat, drawn: nat, t: Store, t1: Store,
                    ids: seq<nat>, id: nat, files: seq<LocalFile>, file: LocalFile)
    requires Sound(t) && |ids| < |files| && file == files[|ids|] && SealedUploads(aead, key, random, first, t, ids, files)
    requires forall j :: 0 <= j < |ids| ==> ids[j] < t.nextFileId
    requires t.nextFileId <= id && drawn == UploadStart(key, first, files, |ids|)
    requires forall k :: k in t.chunks ==> k in t1.chunks && t1.chunks[k] == t.chunks[k]
    requires forall k :: k in t1.chunks && k !in t.chunks ==> t1.chunks[k].fileId == id
    requires forall k :: k in t1.chunks && k !in t.chunks ==>
               DrawnBlock(t1.chunks[k], aead, key, random, drawn, id, file.bytes, (|file.bytes| + CHUNK_SIZE - 1) / CHUNK_SIZE)
    ensures SealedUploads(aead, key, random, first, t1, ids + [id], files)
  {
    assert BlockCount(file.bytes) == (|file.bytes| + CHUNK_SIZE - 1) / CHUNK_SIZE;
    SealedNew(t, t1, aead, key, random, drawn, id, file.bytes);
    UploadsStillSealed(aead, key, random, first, t, t1, ids, id, files);
    SealedAppend(aead, key, random, first, t1, ids, id, files);
  }

  /** Chunks added only for a file at or above the generator leave the earlier uploads sealed as they were. */
  lemma UploadsStillSealed(aead: Aead, key: Option<CryptoKey>, random: nat -> Iv, first: nat, t: Store, t1: Store,
                           ids: seq<nat>, id: nat, files: seq<LocalFile>)
    requires SealedUploads(aead, key, random, first, t, ids, files)
    requires forall j :: 0 <= j < |ids| ==> ids[j] < t.nextFileId <= id
    requires forall k :: k in t.chunks ==> k in t1.chunks && t1.chunks[k] == t.chunks[k]
    requires forall k :: k in t1.chunks && k !in t.chunks ==> t1.chunks[k].fileId == id
    ensures forall j {:trigger SealedFrom(t1, aead, key, random, UploadStart(key, first, files, j), ids[j], files[j].bytes)} ::
              0 <= j < |ids| ==> SealedFrom(t1, aead, key, random, UploadStart(key, first, files, j), ids[j], files[j].bytes)
  {
    forall j | 0 <= j < |ids|
      ensures SealedFrom(t1, aead, key, random, UploadStart(key, first, files, j), ids[j], files[j].bytes)
    {
      assert SameChunksOf(t, t1, ids[j]);
      SealedKept(t, t1, aead, key, random, UploadStart(key, first, files, j), ids[j], files[j].bytes);
    }
  }

  lemma SealedAppend(aead: Aead, key: Option<CryptoKey>, random: nat -> Iv, first: nat, t: Store,
                     ids: seq<nat>, id: nat, files: seq<LocalFile>)
    requires |ids| < |files|
    requires forall j {:trigger SealedFrom(t, aead, key, random, UploadStart(key, first, files, j), ids[j], files[j].bytes)} ::
               0 <= j < |ids| ==> SealedFrom(t, aead, key, random, UploadStart(key, first, files, j), ids[j], files[j].bytes)
    requires SealedFrom(t, aead, key, random, UploadStart(key, first, files, |ids|), id, files[|ids|].bytes)
    ensures SealedUploads(aead, key, random, first, t, ids + [id], files)
  {
    forall j | 0 <= j < |ids| + 1
      ensures SealedFrom(t, aead, key, random, UploadStart(key, first, files, j), (ids + [id])[j], files[j].bytes)
    {
      SealedAt(aead, key, random, first, t, ids, id, files, j);
    }
  }

  /** Entry `j` of the extended ids is sealed from the position of file `j`. */
  lemma SealedAt(aead: Aead, key: Option<CryptoKey>, random: nat -> Iv, first: nat, t: Store,
                 ids: seq<nat>, id: nat, files: seq<LocalFile>, j: nat)
    requires |ids| < |files| && j <= |ids|
    requires forall j {:trigger SealedFrom(t, aead, key, random, UploadStart(key, first, files, j), ids[j], files[j].bytes)} ::
               0 <= j < |ids| ==> SealedFrom(t, aead, key, random, UploadStart(key, first, files, j), ids[j], files[j].bytes)
    requires SealedFrom(t, aead, key, random, UploadStart(key, first, files, |ids|), id, files[|ids|].bytes)
    ensures SealedFrom(t, aead, key, random, UploadStart(key, first, files, j), (ids + [id])[j], files[j].bytes)
  {
    if j < |ids| {
      SealedSame(t, aead, key, random, UploadStart(key, first, files, j), ids[j], (ids + [id])[j], files[j].bytes);
    } else {
      SealedSame(t, aead, key, random, UploadStart(key, first, files, |ids|), id, (ids + [id])[j], files[|ids|].bytes);
    }
  }

  lemma SealedSame(t: Store, aead: Aead, key: Option<CryptoKey>, random: nat -> Iv, start: nat, a: nat, b: nat, bytes: Bytes)
    requires a == b && SealedFrom(t, aead, key, random, start, a, bytes)
    ensures SealedFrom(t, aead, key, random, start, b, bytes)
  {
  }

  /**
   * The upload loop's state after the files `ids` stand for: on a sound store
   * the uploads so far are all in `t`, and the files of `s` are untouched.
   */
  ghost predicate Uploading(aead: Aead, key: Option<CryptoKey>, s: Store, t: Store, ids: seq<nat>,
                            files: seq<LocalFile>, now: string)
  {
    && |ids| <= |files|
    && (Sound(s) ==>
          && Sound(t) && t.nextFileId >= s.nextFileId
          && UploadedAs(aead, key, t, ids, files, now, s.nextFileId, t.nextFileId)
          && (forall id :: id in s.files ==> id in t.files && t.files[id] == s.files[id]))
  }

  /** The loop body of `handleFileUpload`: the next file is uploaded, and only a store that is not sound can make it fail. */
  method UploadNext(aead: Aead, key: Option<CryptoKey>, random: nat -> Iv, ghost first: nat, drawn: nat, s: Store, t: Store,
                    ids: seq<nat>, files: seq<LocalFile>, now: string)
    returns (t1: Store, drawnAfter: nat, id: nat, err: Option<Error>)
    requires |ids| < |files| && Uploading(aead, key, s, t, ids, files, now)
    requires drawn == UploadStart(key, first, files, |ids|)
    requires Sound(s) ==> SealedUploads(aead, key, random, first, t, ids, files)
    ensures err.Some? ==> err.value == ConstraintError && !Sound(s)
    ensures err.None? ==> Uploading(aead, key, s, t1, ids + [id], files, now)
    ensures drawnAfter >= drawn
    ensures err.None? ==> drawnAfter == UploadStart(key, first, files, |ids| + 1)
    ensures err.None? && Sound(s) ==> SealedUploads(aead, key, random, first, t1, ids + [id], files)
  {
    var file := files[|ids|];
    t1, drawnAfter, id, err := UploadFile(aead, key, random, drawn, t, file, now);
    if key.Some? {
      StartStep(first, BlockCounts(files), |ids|);
    }
    if Sound(s) {
      UploadingStep(aead, key, s, t, t1, ids, id, err, files, file, now);
      SealingStep(aead, key, random, first, drawn, t, t1, ids, id, files, file);
    }
  }

  /** One more upload, with the record and read-back `UploadFile` promises, extends the loop state. */
  lemma UploadingStep(aead: Aead, key: Option<CryptoKey>, s: Store, t: Store, t1: Store, ids: seq<nat>, id: nat,
                      err: Option<Error>, files: seq<LocalFile>, file: LocalFile, now: string)
    requires |ids| < |files| && file == files[|ids|] && Sound(s) && Uploading(aead, key, s, t, ids, files, now)
    requires Sound(t) ==> && err.None?
                          && t.nextFileId <= id < t1.nextFileId
                          && id !in t.files
                          && t1.files == t.files[id := UploadMeta(file, (|file.bytes| + CHUNK_SIZE - 1) / CHUNK_SIZE, key, now)]
                          && (forall k :: k in t.chunks ==> k in t1.chunks && t1.chunks[k] == t.chunks[k])
                          && (forall k :: k in t1.chunks && k !in t.chunks ==> t1.chunks[k].fileId == id)
                          && Sound(t1)
    requires Sound(t) && (key.Some? ==> Ideal(aead)) ==>
               ReadsBack(aead, key, t1, Keyed(id, t1.files[id]), file.bytes)
    ensures err.None? && Uploading(aead, key, s, t1, ids + [id], files, now)
  {
    assert Uploaded(aead, key, t1, id, file, now);
    UploadedAsStep(aead, key, t, t1, ids, id, files, now, s.nextFileId);
  }

  /** What the upload loop's state says, spelled out for the result of `handleFileUpload`. */
  lemma UploadingMeans(aead: Aead, key: Option<CryptoKey>, s: Store, t: Store, ids: seq<nat>,
                       files: seq<LocalFile>, now: string)
    requires Uploading(aead, key, s, t, ids, files, now)
    ensures Sound(s) ==> Sound(t)
    ensures Sound(s) ==> forall i :: 0 <= i < |ids| ==>
              && ids[i] !in s.files && ids[i] in t.files
              && t.files[ids[i]] == UploadMeta(files[i], (|files[i].bytes| + CHUNK_SIZE - 1) / CHUNK_SIZE, key, now)
    ensures Sound(s) && (key.Some? ==> Ideal(aead)) ==> forall i :: 0 <= i < |ids| ==>
              ReadsBack(aead, key, t, Keyed(ids[i], t.files[ids[i]]), files[i].bytes)
    ensures Sound(s) ==> forall i, j :: 0 <= i < j < |ids| ==> ids[i] < ids[j]
    ensures Sound(s) ==> forall id :: id in s.files ==> id in t.files && t.files[id] == s.files[id]
  {
    if Sound(s) {
      UploadedAsMeans(aead, key, t, ids, files, now, s.nextFileId, t.nextFileId);
    }
  }

  /**
   * File `id` of `t` holds the record an upload of `file` with `key` at `now`
   * makes and, when the cipher behaves ideally, reads back as its bytes.
   */
  ghost predicate Uploaded(aead: Aead, key: Option<CryptoKey>, t: Store, id: nat, file: LocalFile, now: string)
  {
    && id in t.files
    && t.files[id] == UploadMeta(file, (|file.bytes| + CHUNK_SIZE - 1) / CHUNK_SIZE, key, now)
    && ((key.Some? ==> Ideal(aead)) ==> ReadsBack(aead, key, t, Keyed(id, t.files[id]), file.bytes))
  }

  /** File `ids[j]` of `t` is the upload of `files[j]`, and the ids increase within `[lo, hi)`. */
  ghost predicate UploadedAs(aead: Aead, key: Option<CryptoKey>, t: Store, ids: seq<nat>, files: seq<LocalFile>,
                       now: string, lo: nat, hi: nat)
  {
    && |ids| <= |files|
    && (forall j :: 0 <= j < |ids| ==> lo <= ids[j] < hi)
    && (forall j, k :: 0 <= j < k < |ids| ==> ids[j] < ids[k])
    && (forall j {:trigger Uploaded(aead, key, t, ids[j], files[j], now)} :: 0 <= j < |ids| ==> Uploaded(aead, key, t, ids[j], files[j], now))
  }

  /** What `UploadedAs` says, spelled out for each uploaded file. */
  lemma UploadedAsMeans(aead: Aead, key: Option<CryptoKey>, t: Store, ids: seq<nat>, files: seq<LocalFile>,
                        now: string, lo: nat, hi: nat)
    requires UploadedAs(aead, key, t, ids, files, now, lo, hi)
    ensures forall i :: 0 <= i < |ids| ==>
              && lo <= ids[i] && ids[i] in t.files
              && t.files[ids[i]] == UploadMeta(files[i], (|files[i].bytes| + CHUNK_SIZE - 1) / CHUNK_SIZE, key, now)
    ensures (key.Some? ==> Ideal(aead)) ==> forall i :: 0 <= i < |ids| ==>
              ReadsBack(aead, key, t, Keyed(ids[i], t.files[ids[i]]), files[i].bytes)
  {
    forall i | 0 <= i < |ids|
      ensures Uploaded(aead, key, t, ids[i], files[i], now)
    {
    }
  }

  /**
   * One more upload, on a sound store, adds file `id` at or above the
   * generator of `t` and only chunks of that file: the earlier uploads keep
   * their records and still read back as their bytes.
   */
  lemma UploadedAsStep(aead: Aead, key: Option<CryptoKey>, t: Store, t1: Store, ids: seq<nat>, id: nat,
                       files: seq<LocalFile>, now: string, lo: nat)
    requires Sound(t) && Valid(t1) && |ids| < |files|
    requires UploadedAs(aead, key, t, ids, files, now, lo, t.nextFileId)
    requires lo <= t.nextFileId <= id < t1.nextFileId
    requires Uploaded(aead, key, t1, id, files[|ids|], now)
    requires forall k :: k in t.files && k != id ==> k in t1.files && t1.files[k] == t.files[k]
    requires forall k :: k in t.chunks ==> k in t1.chunks && t1.chunks[k] == t.chunks[k]
    requires forall k :: k in t1.chunks && k !in t.chunks ==> t1.chunks[k].fileId == id
    ensures UploadedAs(aead, key, t1, ids + [id], files, now, lo, t1.nextFileId)
  {
    UploadsKept(aead, key, t, t1, ids, files, now, lo);
    UploadedAppend(aead, key, t1, ids, id, files, now, lo, t.nextFileId, t1.nextFileId);
  }

  /** Appending an upload whose id lies above all earlier ones extends `UploadedAs`. */
  lemma UploadedAppend(aead: Aead, key: Option<CryptoKey>, t: Store, ids: seq<nat>, id: nat,
                       files: seq<LocalFile>, now: string, lo: nat, mid: nat, hi: nat)
    requires |ids| < |files| && mid <= id < hi
    requires forall j :: 0 <= j < |ids| ==> lo <= ids[j] < mid
    requires forall j {:trigger Uploaded(aead, key, t, ids[j], files[j], now)} :: 0 <= j < |ids| ==> Uploaded(aead, key, t, ids[j], files[j], now)
    requires forall j, k :: 0 <= j < k < |ids| ==> ids[j] < ids[k]
    requires lo <= id && Uploaded(aead, key, t, id, files[|ids|], now)
    ensures UploadedAs(aead, key, t, ids + [id], files, now, lo, hi)
  {
    var ids2: seq<nat> := ids + [id];
    forall j | 0 <= j < |ids2|
      ensures lo <= ids2[j] < hi
    {
      if j < |ids| {
        assert ids2[j] == ids[j];
      }
    }
    forall j | 0 <= j < |ids2|
      ensures Uploaded(aead, key, t, ids2[j], files[j], now)
    {
      UploadedAt(aead, key, t, ids, id, files, now, j);
    }
    IncreasingAppend(ids, id);
  }

  /** Entry `j` of the extended ids is an upload of `files[j]`. */
  lemma UploadedAt(aead: Aead, key: Option<CryptoKey>, t: Store, ids: seq<nat>, id: nat,
                   files: seq<LocalFile>, now: string, j: nat)
    requires |ids| < |files| && j <= |ids|
    requires forall j {:trigger Uploaded(aead, key, t, ids[j], files[j], now)} :: 0 <= j < |ids| ==> Uploaded(aead, key, t, ids[j], files[j], now)
    requires Uploaded(aead, key, t, id, files[|ids|], now)
    ensures Uploaded(aead, key, t, (ids + [id])[j], files[j], now)
  {
    if j < |ids| {
      UploadedSame(aead, key, t, ids[j], (ids + [id])[j], files[j], now);
    } else {
      UploadedSame(aead, key, t, id, (ids + [id])[j], files[j], now);
    }
  }

  lemma UploadedSame(aead: Aead, key: Option<CryptoKey>, t: Store, a: nat, b: nat, file: LocalFile, now: string)
    requires a == b && Uploaded(aead, key, t, a, file, now)
    ensures Uploaded(aead, key, t, b, file, now)
  {
  }

  /** Appending an id above every earlier one keeps the ids increasing. */
  lemma IncreasingAppend(ids: seq<nat>, id: nat)
    requires forall j, k :: 0 <= j < k < |ids| ==> ids[j] < ids[k]
    requires forall j :: 0 <= j < |ids| ==> ids[j] < id
    ensures forall j, k :: 0 <= j < k < |ids + [id]| ==> (ids + [id])[j] < (ids + [id])[k]
  {
    var ids2 := ids + [id];
    forall j, k | 0 <= j < k < |ids2|
      ensures ids2[j] < ids2[k]
    {
      if k < |ids| {
        assert ids2[j] == ids[j] && ids2[k] == ids[k];
      }
    }
  }

  /** The earlier uploads survive one more upload of a file at or above the generator. */
  lemma UploadsKept(aead: Aead, key: Option<CryptoKey>, t: Store, t1: Store, ids: seq<nat>,
                    files: seq<LocalFile>, now: string, lo: nat)
    requires Valid(t) && Valid(t1)
    requires UploadedAs(aead, key, t, ids, files, now, lo, t.nextFileId)
    requires forall k :: k in t.files && k < t.nextFileId ==> k in t1.files && t1.files[k] == t.files[k]
    requires forall k :: k in t.chunks ==> k in t1.chunks && t1.chunks[k] == t.chunks[k]
    requires forall k :: k in t1.chunks && k !in t.chunks ==> t1.chunks[k].fileId >= t.nextFileId
    ensures forall j {:trigger Uploaded(aead, key, t1, ids[j], files[j], now)} :: 0 <= j < |ids| ==> Uploaded(aead, key, t1, ids[j], files[j], now)
  {
    forall j | 0 <= j < |ids|
      ensures Uploaded(aead, key, t1, ids[j], files[j], now)
    {
      UploadedKept(aead, key, t, t1, ids[j], files[j], now);
    }
  }

  /** An upload of another file leaves file `f` with its record and its chunks, so it reads back as before. */
  lemma UploadedKept(aead: Aead, key: Option<CryptoKey>, t: Store, t1: Store, f: nat, file: LocalFile, now: string)
    requires Valid(t) && Valid(t1) && f < t.nextFileId
    requires Uploaded(aead, key, t, f, file, now)
    requires f in t1.files && t1.files[f] == t.files[f]
    requires forall k :: k in t.chunks ==> k in t1.chunks && t1.chunks[k] == t.chunks[k]
    requires forall k :: k in t1.chunks && k !in t.chunks ==> t1.chunks[k].fileId >= t.nextFileId
    ensures Uploaded(aead, key, t1, f, file, now)
  {
    if key.Some? ==> Ideal(aead) {
      assert SameChunksOf(t, t1, f);
      ReadsBackKept(aead, key, t, t1, Keyed(f, t.files[f]), file.bytes);
    }
  }

  /** File `f` has the same chunks, under the same keys, in `s` and in `t`. */
  ghost predicate SameChunksOf(s: Store, t: Store, f: nat)
  {
    && (forall k :: (k in s.chunks && s.chunks[k].fileId == f) <==> (k in t.chunks && t.chunks[k].fileId == f))
    && (forall k :: k in s.chunks && s.chunks[k].fileId == f ==> t.chunks[k] == s.chunks[k])
  }

  /**
   * Writing chunks only for a file at or above the generator and then
   * deleting file `prior` leaves every other file below the generator with
   * the chunks it had.
   */
  lemma OtherChunksKept(s: Store, t1: Store, t: Store, prior: nat, newId: nat)
    requires newId >= s.nextFileId && t == DeleteFile(t1, prior)
    requires forall k :: k in s.chunks ==> k in t1.chunks && t1.chunks[k] == s.chunks[k]
    requires forall k :: k in t1.chunks && k !in s.chunks ==> t1.chunks[k].fileId == newId
    ensures forall f: nat :: f < s.nextFileId && f != prior ==> SameChunksOf(s, t, f)
  {
  }

  /**
   * Two valid stores that hold the same chunks of file `file.id` open it
   * alike: what it reads back as in one, it reads back as in the other.
   */
  lemma ReadsBackKept(aead: Aead, key: Option<CryptoKey>, t: Store, t1: Store, file: Keyed<FileMeta>, bytes: Bytes)
    requires Valid(t) && Valid(t1) && SameChunksOf(t, t1, file.id)
    requires ReadsBack(aead, key, t, file, bytes)
    ensures ReadsBack(aead, key, t1, file, bytes)
  {
    GetFileChunksDetermined(t, t1, file.id);
  }

  // ---------------------------------------------------------------- migration

  /** The bytes of the plain chunks that carry `data`; other chunks are skipped. */
  function PlainBlocks(rows: seq<Keyed<Chunk>>): (r: seq<Bytes>)
    ensures |r| <= |rows|
    ensures (forall i :: 0 <= i < |rows| ==> !rows[i].val.encrypted && rows[i].val.data.Some?) ==>
              |r| == |rows| && forall i :: 0 <= i < |rows| ==> r[i] == Uint8Array(rows[i].val.data.value)
  {
    if |rows| == 0 then []
    else
      var tail := PlainBlocks(rows[1..]);
      if !rows[0].val.encrypted && rows[0].val.data.Some? then [Uint8Array(rows[0].val.data.value)] + tail
      else tail
  }

  /** The bytes the migration reads back for file `f`. */
  function PlainBytes(s: Store, f: nat): Bytes
  {
    Flatten(PlainBlocks(GetFileChunks(s, f)))
  }

  /** The record that replaces a migrated file: the same name, size, type and time, now encrypted. */
  function MigratedMeta(prior: FileMeta, blockCount: nat): (m: FileMeta)
    ensures m.name == prior.name && m.size == prior.size && m.mimeType == prior.mimeType && m.createdAt == prior.createdAt
    ensures m.totalChunks == blockCount && m.encrypted
  {
    FileMeta(prior.name, prior.size, prior.mimeType, prior.createdAt, blockCount, true)
  }

  /**
   * The write half of one migration: add `meta` under a new id, write
   * `blocks` as its encrypted chunks, and only once every chunk is written
   * delete file `prior`. A failure part way leaves `prior` and whatever of the
   * copy was written.
   */
  method ReplaceFile(aead: Aead, key: CryptoKey, random: nat -> Iv, drawn: nat, s: Store, prior: nat, meta: FileMeta, blocks: seq<Bytes>)
    returns (t: Store, used: nat, newId: nat, err: Option<Error>)
    requires meta.totalChunks == |blocks|
    ensures used <= |blocks|
    ensures err.Some? ==> err.value == ConstraintError
    ensures err.Some? ==> prior in s.files ==> prior in t.files
    ensures Valid(s) ==> Replaced(s, t, prior, meta, err.None?)
    ensures Valid(s) && err.Some? ==> forall k :: k in s.chunks ==> k in t.chunks && t.chunks[k] == s.chunks[k]
    ensures Sound(s) ==> err.None? && Sound(t)
    ensures Sound(s) && NoOrphans(s) ==> NoOrphans(t)
    ensures Sound(s) && prior in s.files ==> newId in t.files && newId !in s.files && t.files[newId] == meta
    ensures Sound(s) ==> s.nextFileId <= newId < t.nextFileId
    ensures Sound(s) ==> forall f: nat :: f < s.nextFileId && f != prior ==> SameChunksOf(s, t, f)
    ensures Sound(s) && prior in s.files && Ideal(aead) ==>
              ReadsBack(aead, Some(key), t, Keyed(newId, meta), Flatten(blocks))
    ensures err.None? ==> used == |blocks|
    ensures forall k :: k in t.chunks && k !in s.chunks ==> IsBlock(t.chunks[k], aead, Some(key), random, drawn, newId, blocks, used)
    ensures Sound(s) ==> forall k :: k in t.chunks && t.chunks[k].fileId == newId ==> k !in s.chunks
  {
    var saved := SaveFileMetadata(s, meta);
    if saved.Failure? {
      return s, 0, 0, Some(saved.error);
    }
    newId := saved.value.id;
    var s1 := saved.value.store;
    var t1;
    t1, used, err := SaveBlocks(aead, Some(key), random, drawn, s1, newId, blocks);
    if err.Some? {
      t := t1;
      CopyBlocks(aead, key, random, drawn, s, s1.chunks, t1.chunks, t.chunks, newId, blocks, used);
      if Valid(s) {
        ReplacedKeeps(s, s1, t, prior, meta, newId, false);
      }
      return;
    }
    t := DeleteFile(t1, prior);
    CopyBlocks(aead, key, random, drawn, s, s1.chunks, t1.chunks, t.chunks, newId, blocks, used);
    if Valid(s) {
      ReplacedKeeps(s, s1, t1, prior, meta, newId, false);
      ReplacedDeletes(s, t1, t, prior, meta);
    }
    if Sound(s) {
      assert NoChunksOf(s1.chunks, newId);
      UploadSound(aead, Some(key), random, drawn, s, s1, t1, newId, meta, blocks, Flatten(blocks));
      OtherChunksKept(s, t1, t, prior, newId);
      if prior in s.files && Ideal(aead) {
        ReadsBackAfterDelete(aead, Some(key), t1, prior, Keyed(newId, meta), Flatten(blocks));
      }
    }
  }

  /**
   * The chunks a replacement adds, whether or not `prior` was deleted since,
   * are blocks of the copy `newId` sealed with the IVs `DrawnIv(random, drawn, j)`
   * for `j` below the `used` draws; on a sound store every chunk of the copy
   * is one of them.
   */
  lemma CopyBlocks(aead: Aead, key: CryptoKey, random: nat -> Iv, drawn: nat, s: Store, before: map<nat, Chunk>,
                   written: map<nat, Chunk>, after: map<nat, Chunk>, newId: nat, blocks: seq<Bytes>, used: nat)
    requires before == s.chunks
    requires forall k :: k in written && k !in before ==>
               IsBlock(written[k], aead, Some(key), random, drawn, newId, blocks, |blocks|)
    requires forall k :: k in written && k !in before ==> written[k].chunkIndex < used
    requires Sound(s) ==> s.nextFileId <= newId && forall k :: k in before ==> k in written && written[k] == before[k]
    requires forall k :: k in after ==> k in written && after[k] == written[k]
    ensures forall k :: k in after && k !in s.chunks ==> IsBlock(after[k], aead, Some(key), random, drawn, newId, blocks, used)
    ensures Sound(s) ==> forall k :: k in after && after[k].fileId == newId ==> k !in s.chunks
  {
    forall k | k in after && k !in s.chunks
      ensures IsBlock(after[k], aead, Some(key), random, drawn, newId, blocks, used)
    {
      assert IsBlock(written[k], aead, Some(key), random, drawn, newId, blocks, |blocks|);
    }
    if Sound(s) {
      forall k | k in after && after[k].fileId == newId
        ensures k !in s.chunks
      {
        if k in s.chunks {
          assert false;
        }
      }
    }
  }

  /**
   * How the files of `t` relate to those of `s` after replacing `prior` by
   * `meta`: below the old generator every file is as before, except that
   * `prior` is gone once the replacement is `done`; every file at or above it
   * carries `meta`.
   */
  ghost predicate Replaced(s: Store, t: Store, prior: nat, meta: FileMeta, done: bool)
  {
    && Valid(t) && t.nextFileId >= s.nextFileId
    && (forall id :: id < s.nextFileId ==>
          (id in t.files <==> id in s.files && (id != prior || !done)) &&
          (id in t.files ==> t.files[id] == s.files[id]))
    && (forall id :: id in t.files && id >= s.nextFileId ==> t.files[id] == meta)
  }

  lemma ReplacedKeeps(s: Store, s1: Store, t1: Store, prior: nat, meta: FileMeta, newId: nat, done: bool)
    requires Valid(s) && !done
    requires SaveFileMetadata(s, meta) == Success(Saved(s1, newId))
    requires Valid(t1) && t1.files == s1.files && t1.nextFileId == s1.nextFileId
    ensures Replaced(s, t1, prior, meta, done)
  {
  }

  lemma ReplacedDeletes(s: Store, t1: Store, t: Store, prior: nat, meta: FileMeta)
    requires Replaced(s, t1, prior, meta, false)
    requires t == DeleteFile(t1, prior)
    ensures Replaced(s, t, prior, meta, true)
  {
  }

  /**
   * One file of the migration: read the plain chunks back, re-chunk the
   * bytes, and replace the file by an encrypted copy that keeps its name,
   * size, type and time.
   */
  method MigrateFile(aead: Aead, key: CryptoKey, random: nat -> Iv, drawn: nat, s: Store, prior: Keyed<FileMeta>)
    returns (t: Store, drawnAfter: nat, newId: nat, err: Option<Error>)
    ensures drawnAfter >= drawn
    ensures err.Some? ==> err.value == ConstraintError
    ensures err.Some? ==> prior.id in s.files ==> prior.id in t.files
    ensures Valid(s) && err.Some? ==> forall k :: k in s.chunks ==> k in t.chunks && t.chunks[k] == s.chunks[k]
    ensures Sound(s) && NoOrphans(s) ==> NoOrphans(t)
    ensures MigratedOnce(aead, key, s, t, prior, newId, err.None?)
    ensures err.None? ==> drawnAfter == drawn + BlockCount(PlainBytes(s, prior.id))
    ensures forall k :: k in t.chunks && k !in s.chunks ==>
              DrawnBlock(t.chunks[k], aead, Some(key), random, drawn, newId, PlainBytes(s, prior.id), drawnAfter - drawn)
    ensures Sound(s) ==> SealedFrom(t, aead, Some(key), random, drawn, newId, PlainBytes(s, prior.id))
  {
    var plain := PlainBlocks(GetFileChunks(s, prior.id));
    var blob := ReconstructFile(plain, prior.val.mimeType);
    var blocks := ChunkFile(blob.bytes);
    var bytes := PlainBytes(s, prior.id);
    assert Flatten(blocks) == bytes;
    var meta := MigratedMeta(prior.val, (|bytes| + CHUNK_SIZE - 1) / CHUNK_SIZE);
    var used;
    t, used, newId, err := ReplaceFile(aead, key, random, drawn, s, prior.id, meta, blocks);
    drawnAfter := drawn + used;
    DrawnBlocks(aead, Some(key), random, drawn, s.chunks, t.chunks, newId, blocks, bytes, used);
    if Sound(s) {
      SealedFromNew(t, s.chunks, aead, Some(key), random, drawn, newId, bytes);
    }
  }

  /**
   * What migrating file `prior` from `s` to `t` achieves, `done` telling
   * whether it completed: on a valid store the files are `Replaced`; on a
   * sound store the migration completes, the store stays sound, and the file
   * has `MovedTo` its new id.
   */
  ghost predicate MigratedOnce(aead: Aead, key: CryptoKey, s: Store, t: Store, prior: Keyed<FileMeta>, newId: nat, done: bool)
  {
    && (Valid(s) ==> Replaced(s, t, prior.id, MigratedMeta(prior.val, (|PlainBytes(s, prior.id)| + CHUNK_SIZE - 1) / CHUNK_SIZE), done))
    && (Sound(s) ==> done && Sound(t))
    && (Sound(s) && prior.id in s.files ==> MovedTo(aead, key, s, t, prior, newId))
  }

  /**
   * File `prior` of `s` now lives in `t` as the new file `newId`: a fresh id,
   * the migrated record, and, when the cipher behaves ideally, the bytes the
   * migration read for `prior` when it is opened; every other file of `s`
   * keeps its chunks.
   */
  ghost predicate MovedTo(aead: Aead, key: CryptoKey, s: Store, t: Store, prior: Keyed<FileMeta>, newId: nat)
  {
    && s.nextFileId <= newId && newId in t.files
    && t.files[newId] == MigratedMeta(prior.val, (|PlainBytes(s, prior.id)| + CHUNK_SIZE - 1) / CHUNK_SIZE)
    && (forall f: nat :: f < s.nextFileId && f != prior.id ==> SameChunksOf(s, t, f))
    && (Ideal(aead) ==> ReadsBack(aead, Some(key), t, Keyed(newId, t.files[newId]), PlainBytes(s, prior.id)))
  }

  /** Deleting another file does not change what a file reads back as. */
  lemma ReadsBackAfterDelete(aead: Aead, key: Option<CryptoKey>, t: Store, f: nat, file: Keyed<FileMeta>, bytes: Bytes)
    requires Valid(t) && f != file.id
    requires ReadsBack(aead, key, t, file, bytes)
    ensures ReadsBack(aead, key, DeleteFile(t, f), file, bytes)
  {
    DeleteFileListings(t, f, file.id);
  }

  /** How many of `rows` are no longer stored: the files whose migration completed. */
  function CountGone(rows: seq<Keyed<FileMeta>>, files: map<nat, FileMeta>): (n: nat)
    ensures n <= |rows|
  {
    if |rows| == 0 then 0
    else CountGone(rows[..|rows| - 1], files) + (if rows[|rows| - 1].id in files then 0 else 1)
  }

  lemma {:induction false} CountGoneSame(rows: seq<Keyed<FileMeta>>, a: map<nat, FileMeta>, b: map<nat, FileMeta>)
    requires forall i :: 0 <= i < |rows| ==> (rows[i].id in a <==> rows[i].id in b)
    ensures CountGone(rows, a) == CountGone(rows, b)
  {
    if |rows| > 0 {
      CountGoneSame(rows[..|rows| - 1], a, b);
    }
  }

  lemma {:induction false} CountGoneZero(rows: seq<Keyed<FileMeta>>, files: map<nat, FileMeta>)
    requires forall i :: 0 <= i < |rows| ==> rows[i].id in files
    ensures CountGone(rows, files) == 0
  {
    if |rows| > 0 {
      CountGoneZero(rows[..|rows| - 1], files);
    }
  }

  /** The outcome of the migration: the store, the IV draws, and the success count. */
  datatype Migration = Migration(store: Store, drawn: nat, count: nat)

  /** The unencrypted files of `s`, listed in increasing id order with their records. */
  ghost predicate ListsUnencrypted(s: Store, rows: seq<Keyed<FileMeta>>)
  {
    && Increasing(rows)
    && (forall j :: 0 <= j < |rows| ==> rows[j].id in s.files && s.files[rows[j].id] == rows[j].val)
    && (forall j :: 0 <= j < |rows| ==> !rows[j].val.encrypted)
  }

  /**
   * What the migration keeps between `s` and `t`: every old file still there
   * is unchanged, every new file is encrypted, no encrypted file was lost, and
   * the store stays valid.
   */
  ghost predicate Preserved(s: Store, t: Store)
  {
    && Valid(t) && t.nextFileId >= s.nextFileId
    && (forall id :: id in t.files && id in s.files ==> t.files[id] == s.files[id])
    && (forall id :: id in t.files && id !in s.files ==> t.files[id].encrypted && id >= s.nextFileId)
    && (forall id :: id in s.files && s.files[id].encrypted ==> id in t.files)
  }

  /** The migration loop after `i` of the listed files: `count` of them are gone and the rest are still there. */
  ghost predicate Progress(s: Store, t: Store, rows: seq<Keyed<FileMeta>>, i: nat, count: nat)
  {
    && i <= |rows|
    && Preserved(s, t)
    && count == CountGone(rows[..i], t.files)
    && (forall j :: i <= j < |rows| ==> rows[j].id in t.files)
  }

  /** Migrating file `i`, whether it completes or not, keeps the loop's bookkeeping. */
  lemma ProgressStep(s: Store, t: Store, t1: Store, rows: seq<Keyed<FileMeta>>, i: nat, count: nat,
                     meta: FileMeta, ok: bool)
    requires Valid(s) && ListsUnencrypted(s, rows) && Progress(s, t, rows, i, count) && i < |rows|
    requires Replaced(t, t1, rows[i].id, meta, ok) && meta.encrypted
    ensures Progress(s, t1, rows, i + 1, count + (if ok then 1 else 0))
  {
    MigrationStep(s, t, t1, rows, i, ok);
    forall id | id in t1.files && id !in s.files
      ensures t1.files[id].encrypted && id >= s.nextFileId
    {
      if id < t.nextFileId {
        assert id in t.files;
      }
    }
    forall id | id in s.files && s.files[id].encrypted
      ensures id in t1.files
    {
      assert id in t.files && id != rows[i].id;
    }
  }

  /** On a sound store every migration completes, so only the files not yet reached can be unencrypted. */
  lemma SoundStep(s: Store, t: Store, t1: Store, rows: seq<Keyed<FileMeta>>, i: nat, meta: FileMeta)
    requires i < |rows|
    requires Replaced(t, t1, rows[i].id, meta, true) && meta.encrypted
    requires forall id :: id in t.files && !t.files[id].encrypted ==> HasKey(rows[i..], id)
    ensures forall id :: id in t1.files && !t1.files[id].encrypted ==> HasKey(rows[i + 1..], id)
  {
    HasKeyStep(rows[i..]);
    assert rows[i..][1..] == rows[i + 1..];
    forall id | id in t1.files && !t1.files[id].encrypted
      ensures HasKey(rows[i + 1..], id)
    {
      assert id < t.nextFileId && id in t.files && id != rows[i].id;
    }
  }

  /** The files the migration visits are exactly the unencrypted ones, in id order. */
  lemma UnencryptedListed(s: Store, rows: seq<Keyed<FileMeta>>)
    requires rows == Unencrypted(GetAllFiles(s))
    ensures ListsUnencrypted(s, rows)
    ensures CountGone(rows, s.files) == 0
    ensures forall id :: HasKey(rows, id) <==> id in s.files && !s.files[id].encrypted
    ensures |rows| == 0 <==> forall id :: id in s.files ==> s.files[id].encrypted
  {
    var all := GetAllFiles(s);
    UnencryptedOrdered(all);
    UnencryptedKeys(all, s.files);
    CountGoneZero(rows, s.files);
    if |rows| > 0 {
      assert HasKey(rows, rows[0].id);
    }
  }

  /**
   * `reEncryptUnencryptedFiles`: nothing happens without a key or without
   * unencrypted files. Otherwise each unencrypted file is migrated in turn; a
   * failure is confined to its file, and the count is the number of files
   * whose migration completed, that is, whose old record is gone. On a sound
   * store the copy of the `j`-th unencrypted file draws its IVs from
   * `StartOf(drawn, MigrationCounts(s, rows), j)` on, one per block.
   */
  method ReEncryptUnencryptedFiles(aead: Aead, key: Option<CryptoKey>, random: nat -> Iv, drawn: nat, s: Store)
    returns (out: Migration)
    ensures key.None? ==> out == Migration(s, drawn, 0)
    ensures (forall id :: id in s.files ==> s.files[id].encrypted) ==> out == Migration(s, drawn, 0)
    ensures out.count <= |Unencrypted(GetAllFiles(s))|
    ensures Valid(s) ==> out.count == CountGone(Unencrypted(GetAllFiles(s)), out.store.files)
    ensures Valid(s) ==> Preserved(s, out.store)
    ensures Sound(s) && key.Some? ==> && Sound(out.store)
                                      && out.count == |Unencrypted(GetAllFiles(s))|
                                      && forall id :: id in out.store.files ==> out.store.files[id].encrypted
    ensures out.drawn >= drawn
    ensures Sound(s) && key.Some? ==>
              out.drawn == drawn + Sum(MigrationCounts(s, Unencrypted(GetAllFiles(s))))
    ensures Sound(s) && key.Some? ==>
              var rows := Unencrypted(GetAllFiles(s));
              forall f :: f in s.files && !s.files[f].encrypted ==>
                && f !in out.store.files
                && exists j :: 0 <= j < |rows| && rows[j] == Keyed(f, s.files[f])
                               && HasCopy(aead, key.value, random, s, out.store, rows[j], StartOf(drawn, MigrationCounts(s, rows), j))
  {
    var unencrypted := Unencrypted(GetAllFiles(s));
    UnencryptedListed(s, unencrypted);
    if key.None? || |unencrypted| == 0 {
      return Migration(s, drawn, 0);
    }
    var t, d, count := MigrateAll(aead, key.value, random, drawn, s, unencrypted);
    if Sound(s) {
      EveryUnencryptedCopied(aead, key.value, random, drawn, s, t, unencrypted);
    }
    return Migration(t, d, count);
  }

  /**
   * The IVs the migration of each of `rows` draws from store `s`: one per
   * 1 MiB block of the bytes it reads back for the row.
   */
  function MigrationCounts(s: Store, rows: seq<Keyed<FileMeta>>): (counts: seq<nat>)
    ensures |counts| == |rows|
  {
    if |rows| == 0 then [] else MigrationCounts(s, rows[..|rows| - 1]) + [BlockCount(PlainBytes(s, rows[|rows| - 1].id))]
  }

  /** The count of row `j` is the number of blocks of the bytes the migration reads back for it. */
  lemma {:induction false} MigrationCountAt(s: Store, rows: seq<Keyed<FileMeta>>, j: nat)
    requires j < |rows|
    ensures MigrationCounts(s, rows)[j] == BlockCount(PlainBytes(s, rows[j].id))
  {
    if j < |rows| - 1 {
      MigrationCountAt(s, rows[..|rows| - 1], j);
    }
  }

  /**
   * No two blocks the migration of `rows` writes, of the same row or of two
   * different rows, are sealed with the IV of the same stream position.
   */
  lemma MigrationPositionsDistinct(s: Store, rows: seq<Keyed<FileMeta>>, first: nat, i: nat, c: nat, j: nat, d: nat)
    requires i < |rows| && j < |rows|
    requires c < BlockCount(PlainBytes(s, rows[i].id)) && d < BlockCount(PlainBytes(s, rows[j].id))
    requires i != j || c != d
    ensures StartOf(first, MigrationCounts(s, rows), i) + c != StartOf(first, MigrationCounts(s, rows), j) + d
  {
    MigrationCountAt(s, rows, i);
    MigrationCountAt(s, rows, j);
    DistinctPositions(first, MigrationCounts(s, rows), i, c, j, d);
  }

  /**
   * The old record of every unencrypted file is gone from `t`, and its copy,
   * made from the rows the migration visited, is there.
   */
  lemma EveryUnencryptedCopied(aead: Aead, key: CryptoKey, random: nat -> Iv, first: nat, s: Store, t: Store,
                               rows: seq<Keyed<FileMeta>>)
    requires ListsUnencrypted(s, rows) && Preserved(s, t)
    requires forall id :: HasKey(rows, id) <==> id in s.files && !s.files[id].encrypted
    requires forall id :: id in t.files ==> t.files[id].encrypted
    requires forall j :: 0 <= j < |rows| ==> HasCopy(aead, key, random, s, t, rows[j], StartOf(first, MigrationCounts(s, rows), j))
    ensures forall f :: f in s.files && !s.files[f].encrypted ==>
              && f !in t.files
              && exists j :: 0 <= j < |rows| && rows[j] == Keyed(f, s.files[f])
                             && HasCopy(aead, key, random, s, t, rows[j], StartOf(first, MigrationCounts(s, rows), j))
  {
    forall f | f in s.files && !s.files[f].encrypted
      ensures f !in t.files
      ensures exists j :: 0 <= j < |rows| && rows[j] == Keyed(f, s.files[f])
                          && HasCopy(aead, key, random, s, t, rows[j], StartOf(first, MigrationCounts(s, rows), j))
    {
      assert HasKey(rows, f);
      var j :| 0 <= j < |rows| && rows[j].id == f;
      assert rows[j] == Keyed(f, s.files[f]);
    }
  }

  /**
   * The migration loop: every listed file in turn, whatever happened to the
   * ones before, each drawing its IVs where the one before stopped.
   */
  method MigrateAll(aead: Aead, key: CryptoKey, random: nat -> Iv, drawn: nat, s: Store, rows: seq<Keyed<FileMeta>>)
    returns (t: Store, drawnAfter: nat, count: nat)
    requires Valid(s) ==> ListsUnencrypted(s, rows)
    requires Sound(s) ==> forall id :: id in s.files && !s.files[id].encrypted ==> HasKey(rows, id)
    ensures count <= |rows|
    ensures Valid(s) ==> Preserved(s, t) && count == CountGone(rows, t.files)
    ensures Sound(s) ==> Sound(t) && count == |rows|
    ensures Sound(s) ==> forall id :: id in t.files ==> t.files[id].encrypted
    ensures drawnAfter >= drawn
    ensures Sound(s) ==> drawnAfter == drawn + Sum(MigrationCounts(s, rows))
    ensures Sound(s) ==> forall j :: 0 <= j < |rows| ==>
              HasCopy(aead, key, random, s, t, rows[j], StartOf(drawn, MigrationCounts(s, rows), j))
  {
    t, drawnAfter, count := s, drawn, 0;
    var i := 0;
    ghost var copies: seq<nat> := [];
    ghost var starts: seq<nat> := [];
    MigrationStarts(aead, key, random, drawn, s, rows);
    while i < |rows|
      invariant Migrating(aead, key, random, drawn, drawnAfter, s, t, rows, i, count, copies, starts)
    {
      var newId, d;
      t, d, count, newId := MigrateNext(aead, key, random, drawn, drawnAfter, s, t, rows, i, count, copies, starts);
      copies, starts := copies + [newId], starts + [drawnAfter];
      drawnAfter, i := d, i + 1;
    }
    MigrationDone(aead, key, random, drawn, drawnAfter, s, t, rows, count, copies, starts);
    if Sound(s) {
      MigrationCopies(aead, key, random, drawn, drawnAfter, s, t, rows, copies, starts);
    }
  }

  /** Before the first file, the loop's invariant holds of the store it starts from. */
  lemma MigrationStarts(aead: Aead, key: CryptoKey, random: nat -> Iv, first: nat, s: Store, rows: seq<Keyed<FileMeta>>)
    requires Valid(s) ==> ListsUnencrypted(s, rows)
    requires Sound(s) ==> forall id :: id in s.files && !s.files[id].encrypted ==> HasKey(rows, id)
    ensures Migrating(aead, key, random, first, first, s, s, rows, 0, 0, [], [])
  {
    assert rows[..0] == [] && rows[0..] == rows;
    assert MigrationCounts(s, rows)[..0] == [];
  }

  /** The loop's invariant once every listed file was visited gives the bookkeeping the whole migration promises. */
  lemma MigrationDone(aead: Aead, key: CryptoKey, random: nat -> Iv, first: nat, drawn: nat, s: Store, t: Store,
                      rows: seq<Keyed<FileMeta>>, count: nat, copies: seq<nat>, starts: seq<nat>)
    requires Migrating(aead, key, random, first, drawn, s, t, rows, |rows|, count, copies, starts)
    ensures count <= |rows|
    ensures Valid(s) ==> Preserved(s, t) && count == CountGone(rows, t.files)
    ensures Sound(s) ==> Sound(t) && count == |rows|
    ensures Sound(s) ==> forall id :: id in t.files ==> t.files[id].encrypted
  {
    assert rows[..|rows|] == rows;
    assert forall id :: !HasKey(rows[|rows|..], id);
  }

  /**
   * On a sound store, once every listed file was visited, the run of IVs
   * stops at `first` plus the blocks of all rows, and each row has its copy
   * sealed from the position where its migration started.
   */
  lemma MigrationCopies(aead: Aead, key: CryptoKey, random: nat -> Iv, first: nat, drawn: nat, s: Store, t: Store,
                        rows: seq<Keyed<FileMeta>>, copies: seq<nat>, starts: seq<nat>)
    requires Copied(aead, key, random, s, t, rows, copies, starts, |rows|)
    requires Positions(first, MigrationCounts(s, rows), starts, drawn)
    ensures drawn == first + Sum(MigrationCounts(s, rows))
    ensures forall j :: 0 <= j < |rows| ==>
              HasCopy(aead, key, random, s, t, rows[j], StartOf(first, MigrationCounts(s, rows), j))
  {
    PositionsDone(first, MigrationCounts(s, rows), starts, drawn);
    CopiedAll(aead, key, random, first, MigrationCounts(s, rows), s, t, rows, copies, starts);
  }

  /** A run whose every item has started stops at `first` plus the sum of its counts. */
  lemma PositionsDone(first: nat, counts: seq<nat>, starts: seq<nat>, drawn: nat)
    requires Positions(first, counts, starts, drawn) && |starts| == |counts|
    ensures drawn == first + Sum(counts)
  {
    assert counts[..|counts|] == counts;
  }

  /**
   * The migration loop's invariant after `i` of the listed files, `drawn`
   * being the stream position reached from `first`: the bookkeeping of
   * `Progress`, and on a sound store every visited file done, the `j`-th
   * having drawn its IVs from `starts[j]` on, only files not yet reached
   * still unencrypted, and the copies made so far.
   */
  ghost predicate Migrating(aead: Aead, key: CryptoKey, random: nat -> Iv, first: nat, drawn: nat, s: Store, t: Store,
                            rows: seq<Keyed<FileMeta>>, i: nat, count: nat, copies: seq<nat>, starts: seq<nat>)
  {
    && i <= |rows| && count <= i && |copies| == i && |starts| == i && first <= drawn
    && (Sound(s) ==> Positions(first, MigrationCounts(s, rows), starts, drawn))
    && (Valid(s) ==> ListsUnencrypted(s, rows) && Progress(s, t, rows, i, count))
    && (Sound(s) ==> Sound(t) && count == i)
    && (Sound(s) ==> forall id :: id in t.files && !t.files[id].encrypted ==> HasKey(rows[i..], id))
    && (Sound(s) ==> Copied(aead, key, random, s, t, rows, copies, starts, i))
  }

  /**
   * The stream positions of a run of migrations from `first`: the `j`-th
   * started where the counts before it end, and `drawn` is where the last
   * one stopped.
   */
  ghost predicate Positions(first: nat, counts: seq<nat>, starts: seq<nat>, drawn: nat)
  {
    && |starts| <= |counts|
    && (forall j :: 0 <= j < |starts| ==> starts[j] == StartOf(first, counts, j))
    && drawn == StartOf(first, counts, |starts|)
  }

  /**
   * Row `row`, an unencrypted file of `s`, has an encrypted copy `id` in `t`:
   * a new file with the migrated record whose chunks are the blocks of the
   * bytes the migration read for `row` in `s`, sealed from stream position
   * `start` on, and which, when the cipher behaves ideally, reads back as
   * those bytes.
   */
  ghost predicate Copy(aead: Aead, key: CryptoKey, random: nat -> Iv, s: Store, t: Store, row: Keyed<FileMeta>, id: nat, start: nat)
  {
    && id >= s.nextFileId && id in t.files
    && t.files[id] == MigratedMeta(row.val, (|PlainBytes(s, row.id)| + CHUNK_SIZE - 1) / CHUNK_SIZE)
    && SealedFrom(t, aead, Some(key), random, start, id, PlainBytes(s, row.id))
    && (Ideal(aead) ==> ReadsBack(aead, Some(key), t, Keyed(id, t.files[id]), PlainBytes(s, row.id)))
  }

  /**
   * After `i` rows: row `j < i` has its copy `copies[j]`, sealed from
   * `starts[j]` on, and the rows not yet reached keep their chunks.
   */
  ghost predicate Copied(aead: Aead, key: CryptoKey, random: nat -> Iv, s: Store, t: Store,
                         rows: seq<Keyed<FileMeta>>, copies: seq<nat>, starts: seq<nat>, i: nat)
  {
    && i <= |rows| && |copies| == i && |starts| == i
    && (forall j :: 0 <= j < i ==> Copy(aead, key, random, s, t, rows[j], copies[j], starts[j]))
    && (forall j :: i <= j < |rows| ==> SameChunksOf(s, t, rows[j].id))
  }

  /** Row `row` has an encrypted copy in `t`, sealed from stream position `start` on. */
  ghost predicate HasCopy(aead: Aead, key: CryptoKey, random: nat -> Iv, s: Store, t: Store, row: Keyed<FileMeta>, start: nat)
  {
    exists id :: Copy(aead, key, random, s, t, row, id, start)
  }

  /** Every row has its copy, sealed from the position the run of `counts` from `first` gives it. */
  lemma CopiedAll(aead: Aead, key: CryptoKey, random: nat -> Iv, first: nat, counts: seq<nat>, s: Store, t: Store,
                  rows: seq<Keyed<FileMeta>>, copies: seq<nat>, starts: seq<nat>)
    requires Copied(aead, key, random, s, t, rows, copies, starts, |rows|) && |counts| == |rows|
    requires forall j :: 0 <= j < |starts| ==> starts[j] == StartOf(first, counts, j)
    ensures forall j :: 0 <= j < |rows| ==> HasCopy(aead, key, random, s, t, rows[j], StartOf(first, counts, j))
  {
    forall j | 0 <= j < |rows|
      ensures HasCopy(aead, key, random, s, t, rows[j], StartOf(first, counts, j))
    {
      assert Copy(aead, key, random, s, t, rows[j], copies[j], starts[j]);
    }
  }

  /**
   * The loop body of the migration: file `i` is migrated from the position
   * reached so far, and counted when it completes; on a sound store its IVs
   * end where the next row's begin.
   */
  method MigrateNext(aead: Aead, key: CryptoKey, random: nat -> Iv, ghost first: nat, drawn: nat, s: Store, t: Store,
                     rows: seq<Keyed<FileMeta>>, i: nat, count: nat, ghost copies: seq<nat>, ghost starts: seq<nat>)
    returns (t1: Store, drawnAfter: nat, count1: nat, newId: nat)
    requires i < |rows| && Migrating(aead, key, random, first, drawn, s, t, rows, i, count, copies, starts)
    ensures Migrating(aead, key, random, first, drawnAfter, s, t1, rows, i + 1, count1, copies + [newId], starts + [drawn])
  {
    var err;
    t1, drawnAfter, newId, err := MigrateFile(aead, key, random, drawn, t, rows[i]);
    count1 := count + (if err.None? then 1 else 0);
    MigrationKeeps(aead, key, random, first, drawn, drawnAfter, s, t, t1, rows, i, count, copies, starts, newId, err.None?);
  }

  /** What one migration step, as the migration of one file promises it, does to the loop's bookkeeping. */
  lemma MigrationKeeps(aead: Aead, key: CryptoKey, random: nat -> Iv, first: nat, drawn: nat, drawnAfter: nat,
                       s: Store, t: Store, t1: Store, rows: seq<Keyed<FileMeta>>,
                       i: nat, count: nat, copies: seq<nat>, starts: seq<nat>, newId: nat, ok: bool)
    requires i < |rows| && Migrating(aead, key, random, first, drawn, s, t, rows, i, count, copies, starts)
    requires MigratedOnce(aead, key, t, t1, rows[i], newId, ok)
    requires drawnAfter >= drawn
    requires ok ==> drawnAfter == drawn + BlockCount(PlainBytes(t, rows[i].id))
    requires Sound(t) ==> SealedFrom(t1, aead, Some(key), random, drawn, newId, PlainBytes(t, rows[i].id))
    ensures Migrating(aead, key, random, first, drawnAfter, s, t1, rows, i + 1, count + (if ok then 1 else 0), copies + [newId], starts + [drawn])
  {
    if Sound(s) {
      MigrationKeepsSound(aead, key, random, first, drawn, drawnAfter, s, t, t1, rows, i, copies, starts, newId);
    } else if Valid(s) {
      var meta := MigratedMeta(rows[i].val, (|PlainBytes(t, rows[i].id)| + CHUNK_SIZE - 1) / CHUNK_SIZE);
      ProgressStep(s, t, t1, rows, i, count, meta, ok);
    }
  }

  /** On a sound store every migration completes, and one step keeps the whole invariant. */
  lemma MigrationKeepsSound(aead: Aead, key: CryptoKey, random: nat -> Iv, first: nat, drawn: nat, drawnAfter: nat,
                            s: Store, t: Store, t1: Store, rows: seq<Keyed<FileMeta>>,
                            i: nat, copies: seq<nat>, starts: seq<nat>, newId: nat)
    requires Sound(s) && Sound(t)
    requires i < |rows| && Migrating(aead, key, random, first, drawn, s, t, rows, i, i, copies, starts)
    requires MigratedOnce(aead, key, t, t1, rows[i], newId, true)
    requires drawnAfter == drawn + BlockCount(PlainBytes(t, rows[i].id))
    requires SealedFrom(t1, aead, Some(key), random, drawn, newId, PlainBytes(t, rows[i].id))
    ensures Migrating(aead, key, random, first, drawnAfter, s, t1, rows, i + 1, i + 1, copies + [newId], starts + [drawn])
  {
    var meta := MigratedMeta(rows[i].val, (|PlainBytes(t, rows[i].id)| + CHUNK_SIZE - 1) / CHUNK_SIZE);
    ProgressStep(s, t, t1, rows, i, i, meta, true);
    SoundFactsKept(aead, key, random, first, drawn, drawnAfter, s, t, t1, rows, i, copies, starts, newId, meta);
  }

  /** On a sound store, one migration step keeps what the loop promises only of sound stores: files left, copies, positions. */
  lemma SoundFactsKept(aead: Aead, key: CryptoKey, random: nat -> Iv, first: nat, drawn: nat, drawnAfter: nat,
                        s: Store, t: Store, t1: Store, rows: seq<Keyed<FileMeta>>,
                        i: nat, copies: seq<nat>, starts: seq<nat>, newId: nat, meta: FileMeta)
    requires Sound(s) && Sound(t) && Sound(t1) && ListsUnencrypted(s, rows) && Progress(s, t, rows, i, i) && i < |rows|
    requires meta == MigratedMeta(rows[i].val, (|PlainBytes(t, rows[i].id)| + CHUNK_SIZE - 1) / CHUNK_SIZE)
    requires Replaced(t, t1, rows[i].id, meta, true)
    requires MovedTo(aead, key, t, t1, rows[i], newId)
    requires forall id :: id in t.files && !t.files[id].encrypted ==> HasKey(rows[i..], id)
    requires Copied(aead, key, random, s, t, rows, copies, starts, i)
    requires Positions(first, MigrationCounts(s, rows), starts, drawn)
    requires drawnAfter == drawn + BlockCount(PlainBytes(t, rows[i].id))
    requires SealedFrom(t1, aead, Some(key), random, drawn, newId, PlainBytes(t, rows[i].id))
    ensures forall id :: id in t1.files && !t1.files[id].encrypted ==> HasKey(rows[i + 1..], id)
    ensures Copied(aead, key, random, s, t1, rows, copies + [newId], starts + [drawn], i + 1)
    ensures Positions(first, MigrationCounts(s, rows), starts + [drawn], drawnAfter)
  {
    SoundStep(s, t, t1, rows, i, meta);
    PositionsStep(s, t, first, drawn, drawnAfter, rows, starts);
    CopiedStep(aead, key, random, drawn, s, t, t1, rows, copies, starts, i, newId, meta);
  }

  /** Row `i`, read back alike from `s` and from `t`, moves the stream on by its count. */
  lemma PositionsStep(s: Store, t: Store, first: nat, drawn: nat, drawnAfter: nat, rows: seq<Keyed<FileMeta>>, starts: seq<nat>)
    requires Valid(s) && Valid(t) && |starts| < |rows| && SameChunksOf(s, t, rows[|starts|].id)
    requires Positions(first, MigrationCounts(s, rows), starts, drawn)
    requires drawnAfter == drawn + BlockCount(PlainBytes(t, rows[|starts|].id))
    ensures Positions(first, MigrationCounts(s, rows), starts + [drawn], drawnAfter)
  {
    SamePlainBytes(s, t, rows[|starts|].id);
    MigrationCountAt(s, rows, |starts|);
    PositionsExtend(first, MigrationCounts(s, rows), starts, drawn, drawnAfter);
  }

  /** The next item of a run starts where the last one stopped, and stops its count further on. */
  lemma PositionsExtend(first: nat, counts: seq<nat>, starts: seq<nat>, drawn: nat, drawnAfter: nat)
    requires Positions(first, counts, starts, drawn) && |starts| < |counts|
    requires drawnAfter == drawn + counts[|starts|]
    ensures Positions(first, counts, starts + [drawn], drawnAfter)
  {
    var starts1 := starts + [drawn];
    StartStep(first, counts, |starts|);
    forall j | 0 <= j < |starts1|
      ensures starts1[j] == StartOf(first, counts, j)
    {
      if j < |starts| {
        assert starts1[j] == starts[j];
      }
    }
  }

  /** Migrating row `i` on a sound store adds its copy and keeps the copies made so far. */
  lemma CopiedStep(aead: Aead, key: CryptoKey, random: nat -> Iv, drawn: nat, s: Store, t: Store, t1: Store,
                   rows: seq<Keyed<FileMeta>>, copies: seq<nat>, starts: seq<nat>, i: nat, newId: nat, meta: FileMeta)
    requires Valid(s) && ListsUnencrypted(s, rows) && Progress(s, t, rows, i, i) && Valid(t1) && i < |rows|
    requires Copied(aead, key, random, s, t, rows, copies, starts, i)
    requires Replaced(t, t1, rows[i].id, meta, true)
    requires MovedTo(aead, key, t, t1, rows[i], newId)
    requires SealedFrom(t1, aead, Some(key), random, drawn, newId, PlainBytes(t, rows[i].id))
    ensures Copied(aead, key, random, s, t1, rows, copies + [newId], starts + [drawn], i + 1)
  {
    assert rows[i].id in s.files;
    CopiesKept(aead, key, random, s, t, t1, rows, copies, starts, i, rows[i].id, meta);
    NewCopy(aead, key, random, drawn, s, t, t1, rows[i], newId);
    RestKept(s, t, t1, rows, i);
    CopiedExtend(aead, key, random, s, t1, rows, copies, starts, i, newId, drawn);
  }

  /** The copies made before row `i` survive its migration. */
  lemma CopiesKept(aead: Aead, key: CryptoKey, random: nat -> Iv, s: Store, t: Store, t1: Store,
                   rows: seq<Keyed<FileMeta>>, copies: seq<nat>, starts: seq<nat>, i: nat, prior: nat, meta: FileMeta)
    requires Valid(t) && Valid(t1) && prior < s.nextFileId && i <= |rows| && |copies| == i && |starts| == i
    requires forall j :: 0 <= j < i ==> Copy(aead, key, random, s, t, rows[j], copies[j], starts[j])
    requires Replaced(t, t1, prior, meta, true)
    requires forall f: nat :: f < t.nextFileId && f != prior ==> SameChunksOf(t, t1, f)
    ensures forall j :: 0 <= j < i ==> Copy(aead, key, random, s, t1, rows[j], copies[j], starts[j])
  {
    forall j | 0 <= j < i
      ensures Copy(aead, key, random, s, t1, rows[j], copies[j], starts[j])
    {
      CopyKept(aead, key, random, s, t, t1, rows[j], copies[j], starts[j], prior, meta);
    }
  }

  /** The file a completed migration of `row` adds is a copy of it, measured against `s`. */
  lemma NewCopy(aead: Aead, key: CryptoKey, random: nat -> Iv, start: nat, s: Store, t: Store, t1: Store,
                row: Keyed<FileMeta>, newId: nat)
    requires Valid(s) && Valid(t) && t.nextFileId >= s.nextFileId
    requires SameChunksOf(s, t, row.id)
    requires MovedTo(aead, key, t, t1, row, newId)
    requires SealedFrom(t1, aead, Some(key), random, start, newId, PlainBytes(t, row.id))
    ensures Copy(aead, key, random, s, t1, row, newId, start)
  {
    SamePlainBytes(s, t, row.id);
    CopyOf(aead, key, random, start, s, t1, row, newId, PlainBytes(t, row.id));
  }

  /** A new file with the migrated record, sealed from `start`, that reads back as the row's bytes is a copy of the row. */
  lemma CopyOf(aead: Aead, key: CryptoKey, random: nat -> Iv, start: nat, s: Store, t1: Store,
               row: Keyed<FileMeta>, newId: nat, bytes: Bytes)
    requires bytes == PlainBytes(s, row.id)
    requires newId >= s.nextFileId && newId in t1.files
    requires t1.files[newId] == MigratedMeta(row.val, (|bytes| + CHUNK_SIZE - 1) / CHUNK_SIZE)
    requires SealedFrom(t1, aead, Some(key), random, start, newId, bytes)
    requires Ideal(aead) ==> ReadsBack(aead, Some(key), t1, Keyed(newId, t1.files[newId]), bytes)
    ensures Copy(aead, key, random, s, t1, row, newId, start)
  {
  }

  /** The rows after `i` keep their chunks when row `i` is migrated. */
  lemma RestKept(s: Store, t: Store, t1: Store, rows: seq<Keyed<FileMeta>>, i: nat)
    requires i < |rows| && Increasing(rows)
    requires forall j :: i <= j < |rows| ==> rows[j].id in t.files
    requires forall id :: id in t.files ==> id < t.nextFileId
    requires forall j :: i <= j < |rows| ==> SameChunksOf(s, t, rows[j].id)
    requires forall f: nat :: f < t.nextFileId && f != rows[i].id ==> SameChunksOf(t, t1, f)
    ensures forall j :: i + 1 <= j < |rows| ==> SameChunksOf(s, t1, rows[j].id)
  {
    forall j | i + 1 <= j < |rows|
      ensures SameChunksOf(s, t1, rows[j].id)
    {
      assert rows[i].id < rows[j].id < t.nextFileId;
      assert SameChunksOf(s, t, rows[j].id) && SameChunksOf(t, t1, rows[j].id);
    }
  }

  /** Row `i`'s copy, sealed from `start`, added to the copies before it, extends `Copied` by one row. */
  lemma CopiedExtend(aead: Aead, key: CryptoKey, random: nat -> Iv, s: Store, t1: Store,
                     rows: seq<Keyed<FileMeta>>, copies: seq<nat>, starts: seq<nat>, i: nat, newId: nat, start: nat)
    requires i < |rows| && |copies| == i && |starts| == i
    requires forall j :: 0 <= j < i ==> Copy(aead, key, random, s, t1, rows[j], copies[j], starts[j])
    requires Copy(aead, key, random, s, t1, rows[i], newId, start)
    requires forall j :: i + 1 <= j < |rows| ==> SameChunksOf(s, t1, rows[j].id)
    ensures Copied(aead, key, random, s, t1, rows, copies + [newId], starts + [start], i + 1)
  {
    var copies1, starts1 := copies + [newId], starts + [start];
    forall j | 0 <= j < i + 1
      ensures Copy(aead, key, random, s, t1, rows[j], copies1[j], starts1[j])
    {
      if j < i {
        assert copies1[j] == copies[j] && starts1[j] == starts[j];
      }
    }
  }

  /** Valid stores holding the same chunks of file `f` read back the same plain bytes for it. */
  lemma SamePlainBytes(s: Store, t: Store, f: nat)
    requires Valid(s) && Valid(t) && SameChunksOf(s, t, f)
    ensures PlainBytes(s, f) == PlainBytes(t, f)
  {
    GetFileChunksDetermined(s, t, f);
  }

  /** Migrating file `prior` keeps an earlier copy: its record stays, and so do its chunks. */
  lemma CopyKept(aead: Aead, key: CryptoKey, random: nat -> Iv, s: Store, t: Store, t1: Store, row: Keyed<FileMeta>, id: nat,
                 start: nat, prior: nat, meta: FileMeta)
    requires Valid(t) && Valid(t1) && prior < s.nextFileId
    requires Copy(aead, key, random, s, t, row, id, start)
    requires Replaced(t, t1, prior, meta, true)
    requires forall f: nat :: f < t.nextFileId && f != prior ==> SameChunksOf(t, t1, f)
    ensures Copy(aead, key, random, s, t1, row, id, start)
  {
    assert id < t.nextFileId && id != prior;
    assert SameChunksOf(t, t1, id);
    SealedKept(t, t1, aead, Some(key), random, start, id, PlainBytes(s, row.id));
    if Ideal(aead) {
      ReadsBackKept(aead, Some(key), t, t1, Keyed(id, t.files[id]), PlainBytes(s, row.id));
    }
  }

  /** One migration step keeps the count of completed files and the files not yet reached. */
  lemma MigrationStep(s: Store, t: Store, t1: Store, rows: seq<Keyed<FileMeta>>, i: nat, ok: bool)
    requires 0 <= i < |rows|
    requires Increasing(rows)
    requires forall j :: i <= j < |rows| ==> rows[j].id in t.files
    requires forall id :: id < t.nextFileId ==>
               (id in t1.files <==> id in t.files && (id != rows[i].id || !ok))
    requires forall id :: id in t.files ==> id < t.nextFileId
    ensures CountGone(rows[..i + 1], t1.files) == CountGone(rows[..i], t.files) + (if ok then 1 else 0)
    ensures forall j :: i + 1 <= j < |rows| ==> rows[j].id in t1.files
  {
    var pre := rows[..i];
    assert rows[..i + 1][..i] == pre;
    forall j | 0 <= j < |pre|
      ensures pre[j].id in t.files <==> pre[j].id in t1.files
    {
      assert pre[j].id < rows[i].id < t.nextFileId;
    }
    CountGoneSame(pre, t.files, t1.files);
  }
}
