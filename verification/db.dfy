/**
 * The IndexedDB layer: the `files` and `chunks` object stores, each keyed by
 * an auto-increment `id`, with a unique index on `(fileId, chunkIndex)` over
 * the chunks. Every exported function is one readwrite or readonly
 * transaction; a transaction that fails leaves the state it started from,
 * which is what a `Failure` result means here.
 */
module Db {
  import opened Outcomes
  import opened Records
  import opened Listing
  import Backup

  /**
   * Both stores and their key generators: the key the next `add` or `put`
   * without a key receives. A generator starts at 1, moves past any explicit
   * key at or above it, and is not reset by `clear`.
   */
  datatype Store = Store(
    files: map<nat, FileMeta>,
    chunks: map<nat, Chunk>,
    nextFileId: nat,
    nextChunkId: nat)

  /** A newly created database (`initDB` on first open). */
  function Empty(): Store
  {
    Store(map[], map[], 1, 1)
  }

  /** A write that succeeded, with the key it stored the record under. */
  datatype Saved = Saved(store: Store, id: nat)

  /** The generator after a record was stored under `key`. */
  function Bump(next: nat, key: nat): (r: nat)
    ensures r >= next && r > key
    ensures key < next ==> r == next
  {
    if key >= next then key + 1 else next
  }

  /** Two chunk records compete for one entry of the unique index. */
  predicate SameSlot(a: Chunk, b: Chunk)
  {
    a.fileId == b.fileId && a.chunkIndex == b.chunkIndex
  }

  /** A record other than the one under `id` already has `c`'s `(fileId, chunkIndex)`. */
  predicate SlotTaken(chunks: map<nat, Chunk>, id: nat, c: Chunk)
  {
    exists k :: k in chunks && k != id && SameSlot(chunks[k], c)
  }

  predicate UniqueSlots(chunks: map<nat, Chunk>)
  {
    forall a, b :: a in chunks && b in chunks && a != b ==> !SameSlot(chunks[a], chunks[b])
  }

  /** What IndexedDB maintains: every key is below its generator, and the unique index holds. */
  predicate Valid(s: Store)
  {
    && (forall id :: id in s.files ==> id < s.nextFileId)
    && (forall id :: id in s.chunks ==> id < s.nextChunkId)
    && UniqueSlots(s.chunks)
  }

  /** No chunk names a file id that has not yet been handed out. */
  predicate Sound(s: Store)
  {
    Valid(s) && forall id :: id in s.chunks ==> s.chunks[id].fileId < s.nextFileId
  }

  /** Every chunk belongs to a stored file. */
  predicate NoOrphans(s: Store)
  {
    forall id :: id in s.chunks ==> s.chunks[id].fileId in s.files
  }

  lemma EmptyIsSound()
    ensures Sound(Empty()) && NoOrphans(Empty())
  {
  }

  // ---------------------------------------------------------------- writes

  /**
   * `saveFileMetadata`: `add` under the generated key. The key is new to the
   * store, so nothing already stored is replaced.
   */
  function SaveFileMetadata(s: Store, meta: FileMeta): (r: Result<Saved>)
    ensures r.Failure? ==> r.error == ConstraintError && s.nextFileId in s.files
    ensures r.Success? ==>
              && r.value.id !in s.files
              && r.value.store.files == s.files[r.value.id := meta]
              && r.value.store.chunks == s.chunks
              && r.value.store.nextChunkId == s.nextChunkId
              && r.value.id < r.value.store.nextFileId
    ensures Valid(s) ==> r.Success? && r.value.id >= s.nextFileId
    ensures Valid(s) ==> Valid(r.value.store)
    ensures Sound(s) ==> Sound(r.value.store)
    ensures Valid(s) && NoOrphans(s) ==> NoOrphans(r.value.store)
  {
    var id := s.nextFileId;
    if id in s.files then Failure(ConstraintError)
    else Success(Saved(s.(files := s.files[id := meta], nextFileId := id + 1), id))
  }

  /** `updateFileMetadata`: `put` of a record that carries its key; any record under it is replaced. */
  function UpdateFileMetadata(s: Store, row: Keyed<FileMeta>): (r: Store)
    ensures r.files == s.files[row.id := row.val]
    ensures r.chunks == s.chunks && r.nextChunkId == s.nextChunkId
    ensures r.nextFileId >= s.nextFileId && row.id < r.nextFileId
    ensures Valid(s) ==> Valid(r)
    ensures NoOrphans(s) ==> NoOrphans(r)
  {
    s.(files := s.files[row.id := row.val], nextFileId := Bump(s.nextFileId, row.id))
  }

  /**
   * `saveChunk`: `put` under the record's own key, or under a generated key
   * when it carries none. A record under that key is replaced; a record under
   * another key with the same `(fileId, chunkIndex)` makes the unique index
   * refuse the write.
   */
  function SaveChunk(s: Store, c: Chunk, id: Option<nat>): (r: Result<Saved>)
    ensures r.Failure? ==> r.error == ConstraintError
    ensures r.Failure? ==> exists k :: k in s.chunks && SameSlot(s.chunks[k], c)
    ensures r.Success? ==>
              && r.value.store.chunks == s.chunks[r.value.id := c]
              && (forall k :: k in s.chunks && k != r.value.id ==> !SameSlot(s.chunks[k], c))
              && r.value.store.files == s.files
              && r.value.store.nextFileId == s.nextFileId
              && r.value.id < r.value.store.nextChunkId
    ensures r.Success? && id.Some? ==> r.value.id == id.value
    ensures r.Success? && id.None? && Valid(s) ==> r.value.id !in s.chunks
    ensures Valid(s) && r.Success? ==> Valid(r.value.store)
    ensures Sound(s) && r.Success? && c.fileId < s.nextFileId ==> Sound(r.value.store)
    ensures NoOrphans(s) && r.Success? && c.fileId in s.files ==> NoOrphans(r.value.store)
  {
    var key := if id.Some? then id.value else s.nextChunkId;
    if SlotTaken(s.chunks, key, c) then Failure(ConstraintError)
    else Success(Saved(s.(chunks := s.chunks[key := c], nextChunkId := Bump(s.nextChunkId, key)), key))
  }

  /** A chunk carrying the key of a stored record for the same slot replaces it. */
  lemma SaveChunkReplaces(s: Store, c: Chunk, id: nat)
    requires Valid(s) && id in s.chunks && SameSlot(s.chunks[id], c)
    ensures SaveChunk(s, c, Some(id)).Success?
    ensures SaveChunk(s, c, Some(id)).value.store.chunks == s.chunks[id := c]
    ensures |SaveChunk(s, c, Some(id)).value.store.chunks| == |s.chunks|
  {
    assert !SlotTaken(s.chunks, id, c);
    assert s.chunks[id := c].Keys == s.chunks.Keys;
  }

  /** A chunk without a key, for a slot no stored record has, is stored under a new key. */
  lemma SaveChunkInserts(s: Store, c: Chunk)
    requires Valid(s)
    requires forall k :: k in s.chunks ==> !SameSlot(s.chunks[k], c)
    ensures SaveChunk(s, c, None).Success?
    ensures SaveChunk(s, c, None).value.id !in s.chunks
  {
  }

  // ---------------------------------------------------------------- reads

  /** `getAll` on `files`: every file record with its key, in ascending key order. */
  function GetAllFiles(s: Store): (r: seq<Keyed<FileMeta>>)
    ensures forall i, j :: 0 <= i < j < |r| ==> r[i].id < r[j].id
    ensures forall i :: 0 <= i < |r| ==> r[i].id in s.files && s.files[r[i].id] == r[i].val
    ensures forall id :: id in s.files <==> HasKey(r, id)
    ensures |r| == |s.files|
  {
    Rows(s.files)
  }

  /** `getFileMetadata`: the record under `id`, or nothing. */
  function GetFileMetadata(s: Store, id: nat): (r: Option<FileMeta>)
    ensures r.Some? <==> id in s.files
    ensures r.Some? ==> r.value == s.files[id]
  {
    if id in s.files then Some(s.files[id]) else None
  }

  /**
   * `getFileChunks`: the chunks of file `f` and no others, sorted by chunk
   * index. Under the unique index the order is strict, and a file without
   * chunks, including one that does not exist, gets an empty list.
   */
  function GetFileChunks(s: Store, f: nat): (r: seq<Keyed<Chunk>>)
    ensures forall x :: x in r <==> x.id in s.chunks && s.chunks[x.id] == x.val && x.val.fileId == f
    ensures SortedByIndex(r)
    ensures Distinct(r)
    ensures Valid(s) ==> StrictByIndex(r)
    ensures (forall id :: id in s.chunks ==> s.chunks[id].fileId != f) ==> r == []
  {
    var r := SortByIndex(OfFile(Rows(s.chunks), f));
    FileChunksMembers(s, f);
    assert |r| > 0 ==> r[0] in r;
    if Valid(s) then
      StrictFromSlots(s, f, r);
      r
    else
      r
  }

  lemma FileChunksMembers(s: Store, f: nat)
    ensures var r := SortByIndex(OfFile(Rows(s.chunks), f));
            && (forall x :: x in r <==> x.id in s.chunks && s.chunks[x.id] == x.val && x.val.fileId == f)
            && Distinct(r)
  {
    var rows := Rows(s.chunks);
    var mine := OfFile(rows, f);
    RowsMembers(s.chunks);
    OfFileDistinct(rows, f);
    var r := SortByIndex(mine);
    PermutationMembers(mine, r);
    MembersChain(s.chunks, f, rows, mine, r);
  }

  lemma MembersChain(m: map<nat, Chunk>, f: nat, rows: seq<Keyed<Chunk>>, mine: seq<Keyed<Chunk>>, r: seq<Keyed<Chunk>>)
    requires forall x :: x in rows <==> x.id in m && m[x.id] == x.val
    requires forall x :: x in mine <==> x in rows && x.val.fileId == f
    requires forall x :: x in r <==> x in mine
    ensures forall x :: x in r <==> x.id in m && m[x.id] == x.val && x.val.fileId == f
  {
  }

  /** Distinct stored chunks of one file, sorted by index, are strictly sorted under the unique index. */
  lemma StrictFromSlots(s: Store, f: nat, r: seq<Keyed<Chunk>>)
    requires Valid(s) && SortedByIndex(r) && Distinct(r)
    requires forall x :: x in r ==> x.id in s.chunks && s.chunks[x.id] == x.val && x.val.fileId == f
    ensures StrictByIndex(r)
  {
    forall i, j | 0 <= i < j < |r|
      ensures r[i].val.chunkIndex < r[j].val.chunkIndex
    {
      assert r[i] in r && r[j] in r;
      assert r[i].id != r[j].id;
    }
  }

  /**
   * The listing of a file depends only on that file's stored chunks: any two
   * states holding the same chunks for `f` list them identically.
   */
  lemma GetFileChunksDetermined(s: Store, t: Store, f: nat)
    requires Valid(s) && Valid(t)
    requires forall id :: (id in s.chunks && s.chunks[id].fileId == f) <==> (id in t.chunks && t.chunks[id].fileId == f)
    requires forall id :: id in s.chunks && s.chunks[id].fileId == f ==> t.chunks[id] == s.chunks[id]
    ensures GetFileChunks(s, f) == GetFileChunks(t, f)
  {
    StrictlySortedUnique(GetFileChunks(s, f), GetFileChunks(t, f));
  }

  // ---------------------------------------------------------------- deletion

  /**
   * `deleteFile`: in one transaction, the file record and every chunk whose
   * `fileId` is `f` go; all other records stay as they were.
   */
  function DeleteFile(s: Store, f: nat): (r: Store)
    ensures f !in r.files
    ensures forall id :: id in r.files <==> id in s.files && id != f
    ensures forall id :: id in r.files ==> r.files[id] == s.files[id]
    ensures forall id :: id in r.chunks <==> id in s.chunks && s.chunks[id].fileId != f
    ensures forall id :: id in r.chunks ==> r.chunks[id] == s.chunks[id]
    ensures r.nextFileId == s.nextFileId && r.nextChunkId == s.nextChunkId
    ensures f !in s.files && (forall id :: id in s.chunks ==> s.chunks[id].fileId != f) ==> r == s
    ensures Valid(s) ==> Valid(r)
    ensures Sound(s) ==> Sound(r)
    ensures NoOrphans(s) ==> NoOrphans(r)
  {
    var chunks := map id | id in s.chunks && s.chunks[id].fileId != f :: s.chunks[id];
    assert f !in s.files && (forall id :: id in s.chunks ==> s.chunks[id].fileId != f) ==>
             s.files - {f} == s.files && chunks == s.chunks;
    s.(files := s.files - {f}, chunks := chunks)
  }

  /** After `deleteFile(f)` nothing is listed for `f`, and every other file lists as before. */
  lemma DeleteFileListings(s: Store, f: nat, g: nat)
    requires Valid(s)
    ensures GetFileChunks(DeleteFile(s, f), f) == []
    ensures g != f ==> GetFileChunks(DeleteFile(s, f), g) == GetFileChunks(s, g)
  {
    if g != f {
      GetFileChunksDetermined(DeleteFile(s, f), s, g);
    }
  }

  /** `clearAllData`: both stores emptied; the key generators keep counting. */
  function ClearAllData(s: Store): (r: Store)
    ensures r.files == map[] && r.chunks == map[]
    ensures r.nextFileId == s.nextFileId && r.nextChunkId == s.nextChunkId
    ensures Valid(r) && NoOrphans(r)
  {
    s.(files := map[], chunks := map[])
  }

  /**
   * After `clearAllData` the listing is empty, and the next file is not given
   * key 1 again but the key the generator had reached.
   */
  lemma ClearKeepsGenerator(s: Store, meta: FileMeta)
    ensures GetAllFiles(ClearAllData(s)) == []
    ensures SaveFileMetadata(ClearAllData(s), meta) == Success(Saved(
              Store(map[s.nextFileId := meta], map[], s.nextFileId + 1, s.nextChunkId), s.nextFileId))
  {
  }

  // ---------------------------------------------------------------- backup

  /**
   * `exportBackupData`: every file record and every chunk record, read with
   * `getAll`, packed into a backup document. A store whose chunks hold only
   * strings or nothing in `iv` and `ciphertext` exports exactly its records.
   */
  function ExportBackupData(s: Store, now: string): (r: Result<Backup.BackupDoc>)
    ensures r.Success? <==> forall id :: id in s.chunks ==> Backup.OptimizeChunk(s.chunks[id]).Success?
    ensures r.Success? ==> && r.value.version == Backup.BACKUP_VERSION
                           && r.value.exportedAt == now
                           && r.value.files == Some(GetAllFiles(s))
                           && r.value.chunks.Some?
                           && |r.value.chunks.value| == |s.chunks|
    ensures r.Success? ==> forall id :: id in s.chunks <==> HasKey(r.value.chunks.value, id)
    ensures r.Success? ==> forall i :: 0 <= i < |r.value.chunks.value| ==>
              && r.value.chunks.value[i].id in s.chunks
              && Backup.OptimizeChunk(s.chunks[r.value.chunks.value[i].id]) == Success(r.value.chunks.value[i].val)
    ensures r.Success? ==> forall i, j :: 0 <= i < j < |r.value.chunks.value| ==>
              r.value.chunks.value[i].id < r.value.chunks.value[j].id
    ensures (forall id :: id in s.chunks ==> Canonical(s.chunks[id])) ==>
              r == Success(Backup.BackupDoc(Backup.BACKUP_VERSION, now, Some(Rows(s.files)), Some(Rows(s.chunks))))
  {
    ExportedChunks(s.chunks);
    PackedEntries(s.chunks, Rows(s.chunks));
    Backup.CreateEfficientBackup(GetAllFiles(s), Rows(s.chunks), now)
  }

  /** What packing the `getAll` rows of the chunk store does, key by key. */
  lemma ExportedChunks(chunks: map<nat, Chunk>)
    ensures var packed := Backup.OptimizeChunks(Rows(chunks));
            && (packed.Success? <==> forall id :: id in chunks ==> Backup.OptimizeChunk(chunks[id]).Success?)
            && (packed.Success? ==> forall id :: id in chunks <==> HasKey(packed.value, id))
            && ((forall id :: id in chunks ==> Canonical(chunks[id])) ==> packed == Success(Rows(chunks)))
  {
    var rows := Rows(chunks);
    RowsMembers(chunks);
    PackedWhenEachPacks(chunks, rows);
    PackedKeys(rows);
    RowsCanonical(chunks, rows);
  }

  /** Packed rows keep the keys, the order and, per key, the packed stored chunk. */
  lemma PackedEntries(chunks: map<nat, Chunk>, rows: seq<Keyed<Chunk>>)
    requires forall i :: 0 <= i < |rows| ==> rows[i].id in chunks && chunks[rows[i].id] == rows[i].val
    requires forall i, j :: 0 <= i < j < |rows| ==> rows[i].id < rows[j].id
    ensures var packed := Backup.OptimizeChunks(rows);
            && (packed.Success? ==> forall i :: 0 <= i < |packed.value| ==>
                  packed.value[i].id in chunks && Backup.OptimizeChunk(chunks[packed.value[i].id]) == Success(packed.value[i].val))
            && (packed.Success? ==> forall i, j :: 0 <= i < j < |packed.value| ==> packed.value[i].id < packed.value[j].id)
  {
    var packed := Backup.OptimizeChunks(rows);
    if packed.Success? {
      assert forall i :: 0 <= i < |packed.value| ==> packed.value[i].id == rows[i].id;
    }
  }

  lemma RowsCanonical(chunks: map<nat, Chunk>, rows: seq<Keyed<Chunk>>)
    requires forall x :: x in rows <==> x.id in chunks && chunks[x.id] == x.val
    ensures (forall id :: id in chunks ==> Canonical(chunks[id])) ==> Backup.OptimizeChunks(rows) == Success(rows)
  {
    if forall id :: id in chunks ==> Canonical(chunks[id]) {
      assert forall i :: 0 <= i < |rows| ==> rows[i] in rows;
      PackedCanonical(rows);
    }
  }

  lemma PackedWhenEachPacks(chunks: map<nat, Chunk>, rows: seq<Keyed<Chunk>>)
    requires forall x :: x in rows <==> x.id in chunks && chunks[x.id] == x.val
    requires forall id :: id in chunks <==> HasKey(rows, id)
    ensures Backup.OptimizeChunks(rows).Success? <==> forall id :: id in chunks ==> Backup.OptimizeChunk(chunks[id]).Success?
  {
    if forall id :: id in chunks ==> Backup.OptimizeChunk(chunks[id]).Success? {
      forall i | 0 <= i < |rows|
        ensures Backup.OptimizeChunk(rows[i].val).Success?
      {
        assert rows[i] in rows;
      }
    }
    if Backup.OptimizeChunks(rows).Success? {
      forall id | id in chunks
        ensures Backup.OptimizeChunk(chunks[id]).Success?
      {
        var i :| 0 <= i < |rows| && rows[i].id == id;
        assert rows[i] in rows;
      }
    }
  }

  /** Packing keeps every key in its place. */
  lemma PackedKeys(rows: seq<Keyed<Chunk>>)
    ensures Backup.OptimizeChunks(rows).Success? ==>
              forall id :: HasKey(rows, id) <==> HasKey(Backup.OptimizeChunks(rows).value, id)
  {
    var packed := Backup.OptimizeChunks(rows);
    if packed.Success? {
      forall id
        ensures HasKey(rows, id) <==> HasKey(packed.value, id)
      {
        if HasKey(rows, id) {
          var i :| 0 <= i < |rows| && rows[i].id == id;
          assert packed.value[i].id == id;
        }
        if HasKey(packed.value, id) {
          var i :| 0 <= i < |packed.value| && packed.value[i].id == id;
          assert rows[i].id == id;
        }
      }
    }
  }

  /** Rows already in the form the application writes are packed to themselves. */
  lemma PackedCanonical(rows: seq<Keyed<Chunk>>)
    requires forall i :: 0 <= i < |rows| ==> Canonical(rows[i].val)
    ensures Backup.OptimizeChunks(rows) == Success(rows)
  {
    var packed := Backup.OptimizeChunks(rows);
    assert packed.Success?;
    forall i | 0 <= i < |rows|
      ensures packed.value[i] == rows[i]
    {
      var c := rows[i].val;
      assert Backup.OptimizeChunk(c) == Success(c);
    }
    assert packed.value == rows;
  }

  /** The keys of `rows` are pairwise different and none is in `keys`. */
  predicate FreshKeys<T>(keys: set<nat>, rows: seq<Keyed<T>>)
  {
    && (forall i :: 0 <= i < |rows| ==> rows[i].id !in keys)
    && (forall i, j :: 0 <= i < j < |rows| ==> rows[i].id != rows[j].id)
  }

  /** `add` of a file record with its key: refused when the key is taken. */
  function AddFile(s: Store, row: Keyed<FileMeta>): (r: Result<Store>)
    ensures r.Success? <==> row.id !in s.files
    ensures r.Failure? ==> r.error == ConstraintError
    ensures r.Success? ==> r.value == UpdateFileMetadata(s, row)
  {
    if row.id in s.files then Failure(ConstraintError)
    else Success(UpdateFileMetadata(s, row))
  }

  /** The file `add`s of an import, in order; the first refusal fails them all. */
  function AddFiles(s: Store, rows: seq<Keyed<FileMeta>>): (r: Result<Store>)
    ensures r.Success? <==> FreshKeys(s.files.Keys, rows)
    ensures r.Failure? ==> r.error == ConstraintError
    ensures r.Success? ==> && r.value.chunks == s.chunks
                           && r.value.nextChunkId == s.nextChunkId
                           && r.value.nextFileId >= s.nextFileId
    ensures r.Success? ==> forall id :: id in r.value.files <==> id in s.files || HasKey(rows, id)
    ensures r.Success? ==> forall id :: id in s.files ==> r.value.files[id] == s.files[id]
    ensures r.Success? ==> forall i :: 0 <= i < |rows| ==> rows[i].id in r.value.files && r.value.files[rows[i].id] == rows[i].val
    ensures r.Success? && Valid(s) ==> Valid(r.value)
    decreases |rows|
  {
    if |rows| == 0 then Success(s)
    else
      var t :- AddFile(s, rows[0]);
      var r := AddFiles(t, rows[1..]);
      assert FreshKeys(s.files.Keys, rows) <==> rows[0].id !in s.files && FreshKeys(t.files.Keys, rows[1..]) by {
        if rows[0].id !in s.files {
          assert t.files.Keys == s.files.Keys + {rows[0].id};
          assert forall i :: 1 <= i < |rows| ==> rows[i] == rows[1..][i - 1];
        }
      }
      HasKeyStep(rows);
      assert forall i :: 1 <= i < |rows| ==> rows[i] == rows[1..][i - 1];
      r
  }

  /** `add` of a chunk record with its key: refused when the key or the slot is taken. */
  function AddChunk(s: Store, row: Keyed<Chunk>): (r: Result<Store>)
    ensures r.Success? <==> row.id !in s.chunks && forall k :: k in s.chunks ==> !SameSlot(s.chunks[k], row.val)
    ensures r.Failure? ==> r.error == ConstraintError
    ensures r.Success? ==> && r.value.chunks == s.chunks[row.id := row.val]
                           && r.value.files == s.files
                           && r.value.nextFileId == s.nextFileId
                           && r.value.nextChunkId >= s.nextChunkId
                           && row.id < r.value.nextChunkId
    ensures r.Success? && Valid(s) ==> Valid(r.value)
  {
    if row.id in s.chunks || SlotTaken(s.chunks, row.id, row.val) then Failure(ConstraintError)
    else Success(s.(chunks := s.chunks[row.id := row.val], nextChunkId := Bump(s.nextChunkId, row.id)))
  }

  /** The keys and the slots of `rows` are pairwise different and none is taken in `chunks`. */
  predicate Insertable(chunks: map<nat, Chunk>, rows: seq<Keyed<Chunk>>)
  {
    && FreshKeys(chunks.Keys, rows)
    && (forall i, k :: 0 <= i < |rows| && k in chunks ==> !SameSlot(chunks[k], rows[i].val))
    && (forall i, j :: 0 <= i < j < |rows| ==> !SameSlot(rows[i].val, rows[j].val))
  }

  /** The chunk `add`s of an import, in order; the first refusal fails them all. */
  function AddChunks(s: Store, rows: seq<Keyed<Chunk>>): (r: Result<Store>)
    ensures r.Success? <==> Insertable(s.chunks, rows)
    ensures r.Failure? ==> r.error == ConstraintError
    ensures r.Success? ==> && r.value.files == s.files
                           && r.value.nextFileId == s.nextFileId
                           && r.value.nextChunkId >= s.nextChunkId
    ensures r.Success? ==> forall id :: id in r.value.chunks <==> id in s.chunks || HasKey(rows, id)
    ensures r.Success? ==> forall id :: id in s.chunks ==> r.value.chunks[id] == s.chunks[id]
    ensures r.Success? ==> forall i :: 0 <= i < |rows| ==> rows[i].id in r.value.chunks && r.value.chunks[rows[i].id] == rows[i].val
    ensures r.Success? && Valid(s) ==> Valid(r.value)
    decreases |rows|
  {
    if |rows| == 0 then Success(s)
    else
      var t :- AddChunk(s, rows[0]);
      var r := AddChunks(t, rows[1..]);
      InsertableStep(s, rows);
      HasKeyStep(rows);
      assert forall i :: 1 <= i < |rows| ==> rows[i] == rows[1..][i - 1];
      r
  }

  lemma InsertableStep(s: Store, rows: seq<Keyed<Chunk>>)
    requires |rows| > 0
    ensures Insertable(s.chunks, rows) <==>
              AddChunk(s, rows[0]).Success? && Insertable(AddChunk(s, rows[0]).value.chunks, rows[1..])
  {
    assert forall i :: 1 <= i < |rows| ==> rows[i] == rows[1..][i - 1];
    if AddChunk(s, rows[0]).Success? {
      var t := AddChunk(s, rows[0]).value;
      assert forall k :: k in t.chunks <==> k in s.chunks || k == rows[0].id;
      if Insertable(t.chunks, rows[1..]) {
        assert FreshKeys(s.chunks.Keys, rows);
        forall i, k | 0 <= i < |rows| && k in s.chunks
          ensures !SameSlot(s.chunks[k], rows[i].val)
        {
          if i > 0 {
            assert t.chunks[k] == s.chunks[k];
          }
        }
        forall i, j | 0 <= i < j < |rows|
          ensures !SameSlot(rows[i].val, rows[j].val)
        {
          if i == 0 {
            assert t.chunks[rows[0].id] == rows[0].val;
          }
        }
      }
    }
  }

  /**
   * `after` is `before` with the keys of `rows` added: no other key appears
   * and no record already stored changes.
   */
  ghost predicate Added<T>(before: map<nat, T>, after: map<nat, T>, rows: seq<Keyed<T>>)
  {
    && (forall id :: id in after <==> id in before || HasKey(rows, id))
    && (forall id :: id in before ==> after[id] == before[id])
  }

  /**
   * The transaction of `importBackupData`: every file of the document is
   * `add`ed, then every chunk, keys included. A refused `add` aborts the
   * transaction, so either all records are added or none: it fails exactly
   * when a key is listed twice or already stored, or a chunk's
   * `(fileId, chunkIndex)` is listed twice or already taken.
   */
  function ImportRecords(s: Store, doc: Backup.BackupDoc): (r: Result<Store>)
    ensures r.Success? <==> FreshKeys(s.files.Keys, Backup.FilesOf(doc)) && Insertable(s.chunks, Backup.ChunksOf(doc))
    ensures r.Failure? ==> r.error == ConstraintError
    ensures doc.files.None? && doc.chunks.None? ==> r == Success(s)
    ensures r.Success? ==> Added(s.files, r.value.files, Backup.FilesOf(doc))
    ensures r.Success? ==> Added(s.chunks, r.value.chunks, Backup.ChunksOf(doc))
    ensures r.Success? ==> forall i :: 0 <= i < |Backup.FilesOf(doc)| ==>
              r.value.files[Backup.FilesOf(doc)[i].id] == Backup.FilesOf(doc)[i].val
    ensures r.Success? ==> forall i :: 0 <= i < |Backup.ChunksOf(doc)| ==>
              r.value.chunks[Backup.ChunksOf(doc)[i].id] == Backup.ChunksOf(doc)[i].val
    ensures r.Success? && Valid(s) ==> Valid(r.value)
  {
    var t :- AddFiles(s, Backup.FilesOf(doc));
    AddChunks(t, Backup.ChunksOf(doc))
  }

  /** Rows with the same keys and `(fileId, chunkIndex)`, position by position, clash alike. */
  lemma SameShape(chunks: map<nat, Chunk>, a: seq<Keyed<Chunk>>, b: seq<Keyed<Chunk>>)
    requires |a| == |b|
    requires forall i :: 0 <= i < |a| ==> a[i].id == b[i].id && SameSlot(a[i].val, b[i].val)
    ensures Insertable(chunks, a) <==> Insertable(chunks, b)
    ensures forall id :: HasKey(a, id) <==> HasKey(b, id)
  {
  }

  /** Restoring changes neither a chunk's key nor its `(fileId, chunkIndex)`. */
  lemma ParsedShape(doc: Backup.BackupDoc)
    requires Backup.ParseBackup(doc).Success?
    ensures var a := Backup.ChunksOf(doc);
            var b := Backup.ChunksOf(Backup.ParseBackup(doc).value);
            && Backup.FilesOf(Backup.ParseBackup(doc).value) == Backup.FilesOf(doc)
            && |a| == |b|
            && forall i :: 0 <= i < |a| ==>
                 a[i].id == b[i].id && SameSlot(a[i].val, b[i].val) && Success(b[i].val) == Backup.RestoreChunk(a[i].val)
  {
    var a := Backup.ChunksOf(doc);
    var b := Backup.ChunksOf(Backup.ParseBackup(doc).value);
    forall i | 0 <= i < |a|
      ensures a[i].id == b[i].id && SameSlot(a[i].val, b[i].val) && Success(b[i].val) == Backup.RestoreChunk(a[i].val)
    {
      var restored := Backup.RestoreChunk(a[i].val).value;
      assert restored.(iv := a[i].val.iv, ciphertext := a[i].val.ciphertext) == a[i].val;
    }
  }

  /** Packing changes neither a chunk's key nor its `(fileId, chunkIndex)`. */
  lemma CanonicalShape(doc: Backup.BackupDoc)
    requires Backup.ParseBackupCanonical(doc).Success?
    ensures var a := Backup.ChunksOf(doc);
            var b := Backup.ChunksOf(Backup.ParseBackupCanonical(doc).value);
            && Backup.FilesOf(Backup.ParseBackupCanonical(doc).value) == Backup.FilesOf(doc)
            && |a| == |b|
            && forall i :: 0 <= i < |a| ==>
                 a[i].id == b[i].id && SameSlot(a[i].val, b[i].val) && Success(b[i].val) == Backup.OptimizeChunk(a[i].val)
  {
    var a := Backup.ChunksOf(doc);
    var b := Backup.ChunksOf(Backup.ParseBackupCanonical(doc).value);
    forall i | 0 <= i < |a|
      ensures a[i].id == b[i].id && SameSlot(a[i].val, b[i].val) && Success(b[i].val) == Backup.OptimizeChunk(a[i].val)
    {
      var packed := Backup.OptimizeChunk(a[i].val).value;
      assert packed.(iv := a[i].val.iv, ciphertext := a[i].val.ciphertext) == a[i].val;
    }
  }

  /**
   * `importBackupData` as written: `parseBackup`, then the transaction. It
   * fails with `InvalidCharacterError` when a base64 field of a chunk does not
   * decode, and otherwise exactly when the transaction refuses the records; on
   * success the document's files are stored as listed and each of its chunks
   * as `restoreChunksFromBackup` turned it, under the listed key.
   */
  function ImportBackupData(s: Store, doc: Backup.BackupDoc): (r: Result<Store>)
    ensures r.Success? <==> && (forall i :: 0 <= i < |Backup.ChunksOf(doc)| ==> Backup.RestoreChunk(Backup.ChunksOf(doc)[i].val).Success?)
                            && FreshKeys(s.files.Keys, Backup.FilesOf(doc))
                            && Insertable(s.chunks, Backup.ChunksOf(doc))
    ensures r.Failure? ==> r.error == ConstraintError || r.error == InvalidCharacterError
    ensures r.Failure? ==> (r.error == InvalidCharacterError <==> Backup.ParseBackup(doc).Failure?)
    ensures r.Success? ==> Added(s.files, r.value.files, Backup.FilesOf(doc))
    ensures r.Success? ==> Added(s.chunks, r.value.chunks, Backup.ChunksOf(doc))
    ensures r.Success? ==> forall i :: 0 <= i < |Backup.FilesOf(doc)| ==>
              r.value.files[Backup.FilesOf(doc)[i].id] == Backup.FilesOf(doc)[i].val
    ensures r.Success? ==> forall i :: 0 <= i < |Backup.ChunksOf(doc)| ==>
              Success(r.value.chunks[Backup.ChunksOf(doc)[i].id]) == Backup.RestoreChunk(Backup.ChunksOf(doc)[i].val)
    ensures r.Success? && Valid(s) ==> Valid(r.value)
  {
    var parsed :- Backup.ParseBackup(doc);
    ParsedShape(doc);
    SameShape(s.chunks, Backup.ChunksOf(doc), Backup.ChunksOf(parsed));
    ImportRecords(s, parsed)
  }

  /**
   * The corrected import: the chunks are brought to base64-string form
   * instead. It fails with `InvalidCharacterError` when an array field of a
   * chunk cannot be packed, and otherwise exactly when the transaction
   * refuses the records; every chunk it adds is in the stored form.
   */
  function ImportBackupCanonical(s: Store, doc: Backup.BackupDoc): (r: Result<Store>)
    ensures r.Success? <==> && (forall i :: 0 <= i < |Backup.ChunksOf(doc)| ==> Backup.OptimizeChunk(Backup.ChunksOf(doc)[i].val).Success?)
                            && FreshKeys(s.files.Keys, Backup.FilesOf(doc))
                            && Insertable(s.chunks, Backup.ChunksOf(doc))
    ensures r.Failure? ==> r.error == ConstraintError || r.error == InvalidCharacterError
    ensures r.Failure? ==> (r.error == InvalidCharacterError <==> Backup.ParseBackupCanonical(doc).Failure?)
    ensures r.Success? ==> Added(s.files, r.value.files, Backup.FilesOf(doc))
    ensures r.Success? ==> Added(s.chunks, r.value.chunks, Backup.ChunksOf(doc))
    ensures r.Success? ==> forall i :: 0 <= i < |Backup.FilesOf(doc)| ==>
              r.value.files[Backup.FilesOf(doc)[i].id] == Backup.FilesOf(doc)[i].val
    ensures r.Success? ==> forall i :: 0 <= i < |Backup.ChunksOf(doc)| ==>
              Success(r.value.chunks[Backup.ChunksOf(doc)[i].id]) == Backup.OptimizeChunk(Backup.ChunksOf(doc)[i].val)
    ensures r.Success? ==> forall id :: id in r.value.chunks && id !in s.chunks ==> Canonical(r.value.chunks[id])
    ensures r.Success? && Valid(s) ==> Valid(r.value)
  {
    var parsed :- Backup.ParseBackupCanonical(doc);
    CanonicalShape(doc);
    SameShape(s.chunks, Backup.ChunksOf(doc), Backup.ChunksOf(parsed));
    var r := ImportRecords(s, parsed);
    if r.Success? then
      NewRowsCanonical(s.chunks, r.value.chunks, Backup.ChunksOf(parsed));
      r
    else r
  }

  /** When every added row is in the stored form, so is every record the import added. */
  lemma NewRowsCanonical(before: map<nat, Chunk>, after: map<nat, Chunk>, rows: seq<Keyed<Chunk>>)
    requires Added(before, after, rows)
    requires forall i :: 0 <= i < |rows| ==> Canonical(rows[i].val) && after[rows[i].id] == rows[i].val
    ensures forall id :: id in after && id !in before ==> Canonical(after[id])
  {
    forall id | id in after && id !in before
      ensures Canonical(after[id])
    {
      var i :| 0 <= i < |rows| && rows[i].id == id;
    }
  }
  /**
   * The backup round trip, on the corrected import: exporting a store whose
   * chunks are in the form the application writes, clearing, and importing
   * the document gives back exactly the same file and chunk records.
   */
  lemma BackupRoundTrip(s: Store, now: string)
    requires Valid(s)
    requires forall id :: id in s.chunks ==> Canonical(s.chunks[id])
    ensures ExportBackupData(s, now).Success?
    ensures var r := ImportBackupCanonical(ClearAllData(s), ExportBackupData(s, now).value);
            r.Success? && r.value.files == s.files && r.value.chunks == s.chunks
  {
    var files := Rows(s.files);
    var chunks := Rows(s.chunks);
    var doc := Backup.BackupDoc(Backup.BACKUP_VERSION, now, Some(files), Some(chunks));
    assert ExportBackupData(s, now) == Success(doc);
    CanonicalRows(s.chunks, chunks);
    ImportOfCanonical(ClearAllData(s), doc);
    RestoreRows(s, ClearAllData(s), doc);
  }

  /**
   * The backup round trip as written: exporting a store whose chunks are in
   * the form the application writes, clearing, and importing the document
   * brings back every file record and every chunk key, but each chunk is
   * stored as `restoreChunksFromBackup` turned it: its base64 fields are now
   * arrays of bytes.
   */
  lemma BackupRoundTripAsWritten(s: Store, now: string)
    requires Valid(s)
    requires forall id :: id in s.chunks ==> Canonical(s.chunks[id]) && Backup.RestoreChunk(s.chunks[id]).Success?
    ensures ExportBackupData(s, now).Success?
    ensures var r := ImportBackupData(ClearAllData(s), ExportBackupData(s, now).value);
            && r.Success?
            && r.value.files == s.files
            && (forall id :: id in r.value.chunks <==> id in s.chunks)
            && (forall id :: id in s.chunks ==> Success(r.value.chunks[id]) == Backup.RestoreChunk(s.chunks[id]))
  {
    var doc := Backup.BackupDoc(Backup.BACKUP_VERSION, now, Some(Rows(s.files)), Some(Rows(s.chunks)));
    assert ExportBackupData(s, now) == Success(doc);
    RestoreRowsAsWritten(s, ClearAllData(s), doc);
  }

  /** Importing a store's own rows into an empty store, as written: keys and files kept, chunks restored. */
  lemma RestoreRowsAsWritten(s: Store, t: Store, doc: Backup.BackupDoc)
    requires Valid(s) && t.files == map[] && t.chunks == map[]
    requires doc.files == Some(Rows(s.files)) && doc.chunks == Some(Rows(s.chunks))
    requires forall id :: id in s.chunks ==> Backup.RestoreChunk(s.chunks[id]).Success?
    ensures ImportBackupData(t, doc).Success?
    ensures ImportBackupData(t, doc).value.files == s.files
    ensures forall id :: id in ImportBackupData(t, doc).value.chunks <==> id in s.chunks
    ensures forall id :: id in s.chunks ==> Success(ImportBackupData(t, doc).value.chunks[id]) == Backup.RestoreChunk(s.chunks[id])
  {
    AsWrittenAccepted(s, t, doc);
    var r := ImportBackupData(t, doc).value;
    var files := Backup.FilesOf(doc);
    var chunks := Backup.ChunksOf(doc);
    AddedToEmpty(t.files, r.files, files);
    AddedToEmpty(t.chunks, r.chunks, chunks);
    ListedFiles(s.files, r.files, files);
    ListedChunks(s.chunks, r.chunks, chunks);
  }

  lemma ListedChunks(m: map<nat, Chunk>, a: map<nat, Chunk>, rows: seq<Keyed<Chunk>>)
    requires rows == Rows(m)
    requires forall id :: id in a <==> HasKey(rows, id)
    requires forall i :: 0 <= i < |rows| ==> Success(a[rows[i].id]) == Backup.RestoreChunk(rows[i].val)
    ensures forall id :: id in a <==> id in m
    ensures forall id :: id in m ==> Success(a[id]) == Backup.RestoreChunk(m[id])
  {
    RestoredEntries(m, a, rows);
  }

  lemma ListedFiles(m: map<nat, FileMeta>, a: map<nat, FileMeta>, rows: seq<Keyed<FileMeta>>)
    requires rows == Rows(m)
    requires forall id :: id in a <==> HasKey(rows, id)
    requires forall i :: 0 <= i < |rows| ==> a[rows[i].id] == rows[i].val
    ensures a == m
  {
    assert forall i :: 0 <= i < |rows| ==> HasKey(rows, rows[i].id);
    SameEntries(a, m, rows);
  }

  /** Records added to an empty store are exactly the rows' keys. */
  lemma AddedToEmpty<T>(before: map<nat, T>, after: map<nat, T>, rows: seq<Keyed<T>>)
    requires before == map[] && Added(before, after, rows)
    ensures forall id :: id in after <==> HasKey(rows, id)
  {
  }

  /** The as-written import accepts a store's own rows into an empty store. */
  lemma AsWrittenAccepted(s: Store, t: Store, doc: Backup.BackupDoc)
    requires Valid(s) && t.files == map[] && t.chunks == map[]
    requires doc.files == Some(Rows(s.files)) && doc.chunks == Some(Rows(s.chunks))
    requires forall id :: id in s.chunks ==> Backup.RestoreChunk(s.chunks[id]).Success?
    ensures ImportBackupData(t, doc).Success?
  {
    var chunks := Rows(s.chunks);
    assert Backup.FilesOf(doc) == Rows(s.files) && Backup.ChunksOf(doc) == chunks;
    FilesIntoEmpty(s.files, t, Rows(s.files));
    ChunksIntoEmpty(s.chunks, t, chunks);
    RowsRestorable(s.chunks, chunks);
  }

  lemma RowsRestorable(m: map<nat, Chunk>, rows: seq<Keyed<Chunk>>)
    requires forall id :: id in m ==> Backup.RestoreChunk(m[id]).Success?
    requires forall i :: 0 <= i < |rows| ==> rows[i].id in m && m[rows[i].id] == rows[i].val
    ensures forall i :: 0 <= i < |rows| ==> Backup.RestoreChunk(rows[i].val).Success?
  {
  }

  /** A map holding exactly the rows' keys, each restored, is the rows' source map with every chunk restored. */
  lemma RestoredEntries(m: map<nat, Chunk>, a: map<nat, Chunk>, rows: seq<Keyed<Chunk>>)
    requires forall i :: 0 <= i < |rows| ==> rows[i].id in m && m[rows[i].id] == rows[i].val
    requires forall id :: id in m <==> HasKey(rows, id)
    requires forall id :: id in a <==> HasKey(rows, id)
    requires forall i :: 0 <= i < |rows| ==> Success(a[rows[i].id]) == Backup.RestoreChunk(rows[i].val)
    ensures forall id :: id in a <==> id in m
    ensures forall id :: id in m ==> Success(a[id]) == Backup.RestoreChunk(m[id])
  {
    forall id | id in m
      ensures Success(a[id]) == Backup.RestoreChunk(m[id])
    {
      var i :| 0 <= i < |rows| && rows[i].id == id;
    }
  }

  lemma CanonicalRows(m: map<nat, Chunk>, rows: seq<Keyed<Chunk>>)
    requires forall id :: id in m ==> Canonical(m[id])
    requires forall i :: 0 <= i < |rows| ==> rows[i].id in m && m[rows[i].id] == rows[i].val
    ensures forall i :: 0 <= i < |rows| ==> Canonical(rows[i].val)
  {
  }

  /** On a document already in the stored form, the corrected import is the bare transaction. */
  lemma ImportOfCanonical(t: Store, doc: Backup.BackupDoc)
    requires doc.chunks.Some? ==> forall i :: 0 <= i < |doc.chunks.value| ==> Canonical(doc.chunks.value[i].val)
    ensures ImportBackupCanonical(t, doc) == ImportRecords(t, doc)
  {
    assert Backup.ParseBackupCanonical(doc) == Success(doc);
  }

  /** Importing a store's own rows into an empty store rebuilds exactly its records. */
  lemma RestoreRows(s: Store, t: Store, doc: Backup.BackupDoc)
    requires Valid(s) && t.files == map[] && t.chunks == map[]
    requires doc.files == Some(Rows(s.files)) && doc.chunks == Some(Rows(s.chunks))
    ensures ImportRecords(t, doc).Success?
    ensures ImportRecords(t, doc).value.files == s.files
    ensures ImportRecords(t, doc).value.chunks == s.chunks
  {
    var files := Rows(s.files);
    var chunks := Rows(s.chunks);
    FilesIntoEmpty(s.files, t, files);
    var u := AddFiles(t, files).value;
    ChunksIntoEmpty(s.chunks, u, chunks);
    assert ImportRecords(t, doc) == AddChunks(u, chunks);
  }

  lemma FilesIntoEmpty(m: map<nat, FileMeta>, t: Store, rows: seq<Keyed<FileMeta>>)
    requires t.files == map[]
    requires rows == Rows(m)
    ensures AddFiles(t, rows).Success?
    ensures AddFiles(t, rows).value.files == m
    ensures AddFiles(t, rows).value.chunks == t.chunks
  {
    ListedFilesIntoEmpty(m, t, rows);
  }

  lemma ListedFilesIntoEmpty(m: map<nat, FileMeta>, t: Store, rows: seq<Keyed<FileMeta>>)
    requires t.files == map[]
    requires forall i, j :: 0 <= i < j < |rows| ==> rows[i].id < rows[j].id
    requires forall i :: 0 <= i < |rows| ==> rows[i].id in m && m[rows[i].id] == rows[i].val
    requires forall id :: id in m <==> HasKey(rows, id)
    ensures AddFiles(t, rows).Success?
    ensures AddFiles(t, rows).value.files == m
    ensures AddFiles(t, rows).value.chunks == t.chunks
  {
    assert FreshKeys(t.files.Keys, rows);
    var r := AddFiles(t, rows);
    assert r.Success?;
    SameEntries(r.value.files, m, rows);
  }

  lemma ChunksIntoEmpty(m: map<nat, Chunk>, t: Store, rows: seq<Keyed<Chunk>>)
    requires t.chunks == map[] && UniqueSlots(m)
    requires rows == Rows(m)
    ensures AddChunks(t, rows).Success?
    ensures AddChunks(t, rows).value.chunks == m
    ensures AddChunks(t, rows).value.files == t.files
  {
    ListedChunksIntoEmpty(m, t, rows);
  }

  lemma ListedChunksIntoEmpty(m: map<nat, Chunk>, t: Store, rows: seq<Keyed<Chunk>>)
    requires t.chunks == map[] && UniqueSlots(m)
    requires forall i, j :: 0 <= i < j < |rows| ==> rows[i].id < rows[j].id
    requires forall i :: 0 <= i < |rows| ==> rows[i].id in m && m[rows[i].id] == rows[i].val
    requires forall id :: id in m <==> HasKey(rows, id)
    ensures AddChunks(t, rows).Success?
    ensures AddChunks(t, rows).value.chunks == m
    ensures AddChunks(t, rows).value.files == t.files
  {
    DistinctSlots(m, rows);
    assert Insertable(t.chunks, rows);
    var r := AddChunks(t, rows);
    assert r.Success?;
    SameEntries(r.value.chunks, m, rows);
  }

  lemma DistinctSlots(m: map<nat, Chunk>, rows: seq<Keyed<Chunk>>)
    requires UniqueSlots(m)
    requires forall i, j :: 0 <= i < j < |rows| ==> rows[i].id < rows[j].id
    requires forall i :: 0 <= i < |rows| ==> rows[i].id in m && m[rows[i].id] == rows[i].val
    ensures forall i, j :: 0 <= i < j < |rows| ==> !SameSlot(rows[i].val, rows[j].val)
  {
    forall i, j | 0 <= i < j < |rows|
      ensures !SameSlot(rows[i].val, rows[j].val)
    {
      assert rows[i].id != rows[j].id;
    }
  }

  /** A map holding exactly the rows' keys, each with its row's value, is the map the rows came from. */
  lemma SameEntries<T>(a: map<nat, T>, m: map<nat, T>, rows: seq<Keyed<T>>)
    requires forall id :: id in a <==> HasKey(rows, id)
    requires forall i :: 0 <= i < |rows| ==> rows[i].id in a && a[rows[i].id] == rows[i].val
    requires forall i :: 0 <= i < |rows| ==> rows[i].id in m && m[rows[i].id] == rows[i].val
    requires forall id :: id in m <==> HasKey(rows, id)
    ensures a == m
  {
    forall id | id in m
      ensures id in a && a[id] == m[id]
    {
      var i :| 0 <= i < |rows| && rows[i].id == id;
    }
    assert a.Keys == m.Keys;
  }
}
