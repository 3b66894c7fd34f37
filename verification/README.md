# Veltrian chunk store in Dafny

Veltrian keeps files in the browser. A file is cut into 1 MiB blocks, each block is
optionally sealed with AES-GCM under a passphrase-derived key, and the file record
and the block records go into two IndexedDB object stores. Those stores can be
exported to a versioned backup document and imported from one, and a migration
re-encrypts files that were stored in the clear. This project models that core:

- `outcomes.dfy` (`Outcomes`): `Option`, `Result` and the exceptions the code can throw.
- `bytes.dfy` (`Bytes`): bytes and UTF-16 code units, plus the JavaScript conversions the code relies on: `String.fromCharCode`, `new Uint8Array(array)` and `String(array)`. `Flatten` lays blocks end to end, as `new Blob(parts)` does.
- `base64.dfy` (`Base64`): `btoa`, the encoding of section 4 of RFC 4648, and `atob`, the forgiving-base64 decode of the HTML standard.
- `crypto.dfy` (`Crypto`): `chunkFile`, `reconstructFile`, `deriveKey` and the base64 packing of `encryptChunk` and `decryptChunk`.
  - AES-GCM is a pair of function values (`seal`, `open`), with the predicate `Ideal` naming what an authenticated cipher promises.
  - PBKDF2 is a function value.
- `records.dfy` (`Records`): the file and chunk records. A chunk's `iv` and `ciphertext` are missing, a string, or an array of numbers.
- `backup.dfy` (`Backup`): the shape-driven transforms `optimizeChunksForBackup` and `restoreChunksFromBackup`, `createEfficientBackup` and `parseBackup`.
- `listing.dfy` (`Listing`): `getAll` in key order, the `fileId` index lookup, and the sort by `chunkIndex`.
- `db.dfy` (`Db`): the two stores as maps with their key generators and the unique `(fileId, chunkIndex)` index, one function per exported function of `db.js`, and backup export and import.
- `fileops.dfy` (`FileOps`): the `useFileOperations` hook. It covers:
  - the `loadFiles` filter;
  - upload, with its metadata and chunk records;
  - the three-way chunk decode of preview and export;
  - the copy-then-delete re-encryption migration.

A failing IndexedDB transaction leaves the state it started from, so a `Failure` result carries no store.

Three behaviours of the code that are easy to assume otherwise, and that the model follows:

- A `put` without a key that collides on `(fileId, chunkIndex)` is a `ConstraintError` (`Db.SaveChunk`). It does not overwrite the chunk already in that slot.
- `importBackupData` does not check the document's version.
- One failing `add` aborts the whole import transaction, so no record of it stays.

## Model

| member | source | states |
|---|---|---|
| Bytes.FlattenSlice | src/utils/crypto.js:156-158 | block `i` sits intact at its offset in the concatenation; nothing is reordered or dropped |
| Bytes.FlattenConcat | src/utils/crypto.js:156-158 | concatenating two lists of blocks concatenates their contents |
| Bytes.FlattenLength | src/utils/crypto.js:156-158 | the blob's size is the sum of the block sizes |
| Bytes.BinaryString | src/utils/backup.js:13-15 | `fromCharCode` keeps every element below 2^16 as it is, one code unit per element |
| Bytes.Uint8Array | src/app/hooks/useFileOperations.js:301-303 | `new Uint8Array` keeps every element that is already a byte, one byte per element |
| Bytes.JoinNumbers | src/utils/crypto.js:101 | an array of two or more numbers converts to a string containing a comma |
| Base64.Encode | src/utils/backup.js:16 | the output length is 4 * ceil(n / 3), always a multiple of four |
| Base64.Btoa | src/utils/backup.js:16 | `btoa` succeeds exactly when every code unit fits in a byte, and then `atob` returns those bytes; otherwise it throws InvalidCharacterError |
| Base64.ToBase64 | src/utils/backup.js:8-21 | `toBase64` never throws on bytes and `atob` inverts it |
| Base64.Atob | src/utils/backup.js:28-41 | `atob` followed by `charCodeAt` at every position: a failure is InvalidCharacterError; a success means every character is in the alphabet, ASCII white space or `=`; text made only of alphabet characters decodes exactly when its length is not one more than a multiple of four; the byte count is three quarters of the length left after white space and padding are removed, rounded down. `Base64.RoundTrip` fixes the content on encoded input and `Base64.ForeignCharacterRejected` the rejection |
| Base64.RoundTrip | src/utils/backup.js:28-41 | `fromBase64(toBase64(d)) == d`: forgiving decode of the RFC 4648 encoding is the identity |
| Base64.DecodeEncodeUnpadded | src/utils/backup.js:28-41 | decoding the unpadded encoding gives every byte back |
| Base64.StripPaddingOfEncode | src/utils/backup.js:28-41 | removing the `=` padding of an encoding leaves exactly the unpadded encoding |
| Base64.ForeignCharacterRejected | src/utils/crypto.js:101 | a string containing a character that is outside the alphabet and is neither whitespace nor `=` makes `atob` throw InvalidCharacterError |
| Crypto.DeriveKey | src/app/app/page.jsx:75-81 | a passphrase that is all white space is refused with a validation error; any other passphrase goes untrimmed to PBKDF2 with the fixed salt and 100000 iterations |
| Crypto.TrimStart | src/app/app/page.jsx:75 | removes exactly the leading JavaScript white space, and is empty iff the input is all white space |
| Crypto.TrimEnd | src/app/app/page.jsx:75 | removes exactly the trailing JavaScript white space, and is empty iff the input is all white space |
| Crypto.ChunkFile | src/utils/crypto.js:136-148 | the blocks concatenate to the input; there are ceil(size / 1 MiB) of them (none for an empty file); each is non-empty and at most 1 MiB; all but the last are exactly 1 MiB; block i is the input from byte i MiB up to the next MiB boundary or the end |
| Crypto.SplitIsBlocks | src/utils/crypto.js:136-148 | any split into full 1 MiB blocks with a non-empty last block is the split by byte offset: block i starts at byte i MiB |
| Crypto.ReconstructFile | src/utils/crypto.js:156-158 | the blob is the blocks in order: its size is their total and each block appears intact at its offset; the type is the requested MIME type as `Blob` records it |
| Crypto.BlobTypeKeepsPlainType | src/utils/crypto.js:157 | a printable lower-case MIME type is recorded unchanged |
| Crypto.EncryptChunk | src/utils/crypto.js:55-89 | both results are base64 (the IV is 16 characters) and decode to exactly the 12-byte IV and the AES-GCM output |
| Crypto.DecryptChunk | src/utils/crypto.js:98-129 | a failure is InvalidCharacterError (from `atob`) or OperationError (from AES-GCM); under an ideal cipher a success means the ciphertext is the seal of the returned plaintext under this key and the decoded 12-byte IV |
| Crypto.EncryptDecrypt | src/utils/crypto.js:98-129 | decrypting what `encryptChunk` produced under the same key gives the plaintext back |
| Crypto.WrongKeyRejected | src/utils/crypto.js:125-128 | decrypting with any other key throws OperationError and yields no plaintext |
| Backup.PackField | src/utils/backup.js:63-79 | an array is packed to base64 text exactly when every element taken modulo 2^16 is below 256, and otherwise `btoa` throws; a string or missing field is left alone |
| Backup.UnpackField | src/utils/backup.js:110-130 | a string is unpacked exactly when `atob` accepts it, to the array of the decoded bytes; otherwise InvalidCharacterError; an array or missing field is left alone |
| Backup.UnpackPackField | src/utils/backup.js:63-78 | unpacking a packed byte array gives the same array back |
| Backup.OptimizeChunk | src/utils/backup.js:50-85 | a chunk with two string fields is returned unchanged; otherwise only the array fields change, to strings, and every other field is kept; it fails exactly when a field cannot be packed |
| Backup.RestoreChunk | src/utils/backup.js:100-136 | succeeds exactly when every string field is accepted by `atob`; each string field becomes the array of its decoded bytes, and the other field and every other member of the record are kept; a chunk with two array fields is returned unchanged; a failure is InvalidCharacterError |
| Backup.RestoreOptimizeChunk | src/utils/backup.js:63-78 | restoring an optimised chunk with byte-array fields gives the chunk back |
| Backup.OptimizeChunks | src/utils/backup.js:48-91 | a `map`: same length and order, each element optimised, and one failure fails all |
| Backup.RestoreChunks | src/utils/backup.js:98-142 | a `map`: same length and order, each element restored, and one failure fails all |
| Backup.RestoreOptimizeChunks | src/utils/backup.js:48-142 | restoring the optimised list gives the original list back |
| Backup.CreateEfficientBackup | src/utils/backup.js:150-170 | the document has version 1, the given time, the file records unchanged and the optimised chunks in input order |
| Backup.ParseBackup | src/utils/backup.js:177-192 | a document without chunks is returned as it is; otherwise it succeeds exactly when every chunk restores, the chunk list becomes the element-wise restore and nothing else in the document changes; a failure is InvalidCharacterError |
| Backup.ParseBackupCanonical | src/utils/backup.js:177-192 | the corrected parse: it succeeds exactly when every chunk can be packed, the chunks end up in the stored string form, a document already in that form is returned unchanged, and nothing else changes |
| Listing.SortedKeys | src/utils/db.js:115 | `getAll` lists every key exactly once, in increasing order |
| Listing.Rows | src/utils/db.js:110-120 | the listing of a store holds exactly its records, in increasing key order, one row per key |
| Listing.OfFile | src/utils/db.js:149-150 | the `fileId` index returns exactly the rows of that file |
| Listing.InsertByIndex | src/utils/db.js:154 | inserting keeps the list sorted by `chunkIndex` and adds exactly that one row |
| Listing.SortByIndex | src/utils/db.js:154 | the sort returns a permutation of its input, sorted by `chunkIndex` |
| Listing.StrictlySortedUnique | src/utils/db.js:154 | two lists with the same members, both strictly sorted by `chunkIndex`, are equal, so the sort's result does not depend on the input order |
| Listing.ContiguousIndices | src/app/hooks/useFileOperations.js:218-249 | a strictly sorted listing whose indices are all below n and cover 0..n-1 has exactly n rows, with row i at index i |
| Db.Bump | src/utils/db.js:31-34 | the key generator moves past an explicit key at or above it and is otherwise unchanged |
| Db.EmptyIsSound | src/utils/db.js:13-52 | a freshly created database meets every store invariant |
| Db.SaveFileMetadata | src/utils/db.js:59-69 | `add` stores the record under a fresh id that is not in use; chunks are untouched; the invariants are kept |
| Db.UpdateFileMetadata | src/utils/db.js:76-86 | `put` stores the record under its own id, replacing any previous one; nothing else changes |
| Db.SaveChunk | src/utils/db.js:93-104 | `put` with a key replaces that record; without one it uses a fresh key; a record whose `(fileId, chunkIndex)` is taken by another record is a ConstraintError; the files store is untouched |
| Db.SaveChunkReplaces | src/utils/db.js:98-99 | a record carrying an existing id and its own slot replaces the stored record and adds none |
| Db.SaveChunkInserts | src/utils/db.js:93-104 | a record whose slot is free is stored under a new key |
| Db.GetAllFiles | src/utils/db.js:110-120 | every file record, exactly once, in increasing id order |
| Db.GetFileMetadata | src/utils/db.js:127-137 | the record of the id, or nothing when the id is unknown |
| Db.GetFileChunks | src/utils/db.js:144-159 | exactly the chunks of the file, each once, sorted by `chunkIndex`, strictly when the index is unique; empty for an unknown file |
| Db.GetFileChunksDetermined | src/utils/db.js:144-159 | the result depends only on the file's chunks and not on the rest of the store or on insertion order |
| Db.DeleteFile | src/utils/db.js:166-195 | the file record and every chunk of the file are gone; every other file and chunk is unchanged; a missing id changes nothing |
| Db.DeleteFileListings | src/utils/db.js:166-195 | after the delete the file lists no chunks and every other file lists the same chunks |
| Db.ClearAllData | src/utils/db.js:201-215 | both stores are empty; the key generators are not reset |
| Db.ClearKeepsGenerator | src/utils/db.js:201-215 | after a clear the next file still gets the next unused id, not 1 |
| Db.ExportBackupData | src/utils/db.js:221-241 | succeeds exactly when every stored chunk can be packed; the document has version 1, the given time and every file in id order; its chunk rows are in increasing key order, one per stored chunk, each the packed form of the chunk stored under that key; with string fields it carries the chunk records unchanged |
| Db.AddFiles | src/utils/db.js:264-267 | each `add` keeps its id; the stores gain exactly the listed files and keep the old ones; a taken id aborts with ConstraintError |
| Db.AddChunks | src/utils/db.js:269-272 | each `add` keeps its id; the chunks store gains exactly the listed chunks; a taken id or slot aborts with ConstraintError |
| Db.InsertableStep | src/utils/db.js:269-272 | a list of chunks can be added exactly when its first can be added and then the rest |
| Db.ImportRecords | src/utils/db.js:255-276 | succeeds exactly when no file id of the document is taken and its chunks can be added one after another, and otherwise fails with ConstraintError; on success the keys are the old keys plus the document's, every old record is kept, every document record is stored under its own id, and the store invariants hold; a document with neither list changes nothing |
| Db.ImportBackupData | src/utils/db.js:248-281 | succeeds exactly when every chunk restores and the records can be added; the error is InvalidCharacterError exactly when the parse fails, and otherwise ConstraintError; on success the keys are the old keys plus the document's, old records are kept, files are stored as given and every chunk in its restored array form |
| Db.ImportBackupCanonical | src/utils/db.js:248-281 | the corrected import: the same success condition and frame as the import as written, but every imported chunk is stored in its packed string form |
| Db.BackupRoundTrip | src/utils/db.js:221-281 | exporting a store and importing the document into a cleared store gives the same files and chunks |
| Db.BackupRoundTripAsWritten | src/utils/db.js:221-281 | as written, exporting a store and importing the document into a cleared store keeps the files and the chunk keys, but each chunk comes back in its restored array form rather than as it was stored |
| Db.RestoreRows | src/utils/db.js:255-276 | adding the listings of a valid store to empty stores rebuilds both maps |
| FileOps.Unencrypted | src/app/hooks/useFileOperations.js:28 | keeps exactly the rows with `encrypted === false` |
| FileOps.UnencryptedOrdered | src/app/hooks/useFileOperations.js:28 | the filter keeps the increasing id order |
| FileOps.LoadFiles | src/app/hooks/useFileOperations.js:19-38 | without the flag, all files; with it, exactly the unencrypted ones; always true records in id order |
| FileOps.DecodeChunk | src/app/hooks/useFileOperations.js:291-306 | "Invalid chunk data" exactly when an encrypted chunk has no key or a plain chunk has no data; plain data is used as bytes; a decrypted block is what was sealed under the key |
| FileOps.DecodeChunks | src/app/hooks/useFileOperations.js:291-309 | succeeds exactly when every chunk decodes, giving one block per chunk in order; a failure is the error of some chunk of the file |
| FileOps.OpenFile | src/app/hooks/useFileOperations.js:280-328 | the preview blob is the decoded blocks of the file's sorted chunks, end to end, typed with its MIME type |
| FileOps.ExportFile | src/app/hooks/useFileOperations.js:349-398 | the export is the same blob as the preview, saved under the file's name, and fails exactly when the preview does |
| FileOps.BlockRecord | src/app/hooks/useFileOperations.js:218-249 | with a key, an encrypted record with string `iv` and `ciphertext`; without one, a plain record with the block as `data` |
| FileOps.BlockRecordDecodes | src/app/hooks/useFileOperations.js:218-306 | the decode rule reads back exactly the block that upload wrote |
| FileOps.StreamPositionsApart | src/utils/crypto.js:58 | in a run of items drawing IVs one after another, each block of item i is drawn at or after the start and before every IV of a later item |
| FileOps.DistinctPositions | src/utils/crypto.js:58 | two different blocks of such a run are never drawn at the same stream position |
| FileOps.RestoredChunkUndecryptable | src/utils/backup.js:98-142 | an encrypted chunk as upload stores it decodes, but once restored from a backup it throws InvalidCharacterError |
| FileOps.RestoredChunkRejected | src/app/hooks/useFileOperations.js:291-306 | an encrypted chunk with a base64 IV of two or more bytes fails to decode with InvalidCharacterError once it is restored from a backup |
| FileOps.UnreadableChunk | src/app/hooks/useFileOperations.js:280-328 | one chunk of a file that fails to decode makes opening the whole file fail |
| FileOps.RestoredFileUnreadable | src/utils/db.js:221-281 | as written, after export, clear and import, a file with an encrypted chunk can no longer be opened |
| FileOps.SaveBlocks | src/app/hooks/useFileOperations.js:218-249 | the chunk loop writes only records of block i at index i, block i sealed with the IV drawn i-th from the stream position it starts at; with a key it uses one IV per block written, and every new index is below the number used; it keeps every earlier chunk and the files store, stops at the first constraint failure, and on a store with no chunks of the file writes every block |
| FileOps.SaveNext | src/app/hooks/useFileOperations.js:223-249 | one pass saves the record of block i, or fails only when the slot is taken |
| FileOps.WrittenStep | src/app/hooks/useFileOperations.js:249 | a saved block extends what the loop has written by one index |
| FileOps.BlocksReadBack | src/app/hooks/useFileOperations.js:218-249 | what the loop wrote lists one chunk per block, in order, decoding to exactly the blocks |
| FileOps.UploadMeta | src/app/hooks/useFileOperations.js:206-213 | `totalChunks` is the block count, `encrypted` is whether there is a key, and an empty MIME type becomes `application/octet-stream` |
| FileOps.UploadFile | src/app/hooks/useFileOperations.js:202-261 | with a key it draws exactly one IV per block, and none without; every new chunk is the record of some block i at index i, sealed with the IV drawn i-th; on a sound store the file gets a new id with its metadata, no existing record changes, new chunks belong to the new file, the invariants hold, and the file reads back as its bytes |
| FileOps.UploadBlocks | src/app/hooks/useFileOperations.js:215-249 | the chunk loop after the metadata record: one IV per block when there is a key, every new chunk is the record of its block sealed with its IV, and on a sound store the file reads back as its bytes |
| FileOps.UploadSound | src/app/hooks/useFileOperations.js:215-249 | a saved record plus its written blocks keep the store sound and without orphans, and the file reads back as its bytes |
| FileOps.UploadFiles | src/app/hooks/useFileOperations.js:176-278 | on a sound store every file is uploaded, each under its own increasing new id, with exactly the record an upload of it makes, and each reads back as its bytes (under an ideal cipher when there is a key); no existing record changes; the only error is a constraint failure, which stops the upload early. IVs: a complete upload with a key draws exactly one per block of every file, and none without; file i is sealed from stream position `UploadStart(i)`, where the files before it stopped drawing, so `FileOps.UploadPositionsDistinct` gives every block of the upload its own IV position |
| FileOps.UploadNext | src/app/hooks/useFileOperations.js:201-262 | one pass of the file loop keeps the loop state and fails only on a store that is not sound; it starts drawing where the files before it stopped, stops after its own blocks, and its chunks are sealed from that start |
| FileOps.SealingStep | src/app/hooks/useFileOperations.js:215-249 | one more upload, sealed from the position where the files before it stopped, keeps every earlier file sealed from its own start |
| FileOps.UploadPositionsDistinct | src/utils/crypto.js:55-58 | with a key, no two blocks of one upload, of one file or of two files, are sealed with the IV of the same stream position |
| FileOps.UploadedAsStep | src/app/hooks/useFileOperations.js:201-262 | one more upload keeps the records of the earlier uploads and what they read back as, and adds the new file above them |
| FileOps.PlainBlocks | src/app/hooks/useFileOperations.js:79-86 | the plain chunks' data, in order; with only plain chunks, one block per chunk |
| FileOps.MigratedMeta | src/app/hooks/useFileOperations.js:108-115 | the new record keeps name, size, type and creation time, is encrypted, and counts the re-chunked blocks |
| FileOps.ReplaceFile | src/app/hooks/useFileOperations.js:117-147 | the new record and its chunks are written first and the old file is deleted last; a failure leaves the old record in place; on a sound store it succeeds, the new id is above every existing id, every other file keeps exactly its chunks, and the new file reads back as the blocks; a success draws exactly one IV per block, every new chunk is the record of block i sealed with the IV drawn i-th from `drawn`, and on a sound store every chunk of the new file is new |
| FileOps.MigrateFile | src/app/hooks/useFileOperations.js:72-151 | one file is re-chunked and re-encrypted into a new record; a failure keeps the old file and its chunks; on a sound store it succeeds: the old record is gone, the new one has an id above every existing id and the migrated record with the re-chunked block count, every other file keeps its chunks, and under an ideal cipher the new file reads back as the old file's bytes. A success moves the stream on by exactly the block count of the bytes read back, and every chunk of the new file is a block of them sealed with the IV at `drawn` plus its index |
| FileOps.ReadsBackAfterDelete | src/app/hooks/useFileOperations.js:147 | deleting another file does not change what a file reads back as |
| FileOps.ReadsBackKept | src/app/hooks/useFileOperations.js:117-147 | a file whose chunks are untouched reads back as the same bytes |
| FileOps.UnencryptedListed | src/app/hooks/useFileOperations.js:57-67 | the migration's list holds exactly the unencrypted files in id order, and is empty exactly when every file is encrypted |
| FileOps.ReEncryptUnencryptedFiles | src/app/hooks/useFileOperations.js:41-174 | without a key, or with no unencrypted file, nothing changes; the count is the number of listed files whose old record is gone; encrypted files are kept; on a sound store every file ends up encrypted and the count is the number that were not; every formerly unencrypted file is gone and has an encrypted copy, the j-th listed one sealed from the stream position where the rows before it stopped and, under an ideal cipher, reading back as its old bytes; the stream moves on by the blocks of all of them |
| FileOps.MigrateAll | src/app/hooks/useFileOperations.js:69-159 | per-file failures are isolated and the loop goes on; the count equals the files that completed every step; on a sound store every listed file is done, the stream moves on by the blocks of all rows, and row j has an encrypted copy sealed from `StartOf(drawn, counts, j)` that under an ideal cipher reads back as its old bytes |
| FileOps.MigrateNext | src/app/hooks/useFileOperations.js:71-158 | one pass keeps the loop state: the count is the number of listed files whose old record is gone, the files not reached are still there, every file reached has its copy, and on a sound store the file drew its IVs from the position where the one before stopped |
| FileOps.MigrationKeeps | src/app/hooks/useFileOperations.js:71-158 | what the migration of one file promises, its record change, its draw count and its sealing, extends the loop state by one file |
| FileOps.MigrationKeepsSound | src/app/hooks/useFileOperations.js:117-150 | on a sound store the migration of the next file completes, and the loop state moves on by one file: one more done, its copy, and its stream position |
| FileOps.CopiedStep | src/app/hooks/useFileOperations.js:117-147 | migrating the next file adds its encrypted copy and keeps every copy made before, and the files not reached keep their chunks |
| FileOps.MigrationDone | src/app/hooks/useFileOperations.js:69-159 | the loop state after the last file gives the migration's count and encryption guarantees |
| FileOps.MigrationCopies | src/app/hooks/useFileOperations.js:69-159 | after the last file of a sound migration, the stream stopped at the start plus the blocks of every row, and each row has its copy sealed from `StartOf(first, counts, j)` |
| FileOps.MigrationPositionsDistinct | src/app/hooks/useFileOperations.js:121-132 | no two blocks the migration writes, of one row or of two rows, are sealed with the IV of the same stream position |
| FileOps.EveryUnencryptedCopied | src/app/hooks/useFileOperations.js:57-159 | with a copy for every listed file, every file that was unencrypted is gone and has its copy |
| FileOps.ProgressStep | src/app/hooks/useFileOperations.js:147-150 | after one file the count and the set of remaining files are still in step |
| FileOps.MigrationStep | src/app/hooks/useFileOperations.js:147-150 | deleting the i-th listed file, and only then, adds one to the number of listed files that are gone |

## Left out

- Randomness: `crypto.getRandomValues` is a stream of 12-byte IVs handed in as a parameter `random`, with a counter `drawn` of how many were used before. `FileOps.DrawnIv` names the IV at a position of that stream.
- AES-GCM and PBKDF2: these are function values. Their cryptographic strength is the hypothesis `Ideal` of the lemmas that need it, not a proof.
- Time: `new Date().toISOString()` is a string parameter `now`. One upload uses the same time for all of its files.
- The key: the migration's `encryptionKeyParam || encryptionKey` is a single optional key.
- JSON text: the backup document is a structured value, and `JSON.stringify`/`JSON.parse` are taken to be the identity. The `Blob` wrapping and `.text()` are left out.
- The IndexedDB open/upgrade callbacks are left out. Every exported function is an atomic state transition; the store shape `initDB` creates is the `Db.Store` datatype.
- React and DOM work is left out, because it is user interface and not store logic:
  - progress percentages and the pre-count of blocks;
  - `setTimeout` yields and success-message timers;
  - `URL.createObjectURL` and the download anchor.
- `handleDelete`, `handleExportBackup` and `handleImportBackup` are thin wrappers around the `window.confirm` dialog, `Db.DeleteFile`, `Db.ExportBackupData` and `Db.ImportBackupData` plus messages. Only the calls are modelled.
- Logging and the outer `catch` blocks that turn an exception into a message are left out; errors are `Failure` values.
- `FileOps.UploadFiles`: the counter `uploadedCount` only feeds a message, so it is not returned. The list of new ids stands for it.
- `Crypto.DeriveKey`: the whitespace check comes from the setup form in `src/app/app/page.jsx`. It is joined to `deriveKey`, which itself accepts any string.
- `Records.FileMeta`: `encrypted` is a boolean. The code reads it with `=== false` and `!!`, so a record without the field would be listed by neither filter as unencrypted and skipped by the migration. Such records are not represented, and neither are chunks without `encrypted`: every record the application writes sets the field, and an imported document is taken to carry it.
- `Db.ImportBackupData`: an imported document is taken to be what export writes. Every row has a natural-number `id`, keys are never strings or fractions, and the `iv` and `ciphertext` arrays hold integers. Rows without an `id`, which `add` would key by the store's generator (src/utils/db.js:264-271), are not represented.
- `FileOps.MigrateFile`: the `File` wrapper and its `lastModified` are not modelled, since re-chunking reads only the bytes.
- `Crypto.BlobTypeKeepsPlainType`: the `Blob` type rule is stated only for the printable case. The lowering of other types is in the definition, not in a contract.

## Findings

| source | as written | input that shows it | evidently intended | confidence | as-written member | corrected member |
|---|---|---|---|---|---|---|
| src/utils/backup.js:98-142 | `parseBackup` turns every base64 `iv` and `ciphertext` string into an array of numbers before `importBackupData` stores it (src/utils/db.js:253-272). `decryptChunk` then calls `atob` on the array's string form `"1,2,…"`, which throws. | Upload any file with a key, export a backup, clear the store and import it. Every encrypted chunk, e.g. one with a 12-byte IV, fails to decode with InvalidCharacterError. | Import should keep chunks in the form the application writes (base64 strings), so that export followed by import restores exactly the stored records. | not executed | FileOps.RestoredChunkUndecryptable, FileOps.RestoredFileUnreadable | Db.BackupRoundTrip |
