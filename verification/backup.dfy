/**
 * The backup codec: the per-chunk field transforms that recognise the format of
 * `iv` and `ciphertext` by the shape of the value (string or array), and the
 * versioned backup document. The document is a structured value; turning it
 * into JSON text and back is taken to be the identity.
 */
module Backup {
  import opened Outcomes
  import opened Bytes
  import opened Records
  import Base64

  const BACKUP_VERSION: int := 1

  /** `{version, exportedAt, files, chunks}`; `files` and `chunks` may be missing from a parsed document. */
  datatype BackupDoc = BackupDoc(
    version: int,
    exportedAt: string,
    files: Option<seq<Keyed<FileMeta>>>,
    chunks: Option<seq<Keyed<Chunk>>>)

  /** An array field can be packed when every element, taken modulo 2^16, is below 256. */
  predicate Packable(f: Field)
  {
    f.Arr? ==> forall i :: 0 <= i < |f.elems| ==> FromCharCode(f.elems[i]) < 0x100
  }

  /** An array field packs to base64 text; a string or a missing field is left alone. */
  function PackField(f: Field): (r: Result<Field>)
    ensures r.Success? <==> Packable(f)
    ensures r.Failure? ==> r.error == InvalidCharacterError
    ensures r.Success? ==> !r.value.Arr?
    ensures r.Success? && !f.Arr? ==> r.value == f
  {
    match f
    case Arr(a) =>
      var text :- Base64.Btoa(BinaryString(a));
      Success(Str(text))
    case _ => Success(f)
  }

  /** The file records a document lists; a missing list lists none. */
  function FilesOf(doc: BackupDoc): seq<Keyed<FileMeta>>
  {
    if doc.files.Some? then doc.files.value else []
  }

  /** The chunk records a document lists; a missing list lists none. */
  function ChunksOf(doc: BackupDoc): seq<Keyed<Chunk>>
  {
    if doc.chunks.Some? then doc.chunks.value else []
  }

  /** A string field unpacks to the array of its decoded bytes; anything else is left alone. */
  function UnpackField(f: Field): (r: Result<Field>)
    ensures r.Failure? ==> f.Str? && r.error == InvalidCharacterError
    ensures f.Str? ==> (r.Success? <==> Base64.Atob(f.text).Success?)
    ensures r.Success? && !f.Str? ==> r.value == f
    ensures r.Success? && f.Str? ==> r.value == Arr(Base64.Atob(f.text).value) && AllBytes(r.value.elems)
  {
    match f
    case Str(text) =>
      var bytes :- Base64.Atob(text);
      Success(Arr(bytes))
    case _ => Success(f)
  }

  /** Packing an array of bytes and unpacking it gives the same array back. */
  lemma UnpackPackField(f: Field)
    requires f.Arr? ==> AllBytes(f.elems)
    requires !f.Str?
    ensures PackField(f).Success?
    ensures UnpackField(PackField(f).value) == Success(f)
  {
    if f.Arr? {
      var a := f.elems;
      var units := BinaryString(a);
      assert Base64.Latin1Bytes(units) == a;
    }
  }

  /**
   * One step of `optimizeChunksForBackup`: a chunk whose `iv` and `ciphertext`
   * are both strings is returned as it is; otherwise each array-valued field is
   * packed to base64 and every other field is kept.
   */
  function OptimizeChunk(c: Chunk): (r: Result<Chunk>)
    ensures c.iv.Str? && c.ciphertext.Str? ==> r == Success(c)
    ensures r.Success? <==> Packable(c.iv) && Packable(c.ciphertext)
    ensures r.Success? ==> Canonical(r.value)
    ensures r.Success? ==> r.value.(iv := c.iv, ciphertext := c.ciphertext) == c
    ensures r.Success? && !c.iv.Arr? ==> r.value.iv == c.iv
    ensures r.Success? && !c.ciphertext.Arr? ==> r.value.ciphertext == c.ciphertext
    ensures r.Failure? ==> r.error == InvalidCharacterError
  {
    if c.iv.Str? && c.ciphertext.Str? then Success(c)
    else
      var iv :- PackField(c.iv);
      var ciphertext :- PackField(c.ciphertext);
      Success(c.(iv := iv, ciphertext := ciphertext))
  }

  /**
   * One step of `restoreChunksFromBackup`: a chunk whose `iv` and `ciphertext`
   * are both arrays is returned as it is; otherwise each string-valued field is
   * decoded to an array of bytes and every other field is kept.
   */
  function RestoreChunk(c: Chunk): (r: Result<Chunk>)
    ensures c.iv.Arr? && c.ciphertext.Arr? ==> r == Success(c)
    ensures r.Success? <==> && (c.iv.Str? ==> Base64.Atob(c.iv.text).Success?)
                            && (c.ciphertext.Str? ==> Base64.Atob(c.ciphertext.text).Success?)
    ensures r.Success? ==> r.value.(iv := c.iv, ciphertext := c.ciphertext) == c
    ensures r.Success? && !c.iv.Str? ==> r.value.iv == c.iv
    ensures r.Success? && !c.ciphertext.Str? ==> r.value.ciphertext == c.ciphertext
    ensures r.Success? && c.iv.Str? ==> r.value.iv == Arr(Base64.Atob(c.iv.text).value)
    ensures r.Success? && c.ciphertext.Str? ==> r.value.ciphertext == Arr(Base64.Atob(c.ciphertext.text).value)
    ensures r.Failure? ==> r.error == InvalidCharacterError
  {
    if c.iv.Arr? && c.ciphertext.Arr? then Success(c)
    else
      var iv :- UnpackField(c.iv);
      var ciphertext :- UnpackField(c.ciphertext);
      Success(c.(iv := iv, ciphertext := ciphertext))
  }

  /** `iv` and `ciphertext` are byte arrays or missing: the legacy form the transforms invert. */
  predicate ArrayForm(c: Chunk)
  {
    && !c.iv.Str? && !c.ciphertext.Str?
    && (c.iv.Arr? ==> AllBytes(c.iv.elems))
    && (c.ciphertext.Arr? ==> AllBytes(c.ciphertext.elems))
  }

  /** Restoring an optimised chunk gives back its byte arrays and every other field. */
  lemma RestoreOptimizeChunk(c: Chunk)
    requires ArrayForm(c)
    ensures OptimizeChunk(c).Success?
    ensures RestoreChunk(OptimizeChunk(c).value) == Success(c)
  {
    UnpackPackField(c.iv);
    UnpackPackField(c.ciphertext);
  }

  /** `optimizeChunksForBackup`: the step applied to every chunk in order; one failure fails all. */
  function OptimizeChunks(rows: seq<Keyed<Chunk>>): (r: Result<seq<Keyed<Chunk>>>)
    ensures r.Success? <==> forall i :: 0 <= i < |rows| ==> OptimizeChunk(rows[i].val).Success?
    ensures r.Success? ==> |r.value| == |rows|
    ensures r.Success? ==> forall i :: 0 <= i < |rows| ==>
              r.value[i].id == rows[i].id && Success(r.value[i].val) == OptimizeChunk(rows[i].val)
    ensures r.Failure? ==> r.error == InvalidCharacterError
  {
    if |rows| == 0 then Success([])
    else
      var head :- OptimizeChunk(rows[0].val);
      var tail :- OptimizeChunks(rows[1..]);
      Success([Keyed(rows[0].id, head)] + tail)
  }

  /** `restoreChunksFromBackup`: the step applied to every chunk in order; one failure fails all. */
  function RestoreChunks(rows: seq<Keyed<Chunk>>): (r: Result<seq<Keyed<Chunk>>>)
    ensures r.Success? <==> forall i :: 0 <= i < |rows| ==> RestoreChunk(rows[i].val).Success?
    ensures r.Success? ==> |r.value| == |rows|
    ensures r.Success? ==> forall i :: 0 <= i < |rows| ==>
              r.value[i].id == rows[i].id && Success(r.value[i].val) == RestoreChunk(rows[i].val)
    ensures r.Failure? ==> r.error == InvalidCharacterError
  {
    if |rows| == 0 then Success([])
    else
      var head :- RestoreChunk(rows[0].val);
      var tail :- RestoreChunks(rows[1..]);
      Success([Keyed(rows[0].id, head)] + tail)
  }

  /** Over a whole list: restoring the optimised list gives the original list back. */
  lemma RestoreOptimizeChunks(rows: seq<Keyed<Chunk>>)
    requires forall i :: 0 <= i < |rows| ==> ArrayForm(rows[i].val)
    ensures OptimizeChunks(rows).Success?
    ensures RestoreChunks(OptimizeChunks(rows).value) == Success(rows)
  {
    forall i | 0 <= i < |rows|
      ensures OptimizeChunk(rows[i].val).Success?
    {
      RestoreOptimizeChunk(rows[i].val);
    }
    var packed := OptimizeChunks(rows).value;
    forall i | 0 <= i < |rows|
      ensures RestoreChunk(packed[i].val) == Success(rows[i].val)
    {
      RestoreOptimizeChunk(rows[i].val);
    }
    var back := RestoreChunks(packed);
    assert back.Success?;
    assert back.value == rows;
  }

  /**
   * `createEfficientBackup` at time `now`: version 1, the file records as
   * given, the optimised chunks in input order.
   */
  function CreateEfficientBackup(files: seq<Keyed<FileMeta>>, chunks: seq<Keyed<Chunk>>, now: string): (r: Result<BackupDoc>)
    ensures r.Success? <==> OptimizeChunks(chunks).Success?
    ensures r.Success? ==> && r.value.version == BACKUP_VERSION
                           && r.value.exportedAt == now
                           && r.value.files == Some(files)
                           && r.value.chunks == Some(OptimizeChunks(chunks).value)
  {
    var optimized :- OptimizeChunks(chunks);
    Success(BackupDoc(BACKUP_VERSION, now, Some(files), Some(optimized)))
  }

  /**
   * `parseBackup` after `JSON.parse`: the chunks are restored when present,
   * and nothing else in the document is touched. The version is not checked.
   */
  function ParseBackup(doc: BackupDoc): (r: Result<BackupDoc>)
    ensures doc.chunks.None? ==> r == Success(doc)
    ensures r.Success? <==> forall i :: 0 <= i < |ChunksOf(doc)| ==> RestoreChunk(ChunksOf(doc)[i].val).Success?
    ensures r.Failure? ==> r.error == InvalidCharacterError
    ensures r.Success? ==> r.value.(chunks := doc.chunks) == doc
    ensures r.Success? && doc.chunks.Some? ==>
              r.value.chunks.Some? && Success(r.value.chunks.value) == RestoreChunks(doc.chunks.value)
  {
    match doc.chunks
    case None => Success(doc)
    case Some(rows) =>
      assert ChunksOf(doc) == rows;
      var restored :- RestoreChunks(rows);
      Success(doc.(chunks := Some(restored)))
  }

  /**
   * The corrected parse: chunks are brought to the form the store keeps, base64
   * strings, instead of being turned into arrays. A document whose chunks are
   * already in that form is returned unchanged.
   */
  function ParseBackupCanonical(doc: BackupDoc): (r: Result<BackupDoc>)
    ensures doc.chunks.None? ==> r == Success(doc)
    ensures r.Success? <==> forall i :: 0 <= i < |ChunksOf(doc)| ==> OptimizeChunk(ChunksOf(doc)[i].val).Success?
    ensures r.Failure? ==> r.error == InvalidCharacterError
    ensures r.Success? && doc.chunks.Some? ==>
              r.value.chunks.Some? && Success(r.value.chunks.value) == OptimizeChunks(doc.chunks.value)
    ensures (doc.chunks.Some? ==> forall i :: 0 <= i < |doc.chunks.value| ==> Canonical(doc.chunks.value[i].val))
            ==> r == Success(doc)
    ensures r.Success? ==> r.value.(chunks := doc.chunks) == doc
    ensures r.Success? && r.value.chunks.Some? ==>
              forall i :: 0 <= i < |r.value.chunks.value| ==> Canonical(r.value.chunks.value[i].val)
  {
    match doc.chunks
    case None => Success(doc)
    case Some(rows) =>
      assert ChunksOf(doc) == rows;
      var canonical :- OptimizeChunks(rows);
      assert (forall i :: 0 <= i < |rows| ==> Canonical(rows[i].val)) ==> canonical == rows;
      Success(doc.(chunks := Some(canonical)))
  }
}
