/** The two record kinds of the store, as the upload path writes them. */
module Records {
  import opened Outcomes
  import opened Bytes

  /** One entry of the `files` store, without its key. */
  datatype FileMeta = FileMeta(
    name: string,
    size: nat,           // the original length in bytes
    mimeType: string,
    createdAt: string,   // an ISO-8601 timestamp
    totalChunks: nat,
    encrypted: bool)

  /**
   * One entry of the `chunks` store, without its key. An encrypted chunk holds
   * `iv` and `ciphertext` (base64 text); a plain chunk holds `data`, the block's
   * bytes as an array of numbers.
   */
  datatype Chunk = Chunk(
    fileId: nat,
    chunkIndex: nat,
    encrypted: bool,
    iv: Field,
    ciphertext: Field,
    data: Option<seq<int>>)

  /** A record with its primary key (the `id` key path of both stores). */
  datatype Keyed<T> = Keyed(id: nat, val: T)

  /** The form every chunk the application writes has: no array-valued `iv` or `ciphertext`. */
  predicate Canonical(c: Chunk)
  {
    !c.iv.Arr? && !c.ciphertext.Arr?
  }
}
