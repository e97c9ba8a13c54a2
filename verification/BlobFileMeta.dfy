/** What Titan keeps about one blob file. */
module BlobFileMeta {
  type FileNumber = nat
  type SeqNo = nat

  /**
   A user key, given by its rank in the order of the column family's comparator.  Any finite set of
   keys embeds in the integers, so nothing but the order is lost; the empty key has rank 0.
   */
  type Key = int

  const EMPTY_KEY: Key := 0

  datatype FileState = Init | Normal | PendingLSM | BeingGC | PendingGC | Obsolete | ToMerge

  /** The first six fields are persistent, the last two live in memory only. */
  datatype FileMeta = FileMeta(
    number: FileNumber,
    size: nat,
    entries: nat,
    level: nat,
    smallest: Key,
    largest: Key,
    live: nat,
    state: FileState)
  {
    predicate IsObsolete() { state == Obsolete }

    /** What a manifest record brings back: fresh in-memory fields. */
    function Persisted(): FileMeta { this.(live := 0, state := Init) }
  }

  /** kBlobMaxHeaderSize + kBlobFooterSize: bytes of a file that can never be live data. */
  const FIXED_OVERHEAD: nat := 12 + 32
}
