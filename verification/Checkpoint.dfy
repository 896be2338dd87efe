/** The record a sync persists beside a table: how far the last refresh came. */
module Checkpoint {

  datatype Option<+T> = None | Some(value: T)

  /** 2^32: transaction ids on the wire are 64-bit, the xmin stored with a row keeps the low 32 bits. */
  const EPOCH: int := 0x1_0000_0000

  type Xid = x: int | 0 <= x < EPOCH

  /** `Unknown` is the empty mode of a table that was never synced. */
  datatype RefreshMode = Unknown | Full | FullInProgress | Incremental | IncrementalInProgress

  datatype InternalTableMetadata = InternalTableMetadata(
    lastRefreshMode: RefreshMode,
    lastTxid: nat,
    maxXmin: Option<Xid>)
  {
    predicate IsInProgress() {
      lastRefreshMode == IncrementalInProgress || lastRefreshMode == FullInProgress
    }
  }

  /** A table without a stored checkpoint reads back as the empty record. */
  const NO_CHECKPOINT := InternalTableMetadata(Unknown, 0, None)

  /** Whether the next refresh merges into the existing table instead of replacing it. */
  predicate ContinuedRefresh(existing: InternalTableMetadata, incrementalRefresh: bool) {
    existing.maxXmin.Some? && (incrementalRefresh || existing.lastRefreshMode == FullInProgress)
  }

  function RefreshModeFor(incrementalRefresh: bool, reachedEnd: bool): RefreshMode {
    if reachedEnd then (if incrementalRefresh then Incremental else Full)
    else (if incrementalRefresh then IncrementalInProgress else FullInProgress)
  }
}
