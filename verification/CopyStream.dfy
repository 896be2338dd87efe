/** The rows of one COPY, the watermark they leave, and the metadata that goes with them. */
module CopyStream {
  import opened Checkpoint
  import opened RowMatch

  /** A row as COPY delivers it, with the raw xmin in its last column. */
  datatype SourceRow = SourceRow(row: Row, xmin: Xid)

  function RowsOf(source: seq<SourceRow>): (rows: seq<Row>)
    ensures |rows| == |source|
    ensures forall i :: 0 <= i < |rows| ==> rows[i] == source[i].row
  {
    if source == [] then [] else RowsOf(source[..|source| - 1]) + [source[|source| - 1].row]
  }

  /** The watermark after reading `source`, starting from `seed`. */
  function XminAfter(seed: Xid, source: seq<SourceRow>): Xid {
    if source == [] then seed else source[|source| - 1].xmin
  }

  /** Reading `count` rows of `source` gave `rows`, left `rest`, and moved the watermark from `seed` to `xmin`. */
  ghost predicate ReadRows(
      source: seq<SourceRow>, seed: Xid, count: nat, rows: seq<Row>, rest: seq<SourceRow>, xmin: Xid) {
    && count <= |source|
    && rest == source[count..]
    && rows == RowsOf(source[..count])
    && xmin == XminAfter(seed, source[..count])
  }

  lemma ReadOn(source: seq<SourceRow>, seed: Xid, count: nat, rows: seq<Row>, rest: seq<SourceRow>, xmin: Xid,
               more: nat, moreRows: seq<Row>, moreRest: seq<SourceRow>, moreXmin: Xid)
    requires ReadRows(source, seed, count, rows, rest, xmin)
    requires ReadRows(rest, xmin, more, moreRows, moreRest, moreXmin)
    ensures ReadRows(source, seed, count + more, rows + moreRows, moreRest, moreXmin)
  {
  }

  /** The checkpoint written once the rows up to `xmin` are in the table. Zero stands for "none". */
  function CheckpointAt(incrementalRefresh: bool, reachedEnd: bool, lastTxid: nat, xmin: Xid): InternalTableMetadata {
    InternalTableMetadata(RefreshModeFor(incrementalRefresh, reachedEnd), lastTxid, if xmin != 0 then Some(xmin) else None)
  }

  function SeedXmin(existing: InternalTableMetadata): Xid {
    if existing.maxXmin.Some? then existing.maxXmin.value else 0
  }

  function LastTxid(existing: InternalTableMetadata, currentTxid: nat): nat {
    if existing.lastRefreshMode == FullInProgress && existing.lastTxid != 0 then existing.lastTxid else currentTxid
  }

  /** The mode stored with a watermark decides about the next refresh: an interrupted full one is resumed by any, an
    * incremental refresh continues whatever there is. */
  lemma NextRefreshContinuesIff(
    incrementalRefresh: bool, reachedEnd: bool, lastTxid: nat, xmin: Xid, nextIncrementalRefresh: bool)
    ensures var ck := CheckpointAt(incrementalRefresh, reachedEnd, lastTxid, xmin);
      && (ContinuedRefresh(ck, nextIncrementalRefresh) <==>
            xmin != 0 && (nextIncrementalRefresh || (!incrementalRefresh && !reachedEnd)))
      && (ck.IsInProgress() <==> !reachedEnd)
      && (ck.lastRefreshMode in {Incremental, IncrementalInProgress} <==> incrementalRefresh)
      && ck.lastTxid == lastTxid && SeedXmin(ck) == xmin
  {
  }

  /** The variable that every metadata value of one sync points to. */
  class XminCell {
    var xmin: Xid

    constructor (xmin: Xid)
      ensures this.xmin == xmin
    {
      this.xmin := xmin;
    }
  }

  /** The metadata in memory. Its watermark is a pointer, so it is only read when it is written out. */
  datatype PendingMetadata = PendingMetadata(lastRefreshMode: RefreshMode, lastTxid: nat, maxXmin: Option<XminCell>) {
    predicate IsInProgress() {
      lastRefreshMode == IncrementalInProgress || lastRefreshMode == FullInProgress
    }

    function Stored(): InternalTableMetadata
      reads if maxXmin.Some? then {maxXmin.value} else {}
    {
      InternalTableMetadata(lastRefreshMode, lastTxid, if maxXmin.Some? then Some(maxXmin.value.xmin) else None)
    }
  }
}
