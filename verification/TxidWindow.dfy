/** Which rows one COPY reads, and in which order.
  *
  * The SQL compares raw 32-bit xmin values. What it is meant to select is an interval of
  * 64-bit transaction ids that ends at the current one and may straddle a wraparound. */
module TxidWindow {
  import opened Checkpoint

  function PgWraparoundTxid(txid: nat): Xid {
    txid % EPOCH
  }

  predicate IsPgWraparoundTxid(txid: nat) {
    txid > EPOCH
  }

  /** The SQL statements of CopyFromPgTableSql. `inclusive` is the operator: `>=` or `>`. */
  datatype CopyQuery =
    | FullCopy
    | Window(inclusive: bool, lo: Xid, hi: Xid)         // lo < xmin AND xmin <= hi
    | WrappedWindow(inclusive: bool, lo: Xid, hi: Xid)  // lo < xmin OR xmin <= hi
    | Panic

  function CopyFromPgTableSql(existing: InternalTableMetadata, currentTxid: nat, continuedRefresh: bool): CopyQuery {
    if !continuedRefresh then
      FullCopy
    else if existing.maxXmin.None? then
      Panic
    else
      var previousMaxXmin := existing.maxXmin.value;
      var currentWraparoundTxid := PgWraparoundTxid(currentTxid);
      if previousMaxXmin <= currentWraparoundTxid then
        Window(existing.IsInProgress(), previousMaxXmin, currentWraparoundTxid)
      else if IsPgWraparoundTxid(currentTxid) then
        WrappedWindow(existing.IsInProgress(), previousMaxXmin, currentWraparoundTxid)
      else
        Panic
  }

  /** The WHERE clause. */
  predicate Selects(query: CopyQuery, xmin: Xid) {
    match query
    case FullCopy => true
    case Window(inclusive, lo, hi) => (xmin > lo || (inclusive && xmin == lo)) && xmin <= hi
    case WrappedWindow(inclusive, lo, hi) => (xmin > lo || (inclusive && xmin == lo)) || xmin <= hi
    case Panic => false
  }

  /** The ORDER BY clause: x comes strictly before y. FALSE sorts before TRUE. */
  predicate Precedes(query: CopyQuery, x: Xid, y: Xid) {
    match query
    case FullCopy => x < y
    case Window(_, _, _) => x < y
    case WrappedWindow(_, _, hi) => (x > hi && y <= hi) || ((x <= hi <==> y <= hi) && x < y)
    case Panic => false
  }

  /** The transaction id that a raw xmin stands for: the latest one, not after the current
    * transaction, whose low 32 bits are the xmin. Negative when there is no such id yet. */
  function LogicalTxid(xmin: int, currentTxid: int): (txid: int)
    ensures currentTxid - EPOCH < txid <= currentTxid
    ensures txid % EPOCH == xmin % EPOCH
  {
    currentTxid - (currentTxid - xmin) % EPOCH
  }

  lemma LogicalTxidIsUnique(xmin: int, currentTxid: int, txid: int)
    requires currentTxid - EPOCH < txid <= currentTxid
    requires txid % EPOCH == xmin % EPOCH
    ensures LogicalTxid(xmin, currentTxid) == txid
  {
  }

  /** LogicalTxid is the greatest candidate, so it never moves back as the current transaction advances. */
  lemma LogicalTxidIsMonotone(xmin: int, earlier: int, later: int)
    requires earlier <= later
    ensures LogicalTxid(xmin, earlier) <= LogicalTxid(xmin, later)
  {
    var t, u := LogicalTxid(xmin, earlier), LogicalTxid(xmin, later);
    assert (t - u) % EPOCH == 0;
  }

  /** Either side of the current transaction's raw value decides the epoch an xmin belongs to. */
  lemma LogicalTxidByEpoch(xmin: Xid, currentTxid: nat)
    ensures var hi := PgWraparoundTxid(currentTxid);
      LogicalTxid(xmin, currentTxid) == currentTxid - hi + xmin - (if xmin <= hi then 0 else EPOCH)
  {
    var hi := PgWraparoundTxid(currentTxid);
    var t := currentTxid - hi + xmin - (if xmin <= hi then 0 else EPOCH);
    assert t % EPOCH == xmin % EPOCH by {
      assert (currentTxid - hi) % EPOCH == 0;
    }
    LogicalTxidIsUnique(xmin, currentTxid, t);
  }

  /** Both continued statements read exactly the transactions after the watermark (from it, when
    * the last refresh was interrupted) and up to the current one, wraparound or not. */
  lemma ContinuedWindowIsLogicalInterval(existing: InternalTableMetadata, currentTxid: nat, xmin: Xid)
    requires existing.maxXmin.Some?
    requires CopyFromPgTableSql(existing, currentTxid, true) != Panic
    ensures var previous := LogicalTxid(existing.maxXmin.value, currentTxid);
      Selects(CopyFromPgTableSql(existing, currentTxid, true), xmin)
      <==> (previous < LogicalTxid(xmin, currentTxid)
            || (existing.IsInProgress() && previous == LogicalTxid(xmin, currentTxid)))
  {
    LogicalTxidByEpoch(xmin, currentTxid);
    LogicalTxidByEpoch(existing.maxXmin.value, currentTxid);
  }

  /** ... and deliver them in the order of those transactions. */
  lemma ContinuedOrderIsLogical(existing: InternalTableMetadata, currentTxid: nat, x: Xid, y: Xid)
    requires existing.maxXmin.Some?
    requires var query := CopyFromPgTableSql(existing, currentTxid, true);
      query != Panic && Selects(query, x) && Selects(query, y)
    ensures Precedes(CopyFromPgTableSql(existing, currentTxid, true), x, y)
      <==> LogicalTxid(x, currentTxid) < LogicalTxid(y, currentTxid)
  {
    LogicalTxidByEpoch(x, currentTxid);
    LogicalTxidByEpoch(y, currentTxid);
  }

  /** The full copy sorts by the raw value: that is transaction order for every pair of rows
    * exactly when the raw value of the current transaction does not separate them. */
  lemma FullCopyOrderIsLogicalIff(currentTxid: nat, x: Xid, y: Xid)
    requires x < y
    ensures (Precedes(FullCopy, x, y) <==> LogicalTxid(x, currentTxid) < LogicalTxid(y, currentTxid))
      <==> !(x <= PgWraparoundTxid(currentTxid) < y)
  {
    LogicalTxidByEpoch(x, currentTxid);
    LogicalTxidByEpoch(y, currentTxid);
  }

  /** Among watermarks that some transaction up to the current one can have left behind, the
    * statement is refused in one case only: the current id is exactly 2^32, which the strict
    * comparison does not yet count as wrapped around. */
  lemma ContinuedWindowPanicsIff(existing: InternalTableMetadata, currentTxid: nat)
    requires existing.maxXmin.Some?
    requires LogicalTxid(existing.maxXmin.value, currentTxid) >= 0
    ensures CopyFromPgTableSql(existing, currentTxid, true) == Panic
      <==> currentTxid == EPOCH && existing.maxXmin.value != 0
  {
    LogicalTxidByEpoch(existing.maxXmin.value, currentTxid);
  }
}
