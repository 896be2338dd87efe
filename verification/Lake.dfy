/** The files of one Iceberg table: what they hold and which rows a reader of the table sees. */
module Lake {
  import opened Checkpoint
  import opened RowMatch

  /** File names are derived from random UUIDs; a counter stands for the source of fresh ones. */
  type Uuid = nat

  datatype Parquet = Parquet(rows: seq<Row>, size: nat)

  /** <uuid>-m0.avro lists an added data file, <uuid>-m1.avro a deleted one. */
  datatype ManifestPath = AddedManifest(uuid: Uuid) | DeletedManifest(uuid: Uuid)

  datatype ManifestEntry = ManifestEntry(deleted: bool, snapshotId: nat, data: Uuid, recordCount: nat, size: nat)

  /** snap-<snapshot id>-0-<uuid of the first new data file>.avro */
  datatype ListPath = ListPath(snapshotId: nat, uuid: Uuid)

  datatype ListRecord = ListRecord(
    addedSnapshotId: nat, manifestPath: ManifestPath, sequenceNumber: nat,
    addedFilesCount: nat, addedRowsCount: nat, deletedFilesCount: nat, deletedRowsCount: nat)

  datatype Operation = Append | Overwrite | Delete

  datatype SequenceStats = SequenceStats(
    addedFilesSize: nat, addedDataFiles: nat, addedRecords: nat,
    removedFilesSize: nat, deletedDataFiles: nat, deletedRecords: nat)

  const NO_STATS := SequenceStats(0, 0, 0, 0, 0, 0)

  datatype ManifestListFile = ManifestListFile(
    sequenceNumber: nat, snapshotId: nat, path: ListPath, operation: Operation, stats: SequenceStats)

  /** A count of data files, with their bytes and records. */
  datatype Totals = Totals(dataFiles: int, filesSize: int, records: int) {
    function Plus(other: Totals): Totals {
      Totals(dataFiles + other.dataFiles, filesSize + other.filesSize, records + other.records)
    }
  }

  const NOTHING := Totals(0, 0, 0)

  datatype Snapshot = Snapshot(list: ManifestListFile, totals: Totals, parentSnapshotId: Option<nat>)

  datatype Metadata = Metadata(snapshots: seq<Snapshot>, lastSequenceNumber: nat, currentSnapshotId: nat)

  datatype Disk = Disk(
    parquets: map<Uuid, Parquet>,
    manifests: map<ManifestPath, ManifestEntry>,
    manifestLists: map<ListPath, seq<ListRecord>>,
    metadata: Option<Metadata>,
    checkpoint: InternalTableMetadata)

  // In-memory handles

  datatype ParquetFile = ParquetFile(uuid: Uuid, size: nat, recordCount: nat)

  datatype ManifestFile = ManifestFile(
    recordsDeleted: bool, snapshotId: nat, path: ManifestPath, recordCount: nat, dataFileSize: nat)

  datatype ManifestListItem = ManifestListItem(sequenceNumber: nat, manifestFile: ManifestFile)

  // Reading a table

  /** The rows a manifest contributes: those of its data file, unless the manifest deletes it. */
  function FileRows(disk: Disk, path: ManifestPath): seq<Row> {
    if path in disk.manifests && !disk.manifests[path].deleted && disk.manifests[path].data in disk.parquets
    then disk.parquets[disk.manifests[path].data].rows
    else []
  }

  function ScanRows(disk: Disk, paths: seq<ManifestPath>): seq<Row> {
    if paths == [] then [] else FileRows(disk, paths[0]) + ScanRows(disk, paths[1..])
  }

  function RecordPaths(records: seq<ListRecord>): (paths: seq<ManifestPath>)
    ensures |paths| == |records|
  {
    seq(|records|, i requires 0 <= i < |records| => records[i].manifestPath)
  }

  function ItemPaths(items: seq<ManifestListItem>): (paths: seq<ManifestPath>)
    ensures |paths| == |items|
  {
    seq(|items|, i requires 0 <= i < |items| => items[i].manifestFile.path)
  }

  function Lists(metadata: Metadata): (lists: seq<ManifestListFile>)
    ensures |lists| == |metadata.snapshots|
  {
    seq(|metadata.snapshots|, i requires 0 <= i < |metadata.snapshots| => metadata.snapshots[i].list)
  }

  predicate HasTable(disk: Disk) {
    && disk.metadata.Some?
    && disk.metadata.value.snapshots != []
    && CurrentList(disk).path in disk.manifestLists
  }

  /** The manifest list of the current snapshot, which is the last one. */
  function CurrentList(disk: Disk): ManifestListFile
    requires disk.metadata.Some? && disk.metadata.value.snapshots != []
  {
    var snapshots := disk.metadata.value.snapshots;
    snapshots[|snapshots| - 1].list
  }

  function CurrentRecords(disk: Disk): seq<ListRecord>
    requires HasTable(disk)
  {
    disk.manifestLists[CurrentList(disk).path]
  }

  function TableRows(disk: Disk): seq<Row> {
    if HasTable(disk) then ScanRows(disk, RecordPaths(CurrentRecords(disk))) else []
  }

  /** What survives a crash, as far as the next sync can tell: the table and its checkpoint. */
  datatype View = View(rows: seq<Row>, checkpoint: InternalTableMetadata)

  function ViewOf(disk: Disk): View {
    View(TableRows(disk), disk.checkpoint)
  }

  // Accounting

  predicate LivePath(disk: Disk, path: ManifestPath) {
    && path in disk.manifests
    && var entry := disk.manifests[path];
      !entry.deleted && entry.data in disk.parquets
      && entry.recordCount == |disk.parquets[entry.data].rows| && entry.size == disk.parquets[entry.data].size
  }

  function FileTotals(disk: Disk, path: ManifestPath): Totals {
    if LivePath(disk, path) then
      var parquet := disk.parquets[disk.manifests[path].data];
      Totals(1, parquet.size, |parquet.rows|)
    else
      NOTHING
  }

  /** The files a reader finds, counted on the files themselves. */
  function LiveTotals(disk: Disk, paths: seq<ManifestPath>): Totals {
    if paths == [] then NOTHING else FileTotals(disk, paths[0]).Plus(LiveTotals(disk, paths[1..]))
  }

  function NetChange(list: ManifestListFile): Totals {
    Totals(
      list.stats.addedDataFiles - list.stats.deletedDataFiles,
      list.stats.addedFilesSize - list.stats.removedFilesSize,
      list.stats.addedRecords - list.stats.deletedRecords)
  }

  /** The running totals: the sum of what the summaries of all snapshots say they changed. */
  function RunningTotals(lists: seq<ManifestListFile>): Totals {
    if lists == [] then NOTHING
    else RunningTotals(lists[..|lists| - 1]).Plus(NetChange(lists[|lists| - 1]))
  }

  lemma {:induction false} RunningTotalsConcat(a: seq<ManifestListFile>, b: seq<ManifestListFile>)
    ensures RunningTotals(a + b) == RunningTotals(a).Plus(RunningTotals(b))
  {
    if b == [] {
      assert a + b == a;
    } else {
      assert (a + b)[..|a + b| - 1] == a + b[..|b| - 1];
      RunningTotalsConcat(a, b[..|b| - 1]);
    }
  }

  lemma {:induction false} ScanRowsConcat(disk: Disk, a: seq<ManifestPath>, b: seq<ManifestPath>)
    ensures ScanRows(disk, a + b) == ScanRows(disk, a) + ScanRows(disk, b)
  {
    if a == [] {
      assert a + b == b;
    } else {
      assert (a + b)[1..] == a[1..] + b;
      ScanRowsConcat(disk, a[1..], b);
    }
  }

  lemma {:induction false} LiveTotalsConcat(disk: Disk, a: seq<ManifestPath>, b: seq<ManifestPath>)
    ensures LiveTotals(disk, a + b) == LiveTotals(disk, a).Plus(LiveTotals(disk, b))
  {
    if a == [] {
      assert a + b == b;
    } else {
      assert (a + b)[1..] == a[1..] + b;
      LiveTotalsConcat(disk, a[1..], b);
    }
  }

  // Steps that a reader does not notice

  /** Data files and manifests are only ever added. */
  ghost predicate Extends(before: Disk, after: Disk) {
    && (forall u :: u in before.parquets ==> u in after.parquets && after.parquets[u] == before.parquets[u])
    && (forall p :: p in before.manifests ==> p in after.manifests && after.manifests[p] == before.manifests[p])
  }

  lemma {:induction false} ExtendsKeepsFiles(before: Disk, after: Disk, paths: seq<ManifestPath>)
    requires Extends(before, after)
    requires forall p :: p in paths ==> LivePath(before, p)
    ensures forall p :: p in paths ==> LivePath(after, p)
    ensures ScanRows(after, paths) == ScanRows(before, paths)
    ensures LiveTotals(after, paths) == LiveTotals(before, paths)
  {
    if paths != [] {
      assert LivePath(before, paths[0]);
      ExtendsKeepsFiles(before, after, paths[1..]);
    }
  }

  /** Nothing that the committed metadata leads to has changed, nor the checkpoint. */
  ghost predicate Undisturbed(before: Disk, after: Disk) {
    && Extends(before, after)
    && after.metadata == before.metadata
    && after.checkpoint == before.checkpoint
    && (HasTable(before) ==> HasTable(after) && CurrentRecords(after) == CurrentRecords(before))
  }

  // Consistency of a committed table

  /** Every manifest a reader of the current snapshot opens is an added, existing file. */
  ghost predicate Readable(disk: Disk) {
    disk.metadata.Some? ==>
      && HasTable(disk)
      && forall p :: p in RecordPaths(CurrentRecords(disk)) ==> LivePath(disk, p)
  }

  lemma UndisturbedKeepsView(before: Disk, after: Disk)
    requires Readable(before) && Undisturbed(before, after)
    ensures ViewOf(after) == ViewOf(before)
    ensures Readable(after)
  {
    if before.metadata.Some? {
      ExtendsKeepsFiles(before, after, RecordPaths(CurrentRecords(before)));
    }
  }

  /** The k-th manifest list carries sequence number k. */
  ghost predicate Numbered(lists: seq<ManifestListFile>) {
    forall i :: 0 <= i < |lists| ==> lists[i].sequenceNumber == i + 1
  }

  /** The record describes the added file of its manifest, and nothing deleted. */
  ghost predicate LiveRecord(disk: Disk, record: ListRecord) {
    && LivePath(disk, record.manifestPath)
    && record.addedFilesCount == 1 && record.deletedFilesCount == 0 && record.deletedRowsCount == 0
    && record.addedRowsCount == disk.manifests[record.manifestPath].recordCount
    && record.addedSnapshotId == disk.manifests[record.manifestPath].snapshotId
  }

  /** The current list starts with the item of the highest number, all numbers are distinct,
    * and every record stands for a live file. */
  ghost predicate CurrentListInOrder(disk: Disk, records: seq<ListRecord>, last: nat) {
    && records != []
    && records[0].sequenceNumber == last
    && (forall r :: r in records ==> 1 <= r.sequenceNumber <= last && LiveRecord(disk, r))
    && (forall i, j :: 0 <= i < j < |records| ==> records[i].sequenceNumber != records[j].sequenceNumber)
  }

  /** Every snapshot but the first names the one before it as its parent. */
  ghost predicate ParentsAreInOrder(metadata: Metadata) {
    forall i :: 0 <= i < |metadata.snapshots| ==>
      metadata.snapshots[i].parentSnapshotId == if i == 0 then None else Some(metadata.snapshots[i - 1].list.snapshotId)
  }

  /** What holds of the files between two writes. */
  ghost predicate Consistent(disk: Disk) {
    disk.metadata.Some? ==>
      && HasTable(disk)
      && var lists := Lists(disk.metadata.value);
      && Numbered(lists)
      && CurrentListInOrder(disk, CurrentRecords(disk), |lists|)
      && (forall p :: p in RecordPaths(CurrentRecords(disk)) ==> LivePath(disk, p))
      && (forall i :: 0 <= i < |lists| ==> disk.metadata.value.snapshots[i].totals == RunningTotals(lists[..i + 1]))
      && RunningTotals(lists) == LiveTotals(disk, RecordPaths(CurrentRecords(disk)))
      && ParentsAreInOrder(disk.metadata.value)
      && (forall i :: 0 <= i < |lists| - 1 ==> lists[i].snapshotId != CurrentList(disk).snapshotId)
      && CurrentList(disk).snapshotId == CurrentList(disk).path.snapshotId == disk.metadata.value.currentSnapshotId
      && disk.metadata.value.lastSequenceNumber == |lists|
  }

  lemma {:induction false} LiveTotalsCount(disk: Disk, paths: seq<ManifestPath>)
    requires forall p :: p in paths ==> LivePath(disk, p)
    ensures LiveTotals(disk, paths).dataFiles == |paths|
    ensures LiveTotals(disk, paths).records == |ScanRows(disk, paths)|
  {
    if paths != [] {
      assert LivePath(disk, paths[0]);
      LiveTotalsCount(disk, paths[1..]);
    }
  }

  /** Conservation: the totals of the current snapshot, summed up from what each step said it changed,
    * count the files and the rows that a reader finds. */
  lemma TotalsAreConserved(disk: Disk)
    requires Consistent(disk) && disk.metadata.Some?
    ensures var snapshots := disk.metadata.value.snapshots;
      var totals := snapshots[|snapshots| - 1].totals;
      && totals.dataFiles == |CurrentRecords(disk)|
      && totals.records == |TableRows(disk)|
      && totals.filesSize == LiveTotals(disk, RecordPaths(CurrentRecords(disk))).filesSize
  {
    hide LivePath, CurrentListInOrder;
    var lists := Lists(disk.metadata.value);
    assert lists[..|lists|] == lists;
    LiveTotalsCount(disk, RecordPaths(CurrentRecords(disk)));
  }
}
