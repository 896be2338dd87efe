/** The operations that write and re-read the files of a table. */
module Storage {
  import opened Checkpoint
  import opened RowMatch
  import opened Lake
  import opened CopyStream
  import opened Loader

  // What a manifest list says about its own step

  /** Counts of the items that carry one sequence number. */
  function Tally(items: seq<ManifestListItem>, number: nat): SequenceStats {
    if items == [] then NO_STATS
    else
      var stats := Tally(items[..|items| - 1], number);
      var item := items[|items| - 1];
      if item.sequenceNumber == number then Counted(stats, item.manifestFile) else stats
  }

  function Counted(stats: SequenceStats, file: ManifestFile): SequenceStats {
    if file.recordsDeleted then
      stats.(removedFilesSize := stats.removedFilesSize + file.dataFileSize,
             deletedDataFiles := stats.deletedDataFiles + 1,
             deletedRecords := stats.deletedRecords + file.recordCount)
    else
      stats.(addedFilesSize := stats.addedFilesSize + file.dataFileSize,
             addedDataFiles := stats.addedDataFiles + 1,
             addedRecords := stats.addedRecords + file.recordCount)
  }

  lemma {:induction false} TallyOfOtherNumbers(items: seq<ManifestListItem>, number: nat)
    requires forall item :: item in items ==> item.sequenceNumber != number
    ensures Tally(items, number) == NO_STATS
  {
    if items != [] {
      assert items[|items| - 1] in items;
      TallyOfOtherNumbers(items[..|items| - 1], number);
    }
  }

  lemma {:induction false} TallyOfHead(items: seq<ManifestListItem>)
    requires items != []
    requires forall i :: 0 < i < |items| ==> items[i].sequenceNumber != items[0].sequenceNumber
    ensures Tally(items, items[0].sequenceNumber) == Counted(NO_STATS, items[0].manifestFile)
  {
    if |items| == 1 {
      assert items[..0] == [];
    } else {
      TallyOfHead(items[..|items| - 1]);
    }
  }

  lemma SummaryOfOverwrite(number: nat, added: ManifestFile, removed: ManifestFile)
    requires !added.recordsDeleted && removed.recordsDeleted
    ensures var items := [ManifestListItem(number, added), ManifestListItem(number, removed)];
      OperationOf(items) == Overwrite
      && Tally(items, number) == SequenceStats(
          added.dataFileSize, 1, added.recordCount, removed.dataFileSize, 1, removed.recordCount)
  {
    var a, r := ManifestListItem(number, added), ManifestListItem(number, removed);
    var items := [a, r];
    assert items[..1] == [a] && [a][..0] == [];
    assert Tally([a], number) == Counted(NO_STATS, added);
    assert Numbers(items) == {number} by {
      assert a in items;
    }
  }

  /** The head alone carries its number: the list is an append of it, or its deletion. */
  lemma SummaryOfHead(items: seq<ManifestListItem>)
    requires items != []
    requires forall i :: 0 < i < |items| ==> items[i].sequenceNumber != items[0].sequenceNumber
    ensures var file := items[0].manifestFile;
      && OperationOf(items) == (if file.recordsDeleted then Delete else Append)
      && Tally(items, items[0].sequenceNumber) == (
          if file.recordsDeleted then SequenceStats(0, 0, 0, file.dataFileSize, 1, file.recordCount)
          else SequenceStats(file.dataFileSize, 1, file.recordCount, 0, 0, 0))
  {
    TallyOfHead(items);
  }

  function Numbers(items: seq<ManifestListItem>): set<nat> {
    set item | item in items :: item.sequenceNumber
  }

  function OperationOf(items: seq<ManifestListItem>): Operation
    requires items != []
  {
    var stats := Tally(items, items[0].sequenceNumber);
    if |Numbers(items)| == 1 && |items| == 2 && stats.addedDataFiles == 1 && stats.deletedDataFiles == 1 then Overwrite
    else if stats.addedDataFiles == 0 && stats.deletedDataFiles > 0 then Delete
    else Append
  }

  lemma NoRunningTotals(lists: seq<ManifestListFile>)
    ensures RunningTotals(lists[..0]) == NOTHING
  {
  }

  lemma NextRunningTotals(lists: seq<ManifestListFile>, i: nat)
    requires i < |lists|
    ensures RunningTotals(lists[..i + 1]) == RunningTotals(lists[..i]).Plus(NetChange(lists[i]))
  {
    assert lists[..i + 1][..i] == lists[..i];
  }

  function ToRecord(item: ManifestListItem): ListRecord {
    var file := item.manifestFile;
    if file.recordsDeleted then
      ListRecord(file.snapshotId, file.path, item.sequenceNumber, 0, 0, 1, file.recordCount)
    else
      ListRecord(file.snapshotId, file.path, item.sequenceNumber, 1, file.recordCount, 0, 0)
  }

  function ToRecords(items: seq<ManifestListItem>): (records: seq<ListRecord>)
    ensures |records| == |items|
  {
    seq(|items|, i requires 0 <= i < |items| => ToRecord(items[i]))
  }

  /** What the records with one number say, added up. */
  datatype Counts = Counts(addedFiles: nat, addedRows: nat, deletedFiles: nat, deletedRows: nat)

  function CountsOf(records: seq<ListRecord>, number: nat): Counts {
    if records == [] then Counts(0, 0, 0, 0)
    else
      var c, r := CountsOf(records[..|records| - 1], number), records[|records| - 1];
      if r.sequenceNumber == number then
        Counts(c.addedFiles + r.addedFilesCount, c.addedRows + r.addedRowsCount,
               c.deletedFiles + r.deletedFilesCount, c.deletedRows + r.deletedRowsCount)
      else c
  }

  function CountsIn(stats: SequenceStats): Counts {
    Counts(stats.addedDataFiles, stats.addedRecords, stats.deletedDataFiles, stats.deletedRecords)
  }

  /** The records of a list and its summary count the same. */
  lemma {:induction false} RecordsAddUp(items: seq<ManifestListItem>, number: nat)
    ensures CountsOf(ToRecords(items), number) == CountsIn(Tally(items, number))
  {
    if items != [] {
      var init := items[..|items| - 1];
      RecordsAddUp(init, number);
      assert ToRecords(items)[..|items| - 1] == ToRecords(init);
    }
  }

  /** Reading a record back loses the deleted flag and the size of the data file. */
  function FromRecord(record: ListRecord): ManifestListItem {
    ManifestListItem(record.sequenceNumber,
                     ManifestFile(false, record.addedSnapshotId, record.manifestPath, record.addedRowsCount, 0))
  }

  function FromRecords(records: seq<ListRecord>): (items: seq<ManifestListItem>)
    ensures |items| == |records|
  {
    seq(|records|, i requires 0 <= i < |records| => FromRecord(records[i]))
  }

  /** Losing the flag is harmless exactly for items that were never deleted. */
  lemma ReadBackIff(item: ManifestListItem)
    ensures ToRecord(FromRecord(ToRecord(item))) == ToRecord(item) <==> !item.manifestFile.recordsDeleted
  {
  }

  // Batched reads under a fixed order

  function Min(a: nat, b: nat): nat {
    if a < b then a else b
  }

  /** SELECT ... LIMIT limit OFFSET offset over a result whose order does not change. */
  function Page(result: seq<Row>, limit: nat, offset: nat): seq<Row> {
    result[Min(offset, |result|)..Min(offset + limit, |result|)]
  }

  // Filling a data file

  function Joined<T>(batches: seq<seq<T>>): seq<T> {
    if batches == [] then [] else Joined(batches[..|batches| - 1]) + batches[|batches| - 1]
  }

  /** The sizes of the rows, as JSON. */
  function Payload(rowSize: Row -> nat, rows: seq<Row>): nat {
    if rows == [] then 0 else Payload(rowSize, rows[..|rows| - 1]) + rowSize(rows[|rows| - 1])
  }

  /** The file does not end after these batches. */
  ghost predicate BelowThreshold(rowSize: Row -> nat, threshold: nat, batches: seq<seq<Row>>) {
    threshold > 0 ==> Payload(rowSize, Joined(batches)) < threshold
  }

  /** The file takes full batches, except when the rows run out, and ends with the first one that makes the payload
    * reach the threshold, or when the rows run out. */
  ghost predicate IsFilled(
      rowSize: Row -> nat, threshold: nat, rowCountPerBatch: nat, batches: seq<seq<Row>>, drained: bool) {
    && (forall b :: b in batches ==> 0 < |b| <= rowCountPerBatch)
    && (forall i :: 0 <= i < |batches| && |batches[i]| < rowCountPerBatch ==> i == |batches| - 1 && drained)
    && (forall n :: 0 < n < |batches| ==> BelowThreshold(rowSize, threshold, batches[..n]))
    && (drained || (batches != [] && threshold > 0 && !BelowThreshold(rowSize, threshold, batches)))
  }

  lemma NothingJoined(rowSize: Row -> nat)
    ensures Joined<Row>([]) == [] && Payload(rowSize, []) == 0
  {
  }

  lemma OneMoreRow(rowSize: Row -> nat, rows: seq<Row>, batch: seq<Row>, i: nat)
    requires i < |batch|
    ensures Payload(rowSize, rows + batch[..i + 1]) == Payload(rowSize, rows + batch[..i]) + rowSize(batch[i])
  {
    assert (rows + batch[..i + 1])[..|rows| + i] == rows + batch[..i];
  }

  lemma OneMoreBatch<T>(batches: seq<seq<T>>, batch: seq<T>)
    ensures Joined(batches + [batch]) == Joined(batches) + batch
  {
    assert (batches + [batch])[..|batches|] == batches;
  }

  /** These batches are in the file, and `batch` is the next one, empty if there is none. */
  ghost predicate IsFilling(
      rowSize: Row -> nat, threshold: nat, rowCountPerBatch: nat, batches: seq<seq<Row>>, batch: seq<Row>, drained: bool) {
    && (forall b :: b in batches ==> 0 < |b| <= rowCountPerBatch)
    && (forall i :: 0 <= i < |batches| && |batches[i]| < rowCountPerBatch ==> i == |batches| - 1 && batch == [])
    && (forall n :: 0 < n <= |batches| ==> BelowThreshold(rowSize, threshold, batches[..n]))
    && |batch| <= rowCountPerBatch && (|batch| < rowCountPerBatch ==> drained)
  }

  lemma StartsFilling(rowSize: Row -> nat, threshold: nat, rowCountPerBatch: nat, batch: seq<Row>, drained: bool)
    requires |batch| <= rowCountPerBatch && (|batch| < rowCountPerBatch ==> drained)
    ensures IsFilling(rowSize, threshold, rowCountPerBatch, [], batch, drained)
  {
  }

  lemma NothingMore(rowSize: Row -> nat, threshold: nat, rowCountPerBatch: nat, batches: seq<seq<Row>>, drained: bool)
    requires IsFilling(rowSize, threshold, rowCountPerBatch, batches, [], drained) && rowCountPerBatch > 0
    ensures IsFilled(rowSize, threshold, rowCountPerBatch, batches, drained)
  {
    hide BelowThreshold;
  }

  lemma Filled(rowSize: Row -> nat, threshold: nat, rowCountPerBatch: nat, batches: seq<seq<Row>>, batch: seq<Row>, drained: bool)
    requires IsFilling(rowSize, threshold, rowCountPerBatch, batches, batch, drained) && batch != []
    requires threshold > 0 && !BelowThreshold(rowSize, threshold, batches + [batch])
    ensures IsFilled(rowSize, threshold, rowCountPerBatch, batches + [batch], drained)
  {
    hide BelowThreshold;
    var all := batches + [batch];
    assert forall n :: 0 < n <= |batches| ==> all[..n] == batches[..n];
  }

  lemma KeepsFilling(
    rowSize: Row -> nat, threshold: nat, rowCountPerBatch: nat, batches: seq<seq<Row>>, batch: seq<Row>, drained: bool,
    next: seq<Row>, drainedNext: bool)
    requires IsFilling(rowSize, threshold, rowCountPerBatch, batches, batch, drained) && batch != []
    requires BelowThreshold(rowSize, threshold, batches + [batch])
    requires |next| <= rowCountPerBatch && (|next| < rowCountPerBatch ==> drainedNext) && (drained ==> next == [])
    ensures IsFilling(rowSize, threshold, rowCountPerBatch, batches + [batch], next, drainedNext)
  {
    hide BelowThreshold;
    var all := batches + [batch];
    assert forall n :: 0 < n <= |batches| ==> all[..n] == batches[..n];
    assert all[..|all|] == all;
  }

  class Storage {
    /** The size of a row as JSON. */
    const rowSize: Row -> nat
    var disk: Disk
    var nextUuid: nat
    var clock: nat                  // time.Now().UnixNano(), never twice the same
    ghost var seen: set<View>       // what a crash since the attempt began would have left behind

    constructor (rowSize: Row -> nat)
      ensures this.rowSize == rowSize
      ensures Valid() && disk == Disk(map[], map[], map[], None, NO_CHECKPOINT) && seen == {}
    {
      this.rowSize := rowSize;
      disk, nextUuid, clock := Disk(map[], map[], map[], None, NO_CHECKPOINT), 0, 0;
      seen := {};
    }

    /** Identifiers in use were handed out before. */
    ghost predicate Valid()
      reads this
    {
      && (forall u :: u in disk.parquets ==> u < nextUuid)
      && (forall p :: p in disk.manifests ==> p.uuid < nextUuid && disk.manifests[p].snapshotId < clock)
      && (forall l :: l in disk.manifestLists ==> l.uuid < nextUuid && l.snapshotId < clock)
      && (disk.metadata.Some? ==> forall s :: s in disk.metadata.value.snapshots ==> s.list.snapshotId < clock)
    }

    /** Only the disk changed, and the change was one step. */
    twostate predicate OneStep()
      reads this
    {
      Valid() && nextUuid >= old(nextUuid) && clock >= old(clock) && seen == old(seen) + {ViewOf(disk)}
    }

    /** Batch after batch, until the payload reaches the threshold, if there is one, or nothing more comes. */
    method WriteParquetFile(maxPayloadThreshold: nat, loader: RowLoader)
      returns (rows: seq<Row>, metadata: PendingMetadata, ghost batches: seq<seq<Row>>)
      requires loader.Valid()
      modifies loader`pending, loader`reachedEnd, loader.maxXmin, loader.input
      ensures loader.Valid()
      ensures ReadRows(old(loader.pending), old(loader.maxXmin.xmin), |rows|, rows, loader.pending, loader.maxXmin.xmin)
      ensures rows == [] <==> old(loader.pending) == []
      ensures rows == [] && !loader.aborted ==> loader.reachedEnd
      ensures loader.Describes(metadata)
      ensures rows == Joined(batches)
      ensures IsFilled(rowSize, maxPayloadThreshold, loader.rowCountPerBatch, batches, loader.pending == [])
    {
      hide ReadRows, CsvReader.Valid, CsvReader.Pending, Aborted, Joined, Payload, RowLoader.Describes, IsFilling;
      ghost var source := loader.pending;
      ghost var seed := loader.maxXmin.xmin;
      var writtenPayloadSize := 0;
      rows, batches := [], [];
      NothingJoined(rowSize);
      var batch: seq<Row>;
      batch, metadata := loader.LoadRows();
      NothingRead(source, seed, batch, loader.pending, loader.maxXmin.xmin);
      StartsFilling(rowSize, maxPayloadThreshold, loader.rowCountPerBatch, batch, loader.pending == []);
      ghost var read := batch;   // every row loaded so far
      while |batch| > 0
        invariant loader.Valid() && loader.Describes(metadata)
        invariant read == rows + batch
        invariant ReadRows(source, seed, |read|, read, loader.pending, loader.maxXmin.xmin)
        invariant read == [] <==> source == []
        invariant read == [] && !loader.aborted ==> loader.reachedEnd
        invariant batch == [] ==> loader.pending == []
        invariant rows == Joined(batches) && writtenPayloadSize == Payload(rowSize, rows)
        invariant IsFilling(rowSize, maxPayloadThreshold, loader.rowCountPerBatch, batches, batch, loader.pending == [])
        decreases |loader.pending| + |batch|
      {
        writtenPayloadSize := WriteRows(rows, batch, writtenPayloadSize);
        OneMoreBatch(batches, batch);
        ghost var earlier, last := batches, batch;
        rows := rows + batch;
        batches := batches + [batch];
        if maxPayloadThreshold > 0 && writtenPayloadSize >= maxPayloadThreshold {
          Filled(rowSize, maxPayloadThreshold, loader.rowCountPerBatch, earlier, last, loader.pending == []);
          return;
        }
        ghost var rest, xmin := loader.pending, loader.maxXmin.xmin;
        batch, metadata := loader.LoadRows();
        NothingRead(rest, xmin, batch, loader.pending, loader.maxXmin.xmin);
        assert |loader.pending| + |batch| == |rest|;
        ReadOn(source, seed, |read|, read, rest, xmin, |batch|, batch, loader.pending, loader.maxXmin.xmin);
        KeepsFilling(rowSize, maxPayloadThreshold, loader.rowCountPerBatch, earlier, last, rest == [],
                     batch, loader.pending == []);
        read := read + batch;
      }
      assert read == rows;
      NothingMore(rowSize, maxPayloadThreshold, loader.rowCountPerBatch, batches, loader.pending == []);
    }

    method WriteRows(ghost rows: seq<Row>, batch: seq<Row>, before: nat) returns (writtenPayloadSize: nat)
      requires before == Payload(rowSize, rows)
      ensures writtenPayloadSize == Payload(rowSize, rows + batch)
    {
      hide Payload;
      writtenPayloadSize := before;
      assert rows + batch[..0] == rows;
      for i := 0 to |batch|
        invariant writtenPayloadSize == Payload(rowSize, rows + batch[..i])
      {
        OneMoreRow(rowSize, rows, batch, i);
        writtenPayloadSize := writtenPayloadSize + rowSize(batch[i]);
      }
      assert batch[..|batch|] == batch;
    }

    static lemma NothingRead(source: seq<SourceRow>, seed: Xid, rows: seq<Row>, rest: seq<SourceRow>, xmin: Xid)
      requires ReadRows(source, seed, |rows|, rows, rest, xmin) && (rows == [] <==> source == [])
      ensures rows == [] ==> rest == []
      ensures |rest| + |rows| == |source|
    {
    }

    method CreateParquet(maxPayloadThreshold: nat, loader: RowLoader)
      returns (file: ParquetFile, metadata: PendingMetadata, ghost batches: seq<seq<Row>>)
      requires Valid() && loader.Valid()
      modifies this, loader`pending, loader`reachedEnd, loader.maxXmin, loader.input
      ensures OneStep() && clock == old(clock)
      ensures file.uuid == old(nextUuid) < nextUuid
      ensures file.recordCount <= |old(loader.pending)|
      ensures var rows := RowsOf(old(loader.pending)[..file.recordCount]);
        && disk == old(disk).(parquets := old(disk).parquets[file.uuid := Parquet(rows, file.size)])
        && ReadRows(old(loader.pending), old(loader.maxXmin.xmin), file.recordCount, rows, loader.pending, loader.maxXmin.xmin)
      ensures loader.Valid() && loader.Describes(metadata)
      ensures file.recordCount == 0 <==> old(loader.pending) == []
      ensures file.recordCount == 0 && !loader.aborted ==> loader.reachedEnd
      ensures disk.parquets[file.uuid].rows == Joined(batches)
      ensures IsFilled(rowSize, maxPayloadThreshold, loader.rowCountPerBatch, batches, loader.pending == [])
    {
      hide ViewOf, CsvReader.Valid, CsvReader.Pending, Aborted, Joined, IsFilled;
      var uuid := nextUuid;
      nextUuid := nextUuid + 1;
      var rows;
      rows, metadata, batches := WriteParquetFile(maxPayloadThreshold, loader);
      var size: nat := *;
      disk := disk.(parquets := disk.parquets[uuid := Parquet(rows, size)]);
      seen := seen + {ViewOf(disk)};
      file := ParquetFile(uuid, size, |rows|);
    }

    /** The rows that no new row replaces, page by page. */
    method WriteOverwrittenParquetFile(schema: Schema, existing: seq<Row>, chunk: seq<Row>, rowCountPerBatch: nat)
      returns (rows: seq<Row>)
      requires rowCountPerBatch > 0
      ensures rows == Surviving(schema, existing, chunk)
    {
      var result := Surviving(schema, existing, chunk);
      var batch := 0;
      rows := [];
      while true
        invariant 0 <= batch * rowCountPerBatch <= |result|
        invariant rows == result[..batch * rowCountPerBatch]
        decreases |result| - batch * rowCountPerBatch
      {
        var offset := batch * rowCountPerBatch;
        var page := Page(result, rowCountPerBatch, offset);
        rows := rows + page;
        if |page| < rowCountPerBatch {
          assert rows == result;
          break;
        }
        assert (batch + 1) * rowCountPerBatch == offset + rowCountPerBatch;
        batch := batch + 1;
      }
    }

    /** Nothing at all when the existing file and the new one have no key in common. */
    method CreateOverwrittenParquet(schema: Schema, newUuid: Uuid, existingUuid: Uuid, rowCountPerBatch: nat)
      returns (file: Option<ParquetFile>)
      requires Valid() && rowCountPerBatch > 0
      requires newUuid in disk.parquets && existingUuid in disk.parquets
      modifies this
      ensures Valid() && clock == old(clock)
      ensures file.None? <==>
        forall r :: r in old(disk).parquets[existingUuid].rows ==> !Overlaps(schema, r, old(disk).parquets[newUuid].rows)
      ensures file.None? ==> disk == old(disk) && seen == old(seen) && nextUuid == old(nextUuid)
      ensures file.Some? ==>
        && OneStep() && file.value.uuid == old(nextUuid) < nextUuid
        && var rows := Surviving(schema, old(disk).parquets[existingUuid].rows, old(disk).parquets[newUuid].rows);
          file.value.recordCount == |rows|
          && disk == old(disk).(parquets := old(disk).parquets[file.value.uuid := Parquet(rows, file.value.size)])
    {
      hide ViewOf;
      var existing, chunk := disk.parquets[existingUuid].rows, disk.parquets[newUuid].rows;
      if forall r | r in existing :: !Overlaps(schema, r, chunk) {
        return None;
      }
      var uuid := nextUuid;
      nextUuid := nextUuid + 1;
      var rows := WriteOverwrittenParquetFile(schema, existing, chunk, rowCountPerBatch);
      var size: nat := *;
      disk := disk.(parquets := disk.parquets[uuid := Parquet(rows, size)]);
      seen := seen + {ViewOf(disk)};
      file := Some(ParquetFile(uuid, size, |rows|));
    }

    method DeleteParquet(file: ParquetFile)
      requires Valid()
      modifies this
      ensures OneStep() && nextUuid == old(nextUuid) && clock == old(clock)
      ensures disk == old(disk).(parquets := old(disk).parquets - {file.uuid})
    {
      hide ViewOf;
      disk := disk.(parquets := disk.parquets - {file.uuid});
      seen := seen + {ViewOf(disk)};
    }

    method CreateManifest(file: ParquetFile) returns (manifest: ManifestFile)
      requires Valid() && file.uuid < nextUuid
      modifies this
      ensures OneStep() && nextUuid == old(nextUuid)
      ensures manifest == ManifestFile(false, old(clock), AddedManifest(file.uuid), file.recordCount, file.size)
      ensures clock == old(clock) + 1
      ensures var entry := ManifestEntry(false, old(clock), file.uuid, file.recordCount, file.size);
        disk == old(disk).(manifests := old(disk).manifests[manifest.path := entry])
    {
      hide ViewOf;
      var snapshotId := clock;
      clock := clock + 1;
      var path := AddedManifest(file.uuid);
      var entry := ManifestEntry(false, snapshotId, file.uuid, file.recordCount, file.size);
      disk := disk.(manifests := disk.manifests[path := entry]);
      seen := seen + {ViewOf(disk)};
      manifest := ManifestFile(false, snapshotId, path, file.recordCount, file.size);
    }

    /** The existing entry with its status changed; it keeps the snapshot id and the counts. */
    method CreateDeletedRecordsManifest(uuid: Uuid, existing: ManifestFile) returns (manifest: ManifestFile)
      requires Valid() && uuid < nextUuid && existing.path in disk.manifests
      modifies this
      ensures OneStep() && nextUuid == old(nextUuid) && clock == old(clock)
      ensures var entry := old(disk).manifests[existing.path];
        && manifest == ManifestFile(true, entry.snapshotId, DeletedManifest(uuid), entry.recordCount, entry.size)
        && disk == old(disk).(manifests := old(disk).manifests[manifest.path := entry.(deleted := true)])
    {
      hide ViewOf;
      var entry := disk.manifests[existing.path].(deleted := true);
      var path := DeletedManifest(uuid);
      disk := disk.(manifests := disk.manifests[path := entry]);
      seen := seen + {ViewOf(disk)};
      manifest := ManifestFile(true, entry.snapshotId, path, entry.recordCount, entry.size);
    }

    /** The records, and a summary of the items that carry the number of the first one. */
    method WriteManifestListFile(path: ListPath, items: seq<ManifestListItem>)
      returns (records: seq<ListRecord>, file: ManifestListFile)
      requires items != []
      ensures records == ToRecords(items)
      ensures file == ManifestListFile(
          items[0].sequenceNumber, items[0].manifestFile.snapshotId, path, OperationOf(items),
          Tally(items, items[0].sequenceNumber))
      ensures CountsOf(records, file.sequenceNumber) == CountsIn(file.stats)
    {
      hide CountsOf;
      RecordsAddUp(items, items[0].sequenceNumber);
      records := [];
      var statsBySequenceNumber: map<nat, SequenceStats> := map[];
      for i := 0 to |items|
        invariant records == ToRecords(items[..i])
        invariant statsBySequenceNumber.Keys == Numbers(items[..i])
        invariant forall n :: n in statsBySequenceNumber ==> statsBySequenceNumber[n] == Tally(items[..i], n)
      {
        var item := items[i];
        var number := item.sequenceNumber;
        var sequenceStats := if number in statsBySequenceNumber then statsBySequenceNumber[number] else NO_STATS;
        if number !in statsBySequenceNumber {
          TallyOfOtherNumbers(items[..i], number);
        }
        assert items[..i + 1][..i] == items[..i];
        statsBySequenceNumber := statsBySequenceNumber[number := Counted(sequenceStats, item.manifestFile)];
        records := records + [ToRecord(item)];
      }
      assert items[..|items|] == items;
      var last := items[0];
      assert last.sequenceNumber in Numbers(items);
      var stats := statsBySequenceNumber[last.sequenceNumber];
      var operation := Append;
      if |statsBySequenceNumber.Keys| == 1 && |records| == 2 && stats.addedDataFiles == 1 && stats.deletedDataFiles == 1 {
        operation := Overwrite;
      } else if stats.addedDataFiles == 0 && stats.deletedDataFiles > 0 {
        operation := Delete;
      }
      file := ManifestListFile(last.sequenceNumber, last.manifestFile.snapshotId, path, operation, stats);
    }

    method CreateManifestList(parquetUuid: Uuid, items: seq<ManifestListItem>) returns (file: ManifestListFile)
      requires Valid() && items != [] && parquetUuid < nextUuid && items[0].manifestFile.snapshotId < clock
      modifies this
      ensures OneStep() && nextUuid == old(nextUuid) && clock == old(clock)
      ensures file == ManifestListFile(
          items[0].sequenceNumber, items[0].manifestFile.snapshotId,
          ListPath(items[0].manifestFile.snapshotId, parquetUuid), OperationOf(items),
          Tally(items, items[0].sequenceNumber))
      ensures disk == old(disk).(manifestLists := old(disk).manifestLists[file.path := ToRecords(items)])
      ensures CountsOf(disk.manifestLists[file.path], file.sequenceNumber) == CountsIn(file.stats)
    {
      hide ViewOf, CountsOf;
      var path := ListPath(items[0].manifestFile.snapshotId, parquetUuid);
      var records;
      records, file := WriteManifestListFile(path, items);
      disk := disk.(manifestLists := disk.manifestLists[path := records]);
      seen := seen + {ViewOf(disk)};
    }

    /** One snapshot per manifest list, with the running totals up to it. */
    method WriteMetadataFile(lists: seq<ManifestListFile>) returns (metadata: Metadata)
      requires lists != []
      ensures Lists(metadata) == lists
      ensures forall i :: 0 <= i < |lists| ==> metadata.snapshots[i].totals == RunningTotals(lists[..i + 1])
      ensures ParentsAreInOrder(metadata)
      ensures metadata.lastSequenceNumber == lists[|lists| - 1].sequenceNumber
      ensures metadata.currentSnapshotId == lists[|lists| - 1].snapshotId
    {
      hide RunningTotals, NetChange;
      var snapshots: seq<Snapshot> := [];
      var totals := NOTHING;
      NoRunningTotals(lists);
      for i := 0 to |lists|
        invariant |snapshots| == i && totals == RunningTotals(lists[..i])
        invariant forall j :: 0 <= j < i ==>
          && snapshots[j].list == lists[j]
          && snapshots[j].totals == RunningTotals(lists[..j + 1])
          && snapshots[j].parentSnapshotId == if j == 0 then None else Some(lists[j - 1].snapshotId)
      {
        NextRunningTotals(lists, i);
        totals := totals.Plus(NetChange(lists[i]));
        snapshots := snapshots + [Snapshot(lists[i], totals, if i == 0 then None else Some(lists[i - 1].snapshotId))];
      }
      var last := lists[|lists| - 1];
      metadata := Metadata(snapshots, last.sequenceNumber, last.snapshotId);
      ParentsOf(metadata, lists);
    }

    static lemma ParentsOf(metadata: Metadata, lists: seq<ManifestListFile>)
      requires Lists(metadata) == lists
      requires forall i :: 0 <= i < |lists| ==>
        metadata.snapshots[i].parentSnapshotId == if i == 0 then None else Some(lists[i - 1].snapshotId)
      ensures ParentsAreInOrder(metadata)
    {
    }

    /** The last list becomes current. */
    method CreateMetadata(lists: seq<ManifestListFile>)
      requires Valid() && lists != [] && forall list :: list in lists ==> list.snapshotId < clock
      modifies this
      ensures OneStep() && nextUuid == old(nextUuid) && clock == old(clock)
      ensures disk.metadata.Some? && disk == old(disk).(metadata := disk.metadata)
      ensures var metadata := disk.metadata.value;
        && Lists(metadata) == lists
        && (forall i :: 0 <= i < |lists| ==> metadata.snapshots[i].totals == RunningTotals(lists[..i + 1]))
        && ParentsAreInOrder(metadata)
        && metadata.lastSequenceNumber == lists[|lists| - 1].sequenceNumber
        && metadata.currentSnapshotId == lists[|lists| - 1].snapshotId
    {
      hide ViewOf, RunningTotals, Lists;
      var metadata := WriteMetadataFile(lists);
      SnapshotIds(metadata, clock);
      disk := disk.(metadata := Some(metadata));
      seen := seen + {ViewOf(disk)};
    }

    static lemma SnapshotIds(metadata: Metadata, clock: nat)
      requires forall list :: list in Lists(metadata) ==> list.snapshotId < clock
      ensures forall s :: s in metadata.snapshots ==> s.list.snapshotId < clock
    {
      forall s | s in metadata.snapshots ensures s.list.snapshotId < clock {
        var i :| 0 <= i < |metadata.snapshots| && metadata.snapshots[i] == s;
        assert s.list == Lists(metadata)[i];
      }
    }

    method WriteInternalTableMetadata(metadata: PendingMetadata)
      requires Valid()
      modifies this
      ensures OneStep() && nextUuid == old(nextUuid) && clock == old(clock)
      ensures disk == old(disk).(checkpoint := metadata.Stored())
    {
      hide ViewOf;
      disk := disk.(checkpoint := metadata.Stored());
      seen := seen + {ViewOf(disk)};
    }

    method ExistingManifestListFiles() returns (lists: seq<ManifestListFile>)
      requires disk.metadata.Some?
      ensures lists == Lists(disk.metadata.value)
    {
      lists := [];
      var snapshots := disk.metadata.value.snapshots;
      for i := 0 to |snapshots|
        invariant |lists| == i && forall j :: 0 <= j < i ==> lists[j] == snapshots[j].list
      {
        lists := lists + [snapshots[i].list];
      }
    }

    method ExistingManifestListItems(list: ManifestListFile) returns (items: seq<ManifestListItem>)
      requires list.path in disk.manifestLists
      ensures items == FromRecords(disk.manifestLists[list.path])
    {
      items := [];
      var records := disk.manifestLists[list.path];
      for i := 0 to |records|
        invariant |items| == i && forall j :: 0 <= j < i ==> items[j] == FromRecord(records[j])
      {
        items := items + [FromRecord(records[i])];
      }
    }

    method ExistingParquetFilePath(manifest: ManifestFile) returns (uuid: Uuid)
      requires manifest.path in disk.manifests
      ensures uuid == disk.manifests[manifest.path].data
    {
      uuid := disk.manifests[manifest.path].data;
    }
  }
}
