/** Writing the chunks of one sync into a table: merge, number, commit. */
module IcebergWriter {
  import opened Checkpoint
  import opened RowMatch
  import opened Lake
  import opened CopyStream
  import opened Loader
  import opened Attempt
  import opened Storage
  import opened Merge

  /** The lists that Write keeps while it goes through the chunks: the items of the files written
    * by this sync and of the older ones, the manifest lists so far, and the last number used. */
  datatype Progress = Progress(
    newSortedDesc: seq<ManifestListItem>, existingSortedDesc: seq<ManifestListItem>,
    listsSortedAsc: seq<ManifestListFile>, last: nat)
  {
    function Items(): seq<ManifestListItem> {
      newSortedDesc + existingSortedDesc
    }
  }

  /** Numbers and totals agree: the lists are numbered one by one, the live items carry distinct
    * numbers among them, and what the lists changed adds up to the live files. */
  ghost predicate Accounted(disk: Disk, p: Progress, clock: nat) {
    && Numbered(p.listsSortedAsc) && |p.listsSortedAsc| == p.last
    && Distinct(disk, p.Items(), p.last)
    && RunningTotals(p.listsSortedAsc) == LiveTotals(disk, ItemPaths(p.Items()))
    && forall list :: list in p.listsSortedAsc ==> list.snapshotId < clock
  }

  /** The files hold the chunks, and what the chunks left of the older rows. */
  ghost predicate HoldsChunks(
      schema: Schema, disk: Disk, p: Progress, existing: seq<Row>, chunks: seq<seq<SourceRow>>) {
    && ScanRows(disk, ItemPaths(p.newSortedDesc)) == NewRows(chunks)
    && ScanRows(disk, ItemPaths(p.existingSortedDesc)) == KeptRows(schema, existing, chunks)
  }

  /** The committed table is the one that Write has in hand. */
  ghost predicate IsCurrent(disk: Disk, p: Progress) {
    && HasTable(disk)
    && Lists(disk.metadata.value) == p.listsSortedAsc
    && CurrentRecords(disk) == ToRecords(p.Items())
  }

  lemma PathsOfConcat(a: seq<ManifestListItem>, b: seq<ManifestListItem>)
    ensures ItemPaths(a + b) == ItemPaths(a) + ItemPaths(b)
  {
  }

  lemma PathsOfRecords(items: seq<ManifestListItem>)
    ensures RecordPaths(ToRecords(items)) == ItemPaths(items)
  {
  }

  lemma {:induction false} NothingKept(schema: Schema, chunks: seq<seq<SourceRow>>)
    ensures KeptRows(schema, [], chunks) == []
  {
    if chunks != [] {
      NothingKept(schema, chunks[..|chunks| - 1]);
    }
  }

  /** The items of this sync keep their numbers; the merged ones got numbers after all of them. */
  lemma MergedIsDistinct(t: Task, disk: Disk, p: Progress, m: Merged)
    requires Distinct(disk, p.Items(), p.last) && t.originalLast == p.last
    requires MergedOrder(t, disk, p.existingSortedDesc, m)
    ensures Distinct(disk, p.newSortedDesc + m.itemsSortedDesc, m.last)
  {
    hide LiveItem;
    var result, last := m.itemsSortedDesc, m.last;
    var items, merged := p.Items(), p.newSortedDesc + result;
    var n := |p.newSortedDesc|;
    forall i, j | 0 <= i < j < |merged| ensures merged[i].sequenceNumber != merged[j].sequenceNumber {
      if i < n <= j {
        assert merged[i] == items[i];
        var item := merged[j];
        assert item == result[j - n];
        if item in p.existingSortedDesc {
          var k :| 0 <= k < |p.existingSortedDesc| && p.existingSortedDesc[k] == item;
          assert items[n + k] == item;
        }
      } else if j < n {
        assert merged[i] == items[i] && merged[j] == items[j];
      } else {
        assert merged[i] == result[i - n] && merged[j] == result[j - n];
      }
    }
    forall item | item in merged ensures 1 <= item.sequenceNumber <= last && LiveItem(disk, item) {
      if item in p.newSortedDesc {
        assert item in items;
      }
    }
  }

  lemma MergedTotals(t: Task, disk: Disk, p: Progress, m: Merged)
    requires RunningTotals(p.listsSortedAsc) == LiveTotals(disk, ItemPaths(p.Items()))
    requires MergedRows(t, disk, p.existingSortedDesc, m)
    ensures RunningTotals(p.listsSortedAsc + m.lists) == LiveTotals(disk, ItemPaths(p.newSortedDesc + m.itemsSortedDesc))
  {
    hide LiveTotals, RunningTotals, ScanRows, Surviving;
    RunningTotalsConcat(p.listsSortedAsc, m.lists);
    PathsOfConcat(p.newSortedDesc, p.existingSortedDesc);
    PathsOfConcat(p.newSortedDesc, m.itemsSortedDesc);
    LiveTotalsConcat(disk, ItemPaths(p.newSortedDesc), ItemPaths(p.existingSortedDesc));
    LiveTotalsConcat(disk, ItemPaths(p.newSortedDesc), ItemPaths(m.itemsSortedDesc));
  }

  lemma AccountedExtends(before: Disk, after: Disk, p: Progress, clock: nat, later: nat)
    requires Accounted(before, p, clock) && Extends(before, after) && clock <= later
    ensures Accounted(after, p, later)
  {
    DistinctExtends(before, after, p.Items(), p.last, p.last);
    PathsAreLive(before, p.Items());
    ExtendsKeepsFiles(before, after, ItemPaths(p.Items()));
  }

  /** What Write has in hand after a merge. */
  function AfterMerging(p: Progress, m: Merged): Progress {
    Progress(p.newSortedDesc, m.itemsSortedDesc, p.listsSortedAsc + m.lists, m.last)
  }

  lemma MergedIsAccounted(t: Task, disk: Disk, p: Progress, clock: nat, m: Merged)
    requires Accounted(disk, p, clock) && t.originalLast == p.last
    requires MergedRows(t, disk, p.existingSortedDesc, m) && MergedOrder(t, disk, p.existingSortedDesc, m)
    requires forall list :: list in m.lists ==> list.snapshotId < clock
    ensures Accounted(disk, AfterMerging(p, m), clock)
  {
    hide MergedRows, LiveItem, LiveTotals, RunningTotals;
    MergedIsDistinct(t, disk, p, m);
    MergedTotals(t, disk, p, m);
    NumberedConcat(p.listsSortedAsc, m.lists);
  }

  lemma NumberedConcat(a: seq<ManifestListFile>, b: seq<ManifestListFile>)
    requires Numbered(a) && forall k :: 0 <= k < |b| ==> b[k].sequenceNumber == |a| + 1 + k
    ensures Numbered(a + b)
  {
  }

  lemma MergedHoldsChunks(
    t: Task, before: Disk, after: Disk, p: Progress, existing: seq<Row>, chunks: seq<seq<SourceRow>>,
    chunk: seq<SourceRow>, m: Merged)
    requires HoldsChunks(t.schema, before, p, existing, chunks) && Extends(before, after)
    requires forall item :: item in p.Items() ==> LiveItem(before, item)
    requires MergedRows(t, after, p.existingSortedDesc, m) && t.chunk == RowsOf(chunk)
    ensures ScanRows(after, ItemPaths(p.newSortedDesc)) == NewRows(chunks)
    ensures ScanRows(after, ItemPaths(m.itemsSortedDesc)) == KeptRows(t.schema, existing, chunks + [chunk])
  {
    hide LiveItem, LivePath, Surviving, ItemPaths, LiveTotals, RunningTotals;
    PathsAreLive(before, p.newSortedDesc);
    PathsAreLive(before, p.existingSortedDesc);
    ExtendsKeepsFiles(before, after, ItemPaths(p.newSortedDesc));
    ExtendsKeepsFiles(before, after, ItemPaths(p.existingSortedDesc));
    assert (chunks + [chunk])[..|chunks|] == chunks;
  }

  /** The new file, its list and its number. */
  function Appended(p: Progress, item: ManifestListItem, list: ManifestListFile): Progress {
    Progress([item] + p.newSortedDesc, p.existingSortedDesc, p.listsSortedAsc + [list], p.last + 1)
  }

  lemma ItemsOfAppended(p: Progress, item: ManifestListItem, list: ManifestListFile)
    ensures Appended(p, item, list).Items() == [item] + p.Items()
  {
    assert ([item] + p.newSortedDesc) + p.existingSortedDesc == [item] + (p.newSortedDesc + p.existingSortedDesc);
  }

  lemma AppendedIsDistinct(disk: Disk, p: Progress, item: ManifestListItem, list: ManifestListFile)
    requires Distinct(disk, p.Items(), p.last) && LiveItem(disk, item) && item.sequenceNumber == p.last + 1
    ensures Distinct(disk, Appended(p, item, list).Items(), p.last + 1)
  {
    hide LiveItem;
    ItemsOfAppended(p, item, list);
    DistinctCons(disk, item, p.Items(), p.last, p.last + 1);
  }

  lemma AppendedTotals(disk: Disk, p: Progress, item: ManifestListItem, list: ManifestListFile)
    requires RunningTotals(p.listsSortedAsc) == LiveTotals(disk, ItemPaths(p.Items()))
    requires NetChange(list) == FileTotals(disk, item.manifestFile.path)
    ensures RunningTotals(p.listsSortedAsc + [list]) == LiveTotals(disk, ItemPaths(Appended(p, item, list).Items()))
  {
    hide LiveTotals, FileTotals, NetChange, ItemPaths, ScanRows;
    ItemsOfAppended(p, item, list);
    ScanOfCons(disk, item, p.Items());
    assert (p.listsSortedAsc + [list])[..|p.listsSortedAsc|] == p.listsSortedAsc;
  }

  /** Adding the file of a chunk under the next number keeps the accounts. */
  lemma AppendedIsAccounted(disk: Disk, p: Progress, clock: nat, item: ManifestListItem, list: ManifestListFile)
    requires Accounted(disk, p, clock) && LiveItem(disk, item)
    requires item.sequenceNumber == list.sequenceNumber == p.last + 1 && list.snapshotId < clock
    requires NetChange(list) == FileTotals(disk, item.manifestFile.path)
    ensures Accounted(disk, Appended(p, item, list), clock)
  {
    hide LiveItem, FileTotals, NetChange, ItemPaths, RunningTotals, LiveTotals, Distinct;
    AppendedIsDistinct(disk, p, item, list);
    AppendedTotals(disk, p, item, list);
    NumberedConcat(p.listsSortedAsc, [list]);
  }

  /** Reading the committed table gives the chunks, latest first, and the older rows they left. */
  lemma CurrentTable(schema: Schema, disk: Disk, p: Progress, existing: seq<Row>, chunks: seq<seq<SourceRow>>)
    requires IsCurrent(disk, p) && HoldsChunks(schema, disk, p, existing, chunks)
    ensures TableRows(disk) == NewRows(chunks) + KeptRows(schema, existing, chunks)
  {
    PathsOfRecords(p.Items());
    PathsOfConcat(p.newSortedDesc, p.existingSortedDesc);
    ScanRowsConcat(disk, ItemPaths(p.newSortedDesc), ItemPaths(p.existingSortedDesc));
  }

  /** The new file in front: one more chunk. */
  lemma AppendedHoldsChunks(
    schema: Schema, before: Disk, after: Disk, p: Progress, existing: seq<Row>, chunks: seq<seq<SourceRow>>,
    chunk: seq<SourceRow>, item: ManifestListItem)
    requires forall i :: i in p.Items() ==> LiveItem(before, i)
    requires Extends(before, after)
    requires ScanRows(before, ItemPaths(p.newSortedDesc)) == NewRows(chunks)
    requires ScanRows(before, ItemPaths(p.existingSortedDesc)) == KeptRows(schema, existing, chunks + [chunk])
    requires FileRows(after, item.manifestFile.path) == RowsOf(chunk)
    ensures HoldsChunks(schema, after, p.(newSortedDesc := [item] + p.newSortedDesc), existing, chunks + [chunk])
  {
    hide KeptRows;
    PathsAreLive(before, p.newSortedDesc);
    PathsAreLive(before, p.existingSortedDesc);
    ExtendsKeepsFiles(before, after, ItemPaths(p.newSortedDesc));
    ExtendsKeepsFiles(before, after, ItemPaths(p.existingSortedDesc));
    ScanOfCons(after, item, p.newSortedDesc);
    assert (chunks + [chunk])[..|chunks|] == chunks;
  }

  /** The metadata was written from what Write has in hand, with the list of the new file last. */
  ghost predicate JustCommitted(disk: Disk, p: Progress, clock: nat) {
    && IsCurrent(disk, p) && |p.listsSortedAsc| == p.last
    && p.newSortedDesc != [] && p.newSortedDesc[0].sequenceNumber == p.last
    && (forall i :: 0 <= i < p.last ==> disk.metadata.value.snapshots[i].totals == RunningTotals(p.listsSortedAsc[..i + 1]))
    && CurrentList(disk).path.snapshotId == CurrentList(disk).snapshotId == disk.metadata.value.currentSnapshotId < clock
    && disk.metadata.value.lastSequenceNumber == p.last && ParentsAreInOrder(disk.metadata.value)
    && (forall i :: 0 <= i < p.last - 1 ==> p.listsSortedAsc[i].snapshotId != CurrentList(disk).snapshotId)
  }

  lemma CommittedIsConsistent(disk: Disk, p: Progress, clock: nat)
    requires Accounted(disk, p, clock)
    requires JustCommitted(disk, p, clock)
    ensures Consistent(disk) && Readable(disk)
  {
    hide RunningTotals, LiveTotals, LivePath;
    PathsOfRecords(p.Items());
    PathsAreLive(disk, p.Items());
    var records := CurrentRecords(disk);
    assert records[0].sequenceNumber == p.Items()[0].sequenceNumber == p.last;
    forall r | r in records ensures 1 <= r.sequenceNumber <= p.last && LiveRecord(disk, r) {
      var i :| 0 <= i < |records| && records[i] == r;
      assert p.Items()[i] in p.Items();
      assert LiveItem(disk, p.Items()[i]);
    }
    forall i, j | 0 <= i < j < |records| ensures records[i].sequenceNumber != records[j].sequenceNumber {
      assert p.Items()[i].sequenceNumber != p.Items()[j].sequenceNumber;
    }
  }

  /** What holds between two chunks: the files in hand hold the chunks and add up, and no name that
    * the next chunk may write to is the one of the list that a reader opens. */
  ghost predicate BetweenChunks(
    schema: Schema, disk: Disk, clock: nat, uuid: Uuid, p: Progress, existing: seq<Row>, chunks: seq<seq<SourceRow>>)
  {
    && Readable(disk)
    && Accounted(disk, p, clock)
    && HoldsChunks(schema, disk, p, existing, chunks)
    && (HasTable(disk) ==> CurrentList(disk).path.snapshotId < clock)
    && (forall item :: item in p.existingSortedDesc ==> SparesCurrentList(disk, item.manifestFile.snapshotId, uuid))
  }

  /** Where the loop of Write is: what it has in hand and on disk, what a crash would have left, and what is
    * still to come. */
  datatype Situation = Situation(
    p: Progress, disk: Disk, clock: nat, seen: set<View>, pending: seq<SourceRow>, xmin: Xid)

  /** The loop of Write over `source`, by the sync whose first file is `uuid`. */
  ghost predicate Writing(
      schema: Schema, a: Attempt, source: seq<SourceRow>, uuid: Uuid, w: Situation, reachedEnd: bool) {
    && Consistent(w.disk)
    && (a.continuedRefresh || a.chunks != [] ==> w.disk.metadata.Some?)
    && BetweenChunks(schema, w.disk, w.clock, uuid, w.p, ExistingRows(a), a.chunks)
    && (!a.continuedRefresh ==> w.p.existingSortedDesc == [])
    && Flatten(a.chunks) + w.pending == source
    && w.xmin == XminAfter(a.seed, Flatten(a.chunks))
    && (forall chunk :: chunk in a.chunks && chunk == [] ==> a.chunks == [[]] && !a.continuedRefresh && w.pending == [])
    && AtChunk(schema, a, ViewOf(w.disk), reachedEnd)
    && (forall v :: v in w.seen ==> InProgress(schema, a, v) || v == ViewOf(w.disk))
  }

  /** The rows of one data file: it ends where the payload reaches the threshold, or with the last row. */
  ghost predicate FillsFile(
      rowSize: Row -> nat, threshold: nat, rowCountPerBatch: nat, chunk: seq<SourceRow>, drained: bool) {
    exists batches :: RowsOf(chunk) == Joined(batches) && IsFilled(rowSize, threshold, rowCountPerBatch, batches, drained)
  }

  /** Every chunk fills a file, and the rows ran out with the last one if `drained`. */
  ghost predicate FillFiles(
      rowSize: Row -> nat, threshold: nat, rowCountPerBatch: nat, chunks: seq<seq<SourceRow>>, drained: bool) {
    forall i :: 0 <= i < |chunks| ==> FillsFile(rowSize, threshold, rowCountPerBatch, chunks[i], i == |chunks| - 1 && drained)
  }

  lemma NoneToFill(rowSize: Row -> nat, threshold: nat, rowCountPerBatch: nat, drained: bool)
    ensures FillFiles(rowSize, threshold, rowCountPerBatch, [], drained)
  {
  }

  lemma FillOneMore(
    rowSize: Row -> nat, threshold: nat, rowCountPerBatch: nat, chunks: seq<seq<SourceRow>>, before: bool,
    chunk: seq<SourceRow>, batches: seq<seq<Row>>, drained: bool)
    requires FillFiles(rowSize, threshold, rowCountPerBatch, chunks, before) && (chunks != [] ==> !before)
    requires RowsOf(chunk) == Joined(batches) && IsFilled(rowSize, threshold, rowCountPerBatch, batches, drained)
    ensures FillFiles(rowSize, threshold, rowCountPerBatch, chunks + [chunk], drained)
  {
    hide IsFilled, Joined;
    var all := chunks + [chunk];
    forall i | 0 <= i < |chunks| ensures FillsFile(rowSize, threshold, rowCountPerBatch, all[i], false) {
      assert FillsFile(rowSize, threshold, rowCountPerBatch, chunks[i], i == |chunks| - 1 && before);
    }
  }

  /** One more chunk through the loop. */
  lemma ChunkWritten(
    schema: Schema, a: Attempt, source: seq<SourceRow>, uuid: Uuid, w: Situation, chunk: seq<SourceRow>,
    w': Situation, reachedEnd: bool)
    requires Writing(schema, a, source, uuid, w, false)
    requires chunk <= w.pending && w'.pending == w.pending[|chunk|..] && w'.xmin == XminAfter(w.xmin, chunk)
    requires chunk == [] ==> w.pending == [] && a.chunks == [] && !a.continuedRefresh
    requires chunk != [] || a.aborted || reachedEnd
    requires BetweenChunks(schema, w'.disk, w'.clock, uuid, w'.p, ExistingRows(a), a.chunks + [chunk]) && Consistent(w'.disk)
    requires var chunks := a.chunks + [chunk];
      TableRows(w'.disk) == NewRows(chunks) + KeptRows(schema, ExistingRows(a), chunks)
    requires w'.disk.checkpoint == CheckpointAt(a.incrementalRefresh, reachedEnd, a.lastTxid, w'.xmin)
    requires w'.seen <= w.seen + {ViewOf(w.disk), View(TableRows(w'.disk), w.disk.checkpoint), ViewOf(w'.disk)}
    requires !a.continuedRefresh ==> w'.p.existingSortedDesc == []
    requires w'.disk.metadata.Some?
    ensures Writing(schema, a.(chunks := a.chunks + [chunk]), source, uuid, w', reachedEnd)
  {
    hide BetweenChunks, Consistent, InProgress, AtChunk, Flatten, XminAfter, TableRows, NewRows, KeptRows;
    var chunks := a.chunks + [chunk];
    ReadNext(a.seed, a.chunks, chunk);
    assert w.pending == chunk + w'.pending;
    assert (Flatten(a.chunks) + chunk) + w'.pending == source;
    AtChunkInProgress(schema, a, ViewOf(w.disk));
    NextChunk(schema, a, chunk, ViewOf(w.disk), TableRows(w'.disk), w'.disk.checkpoint, reachedEnd);
    forall c | c in chunks && c == [] ensures chunks == [[]] && !a.continuedRefresh && w'.pending == [] {
      if c in a.chunks {
        assert false;
      }
    }
  }

  lemma ReadNext(seed: Xid, chunks: seq<seq<SourceRow>>, chunk: seq<SourceRow>)
    ensures Flatten(chunks + [chunk]) == Flatten(chunks) + chunk
    ensures XminAfter(XminAfter(seed, Flatten(chunks)), chunk) == XminAfter(seed, Flatten(chunks + [chunk]))
  {
    assert (chunks + [chunk])[..|chunks|] == chunks;
  }

  /** Nothing more came: the last checkpoint is rewritten, and the table stays. */
  lemma StreamEnded(
    schema: Schema, a: Attempt, source: seq<SourceRow>, uuid: Uuid, w: Situation, disk': Disk, seen': set<View>)
    requires Writing(schema, a, source, uuid, w, false) && w.pending == []
    requires a.continuedRefresh || a.chunks != []
    requires disk' == w.disk.(checkpoint := CheckpointAt(a.incrementalRefresh, !a.aborted, a.lastTxid, w.xmin))
    requires seen' <= w.seen + {ViewOf(w.disk), ViewOf(disk')}
    ensures Consistent(disk') && Ended(schema, a, ViewOf(disk'))
    ensures Flatten(a.chunks) == source
    ensures forall v :: v in seen' ==> Shows(schema, a, v)
  {
    hide BetweenChunks, Consistent, InProgress, AtChunk, Flatten, XminAfter, Ended, ViewOf;
    assert Flatten(a.chunks) + [] == Flatten(a.chunks);
    AtChunkInProgress(schema, a, ViewOf(w.disk));
    LastCheckpoint(schema, a, ViewOf(w.disk), disk'.checkpoint);
    CheckpointRewritten(w.disk, disk');
  }

  lemma CheckpointRewritten(before: Disk, after: Disk)
    requires Consistent(before) && after == before.(checkpoint := after.checkpoint)
    ensures ViewOf(after) == View(ViewOf(before).rows, after.checkpoint)
    ensures Consistent(after)
  {
    hide LiveTotals, ScanRows, RunningTotals, CurrentListInOrder, LivePath;
    if before.metadata.Some? {
      ExtendsKeepsFiles(before, after, RecordPaths(CurrentRecords(before)));
      OrderKept(before, after, CurrentRecords(before), |Lists(before.metadata.value)|);
    }
  }

  lemma OrderKept(before: Disk, after: Disk, records: seq<ListRecord>, last: nat)
    requires Extends(before, after) && CurrentListInOrder(before, records, last)
    ensures CurrentListInOrder(after, records, last)
  {
    forall r | r in records ensures LiveRecord(after, r) {
      assert LiveRecord(before, r);
    }
  }

  /** The whole stream is in, and the loop stopped because its end was reached. */
  lemma StreamDone(schema: Schema, a: Attempt, source: seq<SourceRow>, uuid: Uuid, w: Situation)
    requires Writing(schema, a, source, uuid, w, true) && w.pending == [] && a.chunks != [] && !a.aborted
    ensures Ended(schema, a, ViewOf(w.disk))
    ensures Flatten(a.chunks) == source
    ensures forall v :: v in w.seen ==> Shows(schema, a, v)
  {
    hide BetweenChunks, Consistent, InProgress, AtChunk, Flatten, XminAfter, Ended, ViewOf;
    assert Flatten(a.chunks) + [] == Flatten(a.chunks);
    AtChunkEnded(schema, a, ViewOf(w.disk));
  }

  // Steps on the way to a commit

  lemma AddingManifest(before: Disk, after: Disk, path: ManifestPath, entry: ManifestEntry)
    requires path !in before.manifests && after == before.(manifests := before.manifests[path := entry])
    ensures Undisturbed(before, after)
  {
  }

  lemma AddingList(before: Disk, after: Disk, path: ListPath, records: seq<ListRecord>)
    requires after == before.(manifestLists := before.manifestLists[path := records])
    requires HasTable(before) ==> CurrentList(before).path != path
    ensures Undisturbed(before, after)
  {
  }

  lemma UndisturbedThen(a: Disk, b: Disk, c: Disk)
    requires Undisturbed(a, b) && Undisturbed(b, c)
    ensures Undisturbed(a, c)
    ensures HasTable(a) ==> HasTable(b) && CurrentList(b).path == CurrentList(a).path
  {
  }

  lemma UndisturbedKeepsItem(before: Disk, after: Disk, item: ManifestListItem)
    requires Undisturbed(before, after) && LiveItem(before, item)
    ensures LiveItem(after, item)
    ensures after.manifests[item.manifestFile.path] == before.manifests[item.manifestFile.path]
  {
  }

  /** The list of a rewritten file describes what it replaces and by what. */
  lemma OverwriteDescribed(disk: Disk, existing: ManifestListItem, item: ManifestListItem, list: ManifestListFile)
    requires LiveItem(disk, existing) && LiveItem(disk, item)
    requires var gone, come := disk.manifests[existing.manifestFile.path], disk.manifests[item.manifestFile.path];
      list.operation == Overwrite
      && list.stats == SequenceStats(come.size, 1, come.recordCount, gone.size, 1, gone.recordCount)
    ensures DescribesStep(disk, list, Step(existing.manifestFile.path, Some(item.manifestFile.path)))
  {
  }

  lemma DeleteDescribed(disk: Disk, existing: ManifestListItem, list: ManifestListFile)
    requires LiveItem(disk, existing)
    requires var gone := disk.manifests[existing.manifestFile.path];
      list.operation == Delete && list.stats == SequenceStats(0, 0, 0, gone.size, 1, gone.recordCount)
    ensures DescribesStep(disk, list, Step(existing.manifestFile.path, None))
  {
  }

  lemma NewItemIsLive(disk: Disk, item: ManifestListItem)
    requires var file := item.manifestFile;
      && !file.recordsDeleted && file.path in disk.manifests
      && var entry := disk.manifests[file.path];
        && entry.data in disk.parquets && entry == ManifestEntry(false, file.snapshotId, entry.data, file.recordCount, file.dataFileSize)
        && |disk.parquets[entry.data].rows| == file.recordCount && disk.parquets[entry.data].size == file.dataFileSize
    ensures LiveItem(disk, item)
  {
  }

  function Without<T>(s: seq<T>, i: nat): seq<T>
    requires i < |s|
  {
    s[..i] + s[i + 1..]
  }

  /** The item that records the deletion of an existing file. */
  function Deletion(disk: Disk, existing: ManifestListItem, uuid: Uuid, number: nat): ManifestListItem
    requires existing.manifestFile.path in disk.manifests
  {
    var entry := disk.manifests[existing.manifestFile.path];
    ManifestListItem(number, ManifestFile(true, entry.snapshotId, DeletedManifest(uuid), entry.recordCount, entry.size))
  }

  /** The record of a deletion: no file and no row added, one file deleted with all the rows it had, under the
    * snapshot that added it. */
  lemma DeletionRecorded(disk: Disk, existing: ManifestListItem, uuid: Uuid, number: nat)
    requires LiveItem(disk, existing)
    ensures ToRecord(Deletion(disk, existing, uuid, number)) == ListRecord(
      existing.manifestFile.snapshotId, DeletedManifest(uuid), number, 0, 0, 1, |FileRows(disk, existing.manifestFile.path)|)
  {
  }

  lemma AdditionRecorded(item: ManifestListItem)
    requires !item.manifestFile.recordsDeleted
    ensures ToRecord(item) == ListRecord(
      item.manifestFile.snapshotId, item.manifestFile.path, item.sequenceNumber, 1, item.manifestFile.recordCount, 0, 0)
  {
  }

  class IcebergWriterTable {
    const schema: Schema
    const rowCountPerBatch: nat
    const maxPayloadThreshold: nat
    const continuedRefresh: bool
    const storage: Storage

    constructor (
        schema: Schema, rowCountPerBatch: nat, maxPayloadThreshold: nat, continuedRefresh: bool, storage: Storage)
      requires rowCountPerBatch > 0
      ensures Valid()
      ensures this.schema == schema && this.continuedRefresh == continuedRefresh && this.storage == storage
      ensures this.rowCountPerBatch == rowCountPerBatch && this.maxPayloadThreshold == maxPayloadThreshold
    {
      this.schema, this.rowCountPerBatch, this.maxPayloadThreshold := schema, rowCountPerBatch, maxPayloadThreshold;
      this.continuedRefresh, this.storage := continuedRefresh, storage;
    }

    ghost predicate Valid() {
      rowCountPerBatch > 0
    }

    ghost function Now(p: Progress, pending: seq<SourceRow>, xmin: Xid): Situation
      reads storage
    {
      Situation(p, storage.disk, storage.clock, storage.seen, pending, xmin)
    }

    /** Every row of the file at position `i` is replaced: a list of the deletion and the other files, latest first. */
    method DeleteFile(
        itemsSortedAsc: seq<ManifestListItem>, i: nat, overwritten: ParquetFile, first: ParquetFile, last: nat)
      returns (list: ManifestListFile)
      requires i < |itemsSortedAsc| && overwritten.uuid < storage.nextUuid && first.uuid < storage.nextUuid
      requires storage.Valid() && Readable(storage.disk)
      requires Distinct(storage.disk, itemsSortedAsc, last)
      requires DeletedManifest(overwritten.uuid) !in storage.disk.manifests
      requires SparesCurrentList(storage.disk, itemsSortedAsc[i].manifestFile.snapshotId, first.uuid)
      modifies storage
      ensures storage.Valid() && Undisturbed(old(storage.disk), storage.disk)
      ensures storage.nextUuid == old(storage.nextUuid) && storage.clock == old(storage.clock)
      ensures storage.seen <= old(storage.seen) + {ViewOf(old(storage.disk))}
      ensures storage.disk.manifests.Keys == old(storage.disk).manifests.Keys + {DeletedManifest(overwritten.uuid)}
      ensures list.sequenceNumber == last + 1 && list.snapshotId < storage.clock
      ensures DescribesStep(storage.disk, list, Step(itemsSortedAsc[i].manifestFile.path, None))
      ensures list.path == ListPath(itemsSortedAsc[i].manifestFile.snapshotId, first.uuid)
      ensures itemsSortedAsc[i].manifestFile.path in storage.disk.manifests
      ensures list.path in storage.disk.manifestLists && storage.disk.manifestLists[list.path] == ToRecords(
        [Deletion(storage.disk, itemsSortedAsc[i], overwritten.uuid, last + 1)] + Backwards(Without(itemsSortedAsc, i)))
      ensures storage.disk.manifestLists[list.path][0]
        == ListRecord(itemsSortedAsc[i].manifestFile.snapshotId, DeletedManifest(overwritten.uuid), last + 1,
                      0, 0, 1, |FileRows(old(storage.disk), itemsSortedAsc[i].manifestFile.path)|)
      ensures CountsOf(storage.disk.manifestLists[list.path], last + 1) == CountsIn(list.stats)
    {
      hide ViewOf, Undisturbed, Readable, LivePath, DescribesStep, Tally, OperationOf, Backwards, CountsOf, ToRecord, FileRows;
      ghost var before := storage.disk;
      var existing := itemsSortedAsc[i];
      assert existing in itemsSortedAsc;
      ItemHasManifest(before, existing);
      var deletedRecs := storage.CreateDeletedRecordsManifest(overwritten.uuid, existing.manifestFile);
      ghost var marked := storage.disk;
      AddingManifest(before, marked, deletedRecs.path, marked.manifests[deletedRecs.path]);
      UndisturbedKeepsView(before, marked);
      UndisturbedKeepsItem(before, marked, existing);
      var items := ReplaceAt(itemsSortedAsc, i, ManifestListItem(last + 1, deletedRecs));
      SummaryOfHead(items);
      SparesCurrentListKeptBy(before, marked, existing.manifestFile.snapshotId, first.uuid);
      list := storage.CreateManifestList(first.uuid, items);
      AddingList(marked, storage.disk, list.path, ToRecords(items));
      UndisturbedThen(before, marked, storage.disk);
      UndisturbedKeepsView(before, storage.disk);
      UndisturbedKeepsItem(marked, storage.disk, existing);
      DeleteDescribed(storage.disk, existing, list);
      DeletionRecorded(before, existing, overwritten.uuid, last + 1);
    }

    /** The other items and the deletion, latest first. */
    method ReplaceAt(itemsSortedAsc: seq<ManifestListItem>, i: nat, deletion: ManifestListItem)
      returns (itemsSortedDesc: seq<ManifestListItem>)
      requires i < |itemsSortedAsc|
      requires forall item :: item in itemsSortedAsc ==> item.sequenceNumber < deletion.sequenceNumber
      ensures itemsSortedDesc == [deletion] + Backwards(Without(itemsSortedAsc, i))
      ensures itemsSortedDesc != [] && itemsSortedDesc[0] == deletion
      ensures forall k :: 0 < k < |itemsSortedDesc| ==> itemsSortedDesc[k].sequenceNumber < deletion.sequenceNumber
    {
      hide Backwards;
      var finalItemsSortedAsc := [];
      for j := 0 to |itemsSortedAsc|
        invariant finalItemsSortedAsc == if j <= i then itemsSortedAsc[..j] else itemsSortedAsc[..i] + itemsSortedAsc[i + 1..j]
      {
        if i != j {
          finalItemsSortedAsc := finalItemsSortedAsc + [itemsSortedAsc[j]];
        }
      }
      assert finalItemsSortedAsc == Without(itemsSortedAsc, i);
      BackwardsOfLast(finalItemsSortedAsc, deletion);
      DeletionIsNewest(itemsSortedAsc, i, deletion);
      itemsSortedDesc := Reverse(finalItemsSortedAsc + [deletion]);
    }

    static lemma BackwardsOfLast(items: seq<ManifestListItem>, last: ManifestListItem)
      ensures Backwards(items + [last]) == [last] + Backwards(items)
    {
      assert (items + [last])[..|items|] == items;
    }

    static lemma DeletionIsNewest(items: seq<ManifestListItem>, i: nat, deletion: ManifestListItem)
      requires i < |items| && forall item :: item in items ==> item.sequenceNumber < deletion.sequenceNumber
      ensures var all := [deletion] + Backwards(Without(items, i));
        forall k :: 0 < k < |all| ==> all[k].sequenceNumber < deletion.sequenceNumber
    {
      hide Backwards;
      var others := Without(items, i);
      assert forall item :: item in others ==> item in items;
      assert forall k :: 0 <= k < |others| ==> Backwards(others)[k] in others;
    }

    /** The manifest of the file that goes, and the one of the file that its surviving rows are in. */
    method MoveRows(existing: ManifestListItem, overwritten: ParquetFile)
      returns (deletedRecs: ManifestFile, manifest: ManifestFile)
      requires overwritten.uuid < storage.nextUuid
      requires storage.Valid() && Readable(storage.disk) && LiveItem(storage.disk, existing)
      requires DeletedManifest(overwritten.uuid) !in storage.disk.manifests
      requires AddedManifest(overwritten.uuid) !in storage.disk.manifests
      modifies storage
      ensures storage.Valid() && Undisturbed(old(storage.disk), storage.disk)
      ensures storage.nextUuid == old(storage.nextUuid) && storage.clock == old(storage.clock) + 1
      ensures storage.seen <= old(storage.seen) + {ViewOf(old(storage.disk))}
      ensures existing.manifestFile.path in old(storage.disk).manifests
      ensures var entry := old(storage.disk).manifests[existing.manifestFile.path];
        && deletedRecs == ManifestFile(true, entry.snapshotId, DeletedManifest(overwritten.uuid), entry.recordCount, entry.size)
        && manifest == ManifestFile(
            false, old(storage.clock), AddedManifest(overwritten.uuid), overwritten.recordCount, overwritten.size)
        && storage.disk == old(storage.disk).(manifests := old(storage.disk).manifests[
            deletedRecs.path := entry.(deleted := true)][manifest.path := ManifestEntry(
              false, old(storage.clock), overwritten.uuid, overwritten.recordCount, overwritten.size)])
    {
      hide ViewOf, Undisturbed, Readable, LivePath;
      ghost var before := storage.disk;
      ItemHasManifest(before, existing);
      deletedRecs := storage.CreateDeletedRecordsManifest(overwritten.uuid, existing.manifestFile);
      ghost var marked := storage.disk;
      AddingManifest(before, marked, deletedRecs.path, marked.manifests[deletedRecs.path]);
      UndisturbedKeepsView(before, marked);
      manifest := storage.CreateManifest(overwritten);
      ghost var added := storage.disk;
      AddingManifest(marked, added, manifest.path, added.manifests[manifest.path]);
      UndisturbedThen(before, marked, added);
      UndisturbedKeepsView(before, added);
    }

    /** Some rows of a file are replaced: the rest moves to a new file, under one new number, in a list of two items. */
    method OverwriteFile(existing: ManifestListItem, overwritten: ParquetFile, first: ParquetFile, last: nat)
      returns (list: ManifestListFile, item: ManifestListItem)
      requires overwritten.uuid < storage.nextUuid && first.uuid < storage.nextUuid
      requires storage.Valid() && Readable(storage.disk)
      requires LiveItem(storage.disk, existing)
      requires overwritten.uuid in storage.disk.parquets
      requires storage.disk.parquets[overwritten.uuid].size == overwritten.size
      requires |storage.disk.parquets[overwritten.uuid].rows| == overwritten.recordCount
      requires DeletedManifest(overwritten.uuid) !in storage.disk.manifests
      requires AddedManifest(overwritten.uuid) !in storage.disk.manifests
      requires HasTable(storage.disk) ==> CurrentList(storage.disk).path.snapshotId < storage.clock
      modifies storage
      ensures storage.Valid() && Undisturbed(old(storage.disk), storage.disk)
      ensures storage.nextUuid == old(storage.nextUuid) && storage.clock > old(storage.clock)
      ensures storage.seen <= old(storage.seen) + {ViewOf(old(storage.disk))}
      ensures storage.disk.manifests.Keys ==
        old(storage.disk).manifests.Keys + {DeletedManifest(overwritten.uuid), AddedManifest(overwritten.uuid)}
      ensures list.sequenceNumber == item.sequenceNumber == last + 1 && list.snapshotId < storage.clock
      ensures item.manifestFile.path == AddedManifest(overwritten.uuid) && LiveItem(storage.disk, item)
      ensures storage.disk.manifests[item.manifestFile.path].data == overwritten.uuid
      ensures item.manifestFile.snapshotId >= old(storage.clock)
      ensures DescribesStep(storage.disk, list, Step(existing.manifestFile.path, Some(item.manifestFile.path)))
      ensures list.path == ListPath(item.manifestFile.snapshotId, first.uuid)
      ensures existing.manifestFile.path in storage.disk.manifests
      ensures list.path in storage.disk.manifestLists && storage.disk.manifestLists[list.path] == [
        ListRecord(item.manifestFile.snapshotId, AddedManifest(overwritten.uuid), last + 1, 1, overwritten.recordCount, 0, 0),
        ListRecord(existing.manifestFile.snapshotId, DeletedManifest(overwritten.uuid), last + 1,
                   0, 0, 1, |FileRows(old(storage.disk), existing.manifestFile.path)|)]
      ensures CountsOf(storage.disk.manifestLists[list.path], last + 1) == CountsIn(list.stats)
    {
      hide ViewOf, Undisturbed, Readable, LivePath, DescribesStep, HasTable, CurrentList, Tally, OperationOf, CountsOf, ToRecord,
        FileRows;
      ghost var before := storage.disk;
      var deletedRecs, manifest := MoveRows(existing, overwritten);
      ghost var added := storage.disk;
      item := ManifestListItem(last + 1, manifest);
      UndisturbedKeepsView(before, added);
      UndisturbedKeepsItem(before, added, existing);
      NewItemIsLive(added, item);
      var items := [item, ManifestListItem(last + 1, deletedRecs)];
      SummaryOfOverwrite(last + 1, manifest, deletedRecs);
      NewerSparesCurrentList(before, added, storage.clock - 1, first.uuid);
      list := storage.CreateManifestList(first.uuid, items);
      AddingList(added, storage.disk, list.path, ToRecords(items));
      UndisturbedThen(before, added, storage.disk);
      UndisturbedKeepsView(before, storage.disk);
      UndisturbedKeepsItem(added, storage.disk, existing);
      UndisturbedKeepsItem(added, storage.disk, item);
      OverwriteDescribed(storage.disk, existing, item, list);
      DeletionRecorded(before, existing, overwritten.uuid, last + 1);
      AdditionRecorded(item);
    }

    static lemma ItemHasManifest(disk: Disk, item: ManifestListItem)
      requires LiveItem(disk, item)
      ensures item.manifestFile.path in disk.manifests && !disk.manifests[item.manifestFile.path].deleted
      ensures disk.manifests[item.manifestFile.path].snapshotId == item.manifestFile.snapshotId
    {
    }

    /** The file at position `i` goes; its surviving rows, if any, are in `overwritten`. */
    method ReplaceFile(
      itemsSortedAsc: seq<ManifestListItem>, i: nat, overwritten: ParquetFile, first: ParquetFile, m: Merged,
      ghost t: Task, ghost suffix: seq<ManifestListItem>, ghost fates: seq<Fate>)
      returns (m': Merged, ghost fates': seq<Fate>)
      requires i < |itemsSortedAsc| && overwritten.uuid < storage.nextUuid && first.uuid < storage.nextUuid
      requires storage.Valid() && Readable(storage.disk) && overwritten.uuid in storage.disk.parquets
      requires Distinct(storage.disk, itemsSortedAsc, m.last) && t.uuid == first.uuid
      requires forall item :: item in suffix || item == itemsSortedAsc[i] ==> LiveItem(storage.disk, item)
      requires storage.disk.parquets[overwritten.uuid] ==
        Parquet(Surviving(t.schema, FileRows(storage.disk, itemsSortedAsc[i].manifestFile.path), t.chunk), overwritten.size)
      requires exists r :: r in FileRows(storage.disk, itemsSortedAsc[i].manifestFile.path) && Overlaps(t.schema, r, t.chunk)
      requires overwritten.recordCount == |storage.disk.parquets[overwritten.uuid].rows|
      requires DeletedManifest(overwritten.uuid) !in storage.disk.manifests
      requires AddedManifest(overwritten.uuid) !in storage.disk.manifests
      requires SparesCurrentList(storage.disk, itemsSortedAsc[i].manifestFile.snapshotId, first.uuid)
      requires HasTable(storage.disk) ==> CurrentList(storage.disk).path.snapshotId < storage.clock
      requires MergeState(t, storage.disk, storage.clock, suffix, m, fates)
      modifies storage
      ensures storage.Valid() && Undisturbed(old(storage.disk), storage.disk)
      ensures storage.nextUuid == old(storage.nextUuid) && storage.clock >= old(storage.clock)
      ensures storage.seen <= old(storage.seen) + {ViewOf(old(storage.disk))}
      ensures forall p :: p in storage.disk.manifests ==> p in old(storage.disk).manifests || p.uuid == overwritten.uuid
      ensures MergeState(t, storage.disk, storage.clock, [itemsSortedAsc[i]] + suffix, m', fates')
      ensures m'.last == m.last + 1
    {
      hide MergeState, Distinct, ViewOf, Surviving, Overlaps, DescribesStep, Backwards, ToRecords, Without, Deletion;
      ghost var before, clock := storage.disk, storage.clock;
      var existing := itemsSortedAsc[i];
      assert LiveItem(before, existing);
      var list;
      ghost var fate;
      if overwritten.recordCount == 0 {
        list := DeleteFile(itemsSortedAsc, i, overwritten, first, m.last);
        m', fate := Merged(m.itemsSortedDesc, m.lists + [list], m.last + 1), Dropped;
        assert [] + m.itemsSortedDesc == m.itemsSortedDesc;
      } else {
        var item;
        list, item := OverwriteFile(existing, overwritten, first, m.last);
        NewerSparesCurrentList(before, storage.disk, item.manifestFile.snapshotId, first.uuid);
        m', fate := Merged([item] + m.itemsSortedDesc, m.lists + [list], m.last + 1), Rewritten(item);
      }
      MergeStateReplaced(t, before, storage.disk, clock, storage.clock, existing, suffix, m, fates, fate, list);
      fates' := [fate] + fates;
    }

    /** The next file: kept as it is, rewritten without the rows the chunk replaces, or dropped. */
    method MergeFile(
      itemsSortedAsc: seq<ManifestListItem>, i: nat, newFile: ParquetFile, first: ParquetFile, m: Merged,
      ghost t: Task, ghost suffix: seq<ManifestListItem>, ghost fates: seq<Fate>)
      returns (m': Merged, ghost fates': seq<Fate>)
      requires Valid() && i < |itemsSortedAsc| && first.uuid < storage.nextUuid
      requires storage.Valid() && Readable(storage.disk) && newFile.uuid in storage.disk.parquets
      requires t == Task(schema, storage.disk.parquets[newFile.uuid].rows, first.uuid, t.originalLast)
      requires Distinct(storage.disk, itemsSortedAsc, m.last) && itemsSortedAsc[i].sequenceNumber <= t.originalLast
      requires forall item :: item in suffix ==>
        LiveItem(storage.disk, item) && item.sequenceNumber != itemsSortedAsc[i].sequenceNumber
      requires SparesCurrentList(storage.disk, itemsSortedAsc[i].manifestFile.snapshotId, first.uuid)
      requires HasTable(storage.disk) ==> CurrentList(storage.disk).path.snapshotId < storage.clock
      requires MergeState(t, storage.disk, storage.clock, suffix, m, fates)
      modifies storage
      ensures storage.Valid() && Undisturbed(old(storage.disk), storage.disk)
      ensures storage.nextUuid >= old(storage.nextUuid) && storage.clock >= old(storage.clock)
      ensures storage.seen <= old(storage.seen) + {ViewOf(old(storage.disk))}
      ensures forall p :: p in storage.disk.manifests ==> p in old(storage.disk).manifests || p.uuid >= old(storage.nextUuid)
      ensures MergeState(t, storage.disk, storage.clock, [itemsSortedAsc[i]] + suffix, m', fates')
      ensures m'.last >= m.last
    {
      hide MergeState, ViewOf, Surviving, Overlaps, SparesCurrentList, TableRows;
      ghost var start, clock := storage.disk, storage.clock;
      var existing := itemsSortedAsc[i];
      assert LiveItem(start, existing);
      var existingPath := storage.ExistingParquetFilePath(existing.manifestFile);
      var overwritten := storage.CreateOverwrittenParquet(schema, newFile.uuid, existingPath, rowCountPerBatch);
      UndisturbedKeepsView(start, storage.disk);
      MergeStateKeptBy(t, start, storage.disk, clock, storage.clock, suffix, m, fates);
      SparesCurrentListKeptBy(start, storage.disk, existing.manifestFile.snapshotId, first.uuid);
      // Keep as is if no overlapping records were found
      if overwritten.None? {
        MergeStateKept(t, storage.disk, storage.clock, existing, suffix, m, fates);
        m', fates' := m.(itemsSortedDesc := [existing] + m.itemsSortedDesc), [Kept] + fates;
      } else {
        DistinctExtends(start, storage.disk, itemsSortedAsc, m.last, m.last);
        m', fates' := ReplaceFile(itemsSortedAsc, i, overwritten.value, first, m, t, suffix, fates);
        UndisturbedKeepsView(start, storage.disk);
      }
    }

    /** Every existing file that shares a key with the chunk is rewritten without those rows, or dropped;
      * `fates` says which. */
    method OverwriteExistingFiles(
      originalSortedDesc: seq<ManifestListItem>, newFile: ParquetFile, first: ParquetFile, originalLast: nat)
      returns (m: Merged, ghost fates: seq<Fate>)
      requires Valid() && storage.Valid() && Readable(storage.disk)
      requires newFile.uuid in storage.disk.parquets && first.uuid < storage.nextUuid
      requires Distinct(storage.disk, originalSortedDesc, originalLast)
      requires HasTable(storage.disk) ==> CurrentList(storage.disk).path.snapshotId < storage.clock
      requires forall item :: item in originalSortedDesc ==>
        SparesCurrentList(storage.disk, item.manifestFile.snapshotId, first.uuid)
      modifies storage
      ensures storage.Valid() && Undisturbed(old(storage.disk), storage.disk)
      ensures storage.nextUuid >= old(storage.nextUuid) && storage.clock >= old(storage.clock)
      ensures storage.seen <= old(storage.seen) + {ViewOf(old(storage.disk))}
      ensures forall p :: p in storage.disk.manifests ==> p in old(storage.disk).manifests || p.uuid >= old(storage.nextUuid)
      ensures MergeState(Task(schema, old(storage.disk).parquets[newFile.uuid].rows, first.uuid, originalLast),
                         storage.disk, storage.clock, originalSortedDesc, m, fates)
    {
      hide MergeState, ViewOf, Surviving, Overlaps, SparesCurrentList, TableRows, LiveItem, Backwards;
      ghost var before := storage.disk;
      ghost var t := Task(schema, before.parquets[newFile.uuid].rows, first.uuid, originalLast);
      var originalSortedAsc := Reverse(originalSortedDesc);
      var n := |originalSortedDesc|;
      DistinctReversed(before, originalSortedDesc, originalLast);
      m, fates := Merged([], [], originalLast), [];
      NothingMerged(t, before, storage.clock);
      assert originalSortedDesc[n - 0..] == [];
      for i := 0 to n
        invariant storage.Valid() && Undisturbed(before, storage.disk) && originalLast <= m.last
        invariant storage.nextUuid >= old(storage.nextUuid) && storage.clock >= old(storage.clock)
        invariant storage.seen <= old(storage.seen) + {ViewOf(before)}
        invariant forall p :: p in storage.disk.manifests ==> p in before.manifests || p.uuid >= old(storage.nextUuid)
        invariant MergeState(t, storage.disk, storage.clock, originalSortedDesc[n - i..], m, fates)
      {
        assert originalSortedAsc[i] == originalSortedDesc[n - 1 - i];
        assert [originalSortedAsc[i]] + originalSortedDesc[n - i..] == originalSortedDesc[n - (i + 1)..];
        DistinctExtends(before, storage.disk, originalSortedDesc, originalLast, originalLast);
        DistinctExtends(before, storage.disk, originalSortedAsc, originalLast, m.last);
        UndisturbedKeepsView(before, storage.disk);
        SparesCurrentListKeptBy(before, storage.disk, originalSortedAsc[i].manifestFile.snapshotId, first.uuid);
        m, fates := MergeFile(originalSortedAsc, i, newFile, first, m, t, originalSortedDesc[n - i..], fates);
      }
      assert originalSortedDesc[n - n..] == originalSortedDesc;
      UndisturbedKeepsView(before, storage.disk);
    }

    /** One manifest, and one manifest list with the new file in front. Nothing is committed yet. */
    method AppendFile(
        newFile: ParquetFile, first: ParquetFile, p: Progress) returns (p': Progress, list: ManifestListFile)
      requires storage.Valid() && Readable(storage.disk) && Accounted(storage.disk, p, storage.clock)
      requires newFile.uuid in storage.disk.parquets && newFile.uuid < storage.nextUuid && first.uuid < storage.nextUuid
      requires newFile.size == storage.disk.parquets[newFile.uuid].size
      requires newFile.recordCount == |storage.disk.parquets[newFile.uuid].rows|
      requires AddedManifest(newFile.uuid) !in storage.disk.manifests
      requires HasTable(storage.disk) ==> CurrentList(storage.disk).path.snapshotId < storage.clock
      modifies storage
      ensures storage.Valid() && storage.nextUuid == old(storage.nextUuid) && storage.clock >= old(storage.clock)
      ensures Undisturbed(old(storage.disk), storage.disk) && Readable(storage.disk)
      ensures storage.seen <= old(storage.seen) + {ViewOf(old(storage.disk))}
      ensures Accounted(storage.disk, p', storage.clock)
      ensures p'.newSortedDesc != [] && p' == p.(
        newSortedDesc := [p'.newSortedDesc[0]] + p.newSortedDesc,
        listsSortedAsc := p.listsSortedAsc + [list],
        last := p.last + 1)
      ensures p'.newSortedDesc[0].sequenceNumber == p'.last
      ensures FileRows(storage.disk, p'.newSortedDesc[0].manifestFile.path) == old(storage.disk).parquets[newFile.uuid].rows
      ensures list.operation == Append && list.stats == SequenceStats(newFile.size, 1, newFile.recordCount, 0, 0, 0)
      ensures list.path == ListPath(list.snapshotId, first.uuid) && old(storage.clock) <= list.snapshotId < storage.clock
      ensures list.path in storage.disk.manifestLists && storage.disk.manifestLists[list.path] == ToRecords(p'.Items())
      ensures CountsOf(storage.disk.manifestLists[list.path], list.sequenceNumber) == CountsIn(list.stats)
    {
      hide ViewOf, RunningTotals, LiveTotals, Accounted, Undisturbed, Readable, Extends, CountsOf;
      ghost var before, clock := storage.disk, storage.clock;
      var manifest := storage.CreateManifest(newFile);
      ghost var added := storage.disk;
      AddingManifest(before, added, manifest.path, added.manifests[manifest.path]);
      UndisturbedKeepsView(before, added);
      UndisturbedExtends(before, added);
      AccountedExtends(before, added, p, clock, storage.clock);
      var item := ManifestListItem(p.last + 1, manifest);
      p' := Progress([item] + p.newSortedDesc, p.existingSortedDesc, p.listsSortedAsc, p.last + 1);
      HeadIsNewest(storage.disk, item, p, storage.clock);
      SummaryOfHead(p'.Items());
      NewerSparesCurrentList(before, added, clock, first.uuid);
      list := storage.CreateManifestList(first.uuid, p'.Items());
      AddingList(added, storage.disk, list.path, ToRecords(p'.Items()));
      UndisturbedThen(before, added, storage.disk);
      UndisturbedKeepsView(before, storage.disk);
      UndisturbedExtends(before, storage.disk);
      AccountedExtends(before, storage.disk, p, clock, storage.clock);
      AppendedIsAccounted(storage.disk, p, storage.clock, item, list);
      p' := p'.(listsSortedAsc := p.listsSortedAsc + [list]);
    }

    static lemma MetadataCommits(before: Disk, after: Disk, p: Progress, earlier: nat, clock: nat)
      requires Accounted(before, p, clock) && p.newSortedDesc != [] && p.newSortedDesc[0].sequenceNumber == p.last > 0
      requires after.metadata.Some? && after == before.(metadata := after.metadata)
      requires var list := p.listsSortedAsc[p.last - 1];
        && earlier <= list.snapshotId < clock && list.path.snapshotId == list.snapshotId
        && list.path in before.manifestLists && before.manifestLists[list.path] == ToRecords(p.Items())
        && after.metadata.value.lastSequenceNumber == list.sequenceNumber && ParentsAreInOrder(after.metadata.value)
        && after.metadata.value.currentSnapshotId == list.snapshotId
      requires forall i :: 0 <= i < p.last - 1 ==> p.listsSortedAsc[i].snapshotId < earlier
      requires Lists(after.metadata.value) == p.listsSortedAsc
      requires forall i :: 0 <= i < p.last ==> after.metadata.value.snapshots[i].totals == RunningTotals(p.listsSortedAsc[..i + 1])
      ensures JustCommitted(after, p, clock) && Accounted(after, p, clock) && Extends(before, after)
      ensures CurrentList(after) == p.listsSortedAsc[p.last - 1]
    {
      hide RunningTotals, LiveTotals;
      assert Lists(after.metadata.value)[p.last - 1] == p.listsSortedAsc[p.last - 1];
      AccountedExtends(before, after, p, clock, clock);
    }

    static lemma HeadIsNewest(disk: Disk, item: ManifestListItem, p: Progress, clock: nat)
      requires Accounted(disk, p, clock) && item.sequenceNumber == p.last + 1
      ensures var items := ([item] + p.newSortedDesc) + p.existingSortedDesc;
        items[0] == item && forall i :: 0 < i < |items| ==> items[i].sequenceNumber != items[0].sequenceNumber
    {
      var items := ([item] + p.newSortedDesc) + p.existingSortedDesc;
      forall i | 0 < i < |items| ensures items[i].sequenceNumber != items[0].sequenceNumber {
        assert items[i] == p.Items()[i - 1];
        assert p.Items()[i - 1] in p.Items();
      }
    }

    /** The merge of a continued refresh; a new one has nothing to merge with. */
    method MergeChunk(newFile: ParquetFile, first: ParquetFile, p: Progress,
                      ghost existing: seq<Row>, ghost chunks: seq<seq<SourceRow>>, ghost chunk: seq<SourceRow>)
      returns (merged: Progress)
      requires Valid() && storage.Valid() && Readable(storage.disk) && Accounted(storage.disk, p, storage.clock)
      requires HoldsChunks(schema, storage.disk, p, existing, chunks)
      requires newFile.uuid in storage.disk.parquets && storage.disk.parquets[newFile.uuid].rows == RowsOf(chunk)
      requires newFile.uuid < storage.nextUuid && first.uuid < storage.nextUuid
      requires AddedManifest(newFile.uuid) !in storage.disk.manifests
      requires HasTable(storage.disk) ==> CurrentList(storage.disk).path.snapshotId < storage.clock
      requires forall item :: item in p.existingSortedDesc ==>
        SparesCurrentList(storage.disk, item.manifestFile.snapshotId, first.uuid)
      requires !continuedRefresh ==> p.existingSortedDesc == [] && existing == []
      modifies storage
      ensures storage.Valid() && Undisturbed(old(storage.disk), storage.disk) && Readable(storage.disk)
      ensures storage.nextUuid >= old(storage.nextUuid) && storage.clock >= old(storage.clock)
      ensures storage.seen <= old(storage.seen) + {ViewOf(old(storage.disk))}
      ensures AddedManifest(newFile.uuid) !in storage.disk.manifests
      ensures Accounted(storage.disk, merged, storage.clock)
      ensures merged.newSortedDesc == p.newSortedDesc
      ensures ScanRows(storage.disk, ItemPaths(merged.newSortedDesc)) == NewRows(chunks)
      ensures ScanRows(storage.disk, ItemPaths(merged.existingSortedDesc)) == KeptRows(schema, existing, chunks + [chunk])
      ensures forall item :: item in merged.existingSortedDesc ==>
        SparesCurrentList(storage.disk, item.manifestFile.snapshotId, first.uuid)
      ensures !continuedRefresh ==> merged.existingSortedDesc == []
    {
      hide ViewOf, MergedRows, MergedOrder, SparesCurrentList, Undisturbed, Readable, RunningTotals, LiveTotals;
      ghost var before, clock := storage.disk, storage.clock;
      ItemsAreLive(before, p, clock);
      if continuedRefresh {
        ghost var t := Task(schema, RowsOf(chunk), first.uuid, p.last);
        var m;
        ghost var fates;
        m, fates := OverwriteExistingFiles(p.existingSortedDesc, newFile, first, p.last);
        merged := AfterMerging(p, m);
        UndisturbedKeepsView(before, storage.disk);
        assert Extends(before, storage.disk) by {
          UndisturbedExtends(before, storage.disk);
        }
        AccountedExtends(before, storage.disk, p, clock, storage.clock);
        MergedIsAccounted(t, storage.disk, p, storage.clock, m);
        MergedHoldsChunks(t, before, storage.disk, p, existing, chunks, chunk, m);
      } else {
        merged := p;
        UndisturbedByNothing(before);
        NothingKept(schema, chunks);
        NothingKept(schema, chunks + [chunk]);
      }
    }

    static lemma CurrentIdKept(before: Disk, after: Disk, clock: nat)
      requires Readable(before) && Undisturbed(before, after)
      requires HasTable(before) ==> CurrentList(before).path.snapshotId < clock
      ensures HasTable(after) ==> CurrentList(after).path.snapshotId < clock
    {
    }

    static lemma EarlierIds(disk: Disk, p: Progress, clock: nat)
      requires Accounted(disk, p, clock)
      ensures |p.listsSortedAsc| == p.last
      ensures forall i :: 0 <= i < p.last ==> p.listsSortedAsc[i].snapshotId < clock
      ensures forall list :: list in p.listsSortedAsc ==> list.snapshotId < clock
    {
      assert forall i :: 0 <= i < p.last ==> p.listsSortedAsc[i] in p.listsSortedAsc;
    }

    static lemma ExtendsTransitive(a: Disk, b: Disk, c: Disk)
      requires Extends(a, b) && Extends(b, c)
      ensures Extends(a, c)
    {
    }

    static lemma HoldsSameItems(
        schema: Schema, disk: Disk, p: Progress, q: Progress, existing: seq<Row>, chunks: seq<seq<SourceRow>>)
      requires HoldsChunks(schema, disk, p, existing, chunks)
      requires q.newSortedDesc == p.newSortedDesc && q.existingSortedDesc == p.existingSortedDesc
      ensures HoldsChunks(schema, disk, q, existing, chunks)
    {
    }

    /** Items from before the commit have older snapshot ids than the list just committed. */
    static lemma OlderSparesCurrentList(
        start: Disk, committed: Disk, p: Progress, clock: nat, item: ManifestListItem, uuid: Uuid)
      requires Accounted(start, p, clock) && item in p.existingSortedDesc
      requires forall path :: path in start.manifests ==> start.manifests[path].snapshotId < clock
      requires HasTable(committed) ==> CurrentList(committed).path.snapshotId >= clock
      ensures SparesCurrentList(committed, item.manifestFile.snapshotId, uuid)
    {
      ItemsAreLive(start, p, clock);
      assert item in p.Items();
      assert LiveItem(start, item);
    }

    /** Writing the checkpoint leaves the table alone. */
    static lemma CheckpointOnly(
        schema: Schema, before: Disk, after: Disk, clock: nat, uuid: Uuid, p: Progress, existing: seq<Row>,
                                chunks: seq<seq<SourceRow>>)
      requires after == before.(checkpoint := after.checkpoint)
      requires BetweenChunks(schema, before, clock, uuid, p, existing, chunks) && Consistent(before)
      ensures BetweenChunks(schema, after, clock, uuid, p, existing, chunks) && Consistent(after)
      ensures TableRows(after) == TableRows(before)
    {
      hide Accounted, HoldsChunks, LiveTotals, ScanRows, RunningTotals, CurrentListInOrder;
      assert Readable(before);
      SameFiles(schema, before, after, clock, p, existing, chunks);
      if before.metadata.Some? {
        ExtendsKeepsFiles(before, after, RecordPaths(CurrentRecords(before)));
        OrderKept(before, after, CurrentRecords(before), |Lists(before.metadata.value)|);
      }
    }

    static lemma SameFiles(
        schema: Schema, before: Disk, after: Disk, clock: nat, p: Progress, existing: seq<Row>,
        chunks: seq<seq<SourceRow>>)
      requires Extends(before, after)
      requires Accounted(before, p, clock) && HoldsChunks(schema, before, p, existing, chunks)
      ensures Accounted(after, p, clock) && HoldsChunks(schema, after, p, existing, chunks)
    {
      AccountedExtends(before, after, p, clock, clock);
      ItemsAreLive(before, p, clock);
      hide Accounted;
      PathsAreLive(before, p.newSortedDesc);
      PathsAreLive(before, p.existingSortedDesc);
      ExtendsKeepsFiles(before, after, ItemPaths(p.newSortedDesc));
      ExtendsKeepsFiles(before, after, ItemPaths(p.existingSortedDesc));
    }

    static lemma UndisturbedExtends(before: Disk, after: Disk)
      requires Undisturbed(before, after)
      ensures Extends(before, after)
    {
    }

    static lemma UndisturbedByNothing(disk: Disk)
      ensures Undisturbed(disk, disk)
    {
    }

    static lemma ItemsAreLive(disk: Disk, p: Progress, clock: nat)
      requires Accounted(disk, p, clock)
      ensures Distinct(disk, p.existingSortedDesc, p.last)
      ensures forall item :: item in p.Items() ==> LiveItem(disk, item)
    {
      var n := |p.newSortedDesc|;
      forall i, j | 0 <= i < j < |p.existingSortedDesc|
        ensures p.existingSortedDesc[i].sequenceNumber != p.existingSortedDesc[j].sequenceNumber
      {
        assert p.Items()[n + i].sequenceNumber != p.Items()[n + j].sequenceNumber;
      }
      forall item | item in p.existingSortedDesc ensures 1 <= item.sequenceNumber <= p.last && LiveItem(disk, item) {
        assert item in p.Items();
      }
    }

    /** The manifest, the manifest list and the metadata of a merged chunk. */
    method CommitFile(newFile: ParquetFile, first: ParquetFile, merged: Progress,
                      ghost existing: seq<Row>, ghost chunks: seq<seq<SourceRow>>, ghost chunk: seq<SourceRow>)
      returns (p': Progress)
      requires storage.Valid() && Readable(storage.disk) && Accounted(storage.disk, merged, storage.clock)
      requires ScanRows(storage.disk, ItemPaths(merged.newSortedDesc)) == NewRows(chunks)
      requires ScanRows(storage.disk, ItemPaths(merged.existingSortedDesc)) == KeptRows(schema, existing, chunks + [chunk])
      requires newFile.uuid in storage.disk.parquets
      requires storage.disk.parquets[newFile.uuid] == Parquet(RowsOf(chunk), newFile.size) && newFile.recordCount == |chunk|
      requires newFile.uuid < storage.nextUuid && first.uuid < storage.nextUuid
      requires AddedManifest(newFile.uuid) !in storage.disk.manifests
      requires HasTable(storage.disk) ==> CurrentList(storage.disk).path.snapshotId < storage.clock
      modifies storage
      ensures storage.Valid() && storage.nextUuid == old(storage.nextUuid) && storage.clock >= old(storage.clock)
      ensures BetweenChunks(schema, storage.disk, storage.clock, first.uuid, p', existing, chunks + [chunk])
      ensures Consistent(storage.disk)
      ensures TableRows(storage.disk) == NewRows(chunks + [chunk]) + KeptRows(schema, existing, chunks + [chunk])
      ensures storage.disk.checkpoint == old(storage.disk).checkpoint && storage.disk.metadata.Some?
      ensures storage.seen <= old(storage.seen) + {ViewOf(old(storage.disk)), ViewOf(storage.disk)}
      ensures p'.existingSortedDesc == merged.existingSortedDesc
    {
      hide Accounted, BetweenChunks, NewRows, KeptRows, ScanRows, Readable, Consistent, LivePath, TableRows;
      hide RunningTotals, LiveTotals, FileRows, ViewOf;
      ghost var start, clock := storage.disk, storage.clock;
      var list;
      p', list := AppendFile(newFile, first, merged);
      ghost var written := storage.disk;
      UndisturbedKeepsView(start, written);
      EarlierIds(written, p', storage.clock);
      storage.CreateMetadata(p'.listsSortedAsc);
      ChunkCommitted(schema, start, written, storage.disk, clock, storage.clock, first.uuid, merged, p', list, existing, chunks, chunk);
    }

    /** One round of Write: merge the chunk, commit the table, then its checkpoint. */
    method WriteChunk(newFile: ParquetFile, metadata: PendingMetadata, first: ParquetFile, p: Progress,
                      ghost a: Attempt, ghost source: seq<SourceRow>, ghost pending: seq<SourceRow>, ghost xmin: Xid,
                      ghost xmin': Xid, ghost reachedEnd: bool)
      returns (p': Progress)
      requires Valid() && storage.Valid() && a.continuedRefresh == continuedRefresh
      requires Writing(schema, a, source, first.uuid, Now(p, pending, xmin), false)
      requires newFile.uuid in storage.disk.parquets && newFile.recordCount <= |pending|
      requires storage.disk.parquets[newFile.uuid] == Parquet(RowsOf(pending[..newFile.recordCount]), newFile.size)
      requires newFile.recordCount == 0 ==> pending == [] && a.chunks == [] && !continuedRefresh && (a.aborted || reachedEnd)
      requires newFile.uuid < storage.nextUuid && first.uuid < storage.nextUuid
      requires AddedManifest(newFile.uuid) !in storage.disk.manifests
      requires xmin' == XminAfter(xmin, pending[..newFile.recordCount])
      requires metadata.Stored() == CheckpointAt(a.incrementalRefresh, reachedEnd, a.lastTxid, xmin')
      modifies storage
      ensures storage.Valid() && storage.nextUuid >= old(storage.nextUuid)
      ensures var chunk := pending[..newFile.recordCount];
        Writing(schema, a.(chunks := a.chunks + [chunk]), source, first.uuid, Now(p', pending[newFile.recordCount..], xmin'),
                reachedEnd)
    {
      hide Accounted, HoldsChunks, SparesCurrentList, NewRows, KeptRows, ScanRows, Readable, Consistent, TableRows, XminAfter;
      hide Writing, AtChunk, InProgress, Flatten, ViewOf;
      ghost var before, w, chunk := storage.disk, Now(p, pending, xmin), pending[..newFile.recordCount];
      WritingBetween(schema, a, source, first.uuid, w);
      var merged := MergeChunk(newFile, first, p, ExistingRows(a), a.chunks, chunk);
      CurrentIdKept(before, storage.disk, storage.clock);
      UndisturbedKeepsView(before, storage.disk);
      p' := CommitFile(newFile, first, merged, ExistingRows(a), a.chunks, chunk);
      ghost var committed := storage.disk;
      RowsOfView(committed);
      storage.WriteInternalTableMetadata(metadata);
      CheckpointOnly(schema, committed, storage.disk, storage.clock, first.uuid, p', ExistingRows(a), a.chunks + [chunk]);
      ChunkWritten(schema, a, source, first.uuid, w, chunk, Now(p', pending[newFile.recordCount..], xmin'), reachedEnd);
    }

    static lemma ChunkCommitted(
      schema: Schema, start: Disk, written: Disk, committed: Disk, clock: nat, later: nat, uuid: Uuid, merged: Progress,
      p: Progress, list: ManifestListFile, existing: seq<Row>, chunks: seq<seq<SourceRow>>, chunk: seq<SourceRow>)
      requires Undisturbed(start, written)
      requires Accounted(start, merged, clock) && Accounted(written, p, later)
      requires ScanRows(start, ItemPaths(merged.newSortedDesc)) == NewRows(chunks)
      requires ScanRows(start, ItemPaths(merged.existingSortedDesc)) == KeptRows(schema, existing, chunks + [chunk])
      requires p.newSortedDesc != [] && p.newSortedDesc[0].sequenceNumber == p.last && p == merged.(
        newSortedDesc := [p.newSortedDesc[0]] + merged.newSortedDesc,
        listsSortedAsc := merged.listsSortedAsc + [list],
        last := merged.last + 1)
      requires FileRows(written, p.newSortedDesc[0].manifestFile.path) == RowsOf(chunk)
      requires list.path.snapshotId == list.snapshotId && clock <= list.snapshotId < later
      requires list.path in written.manifestLists && written.manifestLists[list.path] == ToRecords(p.Items())
      requires forall path :: path in start.manifests ==> start.manifests[path].snapshotId < clock
      requires committed.metadata.Some? && committed == written.(metadata := committed.metadata)
      requires var metadata := committed.metadata.value;
        && Lists(metadata) == p.listsSortedAsc
        && (forall i :: 0 <= i < |p.listsSortedAsc| ==> metadata.snapshots[i].totals == RunningTotals(p.listsSortedAsc[..i + 1]))
        && metadata.lastSequenceNumber == list.sequenceNumber && ParentsAreInOrder(metadata)
        && metadata.currentSnapshotId == list.snapshotId
      ensures BetweenChunks(schema, committed, later, uuid, p, existing, chunks + [chunk]) && Consistent(committed)
      ensures TableRows(committed) == NewRows(chunks + [chunk]) + KeptRows(schema, existing, chunks + [chunk])
    {
      hide Accounted, HoldsChunks, SparesCurrentList, NewRows, KeptRows, ScanRows, Readable, Consistent, LivePath, TableRows;
      hide RunningTotals, LiveTotals, LiveItem;
      EarlierIds(start, merged, clock);
      EarlierIds(written, p, later);
      MetadataCommits(written, committed, p, clock, later);
      CommittedIsConsistent(committed, p, later);
      UndisturbedExtends(start, written);
      ExtendsTransitive(start, written, committed);
      ItemsAreLive(start, merged, clock);
      AppendedHoldsChunks(schema, start, committed, merged, existing, chunks, chunk, p.newSortedDesc[0]);
      HoldsSameItems(schema, committed, merged.(newSortedDesc := p.newSortedDesc), p, existing, chunks + [chunk]);
      CurrentTable(schema, committed, p, existing, chunks + [chunk]);
      forall item | item in p.existingSortedDesc ensures SparesCurrentList(committed, item.manifestFile.snapshotId, uuid) {
        OlderSparesCurrentList(start, committed, merged, clock, item, uuid);
      }
    }

    /** The manifest lists and the live items of the table to continue; nothing for a new refresh. */
    method LoadExisting() returns (p: Progress)
      requires storage.Valid() && Consistent(storage.disk)
      requires continuedRefresh ==> storage.disk.metadata.Some?
      ensures BetweenChunks(schema, storage.disk, storage.clock, storage.nextUuid, p,
                            if continuedRefresh then TableRows(storage.disk) else [], [])
      ensures !continuedRefresh ==> p.existingSortedDesc == []
    {
      hide TableRows, ScanRows, LiveTotals, RunningTotals, CurrentListInOrder;
      if continuedRefresh {
        var lists := storage.ExistingManifestListFiles();
        var items := storage.ExistingManifestListItems(lists[|lists| - 1]);
        HeadNumber(storage.disk);
        p := Progress([], items, lists, items[0].sequenceNumber);
        ReadBack(schema, storage.disk, storage.clock, storage.nextUuid, p);
      } else {
        p := Progress([], [], [], 0);
        NothingToContinue(schema, storage.disk, storage.clock, storage.nextUuid, p);
      }
    }

    static lemma NothingToContinue(schema: Schema, disk: Disk, clock: nat, uuid: Uuid, p: Progress)
      requires Consistent(disk) && p == Progress([], [], [], 0)
      requires HasTable(disk) ==> CurrentList(disk).path.snapshotId < clock
      ensures BetweenChunks(schema, disk, clock, uuid, p, [], [])
    {
      hide LivePath, RunningTotals, LiveTotals;
      assert ItemPaths([]) == [];
      assert LiveTotals(disk, ItemPaths(p.Items())) == RunningTotals([]) by {
        NoTotals(disk);
      }
      assert HoldsChunks(schema, disk, p, [], []);
    }

    static lemma NoTotals(disk: Disk)
      ensures LiveTotals(disk, ItemPaths([])) == RunningTotals([]) == NOTHING
    {
      assert ItemPaths([]) == [];
    }

    /** Parsing what was written: no item of the current list was a deletion, so nothing is lost. */
    static lemma ReadBackItems(disk: Disk, records: seq<ListRecord>, last: nat)
      requires CurrentListInOrder(disk, records, last)
      ensures ToRecords(FromRecords(records)) == records
      ensures ItemPaths(FromRecords(records)) == RecordPaths(records)
      ensures Distinct(disk, FromRecords(records), last)
      ensures FromRecords(records)[0].sequenceNumber == last
    {
      hide LivePath;
      var items := FromRecords(records);
      forall i | 0 <= i < |records|
        ensures ToRecord(items[i]) == records[i] && LiveItem(disk, items[i]) && items[i].sequenceNumber == records[i].sequenceNumber
        ensures 1 <= items[i].sequenceNumber <= last
      {
        assert records[i] in records;
        assert LiveRecord(disk, records[i]);
      }
    }

    static lemma ReadBack(schema: Schema, disk: Disk, clock: nat, uuid: Uuid, p: Progress)
      requires Consistent(disk) && disk.metadata.Some?
      requires forall l :: l in disk.manifestLists ==> l.uuid < uuid && l.snapshotId < clock
      requires forall s :: s in disk.metadata.value.snapshots ==> s.list.snapshotId < clock
      requires p == Progress([], FromRecords(CurrentRecords(disk)), Lists(disk.metadata.value), |Lists(disk.metadata.value)|)
      ensures BetweenChunks(schema, disk, clock, uuid, p, TableRows(disk), [])
    {
      hide RunningTotals, LiveTotals, LivePath, CurrentListInOrder, Distinct;
      var records := CurrentRecords(disk);
      ReadBackItems(disk, records, p.last);
      assert p.Items() == FromRecords(records);
      assert ItemPaths(p.newSortedDesc) == [];
      forall list | list in p.listsSortedAsc ensures list.snapshotId < clock {
        var i :| 0 <= i < |p.listsSortedAsc| && p.listsSortedAsc[i] == list;
        assert disk.metadata.value.snapshots[i] in disk.metadata.value.snapshots;
      }
    }

    static lemma HeadNumber(disk: Disk)
      requires Consistent(disk) && disk.metadata.Some?
      ensures var items := FromRecords(CurrentRecords(disk));
        items != [] && items[0].sequenceNumber == |Lists(disk.metadata.value)|
    {
      hide RunningTotals, LiveTotals, LivePath;
    }

    /** Takes the whole stream, chunk by chunk. Whatever moment the process dies at, the table and the
      * checkpoint are those of one of the states of the attempt; a run to the end leaves its last one. */
    method Write(loader: RowLoader) returns (ghost a: Attempt)
      requires Valid() && storage.Valid() && Consistent(storage.disk)
      requires loader.Valid() && !loader.reachedEnd
      requires continuedRefresh ==> storage.disk.metadata.Some?
      modifies storage, loader`pending, loader`reachedEnd, loader.maxXmin, loader.input
      ensures storage.Valid() && Consistent(storage.disk)
      ensures a == Attempt(old(ViewOf(storage.disk)), continuedRefresh, a.chunks, loader.aborted,
                           loader.incrementalRefresh, loader.lastTxid, old(loader.maxXmin.xmin))
      ensures Flatten(a.chunks) == old(loader.pending)
      ensures FillFiles(storage.rowSize, maxPayloadThreshold, loader.rowCountPerBatch, a.chunks, true)
      ensures forall chunk :: chunk in a.chunks && chunk == [] ==> a.chunks == [[]] && !continuedRefresh
      ensures forall v :: v in storage.seen ==> Shows(schema, a, v)
      ensures Ended(schema, a, ViewOf(storage.disk))
      ensures storage.disk.metadata.Some?
    {
      hide Writing, BetweenChunks, Consistent, Readable, InProgress, Ended, Shows, ViewOf, AtChunk, Flatten, TableRows;
      hide CheckpointAt, RefreshModeFor, ExistingRows, RowsOf, CsvReader.Valid, CsvReader.Pending, RowLoader.Describes, Aborted, FillFiles,
        IsFilled, Joined;
      ghost var source := loader.pending;
      a := Attempt(ViewOf(storage.disk), continuedRefresh, [], loader.aborted, loader.incrementalRefresh, loader.lastTxid,
                   loader.maxXmin.xmin);
      storage.seen := {a.base};
      RowsOfView(storage.disk);
      var p := LoadExisting();
      NoneToFill(storage.rowSize, maxPayloadThreshold, loader.rowCountPerBatch, loader.pending == []);
      NothingWritten(schema, a, source, storage.nextUuid, Now(p, source, loader.maxXmin.xmin));
      ghost var uuid := storage.nextUuid;    // of the first file of this attempt
      var first: Option<ParquetFile> := None;
      var newParquetCount := 0;
      var loadMoreRows := true;
      while loadMoreRows
        invariant storage.Valid() && loader.Valid()
        invariant loadMoreRows <==> !loader.reachedEnd
        invariant a == Attempt(a.base, continuedRefresh, a.chunks, loader.aborted, loader.incrementalRefresh, loader.lastTxid, a.seed)
        invariant a.base == old(ViewOf(storage.disk)) && a.seed == old(loader.maxXmin.xmin)
        invariant newParquetCount == |a.chunks| && (first.None? <==> a.chunks == [])
        invariant if first.Some? then first.value.uuid == uuid < storage.nextUuid else uuid == storage.nextUuid
        invariant Writing(schema, a, source, uuid, Now(p, loader.pending, loader.maxXmin.xmin), loader.reachedEnd)
        invariant loader.reachedEnd ==> a.chunks != []
        invariant FillFiles(storage.rowSize, maxPayloadThreshold, loader.rowCountPerBatch, a.chunks, loader.pending == [])
        decreases loadMoreRows, |loader.pending|, if newParquetCount == 0 then 1 else 0
      {
        ghost var pending, xmin := loader.pending, loader.maxXmin.xmin;
        ghost var w := Now(p, pending, xmin);
        ghost var batches;
        var newFile, metadata;
        newFile, metadata, batches := storage.CreateParquet(maxPayloadThreshold, loader);
        ghost var chunk := pending[..newFile.recordCount];
        loader.StoredIsCurrent(metadata);
        FileAdded(schema, a, source, uuid, w, storage.disk, newFile.uuid);
        if newFile.recordCount == 0 && (continuedRefresh || newParquetCount > 0) {
          EndStream(newFile, metadata, a, source, uuid, w);
          return;
        }
        newParquetCount := newParquetCount + 1;
        if first.None? {
          first := Some(newFile);
        }
        p := WriteChunk(newFile, metadata, first.value, p, a, source, pending, xmin, loader.maxXmin.xmin, loader.reachedEnd);
        FillOneMore(storage.rowSize, maxPayloadThreshold, loader.rowCountPerBatch, a.chunks, pending == [], chunk, batches,
                    loader.pending == []);
        a := a.(chunks := a.chunks + [chunk]);
        loadMoreRows := metadata.IsInProgress();
      }
      StreamDone(schema, a, source, uuid, Now(p, loader.pending, loader.maxXmin.xmin));
      WritingConsistent(schema, a, source, uuid, Now(p, loader.pending, loader.maxXmin.xmin), true);
    }

    /** Nothing more came: the empty file goes again, and the checkpoint is written once more. */
    method EndStream(
      newFile: ParquetFile, metadata: PendingMetadata, ghost a: Attempt, ghost source: seq<SourceRow>, ghost uuid: Uuid,
      ghost w: Situation)
      requires storage.Valid() && newFile.uuid in storage.disk.parquets && newFile.uuid !in w.disk.parquets
      requires storage.disk == w.disk.(parquets := w.disk.parquets[newFile.uuid := storage.disk.parquets[newFile.uuid]])
      requires storage.seen <= w.seen + {ViewOf(w.disk)}
      requires Writing(schema, a, source, uuid, w, false) && w.pending == [] && (a.continuedRefresh || a.chunks != [])
      requires metadata.Stored() == CheckpointAt(a.incrementalRefresh, !a.aborted, a.lastTxid, w.xmin)
      modifies storage
      ensures storage.Valid() && Consistent(storage.disk) && Ended(schema, a, ViewOf(storage.disk))
      ensures Flatten(a.chunks) == source
      ensures forall chunk :: chunk in a.chunks && chunk == [] ==> a.chunks == [[]] && !a.continuedRefresh
      ensures forall v :: v in storage.seen ==> Shows(schema, a, v)
      ensures storage.disk.metadata.Some?
    {
      hide Writing, Consistent, Ended, Shows, ViewOf, Flatten, CheckpointAt;
      storage.DeleteParquet(newFile);
      assert storage.disk.parquets == w.disk.parquets;
      storage.WriteInternalTableMetadata(metadata);
      WritingConsistent(schema, a, source, uuid, w, false);
      StreamEnded(schema, a, source, uuid, w, storage.disk, storage.seen);
    }

    static lemma NothingWritten(schema: Schema, a: Attempt, source: seq<SourceRow>, uuid: Uuid, w: Situation)
      requires a.chunks == [] && a.seed == w.xmin && Consistent(w.disk) && a.base == ViewOf(w.disk)
      requires BetweenChunks(
        schema, w.disk, w.clock, uuid, w.p, if a.continuedRefresh then TableRows(w.disk) else [], [])
      requires !a.continuedRefresh ==> w.p.existingSortedDesc == []
      requires a.continuedRefresh ==> w.disk.metadata.Some?
      requires w.pending == source && w.seen == {a.base}
      ensures Writing(schema, a, source, uuid, w, false)
    {
      hide BetweenChunks, Consistent, TableRows;
      assert Flatten(a.chunks) + source == source;
    }

    static lemma WritingBetween(schema: Schema, a: Attempt, source: seq<SourceRow>, uuid: Uuid, w: Situation)
      requires Writing(schema, a, source, uuid, w, false)
      ensures BetweenChunks(schema, w.disk, w.clock, uuid, w.p, ExistingRows(a), a.chunks)
      ensures !a.continuedRefresh ==> w.p.existingSortedDesc == [] && ExistingRows(a) == []
      ensures w.xmin == XminAfter(a.seed, Flatten(a.chunks))
    {
    }

    static lemma WritingConsistent(
        schema: Schema, a: Attempt, source: seq<SourceRow>, uuid: Uuid, w: Situation, reachedEnd: bool)
      requires Writing(schema, a, source, uuid, w, reachedEnd)
      ensures Consistent(w.disk)
      ensures a.continuedRefresh || a.chunks != [] ==> w.disk.metadata.Some?
      ensures forall chunk :: chunk in a.chunks && chunk == [] ==> a.chunks == [[]] && !a.continuedRefresh
    {
      hide Consistent;
    }

    static lemma RowsOfView(disk: Disk)
      ensures ViewOf(disk) == View(TableRows(disk), disk.checkpoint)
    {
    }

    /** A data file that no manifest names changes nothing. */
    static lemma FileAdded(
        schema: Schema, a: Attempt, source: seq<SourceRow>, uuid: Uuid, w: Situation, after: Disk, newUuid: Uuid)
      requires Writing(schema, a, source, uuid, w, false)
      requires newUuid !in w.disk.parquets && newUuid in after.parquets
      requires after == w.disk.(parquets := w.disk.parquets[newUuid := after.parquets[newUuid]])
      ensures Writing(schema, a, source, uuid, w.(disk := after, seen := w.seen + {ViewOf(after)}), false)
      ensures ViewOf(after) == ViewOf(w.disk)
    {
      hide Accounted, HoldsChunks, ViewOf, LivePath, CurrentListInOrder, InProgress, AtChunk, RunningTotals, LiveTotals, Flatten;
      var before := w.disk;
      SameFiles(schema, before, after, w.clock, w.p, ExistingRows(a), a.chunks);
      UndisturbedKeepsView(before, after);
      if before.metadata.Some? {
        ExtendsKeepsFiles(before, after, RecordPaths(CurrentRecords(before)));
        OrderKept(before, after, CurrentRecords(before), |Lists(before.metadata.value)|);
      }
    }
  }
}
