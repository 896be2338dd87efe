/** Merging a chunk into the existing files of a table: which files stay, go or are replaced, and what the manifest
  * lists written on the way say about it. */
module Merge {
  import opened Checkpoint
  import opened RowMatch
  import opened Lake
  import opened Storage

  /** The item is an added file that is still there, with the counts of its manifest. */
  ghost predicate LiveItem(disk: Disk, item: ManifestListItem) {
    var file := item.manifestFile;
    && LivePath(disk, file.path)
    && !file.recordsDeleted
    && file.recordCount == disk.manifests[file.path].recordCount
    && file.snapshotId == disk.manifests[file.path].snapshotId
  }

  /** Live items with distinct sequence numbers up to `last`, in any order. */
  ghost predicate Distinct(disk: Disk, items: seq<ManifestListItem>, last: nat) {
    && (forall item :: item in items ==> 1 <= item.sequenceNumber <= last && LiveItem(disk, item))
    && (forall i, j :: 0 <= i < j < |items| ==> items[i].sequenceNumber != items[j].sequenceNumber)
  }

  /** Writing a list under this name cannot overwrite the list that the metadata points to. */
  ghost predicate SparesCurrentList(disk: Disk, snapshotId: nat, uuid: Uuid) {
    HasTable(disk) ==> CurrentList(disk).path != ListPath(snapshotId, uuid)
  }

  // The outcome of a merge

  /** What becomes of one existing file. */
  datatype Fate = Kept | Dropped | Rewritten(item: ManifestListItem)

  /** One manifest list: the file that went and the one that came, if any. */
  datatype Step = Step(removed: ManifestPath, added: Option<ManifestPath>)

  function ItemsOf(item: ManifestListItem, fate: Fate): seq<ManifestListItem> {
    match fate
    case Kept => [item]
    case Dropped => []
    case Rewritten(replacement) => [replacement]
  }

  function PathOf(fate: Fate): Option<ManifestPath> {
    if fate.Rewritten? then Some(fate.item.manifestFile.path) else None
  }

  function StepsOf(item: ManifestListItem, fate: Fate): seq<Step> {
    if fate.Kept? then [] else [Step(item.manifestFile.path, PathOf(fate))]
  }

  function AfterMerge(original: seq<ManifestListItem>, fates: seq<Fate>): seq<ManifestListItem>
    requires |fates| == |original|
  {
    if original == [] then [] else ItemsOf(original[0], fates[0]) + AfterMerge(original[1..], fates[1..])
  }

  /** The files are merged from the oldest, which is the last one, to the newest. */
  function StepsTaken(original: seq<ManifestListItem>, fates: seq<Fate>): seq<Step>
    requires |fates| == |original|
  {
    if original == [] then [] else StepsTaken(original[1..], fates[1..]) + StepsOf(original[0], fates[0])
  }

  lemma OneMoreFate(head: ManifestListItem, original: seq<ManifestListItem>, fate: Fate, fates: seq<Fate>)
    requires |fates| == |original|
    ensures AfterMerge([head] + original, [fate] + fates) == ItemsOf(head, fate) + AfterMerge(original, fates)
    ensures StepsTaken([head] + original, [fate] + fates) == StepsTaken(original, fates) + StepsOf(head, fate)
  {
    assert ([head] + original)[1..] == original && ([fate] + fates)[1..] == fates;
  }

  /** So a path is in the table after the merge if and only if it was and its file stayed, or it came. */
  lemma {:induction false} PathsAfterMerge(original: seq<ManifestListItem>, fates: seq<Fate>)
    requires |fates| == |original|
    ensures forall step :: step in StepsTaken(original, fates) ==> step.removed in ItemPaths(original)
    ensures forall item :: item in AfterMerge(original, fates) <==>
      exists i :: 0 <= i < |original| && item in ItemsOf(original[i], fates[i])
    ensures |AfterMerge(original, fates)| <= |original|
  {
    if original != [] {
      var rest, others := original[1..], fates[1..];
      PathsAfterMerge(rest, others);
      assert forall p :: p in ItemPaths(original) <==> p == original[0].manifestFile.path || p in ItemPaths(rest) by {
        assert original == [original[0]] + rest;
        PathsOfCons(original[0], rest);
      }
      forall item ensures item in AfterMerge(original, fates) <==>
        exists i :: 0 <= i < |original| && item in ItemsOf(original[i], fates[i])
      {
        if i :| 0 <= i < |original| && item in ItemsOf(original[i], fates[i]) {
          if i > 0 {
            assert item in ItemsOf(rest[i - 1], others[i - 1]);
          }
        }
        if item in AfterMerge(rest, others) {
          var i :| 0 <= i < |rest| && item in ItemsOf(rest[i], others[i]);
          assert item in ItemsOf(original[i + 1], fates[i + 1]);
        }
      }
    }
  }

  /** The summary and the label of a list describe one file that went and one that came, if any. */
  ghost predicate DescribesStep(disk: Disk, list: ManifestListFile, step: Step) {
    var before := FileTotals(disk, step.removed);
    var after := if step.added.Some? then FileTotals(disk, step.added.value) else NOTHING;
    && LivePath(disk, step.removed) && (step.added.Some? ==> LivePath(disk, step.added.value))
    && list.operation == (if step.added.Some? then Overwrite else Delete)
    && list.stats.deletedDataFiles == before.dataFiles && list.stats.removedFilesSize == before.filesSize
    && list.stats.deletedRecords == before.records
    && list.stats.addedDataFiles == after.dataFiles && list.stats.addedFilesSize == after.filesSize
    && list.stats.addedRecords == after.records
  }

  /** The k-th list describes the k-th step. */
  ghost predicate StepsDescribed(disk: Disk, lists: seq<ManifestListFile>, steps: seq<Step>) {
    |steps| == |lists| && forall k :: 0 <= k < |lists| ==> DescribesStep(disk, lists[k], steps[k])
  }

  function Backwards<T(!new)>(s: seq<T>): (b: seq<T>)
    ensures |b| == |s|
    ensures forall i :: 0 <= i < |s| ==> b[|s| - 1 - i] == s[i]
    ensures forall x :: x in b <==> x in s
  {
    if s == [] then [] else [s[|s| - 1]] + Backwards(s[..|s| - 1])
  }

  method Reverse<T(!new)>(original: seq<T>) returns (reversed: seq<T>)
    ensures reversed == Backwards(original)
  {
    reversed := [];
    for i := 0 to |original|
      invariant reversed == Backwards(original[..i])
    {
      assert original[..i + 1][..i] == original[..i];
      reversed := [original[i]] + reversed;
    }
    assert original[..|original|] == original;
  }

  // The state of a merge

  /** What the writer has in hand: the live items so far, the lists written, and the last number used. */
  datatype Merged = Merged(itemsSortedDesc: seq<ManifestListItem>, lists: seq<ManifestListFile>, last: nat)

  /** What is being merged: a chunk, by the sync whose first file is `uuid`, into a table with `originalLast` lists. */
  datatype Task = Task(schema: Schema, chunk: seq<Row>, uuid: Uuid, originalLast: nat)

  /** The rows of the remaining files, and their number and size as the lists written on the way tell it. */
  ghost predicate MergedRows(t: Task, disk: Disk, original: seq<ManifestListItem>, m: Merged) {
    && ScanRows(disk, ItemPaths(m.itemsSortedDesc)) == Surviving(t.schema, ScanRows(disk, ItemPaths(original)), t.chunk)
    && LiveTotals(disk, ItemPaths(original)).Plus(RunningTotals(m.lists)) == LiveTotals(disk, ItemPaths(m.itemsSortedDesc))
  }

  /** There was one manifest list per replaced file, numbered from `originalLast` + 1 on. */
  ghost predicate MergedOrder(t: Task, disk: Disk, original: seq<ManifestListItem>, m: Merged) {
    && m.last == t.originalLast + |m.lists|
    && (forall k :: 0 <= k < |m.lists| ==> m.lists[k].sequenceNumber == t.originalLast + 1 + k)
    && Distinct(disk, m.itemsSortedDesc, m.last)
    && (forall item :: item in m.itemsSortedDesc ==> item in original || item.sequenceNumber > t.originalLast)
  }

  /** A file is kept if and only if it shares no key with the chunk, and dropped or rewritten without the rows
    * that the chunk replaces. */
  ghost predicate Befits(t: Task, disk: Disk, item: ManifestListItem, fate: Fate) {
    var rows := FileRows(disk, item.manifestFile.path);
    && (fate.Kept? <==> forall r :: r in rows ==> !Overlaps(t.schema, r, t.chunk))
    && (fate.Dropped? ==> Surviving(t.schema, rows, t.chunk) == [])
    && (fate.Rewritten? ==>
          && LivePath(disk, fate.item.manifestFile.path)
          && FileRows(disk, fate.item.manifestFile.path) == Surviving(t.schema, rows, t.chunk) != [])
  }

  ghost predicate FatesBefit(t: Task, disk: Disk, original: seq<ManifestListItem>, fates: seq<Fate>) {
    |fates| == |original| && forall i :: 0 <= i < |original| ==> Befits(t, disk, original[i], fates[i])
  }

  /** The state after the files `original`, of which each met the fate that befits it. */
  ghost predicate MergeState(
    t: Task, disk: Disk, clock: nat, original: seq<ManifestListItem>, m: Merged, fates: seq<Fate>)
  {
    && FatesBefit(t, disk, original, fates) && m.itemsSortedDesc == AfterMerge(original, fates)
    && StepsDescribed(disk, m.lists, StepsTaken(original, fates))
    && MergedRows(t, disk, original, m)
    && MergedOrder(t, disk, original, m)
    && (forall list :: list in m.lists ==> list.snapshotId < clock)
    && (forall item :: item in m.itemsSortedDesc ==> SparesCurrentList(disk, item.manifestFile.snapshotId, t.uuid))
  }

  lemma DistinctExtends(before: Disk, after: Disk, items: seq<ManifestListItem>, last: nat, later: nat)
    requires Extends(before, after) && Distinct(before, items, last) && last <= later
    ensures Distinct(after, items, later)
  {
    forall item | item in items ensures LiveItem(after, item) {
      assert LiveItem(before, item);
    }
  }

  lemma StepsDescribedAppend(disk: Disk, lists: seq<ManifestListFile>, steps: seq<Step>, list: ManifestListFile, step: Step)
    requires StepsDescribed(disk, lists, steps) && DescribesStep(disk, list, step)
    ensures StepsDescribed(disk, lists + [list], steps + [step])
  {
  }

  lemma StepsDescribedExtends(before: Disk, after: Disk, lists: seq<ManifestListFile>, steps: seq<Step>)
    requires StepsDescribed(before, lists, steps) && Extends(before, after)
    ensures StepsDescribed(after, lists, steps)
  {
    forall k | 0 <= k < |lists| ensures DescribesStep(after, lists[k], steps[k]) {
      assert DescribesStep(before, lists[k], steps[k]);
    }
  }

  lemma RowsExtend(before: Disk, after: Disk, path: ManifestPath)
    requires Extends(before, after) && LivePath(before, path)
    ensures LivePath(after, path) && FileRows(after, path) == FileRows(before, path)
  {
  }

  lemma FatesExtend(t: Task, before: Disk, after: Disk, original: seq<ManifestListItem>, fates: seq<Fate>)
    requires FatesBefit(t, before, original, fates) && Extends(before, after)
    requires forall item :: item in original ==> LiveItem(before, item)
    ensures FatesBefit(t, after, original, fates)
  {
    hide Extends, LivePath, FileRows, Overlaps, Surviving;
    forall i | 0 <= i < |original| ensures Befits(t, after, original[i], fates[i]) {
      assert Befits(t, before, original[i], fates[i]) && LiveItem(before, original[i]);
      RowsExtend(before, after, original[i].manifestFile.path);
      if fates[i].Rewritten? {
        RowsExtend(before, after, fates[i].item.manifestFile.path);
      }
    }
  }

  lemma NothingMerged(t: Task, disk: Disk, clock: nat)
    ensures MergeState(t, disk, clock, [], Merged([], [], t.originalLast), [])
  {
    hide SparesCurrentList, MergedRows;
    NothingMergedRows(t, disk);
  }

  lemma NothingMergedRows(t: Task, disk: Disk)
    ensures MergedRows(t, disk, [], Merged([], [], t.originalLast))
  {
    hide ScanRows, LiveTotals, RunningTotals, Surviving, ItemPaths;
    NoPaths();
    NothingThere(disk);
    NothingSurvives(t.schema, t.chunk);
  }

  lemma NoPaths()
    ensures ItemPaths([]) == []
  {
  }

  lemma NothingThere(disk: Disk)
    ensures ScanRows(disk, []) == []
    ensures LiveTotals(disk, []) == RunningTotals([]) == NOTHING == NOTHING.Plus(NOTHING)
  {
  }

  lemma NothingSurvives(schema: Schema, chunk: seq<Row>)
    ensures Surviving(schema, [], chunk) == []
  {
  }

  lemma MergeStateKeptBy(
    t: Task, before: Disk, after: Disk, clock: nat, later: nat, original: seq<ManifestListItem>, m: Merged,
    fates: seq<Fate>)
    requires MergeState(t, before, clock, original, m, fates)
    requires Undisturbed(before, after) && Readable(before) && clock <= later
    requires forall item :: item in original ==> LiveItem(before, item)
    ensures MergeState(t, after, later, original, m, fates)
  {
    hide MergedRows, MergedOrder, StepsDescribed, AfterMerge, StepsTaken, LiveItem, Befits;
    MergedExtends(t, before, after, original, m);
    FatesExtend(t, before, after, original, fates);
    StepsDescribedExtends(before, after, m.lists, StepsTaken(original, fates));
  }

  lemma PathsOfCons(item: ManifestListItem, items: seq<ManifestListItem>)
    ensures ItemPaths([item] + items) == [item.manifestFile.path] + ItemPaths(items)
  {
  }

  lemma PathsAreLive(disk: Disk, items: seq<ManifestListItem>)
    requires forall item :: item in items ==> LiveItem(disk, item)
    ensures forall p :: p in ItemPaths(items) ==> LivePath(disk, p)
  {
    forall p | p in ItemPaths(items) ensures LivePath(disk, p) {
      var i :| 0 <= i < |items| && items[i].manifestFile.path == p;
      assert LiveItem(disk, items[i]);
    }
  }

  lemma MergedExtends(t: Task, before: Disk, after: Disk, original: seq<ManifestListItem>, m: Merged)
    requires MergedRows(t, before, original, m) && MergedOrder(t, before, original, m)
    requires Extends(before, after)
    requires forall item :: item in original ==> LiveItem(before, item)
    ensures MergedRows(t, after, original, m) && MergedOrder(t, after, original, m)
  {
    hide Surviving, LiveItem, LivePath, ScanRows, LiveTotals, RunningTotals, ItemPaths, Extends;
    PathsAreLive(before, original);
    PathsAreLive(before, m.itemsSortedDesc);
    ExtendsKeepsFiles(before, after, ItemPaths(original));
    ExtendsKeepsFiles(before, after, ItemPaths(m.itemsSortedDesc));
    DistinctExtends(before, after, m.itemsSortedDesc, m.last, m.last);
  }

  lemma ScanOfCons(disk: Disk, item: ManifestListItem, items: seq<ManifestListItem>)
    ensures ScanRows(disk, ItemPaths([item] + items))
      == FileRows(disk, item.manifestFile.path) + ScanRows(disk, ItemPaths(items))
    ensures LiveTotals(disk, ItemPaths([item] + items))
      == FileTotals(disk, item.manifestFile.path).Plus(LiveTotals(disk, ItemPaths(items)))
  {
    PathsOfCons(item, items);
    var paths := ItemPaths([item] + items);
    assert paths[1..] == ItemPaths(items);
  }

  lemma DistinctCons(disk: Disk, item: ManifestListItem, items: seq<ManifestListItem>, last: nat, later: nat)
    requires Distinct(disk, items, last) && last <= later
    requires LiveItem(disk, item) && 1 <= item.sequenceNumber <= later
    requires forall other :: other in items ==> other.sequenceNumber != item.sequenceNumber
    ensures Distinct(disk, [item] + items, later)
  {
    hide LiveItem;
    var all := [item] + items;
    forall i, j | 0 <= i < j < |all| ensures all[i].sequenceNumber != all[j].sequenceNumber {
      assert all[j] == items[j - 1];
      if i > 0 {
        assert all[i] == items[i - 1];
      }
    }
  }

  // One more file

  lemma NetChangeOfStep(disk: Disk, list: ManifestListFile, step: Step)
    requires DescribesStep(disk, list, step)
    ensures FileTotals(disk, step.removed).Plus(NetChange(list))
      == if step.added.Some? then FileTotals(disk, step.added.value) else NOTHING
  {
  }

  /** Its surviving rows are in front of those of the files merged before. */
  lemma MergeContents(t: Task, disk: Disk, head: ManifestListItem, original: seq<ManifestListItem>, m: Merged)
    requires MergedRows(t, disk, original, m)
    ensures Surviving(t.schema, ScanRows(disk, ItemPaths([head] + original)), t.chunk)
      == Surviving(t.schema, FileRows(disk, head.manifestFile.path), t.chunk) + ScanRows(disk, ItemPaths(m.itemsSortedDesc))
  {
    hide Surviving, Overlaps, ScanRows, LiveTotals, FileRows, FileTotals;
    ScanOfCons(disk, head, original);
    SurvivingConcat(t.schema, FileRows(disk, head.manifestFile.path), ScanRows(disk, ItemPaths(original)), t.chunk);
  }

  /** It has no key in common with the chunk. */
  lemma MergeKeepRows(t: Task, disk: Disk, head: ManifestListItem, original: seq<ManifestListItem>, m: Merged)
    requires MergedRows(t, disk, original, m)
    requires forall r :: r in FileRows(disk, head.manifestFile.path) ==> !Overlaps(t.schema, r, t.chunk)
    ensures MergedRows(t, disk, [head] + original, m.(itemsSortedDesc := [head] + m.itemsSortedDesc))
  {
    hide Surviving, Overlaps, ScanRows, LiveTotals, FileRows, FileTotals, NetChange;
    MergeContents(t, disk, head, original, m);
    ScanOfCons(disk, head, original);
    ScanOfCons(disk, head, m.itemsSortedDesc);
    SurvivingAll(t.schema, FileRows(disk, head.manifestFile.path), t.chunk);
  }

  lemma MergeKeepOrder(t: Task, disk: Disk, head: ManifestListItem, original: seq<ManifestListItem>, m: Merged)
    requires MergedOrder(t, disk, original, m)
    requires LiveItem(disk, head) && 1 <= head.sequenceNumber <= t.originalLast
    requires forall item :: item in original ==> item.sequenceNumber != head.sequenceNumber
    ensures MergedOrder(t, disk, [head] + original, m.(itemsSortedDesc := [head] + m.itemsSortedDesc))
  {
    hide LiveItem;
    DistinctCons(disk, head, m.itemsSortedDesc, m.last, m.last);
  }

  function Replaced(m: Merged, head: ManifestListItem, fate: Fate, list: ManifestListFile): Merged {
    Merged(ItemsOf(head, fate) + m.itemsSortedDesc, m.lists + [list], m.last + 1)
  }

  /** It is dropped, or its surviving rows moved to another file. */
  lemma MergeReplaceRows(
    t: Task, disk: Disk, head: ManifestListItem, original: seq<ManifestListItem>, m: Merged, fate: Fate,
    list: ManifestListFile)
    requires MergedRows(t, disk, original, m) && !fate.Kept?
    requires Surviving(t.schema, FileRows(disk, head.manifestFile.path), t.chunk)
      == if fate.Rewritten? then FileRows(disk, fate.item.manifestFile.path) else []
    requires FileTotals(disk, head.manifestFile.path).Plus(NetChange(list))
      == if fate.Rewritten? then FileTotals(disk, fate.item.manifestFile.path) else NOTHING
    ensures MergedRows(t, disk, [head] + original, Replaced(m, head, fate, list))
  {
    hide Surviving, Overlaps, ScanRows, LiveTotals, FileRows, FileTotals, NetChange;
    MergeContents(t, disk, head, original, m);
    ScanOfCons(disk, head, original);
    if fate.Rewritten? {
      ScanOfCons(disk, fate.item, m.itemsSortedDesc);
    } else {
      assert [] + m.itemsSortedDesc == m.itemsSortedDesc;
    }
    assert (m.lists + [list])[..|m.lists|] == m.lists;
  }

  lemma MergeReplaceOrder(
    t: Task, disk: Disk, head: ManifestListItem, original: seq<ManifestListItem>, m: Merged, fate: Fate,
    list: ManifestListFile)
    requires MergedOrder(t, disk, original, m) && !fate.Kept?
    requires list.sequenceNumber == m.last + 1
    requires fate.Rewritten? ==> LiveItem(disk, fate.item) && fate.item.sequenceNumber == m.last + 1
    ensures MergedOrder(t, disk, [head] + original, Replaced(m, head, fate, list))
  {
    hide LiveItem;
    if fate.Rewritten? {
      DistinctCons(disk, fate.item, m.itemsSortedDesc, m.last, m.last + 1);
    } else {
      assert [] + m.itemsSortedDesc == m.itemsSortedDesc;
    }
  }

  /** The state after one more file that has no key in common with the chunk. */
  lemma MergeStateKept(
    t: Task, disk: Disk, clock: nat, head: ManifestListItem, original: seq<ManifestListItem>, m: Merged,
    fates: seq<Fate>)
    requires MergeState(t, disk, clock, original, m, fates)
    requires LiveItem(disk, head) && 1 <= head.sequenceNumber <= t.originalLast
    requires forall item :: item in original ==> item.sequenceNumber != head.sequenceNumber
    requires SparesCurrentList(disk, head.manifestFile.snapshotId, t.uuid)
    requires forall r :: r in FileRows(disk, head.manifestFile.path) ==> !Overlaps(t.schema, r, t.chunk)
    ensures MergeState(t, disk, clock, [head] + original, m.(itemsSortedDesc := [head] + m.itemsSortedDesc), [Kept] + fates)
  {
    hide MergedRows, MergedOrder, StepsDescribed, SparesCurrentList, FileRows, LiveItem, Overlaps, Surviving, AfterMerge, StepsTaken;
    OneMoreFate(head, original, Kept, fates);
    MergeKeepRows(t, disk, head, original, m);
    MergeKeepOrder(t, disk, head, original, m);
    assert StepsTaken(original, fates) + [] == StepsTaken(original, fates);
  }

  /** The state after one more file that was rewritten or dropped. */
  lemma MergeStateReplaced(
    t: Task, before: Disk, after: Disk, clock: nat, later: nat, head: ManifestListItem,
    original: seq<ManifestListItem>, m: Merged, fates: seq<Fate>, fate: Fate, list: ManifestListFile)
    requires MergeState(t, before, clock, original, m, fates) && !fate.Kept?
    requires Undisturbed(before, after) && Readable(before) && clock <= later
    requires forall i :: i in original ==> LiveItem(before, i)
    requires list.sequenceNumber == m.last + 1 && list.snapshotId < later
    requires fate.Rewritten? ==> LiveItem(after, fate.item) && fate.item.sequenceNumber == m.last + 1
    requires fate.Rewritten? ==> SparesCurrentList(after, fate.item.manifestFile.snapshotId, t.uuid)
    requires DescribesStep(after, list, Step(head.manifestFile.path, PathOf(fate)))
    requires Befits(t, after, head, fate)
    ensures MergeState(t, after, later, [head] + original, Replaced(m, head, fate, list), [fate] + fates)
  {
    hide MergedRows, MergedOrder, StepsDescribed, DescribesStep, SparesCurrentList, Surviving, FileRows, FileTotals;
    hide Overlaps, LiveItem, Undisturbed, Readable, AfterMerge, StepsTaken;
    MergeStateKeptBy(t, before, after, clock, later, original, m, fates);
    OneMoreFate(head, original, fate, fates);
    NetChangeOfStep(after, list, Step(head.manifestFile.path, PathOf(fate)));
    MergeReplaceRows(t, after, head, original, m, fate, list);
    MergeReplaceOrder(t, after, head, original, m, fate, list);
    StepsDescribedAppend(after, m.lists, StepsTaken(original, fates), list, Step(head.manifestFile.path, PathOf(fate)));
  }

  // Names of lists

  lemma SparesCurrentListKeptBy(before: Disk, after: Disk, snapshotId: nat, uuid: Uuid)
    requires Readable(before) && Undisturbed(before, after) && SparesCurrentList(before, snapshotId, uuid)
    ensures SparesCurrentList(after, snapshotId, uuid)
  {
  }

  /** A list with a newer snapshot id than the current one gets another name. */
  lemma NewerSparesCurrentList(before: Disk, after: Disk, snapshotId: nat, uuid: Uuid)
    requires Readable(before) && Undisturbed(before, after)
    requires HasTable(before) ==> CurrentList(before).path.snapshotId < snapshotId
    ensures SparesCurrentList(after, snapshotId, uuid)
  {
  }

  lemma DistinctReversed(disk: Disk, items: seq<ManifestListItem>, last: nat)
    requires Distinct(disk, items, last)
    ensures Distinct(disk, Backwards(items), last)
  {
    hide LiveItem;
    var n, reversed := |items|, Backwards(items);
    forall i, j | 0 <= i < j < n ensures reversed[i].sequenceNumber != reversed[j].sequenceNumber {
      assert reversed[n - 1 - (n - 1 - i)] == items[n - 1 - i];
      assert reversed[n - 1 - (n - 1 - j)] == items[n - 1 - j];
    }
  }
}
