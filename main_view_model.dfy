/**
  The main window's view model: the item list and its view (the items plus
  the "add" tile), selection, edit/cancel/save against the store, the
  reorder dialog, and the backup of an item's folders into timestamped
  copies.
 */
module MainViewModel {
  import opened Base
  import opened Paths
  import opened Models
  import opened FileSystem
  import opened Timestamps
  import opened StorageService
  import ReorderWindow

  // ----- the view list -----

  /** An entry of `ViewItems`: an item, or the tile that adds a new item. */
  datatype ViewEntry = ItemEntry(item: SoftwareItem) | AddButtonPlaceholder

  function ItemEntries(items: seq<SoftwareItem>): seq<ViewEntry> {
    seq(|items|, i requires 0 <= i < |items| => ItemEntry(items[i]))
  }

  /** What `RebuildViewItems` shows for `items`. */
  function ViewOf(items: seq<SoftwareItem>): seq<ViewEntry> {
    ItemEntries(items) + [AddButtonPlaceholder]
  }

  /** The items a view shows, in order, without the placeholder. */
  function ItemsOfView(v: seq<ViewEntry>): seq<SoftwareItem> {
    if v == [] then []
    else if v[0].ItemEntry? then [v[0].item] + ItemsOfView(v[1..])
    else ItemsOfView(v[1..])
  }

  /** The view shows every item in order, then exactly one placeholder, last. */
  lemma ViewOfSpec(items: seq<SoftwareItem>)
    ensures |ViewOf(items)| == |items| + 1
    ensures forall i :: 0 <= i < |items| ==> ViewOf(items)[i] == ItemEntry(items[i])
    ensures ViewOf(items)[|items|] == AddButtonPlaceholder
    ensures multiset(ViewOf(items))[AddButtonPlaceholder] == 1
  {
    assert AddButtonPlaceholder !in ItemEntries(items);
  }

  /** The view tells exactly which items are in the list and in which order. */
  lemma {:induction false} ViewOfRoundTrip(items: seq<SoftwareItem>)
    ensures ItemsOfView(ViewOf(items)) == items
  {
    if items == [] {
      assert ViewOf(items) == [AddButtonPlaceholder];
      assert ViewOf(items)[1..] == [];
    } else {
      assert ViewOf(items)[1..] == ViewOf(items[1..]);
      ViewOfRoundTrip(items[1..]);
      assert items == [items[0]] + items[1..];
    }
  }

  // ----- copying a directory tree -----

  /** How a copy ended: completed, or stopped by the named exception. */
  datatype CopyOutcome = Copied | Threw(exception: string)

  /**
    `CopyDirectory(sourceDir, destinationDir)`: creates the destination,
    copies the files, then recurses into each subdirectory; the first
    failure ends the copy and what was copied stays. `source` is the tree
    found at `sourceDir`, `None` when it does not exist.
   */
  method CopyDirectory(source: Option<Dir>, destinationDir: Path, vol: DiskVolume) returns (r: CopyOutcome)
    modifies vol
    decreases if source.Some? then source.value else Dir([], [])
    ensures source.None? ==> r == Threw("DirectoryNotFoundException") && vol.nodes == old(vol.nodes)
    ensures Extends(old(vol.nodes), vol.nodes)
    ensures AddsOnlyAround(old(vol.nodes), vol.nodes, destinationDir)
    ensures r.Copied? ==> source.Some? && Mirrors(vol.nodes, destinationDir, source.value)
    ensures source.Some? && CanCopyInto(old(vol.nodes), destinationDir, source.value) ==> r.Copied?
    ensures (source.Some? && source.value.files != []
             && destinationDir + [source.value.files[0].name] in old(vol.nodes)) ==> r.Threw?
  {
    if source.None? {
      return Threw("DirectoryNotFoundException");
    }
    var dir := source.value;
    ghost var start := vol.nodes;
    ghost var clean := CanCopyInto(start, destinationDir, dir);
    var ok := vol.CreateDirectory(destinationDir);
    if !ok {
      return Threw("IOException");
    }
    CopyStarted(start, destinationDir, dir, clean);
    var i := 0;
    while i < |dir.files|
      invariant i <= |dir.files|
      invariant CopyProgress(start, vol.nodes, destinationDir, dir, i, 0, clean)
      invariant i > 0 ==> destinationDir + [dir.files[0].name] !in start
    {
      var f := dir.files[i];
      var dest := destinationDir + [f.name];
      ghost var before := vol.nodes;
      NextFileFree(start, before, destinationDir, dir, i, clean);
      ok := vol.CopyFile(f.data, dest);
      if !ok {
        return Threw("IOException");
      }
      FileStep(start, before, destinationDir, dir, i, clean);
      i := i + 1;
    }
    var j := 0;
    while j < |dir.subdirs|
      invariant j <= |dir.subdirs|
      invariant CopyProgress(start, vol.nodes, destinationDir, dir, |dir.files|, j, clean)
      invariant dir.files != [] ==> destinationDir + [dir.files[0].name] !in start
    {
      var sub := dir.subdirs[j];
      ghost var before := vol.nodes;
      if clean {
        NextSubdirFree(start, before, destinationDir, dir, j);
      }
      var sr := CopyDirectory(Some(sub.dir), destinationDir + [sub.name], vol);
      if sr.Threw? {
        return sr;
      }
      SubdirStep(start, before, vol.nodes, destinationDir, dir, j, clean);
      j := j + 1;
    }
    CopyFinished(start, vol.nodes, destinationDir, dir, clean);
    return Copied;
  }

  /**
    The state of a copy of `d` to `p` that began on volume `start`: the
    first `files` files and `subdirs` subdirectories are copied, nothing was
    lost, and (when the destination was fresh) every entry below `p` is one
    of those copied.
   */
  ghost predicate CopyProgress(start: Volume, m: Volume, p: Path, d: Dir, files: nat, subdirs: nat, clean: bool) {
    && p != [] && files <= |d.files| && subdirs <= |d.subdirs|
    && Extends(start, m) && AddsOnlyAround(start, m, p) && AllFolders(m, p)
    && (forall k :: 0 <= k < files ==> FileCopied(m, p, d.files[k]))
    && (forall k :: 0 <= k < subdirs ==> Mirrors(m, p + [d.subdirs[k].name], d.subdirs[k].dir))
    && (clean ==> UniqueNames(d)
                  && forall q :: q in m && p < q ==> q[|p|] in FileNames(d)[..files] + SubdirNames(d)[..subdirs])
  }

  /** Once the destination folder exists, nothing is copied yet and nothing is below it when it was fresh. */
  lemma CopyStarted(start: Volume, p: Path, d: Dir, clean: bool)
    requires p != [] && NoFileOnPath(start, p)
    requires clean ==> CanCopyInto(start, p, d)
    ensures CopyProgress(start, WithFolders(start, p), p, d, 0, 0, clean)
  {
    WithFoldersSpec(start, p);
  }

  /** The next file goes into an existing folder, and into a free name when the destination was fresh. */
  lemma NextFileFree(start: Volume, m: Volume, p: Path, d: Dir, i: nat, clean: bool)
    requires CopyProgress(start, m, p, d, i, 0, clean) && i < |d.files|
    ensures var t := p + [d.files[i].name]; t[..|t| - 1] == p && p in m && m[p] == Folder
    ensures clean ==> p + [d.files[i].name] !in m
  {
    var t := p + [d.files[i].name];
    assert t[..|t| - 1] == p && p[..|p|] == p;
  }

  /** Copying the next file into a free name advances the copy by one file. */
  lemma FileStep(start: Volume, m: Volume, p: Path, d: Dir, i: nat, clean: bool)
    requires CopyProgress(start, m, p, d, i, 0, clean) && i < |d.files|
    requires p + [d.files[i].name] !in m
    ensures CopyProgress(start, m[p + [d.files[i].name] := File(d.files[i].data)], p, d, i + 1, 0, clean)
  {
    assert FileNames(d)[..i + 1] == FileNames(d)[..i] + [d.files[i].name];
    var m2 := m[p + [d.files[i].name] := File(d.files[i].data)];
    forall k | 0 <= k < i + 1
      ensures FileCopied(m2, p, d.files[k])
    {
    }
  }

  /** When the destination was fresh, the next subdirectory's target is a fresh destination too. */
  lemma NextSubdirFree(start: Volume, m: Volume, p: Path, d: Dir, j: nat)
    requires CopyProgress(start, m, p, d, |d.files|, j, true) && j < |d.subdirs|
    ensures CanCopyInto(m, p + [d.subdirs[j].name], d.subdirs[j].dir)
  {
    var n := d.subdirs[j].name;
    var t := p + [n];
    assert FileNames(d)[..|d.files|] == FileNames(d);
    forall q | q in m
      ensures !(t <= q)
    {
    }
    forall k | 1 <= k <= |t|
      ensures t[..k] !in m || m[t[..k]] == Folder
    {
      if k <= |p| {
        assert t[..k] == p[..k];
      } else {
        assert t[..k] == t;
      }
    }
  }

  /** A completed copy of the next subdirectory advances the copy by one subdirectory. */
  lemma SubdirStep(start: Volume, before: Volume, after: Volume, p: Path, d: Dir, j: nat, clean: bool)
    requires CopyProgress(start, before, p, d, |d.files|, j, clean) && j < |d.subdirs|
    requires Extends(before, after) && AddsOnlyAround(before, after, p + [d.subdirs[j].name])
    requires Mirrors(after, p + [d.subdirs[j].name], d.subdirs[j].dir)
    ensures CopyProgress(start, after, p, d, |d.files|, j + 1, clean)
  {
    var n := d.subdirs[j].name;
    SubdirStaysAround(start, before, after, p, n);
    forall k | 0 <= k < j
      ensures Mirrors(after, p + [d.subdirs[k].name], d.subdirs[k].dir)
    {
      MirrorsExtends(before, after, p + [d.subdirs[k].name], d.subdirs[k].dir);
    }
    if clean {
      SubdirNamesGrow(before, after, p, d, j);
    }
  }

  /** A subdirectory's copy adds entries only around its own target, which lies under `p`. */
  lemma SubdirStaysAround(start: Volume, before: Volume, after: Volume, p: Path, n: string)
    requires Extends(start, before) && AddsOnlyAround(start, before, p)
    requires Extends(before, after) && AddsOnlyAround(before, after, p + [n])
    ensures Extends(start, after) && AddsOnlyAround(start, after, p)
  {
    forall q | q in after && q !in start
      ensures q <= p || p <= q
    {
      if q !in before {
        if q <= p + [n] {
          PrefixOfExtended(q, p, n);
        } else {
          assert p <= p + [n] <= q;
        }
      }
    }
  }

  /** Below `p`, the subdirectory's copy adds only entries under the subdirectory's own name. */
  lemma SubdirNamesGrow(before: Volume, after: Volume, p: Path, d: Dir, j: nat)
    requires j < |d.subdirs|
    requires forall q :: q in before && p < q ==> q[|p|] in FileNames(d)[..|d.files|] + SubdirNames(d)[..j]
    requires AddsOnlyAround(before, after, p + [d.subdirs[j].name])
    ensures forall q :: q in after && p < q ==> q[|p|] in FileNames(d)[..|d.files|] + SubdirNames(d)[..j + 1]
  {
    var n := d.subdirs[j].name;
    assert SubdirNames(d)[..j + 1] == SubdirNames(d)[..j] + [n];
    forall q | q in after && p < q
      ensures q[|p|] in FileNames(d)[..|d.files|] + SubdirNames(d)[..j + 1]
    {
      if q !in before {
        if q <= p + [n] {
          PrefixOfExtended(q, p, n);
        }
        assert q[|p|] == n;
      }
    }
  }

  /** With every file and subdirectory copied, the destination mirrors the source. */
  lemma CopyFinished(start: Volume, m: Volume, p: Path, d: Dir, clean: bool)
    requires CopyProgress(start, m, p, d, |d.files|, |d.subdirs|, clean)
    ensures Mirrors(m, p, d)
  {
    assert p[..|p|] == p;
  }

  // ----- backups -----

  /** The two folders an item can back up, and the folder each copy goes under. */
  datatype BackupKind = AppData | UserData

  function KindFolder(kind: BackupKind): string {
    match kind
    case AppData => "AppData"
    case UserData => "UserData"
  }

  /** `<backup folder>\<kind>\yyyyMMdd_HHmmss`. */
  function CloneDestination(backupBase: string, kind: BackupKind, now: DateTime): string
    requires IsValid(now)
  {
    Combine(Combine(backupBase, KindFolder(kind)), BackupStamp(now))
  }

  /** A copy goes two levels below the backup folder: the kind, then the time stamp. */
  lemma CloneDestinationSegments(backupBase: string, kind: BackupKind, now: DateTime)
    requires IsValid(now)
    ensures Segments(Combine(backupBase, KindFolder(kind))) == Segments(backupBase) + [KindFolder(kind)]
    ensures Segments(CloneDestination(backupBase, kind, now))
      == Segments(backupBase) + [KindFolder(kind), BackupStamp(now)]
  {
    assert IsPlainName(KindFolder(kind));
    StampIsPlainName(now);
    CombineName(backupBase, KindFolder(kind));
    CombineName(Combine(backupBase, KindFolder(kind)), BackupStamp(now));
  }

  /** Two copies into the same backup folder land in the same place exactly when they are of the same kind and in the same second. */
  lemma CloneDestinationsDistinct(backupBase: string, k1: BackupKind, t1: DateTime, k2: BackupKind, t2: DateTime)
    requires IsValid(t1) && IsValid(t2)
    ensures CloneDestination(backupBase, k1, t1) == CloneDestination(backupBase, k2, t2) <==> k1 == k2 && t1 == t2
  {
    if CloneDestination(backupBase, k1, t1) == CloneDestination(backupBase, k2, t2) {
      CloneDestinationSegments(backupBase, k1, t1);
      CloneDestinationSegments(backupBase, k2, t2);
      var s := Segments(backupBase);
      assert (s + [KindFolder(k1), BackupStamp(t1)])[|s|] == KindFolder(k1);
      assert (s + [KindFolder(k2), BackupStamp(t2)])[|s| + 1] == BackupStamp(t2);
      StampInjective(t1, t2);
    }
  }

  /** How `BackupFolder` ended: the source was missing, the copy completed to `destination`, or an exception stopped it. */
  datatype BackupOutcome = SourceFolderMissing | Completed(destination: string) | BackupFailed(exception: string)

  class MainViewModel {
    var items: seq<SoftwareItem>
    var viewItems: seq<ViewEntry>
    var selectedItem: Option<SoftwareItem>
    var isReadOnly: bool
    const storage: StorageService

    /** The view always shows the current items followed by the placeholder. */
    ghost predicate Valid()
      reads this
    {
      viewItems == ViewOf(items)
    }

    /** Loads the stored items (the list change notifications are not yet subscribed), then builds the view. */
    constructor (storage: StorageService)
      modifies storage
      ensures Valid() && this.storage == storage
      ensures items == LoadedItems(old(storage.files), storage.itemsFile)
      ensures storage.files == FilesAfterLoadItems(old(storage.files), storage.itemsFile)
      ensures selectedItem == None && !isReadOnly
    {
      this.storage := storage;
      items := [];
      viewItems := [];
      selectedItem := None;
      isReadOnly := false;
      new;
      var loaded := storage.LoadItems();
      var i := 0;
      while i < |loaded|
        invariant 0 <= i <= |loaded|
        invariant items == loaded[..i]
        invariant storage.files == FilesAfterLoadItems(old(storage.files), storage.itemsFile)
        invariant selectedItem == None && !isReadOnly
      {
        items := items + [loaded[i]];
        i := i + 1;
      }
      assert loaded[..i] == loaded;
      RebuildViewItems();
    }

    /**
      `ItemsCount`: the number of items. It is read also while the view is
      stale (the collection-changed handler raises its change notification
      before rebuilding the view); once the view is in line, it is one less
      than the entries of the view.
     */
    function ItemsCount(): (n: nat)
      reads this
      ensures n == |items|
      ensures Valid() ==> n + 1 == |viewItems|
    {
      |items|
    }

    /** `RebuildViewItems`: the view becomes every item in order, then the placeholder. */
    method RebuildViewItems()
      modifies this`viewItems
      ensures Valid()
    {
      viewItems := [];
      var i := 0;
      while i < |items|
        invariant 0 <= i <= |items|
        invariant viewItems == ItemEntries(items[..i])
      {
        viewItems := viewItems + [ItemEntry(items[i])];
        i := i + 1;
      }
      assert items[..i] == items;
      viewItems := viewItems + [AddButtonPlaceholder];
    }

    /** `Items_CollectionChanged`: every change to the list rebuilds the view. */
    method ItemsCollectionChanged()
      modifies this`viewItems
      ensures Valid()
    {
      RebuildViewItems();
    }

    /** `Items.Add(item)` once the view follows the list. */
    method ItemsAdd(item: SoftwareItem)
      modifies this`items, this`viewItems
      ensures items == old(items) + [item] && Valid()
    {
      items := items + [item];
      ItemsCollectionChanged();
    }

    /** `Items.Clear()` once the view follows the list. */
    method ItemsClear()
      modifies this`items, this`viewItems
      ensures items == [] && Valid()
    {
      items := [];
      ItemsCollectionChanged();
    }

    /** `SaveItems`: writes the list to the store, then rebuilds the view. */
    method SaveItems()
      modifies this`viewItems, storage`files
      ensures Valid()
      ensures storage.files == old(storage.files)[storage.itemsFile := ItemsJson(items)]
    {
      storage.SaveItems(items);
      RebuildViewItems();
    }

    /** `Save`: the same as `SaveItems`. */
    method Save()
      modifies this`viewItems, storage`files
      ensures Valid()
      ensures storage.files == old(storage.files)[storage.itemsFile := ItemsJson(items)]
    {
      SaveItems();
    }

    /** `AddNew`: appends a new item titled "New Software", selects it for editing and saves the list. `id` is its fresh GUID. */
    method AddNew(id: string)
      modifies this`items, this`viewItems, this`selectedItem, this`isReadOnly, storage`files
      ensures Valid()
      ensures items == old(items) + [NewSoftwareItem(id)]
      ensures selectedItem == Some(NewSoftwareItem(id)) && !isReadOnly
      ensures storage.files == old(storage.files)[storage.itemsFile := ItemsJson(items)]
    {
      var s := NewSoftwareItem(id);
      ItemsAdd(s);
      RebuildViewItems();
      selectedItem := Some(s);
      isReadOnly := false;
      SaveItems();
    }

    /** `CancelEdit`: discards edits by reloading the list from the store and selecting its first item, if any. */
    method CancelEdit()
      modifies this`items, this`viewItems, this`selectedItem, storage`files
      ensures Valid()
      ensures items == LoadedItems(old(storage.files), storage.itemsFile)
      ensures storage.files == FilesAfterLoadItems(old(storage.files), storage.itemsFile)
      ensures selectedItem == if items == [] then None else Some(items[0])
    {
      var loaded := storage.LoadItems();
      ItemsClear();
      var i := 0;
      while i < |loaded|
        invariant 0 <= i <= |loaded|
        invariant items == loaded[..i] && Valid()
        invariant storage.files == FilesAfterLoadItems(old(storage.files), storage.itemsFile)
      {
        ItemsAdd(loaded[i]);
        i := i + 1;
      }
      assert loaded[..i] == loaded;
      selectedItem := if |items| > 0 then Some(items[0]) else None;
    }

    /**
      `OpenReorder`: shows the reorder dialog on a copy of the list; the
      user's `actions` drive it until it closes (a dialog still open when
      they run out is closed from the title bar, which does not confirm). The
      outcome is the one the dialog's reference semantics
      `ReorderWindow.Replay` gives: only a confirmed
      dialog replaces the list, with exactly the dialog's result, and saves it.
     */
    method OpenReorder(actions: seq<ReorderWindow.Action>) returns (confirmed: bool)
      requires Valid()
      modifies this`items, this`viewItems, storage`files
      ensures Valid()
      ensures var t := ReorderWindow.TitleBarClosed(ReorderWindow.Replay(old(items), ReorderWindow.Opened(old(items)), actions));
        && confirmed == (t.dialogResult == Some(true))
        && (confirmed ==> t.result == Some(items)
                          && storage.files == old(storage.files)[storage.itemsFile := ItemsJson(items)])
        && (!confirmed ==> items == old(items) && storage.files == old(storage.files))
      ensures confirmed ==> ReorderWindow.ClickOk in actions && multiset(items) == multiset(old(items))
    {
      ghost var source := items;
      var dialog := new ReorderWindow.ReorderWindow(items);
      var shown := dialog.ShowDialog(actions);
      ReorderWindow.OnlyOkConfirms(source, ReorderWindow.Opened(source), actions);
      confirmed := shown == Some(true);
      if confirmed {
        var arranged := dialog.result.value;
        ItemsClear();
        var i := 0;
        while i < |arranged|
          invariant 0 <= i <= |arranged|
          invariant items == arranged[..i] && Valid()
          invariant storage.files == old(storage.files)
        {
          ItemsAdd(arranged[i]);
          i := i + 1;
        }
        assert arranged[..i] == arranged;
        SaveItems();
      }
    }

    /** `BackupFolder` stops at once: no selection, a blank source path, or no directory there. */
    predicate Skipped(srcFolder: Option<string>, source: Option<Dir>)
      reads this
    {
      selectedItem.None? || IsNullOrWhiteSpace(srcFolder) || source.None?
    }

    /** Where a backup of `kind` started at `now` goes for the selected item, given the store's settings. */
    function BackupDestination(kind: BackupKind, now: DateTime): string
      requires selectedItem.Some? && IsValid(now)
      reads this, storage
    {
      CloneDestination(
        BackupBaseFolder(LoadedSettings(storage.files, storage.settingsFile, storage.documents).backupsRoot,
                         storage.baseFolder, selectedItem.value.title),
        kind, now)
    }

    /**
      `BackupFolder(srcFolder, type)`: unless there is no selection or the
      source folder is blank or missing, copies the source tree `source`
      into `<backup folder>\<kind>\<now as yyyyMMdd_HHmmss>`. An exception
      on the way becomes `BackupFailed`; what was copied before it stays.
     */
    method BackupFolder(srcFolder: Option<string>, source: Option<Dir>, kind: BackupKind, now: DateTime, vol: DiskVolume)
      returns (outcome: BackupOutcome)
      requires IsValid(now)
      modifies storage`files, vol
      ensures Skipped(srcFolder, source) ==>
                (outcome == SourceFolderMissing && vol.nodes == old(vol.nodes) && storage.files == old(storage.files))
      ensures !Skipped(srcFolder, source) ==>
                storage.files == FilesAfterLoadSettings(old(storage.files), storage.settingsFile, storage.documents)
      ensures Extends(old(vol.nodes), vol.nodes)
      ensures outcome.Completed? ==>
                (!Skipped(srcFolder, source)
                 && outcome.destination == old(BackupDestination(kind, now))
                 && Mirrors(vol.nodes, Segments(outcome.destination), source.value))
      ensures (!Skipped(srcFolder, source)
               && CanCopyInto(old(vol.nodes), Segments(old(BackupDestination(kind, now))), source.value))
                ==> outcome.Completed?
      ensures (!Skipped(srcFolder, source) && source.value.files != []
               && Segments(old(BackupDestination(kind, now))) + [source.value.files[0].name] in old(vol.nodes))
                ==> outcome.BackupFailed?
    {
      if selectedItem.None? || IsNullOrWhiteSpace(srcFolder) || source.None? {
        return SourceFolderMissing;
      }
      ghost var start := vol.nodes;
      ghost var baseText := BackupBaseFolder(LoadedSettings(storage.files, storage.settingsFile, storage.documents).backupsRoot,
                                             storage.baseFolder, selectedItem.value.title);
      ghost var target := CloneDestination(baseText, kind, now);
      assert target == BackupDestination(kind, now);
      BackupBaseFolderSegments(LoadedSettings(storage.files, storage.settingsFile, storage.documents).backupsRoot,
                               storage.baseFolder, selectedItem.value.title);
      CloneDestinationSegments(baseText, kind, now);
      ghost var basePath := Segments(baseText);
      ghost var clean := CanCopyInto(start, Segments(target), source.value);
      if clean {
        CleanTargetAllowsFolders(start, basePath, KindFolder(kind), BackupStamp(now), source.value);
      }
      var destRoot := storage.GetBackupBaseFolder(selectedItem.value, vol);
      if destRoot.Exception? {
        return BackupFailed(destRoot.name);
      }
      ghost var afterRoot := vol.nodes;
      var dest := Combine(destRoot.value, KindFolder(kind));
      var ok := vol.CreateDirectory(Segments(dest));
      if !ok {
        return BackupFailed("IOException");
      }
      var name := BackupStamp(now);
      var cloneDest := Combine(dest, name);
      assert cloneDest == target;
      BackupPrefixesKeepTarget(start, afterRoot, vol.nodes, basePath, KindFolder(kind), name, source.value);
      var r := CopyDirectory(source, Segments(cloneDest), vol);
      if r.Threw? {
        return BackupFailed(r.exception);
      }
      return Completed(cloneDest);
    }
  }

  /** A fresh copy target leaves room for the backup folder and the kind folder above it. */
  lemma CleanTargetAllowsFolders(m0: Volume, base: Path, kind: string, stamp: string, d: Dir)
    requires CanCopyInto(m0, base + [kind, stamp], d)
    ensures NoFileOnPath(m0, base)
    ensures NoFileOnPath(WithFolders(m0, base), base + [kind])
  {
    var target := base + [kind, stamp];
    forall k | 1 <= k <= |base|
      ensures base[..k] !in m0 || m0[base[..k]] == Folder
    {
      assert base[..k] == target[..k];
    }
    var m1 := WithFolders(m0, base);
    var kindDir := base + [kind];
    forall k | 1 <= k <= |kindDir|
      ensures kindDir[..k] !in m1 || m1[kindDir[..k]] == Folder
    {
      assert kindDir[..k] == target[..k];
    }
  }

  /**
    Creating the backup folder and the kind folder above a fresh copy target
    keeps the target fresh, and keeps every entry that was there.
   */
  lemma BackupPrefixesKeepTarget(m0: Volume, m1: Volume, m2: Volume, base: Path, kind: string, stamp: string, d: Dir)
    requires base != []
    requires NoFileOnPath(m0, base) && m1 == WithFolders(m0, base)
    requires NoFileOnPath(m1, base + [kind]) && m2 == WithFolders(m1, base + [kind])
    ensures Extends(m0, m2)
    ensures CanCopyInto(m0, base + [kind, stamp], d) ==> CanCopyInto(m2, base + [kind, stamp], d)
  {
    var kindDir := base + [kind];
    var target := base + [kind, stamp];
    WithFoldersSpec(m0, base);
    WithFoldersSpec(m1, kindDir);
    if CanCopyInto(m0, target, d) {
      forall q | q in m2 && q !in m0
        ensures |q| < |target| && q <= target
      {
        assert q <= kindDir || q <= base;
      }
      forall k | 1 <= k <= |target|
        ensures target[..k] !in m2 || m2[target[..k]] == Folder
      {
      }
    }
  }
}
