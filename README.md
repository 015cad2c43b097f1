# SoftwareLibrary core, modelled in Dafny

SoftwareLibrary is a small WPF catalogue of software projects. Each catalogue
entry (`SoftwareItem`) has a title, a description, notes, an image, an
executable, and two folders (build output and user data). The entries are kept
as JSON next to the application settings. This project models the logic behind
the windows:

- **Reorder dialog** (`reorder_window.dfy`). The dialog works on a copy of the
  item list. It moves the selected item up, down, to the top or to the bottom,
  resets to the snapshot taken when it opened, and confirms or cancels. The
  class `ReorderWindow` mutates its list in place, as the code-behind does.
  Every method is tied to `Step`, a reference semantics written as a function
  over values, and `Replay` runs a whole session of user actions through it.
- **Main view model** (`main_view_model.dfy`). It holds the item list and the
  tile view built from it (the items, then one "add" placeholder). It covers
  adding an item, cancelling edits by reloading, committing a reorder, saving,
  and backups. A backup copies a source folder recursively to
  `<backup base>\<AppData|UserData>\<yyyyMMdd_HHmmss>`.
- **Storage service** (`storage_service.dfy`). It chooses the base folder,
  loads settings and items with defaults when a file is missing or unreadable,
  and sanitises non-finite window geometry before saving. It also composes and
  creates the backup base folder.
- **File system** (`file_system.dfy`). The backup source is a directory tree
  value. The destination volume is a class whose map from paths to nodes is
  changed by `CreateDirectory` and `CopyFile`.
- **Send-to-position dialog** (`send_to_position_window.dfy`). It accepts any
  text that trims to a 32-bit integer of at least 1.
- **Value converters**: null/blank to bool or `Visibility` with an "inverse"
  flag; status text to badge colour; the selected tile's border thickness and
  brush.
- **Data models**: `SoftwareItem`, `AppSettings`, `StatusData.Options` and
  their defaults.

Supporting modules model the .NET behaviour the core relies on:

- `base.dfy`: `string.Trim` with .NET's white-space set, ordinal ignore-case
  comparison, and decimal digit text.
- `paths.dfy`: `Path.Combine`, and the list of names a path string walks
  through.
- `doubles.dfy`: a double classified as finite, NaN or infinite.
- `timestamps.dfy`: the `yyyyMMdd_HHmmss` stamp.
- `media.dfy`: colours and brushes.

Nothing in the model performs I/O. The clock, the user's documents folder,
fresh GUID text, the files in the store and the source directory tree are all
parameters.

## Model

| member | source | states |
|---|---|---|
| ReorderWindow.RemoveAt | SoftwareLibrary/Views/ReorderWindow.xaml.cs:30 | `ObservableCollection.RemoveAt(i)`: the list without its i-th entry; `RelocatePermutes` and `RelocateKeepsOthersInOrder` state its effect |
| ReorderWindow.InsertAt | SoftwareLibrary/Views/ReorderWindow.xaml.cs:31 | `ObservableCollection.Insert(to, it)`: the entry placed at index `to`, the rest shifted; `RelocatePermutes` states its effect |
| ReorderWindow.Relocate | SoftwareLibrary/Views/ReorderWindow.xaml.cs:29-31 | the `RemoveAt(i)` then `Insert(to, it)` pair of the move handlers (also ReorderWindow.xaml.cs:41-43, 53-55 and 65-67); `RelocatePermutes`, `RelocateKeepsOthersInOrder`, `RelocateUndo`, `MoveUpSwaps`, `MoveDownSwaps`, `MoveTopShape` and `MoveBottomShape` state its properties |
| ReorderWindow.RelocatePermutes | SoftwareLibrary/Views/ReorderWindow.xaml.cs:29-31 | taking an item out and inserting it at another index keeps the length and the multiset of items, and puts that item at the target index |
| ReorderWindow.RelocateKeepsOthersInOrder | SoftwareLibrary/Views/ReorderWindow.xaml.cs:53-55 | after a move, the items other than the moved one are in their old relative order |
| ReorderWindow.RelocateUndo | SoftwareLibrary/Views/ReorderWindow.xaml.cs:24-46 | moving the item back to where it came from restores the original list |
| ReorderWindow.MoveUpSwaps | SoftwareLibrary/Views/ReorderWindow.xaml.cs:29-31 | moving up by one swaps the item with its upper neighbour and changes no other position |
| ReorderWindow.MoveDownSwaps | SoftwareLibrary/Views/ReorderWindow.xaml.cs:41-43 | moving down by one swaps the item with its lower neighbour and changes no other position |
| ReorderWindow.MoveTopShape | SoftwareLibrary/Views/ReorderWindow.xaml.cs:53-55 | moving to the top gives the item followed by all the others in their old order |
| ReorderWindow.MoveBottomShape | SoftwareLibrary/Views/ReorderWindow.xaml.cs:65-67 | removing then appending gives all the others in their old order followed by the item |
| ReorderWindow.Opened | SoftwareLibrary/Views/ReorderWindow.xaml.cs:15-22 | the opening state is consistent with the snapshot and the dialog is still open |
| ReorderWindow.Step | SoftwareLibrary/Views/ReorderWindow.xaml.cs:24-90 | one handler per user action, with the same guards: a selection outside the list is ignored, each move only with a selection it can move, Reset restores the snapshot, OK and Cancel close; its properties are stated by `StepConsistent`, `MoveUpSwaps`, `MoveDownSwaps`, `MoveTopShape` and `MoveBottomShape` |
| ReorderWindow.StepConsistent | SoftwareLibrary/Views/ReorderWindow.xaml.cs:24-90 | every user action keeps the selection a valid index or -1, keeps every list the dialog holds a reordering of the snapshot, and keeps a result whenever the dialog closed with true |
| ReorderWindow.Replay | SoftwareLibrary/Views/ReorderWindow.xaml.cs:24-90 | any sequence of user actions ends in a consistent state; actions after the dialog closes have no effect |
| ReorderWindow.TitleBarClosed | SoftwareLibrary/ViewModels/MainViewModel.cs:286 | closing from the title bar leaves a closed dialog as it was and closes an open one with dialog result false, so `ShowDialog() == true` fails; the lists are untouched and consistency is kept |
| ReorderWindow.OnlyOkConfirms | SoftwareLibrary/Views/ReorderWindow.xaml.cs:79-84 | a session ends confirmed only if OK was clicked, and then its result is a reordering of the snapshot |
| ReorderWindow.CancelFirstDiscards | SoftwareLibrary/Views/ReorderWindow.xaml.cs:86-90 | clicking Cancel closes the dialog with false, sets no result, and ignores every later action |
| ReorderWindow.ResetThenOkKeepsOrder | SoftwareLibrary/Views/ReorderWindow.xaml.cs:72-84 | Reset then OK confirms (dialog result true) exactly the order the dialog opened with, whatever moves came before |
| ReorderWindow.ReorderWindow.constructor | SoftwareLibrary/Views/ReorderWindow.xaml.cs:15-22 | the snapshot and the working list are both copies of the caller's list; the first row is selected when there is one; no result yet |
| ReorderWindow.ReorderWindow.Select | SoftwareLibrary/Views/ReorderWindow.xaml.cs:26 | the user's row selection (or -1) becomes the selected index, matching `Step` |
| ReorderWindow.ReorderWindow.MoveUpClick | SoftwareLibrary/Views/ReorderWindow.xaml.cs:24-34 | with i > 0 the selected item moves to i-1 and the selection follows it; otherwise nothing changes; the effect is `Step` on `ClickMoveUp` and the dialog stays consistent |
| ReorderWindow.ReorderWindow.MoveDownClick | SoftwareLibrary/Views/ReorderWindow.xaml.cs:36-46 | with 0 <= i < Count-1 the item moves to i+1 and the selection follows it; on the last item or with no selection nothing changes; agrees with `Step` |
| ReorderWindow.ReorderWindow.MoveTopClick | SoftwareLibrary/Views/ReorderWindow.xaml.cs:48-58 | with i > 0 the item moves to index 0 and stays selected; otherwise nothing changes; agrees with `Step` |
| ReorderWindow.ReorderWindow.MoveBottomClick | SoftwareLibrary/Views/ReorderWindow.xaml.cs:60-70 | with 0 <= i < Count-1 the item is removed and appended, and the last row is selected; otherwise nothing changes; agrees with `Step` |
| ReorderWindow.ReorderWindow.ResetClick | SoftwareLibrary/Views/ReorderWindow.xaml.cs:72-77 | the working list becomes exactly the snapshot and the first row is selected when there is one; the snapshot itself is never changed |
| ReorderWindow.ReorderWindow.OkClick | SoftwareLibrary/Views/ReorderWindow.xaml.cs:79-84 | the result is the current order, the dialog result is true and the dialog closes |
| ReorderWindow.ReorderWindow.CancelClick | SoftwareLibrary/Views/ReorderWindow.xaml.cs:86-90 | the dialog result is false, the dialog closes and the result is left unset |
| ReorderWindow.ReorderWindow.TitleBarClose | SoftwareLibrary/ViewModels/MainViewModel.cs:286 | the title bar's close button, as `TitleBarClosed` gives it |
| ReorderWindow.ReorderWindow.ShowDialog | SoftwareLibrary/ViewModels/MainViewModel.cs:286 | the modal loop handles the user's actions until the dialog closes; a dialog still open when they run out is closed from the title bar; it ends in exactly the state `TitleBarClosed(Replay(..))` gives and always returns a dialog result |
| MainViewModel.ViewOfSpec | SoftwareLibrary/ViewModels/MainViewModel.cs:81-86 | the view is every item in order followed by the placeholder: length Count+1, and exactly one placeholder |
| MainViewModel.ViewOfRoundTrip | SoftwareLibrary/ViewModels/MainViewModel.cs:81-86 | dropping the placeholder from the view gives back the item list |
| MainViewModel.ViewOf | SoftwareLibrary/ViewModels/MainViewModel.cs:81-86 | the view that `RebuildViewItems` builds; `ViewOfSpec` and `ViewOfRoundTrip` state what it holds |
| MainViewModel.MainViewModel.constructor | SoftwareLibrary/ViewModels/MainViewModel.cs:58-64 | the items are the store's loaded list in order, the store is as `LoadItems` leaves it, and the view is rebuilt from the items |
| MainViewModel.MainViewModel.ItemsCount | SoftwareLibrary/ViewModels/MainViewModel.cs:23 | the count equals the number of items, with no precondition, so it is right even while the view is stale (MainViewModel.cs:279 raises its change before the rebuild at 280); once the view is in line, it is one less than the length of the view |
| MainViewModel.MainViewModel.RebuildViewItems | SoftwareLibrary/ViewModels/MainViewModel.cs:81-86 | after the clear-and-refill loop the view is the items followed by one placeholder; the items are unchanged |
| MainViewModel.MainViewModel.ItemsCollectionChanged | SoftwareLibrary/ViewModels/MainViewModel.cs:277-281 | the collection-changed handler brings the view back in line with the items |
| MainViewModel.MainViewModel.ItemsAdd | SoftwareLibrary/ViewModels/MainViewModel.cs:91 | `Items.Add` once the change handler is subscribed (also at MainViewModel.cs:266 and :290): appends the item, and its change event rebuilds the view |
| MainViewModel.MainViewModel.ItemsClear | SoftwareLibrary/ViewModels/MainViewModel.cs:265 | `Items.Clear` empties the list, and its change event rebuilds the view |
| MainViewModel.MainViewModel.SaveItems | SoftwareLibrary/ViewModels/MainViewModel.cs:271-275 | the items file now holds the items in their current order; nothing else in the store changes |
| MainViewModel.MainViewModel.Save | SoftwareLibrary/ViewModels/MainViewModel.cs:256-259 | saves the items exactly as `SaveItems` does |
| MainViewModel.MainViewModel.AddNew | SoftwareLibrary/ViewModels/MainViewModel.cs:88-99 | one new item titled "New Software" is appended and the existing items are unchanged; the new item is selected, editing is on, and the list is saved |
| MainViewModel.MainViewModel.CancelEdit | SoftwareLibrary/ViewModels/MainViewModel.cs:261-269 | the items become the reloaded list in order, and the first item is selected, or none when the list is empty |
| MainViewModel.MainViewModel.OpenReorder | SoftwareLibrary/ViewModels/MainViewModel.cs:283-294 | the outcome is the one `Replay` gives for the user's actions: if confirmed, the items equal the dialog's result exactly (a reordering of the old items, reachable only through OK) and are saved; otherwise items and store are unchanged |
| MainViewModel.CopyDirectory | SoftwareLibrary/ViewModels/MainViewModel.cs:239-254 | a missing source throws `DirectoryNotFoundException` and changes nothing; the volume only grows, and only along and under the destination; a completed copy leaves every file under the same name with the same bytes and mirrors every subdirectory recursively; a clean destination always completes; a first file already present makes it throw |
| MainViewModel.CopyStarted | SoftwareLibrary/ViewModels/MainViewModel.cs:243 | creating the destination folder starts the copy with nothing copied yet |
| MainViewModel.FileStep | SoftwareLibrary/ViewModels/MainViewModel.cs:245-248 | copying the next file keeps the copy's progress invariant |
| MainViewModel.NextFileFree | SoftwareLibrary/ViewModels/MainViewModel.cs:247 | the next file's target sits directly in the destination folder, and it is free when the destination started clean |
| MainViewModel.NextSubdirFree | SoftwareLibrary/ViewModels/MainViewModel.cs:252 | into a clean destination, each subdirectory's recursive copy also has a clean destination |
| MainViewModel.SubdirStep | SoftwareLibrary/ViewModels/MainViewModel.cs:250-253 | a finished recursive copy of the next subdirectory keeps the progress invariant |
| MainViewModel.CopyFinished | SoftwareLibrary/ViewModels/MainViewModel.cs:239-254 | when both loops are done, the destination mirrors the source tree |
| MainViewModel.CloneDestinationSegments | SoftwareLibrary/ViewModels/MainViewModel.cs:225-229 | the clone goes to the backup base, then the kind folder, then the timestamp folder, each adding exactly one name |
| MainViewModel.CloneDestinationsDistinct | SoftwareLibrary/ViewModels/MainViewModel.cs:226-229 | two backups under one base share a folder exactly when they have the same kind and start in the same second |
| MainViewModel.CloneDestination | SoftwareLibrary/ViewModels/MainViewModel.cs:225-229 | `Path.Combine(Path.Combine(backupBase, kind), stamp)`; `CloneDestinationSegments` and `CloneDestinationsDistinct` state where it points |
| MainViewModel.KindFolder | SoftwareLibrary/ViewModels/MainViewModel.cs:74-75 | the `"AppData"` and `"UserData"` folder names the two backup commands pass; `CloneDestinationsDistinct` uses that they differ |
| MainViewModel.CleanTargetAllowsFolders | SoftwareLibrary/ViewModels/MainViewModel.cs:225-227 | if the clone target is free, creating the base and kind folders does not fail |
| MainViewModel.BackupPrefixesKeepTarget | SoftwareLibrary/ViewModels/MainViewModel.cs:225-229 | creating the base and kind folders only adds folders, and a free clone target stays free |
| MainViewModel.MainViewModel.Skipped | SoftwareLibrary/ViewModels/MainViewModel.cs:217 | the early-return guard: no selection, a null or blank source path, or no directory there; `BackupFolder`'s contract states that such a call changes nothing |
| MainViewModel.MainViewModel.BackupDestination | SoftwareLibrary/ViewModels/MainViewModel.cs:225-229 | the clone target `CloneDestination(GetBackupBaseFolder(item), kind, now)` for the selected item and the stored settings; `BackupFolder`'s contract reports it as the outcome's destination |
| MainViewModel.MainViewModel.BackupFolder | SoftwareLibrary/ViewModels/MainViewModel.cs:215-237 | no selection, a blank path or a missing source: nothing is copied and nothing changes. Otherwise: settings are loaded as `LoadSettings` does; the volume only grows; a completed backup went to `base\kind\stamp` and mirrors the source; a free target always completes; a clash with an existing file ends in `BackupFailed` rather than escaping |
| StorageService.Sanitize | SoftwareLibrary/Services/StorageService.cs:58-62 | the result is always finite; a finite value comes back unchanged and a NaN or infinite one becomes the default |
| StorageService.SanitizeIdempotent | SoftwareLibrary/Services/StorageService.cs:58-62 | sanitising twice is the same as sanitising once |
| StorageService.SanitizedSpec | SoftwareLibrary/Services/StorageService.cs:45-52 | the sanitised settings can be written as JSON; settings that already could are unchanged; the result is idempotent; each geometry field falls back to 360, 1400, 900, 100 or 100 only when it was NaN or infinite; every other field is untouched |
| StorageService.Sanitized | SoftwareLibrary/Services/StorageService.cs:45-52 | the five geometry fields passed through `Sanitize` with their defaults; `SanitizedSpec` states the result |
| StorageService.SettingsRoundTrip | SoftwareLibrary/Services/StorageService.cs:25-56 | loading settings right after saving them gives back what was saved |
| StorageService.ItemsRoundTrip | SoftwareLibrary/Services/StorageService.cs:64-88 | loading items right after saving them gives back the same list in the same order |
| StorageService.LoadItemsStable | SoftwareLibrary/Services/StorageService.cs:64-82 | loading a second time gives the same items as the first load and leaves the store as the first load left it |
| StorageService.LoadedSettings | SoftwareLibrary/Services/StorageService.cs:25-43 | the settings `LoadSettings` returns: sanitised defaults for a missing file, the stored settings, or the defaults for a file that cannot be read; `SettingsRoundTrip` and `LoadedGeometry` state its properties |
| StorageService.LoadedItems | SoftwareLibrary/Services/StorageService.cs:64-82 | the list `LoadItems` returns: empty for a missing, null or unreadable file, otherwise the stored list; `ItemsRoundTrip` and `LoadItemsStable` state its properties |
| StorageService.FilesAfterLoadItems | SoftwareLibrary/Services/StorageService.cs:68-73 | the store after `LoadItems`: a missing items file is created holding the empty list, an existing one is left alone; `LoadItemsStable` states that a second load changes nothing |
| StorageService.FilesAfterLoadSettings | SoftwareLibrary/Services/StorageService.cs:29-33 | the store after `LoadSettings`: a missing settings file is created with the sanitised defaults, an existing one is left alone; `StorageService.StorageService.LoadSettings` states it as its new state |
| StorageService.BackupRoot | SoftwareLibrary/Services/StorageService.cs:93 | the settings' backups root when it is not null or white space, otherwise the base folder; `BackupBaseFolderSegments` states the resulting path |
| StorageService.BaseFolder | SoftwareLibrary/Services/StorageService.cs:16-18 | the requested folder when it is not blank, otherwise `Documents\CHillSW\SoftwareLibrary`; the constructor's contract uses it |
| StorageService.BackupBaseFolder | SoftwareLibrary/Services/StorageService.cs:93-94 | `Path.Combine(root, title, "Backups")` with the settings' backups root, or the base folder when that is blank; `BackupBaseFolderSegments` states its shape |
| StorageService.LoadedGeometry | SoftwareLibrary/Services/StorageService.cs:25-43 | a missing file gives default settings with the window position at 100,100, because the defaults are sanitised when saved; a stored file that can be serialised loads with finite geometry; an unreadable file gives the raw defaults, with the window position NaN |
| StorageService.BackupBaseFolderSegments | SoftwareLibrary/Services/StorageService.cs:90-96 | the backup base always ends in a `Backups` folder; a title that is not rooted gives root, title, then `Backups`; a blank backups root selects the base folder |
| StorageService.StorageService.constructor | SoftwareLibrary/Services/StorageService.cs:14-23 | the base folder is the argument when it is not blank, otherwise `Documents\CHillSW\SoftwareLibrary`; the items and settings files are `items.json` and `settings.json` in it |
| StorageService.StorageService.SaveSettings | SoftwareLibrary/Services/StorageService.cs:45-56 | the caller's settings object is sanitised in place, and the settings file then holds exactly that object |
| StorageService.StorageService.LoadSettings | SoftwareLibrary/Services/StorageService.cs:25-43 | returns a fresh object holding the file's settings, or the defaults when the file is missing (also saved) or unreadable |
| StorageService.StorageService.SaveItems | SoftwareLibrary/Services/StorageService.cs:84-88 | the items file now holds the given list; nothing else changes |
| StorageService.StorageService.LoadItems | SoftwareLibrary/Services/StorageService.cs:64-82 | returns the stored list, or the empty list when the file is missing (also saved), null or unreadable |
| StorageService.StorageService.GetBackupBaseFolder | SoftwareLibrary/Services/StorageService.cs:90-97 | loads the settings, picks the root, and creates and returns `root\title\Backups`; creation fails with `IOException` exactly when a file sits on that path |
| FileSystem.WithFoldersSpec | SoftwareLibrary/ViewModels/MainViewModel.cs:243 | `Directory.CreateDirectory` keeps every existing entry, leaves every prefix of the path a folder, and adds only prefixes of the path |
| FileSystem.MirrorsExtends | SoftwareLibrary/ViewModels/MainViewModel.cs:250-253 | a copy that is complete stays complete when later copies only add entries |
| FileSystem.DiskVolume.CreateDirectory | SoftwareLibrary/ViewModels/MainViewModel.cs:243 | succeeds exactly when no file sits on the path, and then creates every missing folder along it |
| FileSystem.DiskVolume.CopyFile | SoftwareLibrary/ViewModels/MainViewModel.cs:247 | `FileInfo.CopyTo` without overwrite succeeds exactly when the target is absent and its parent is a folder, and then writes the bytes there |
| SendToPositionWindow.TryParseInt32 | SoftwareLibrary/Views/SendToPositionWindow.xaml.cs:20 | a parsed value always lies in the 32-bit range |
| SendToPositionWindow.AcceptedPosition | SoftwareLibrary/Views/SendToPositionWindow.xaml.cs:20 | an accepted position is at least 1 and fits in 32 bits |
| SendToPositionWindow.AcceptsEveryPosition | SoftwareLibrary/Views/SendToPositionWindow.xaml.cs:20-22 | every value from 1 to Int32.MaxValue is accepted whatever white space surrounds it, so there is no other upper bound |
| SendToPositionWindow.RejectsNonPositive | SoftwareLibrary/Views/SendToPositionWindow.xaml.cs:20 | zero and negative numbers are refused |
| SendToPositionWindow.RejectsMissing | SoftwareLibrary/Views/SendToPositionWindow.xaml.cs:20 | every null, empty or all-white-space text is refused |
| SendToPositionWindow.RejectsNonNumeric | SoftwareLibrary/Views/SendToPositionWindow.xaml.cs:20 | a sign is allowed only as the first character: any text whose trimmed form has a character other than a digit anywhere after its optional leading sign (a second sign included) is refused |
| SendToPositionWindow.RejectsOverflow | SoftwareLibrary/Views/SendToPositionWindow.xaml.cs:20 | numbers of eleven digits or more overflow 32 bits and are refused |
| SendToPositionWindow.AcceptsSignedPadded | SoftwareLibrary/Views/SendToPositionWindow.xaml.cs:20 | every position from 1 to Int32.MaxValue written with a leading '+', whatever white space surrounds it, is accepted as that position |
| SendToPositionWindow.AcceptsLeadingZeros | SoftwareLibrary/Views/SendToPositionWindow.xaml.cs:20 | a position written with any number of leading zeros, with or without a '+' and with any white space around it, is accepted as that position |
| SendToPositionWindow.ParsesWithZeros | SoftwareLibrary/Views/SendToPositionWindow.xaml.cs:20 | `int.TryParse` reads zeros followed by a decimal position, unsigned or after a '+', as that position |
| SendToPositionWindow.RejectsSignedZero | SoftwareLibrary/Views/SendToPositionWindow.xaml.cs:20 | `0`, `+0`, `-0` and any run of zeros parse to 0, and are refused only because 0 is not at least 1 |
| SendToPositionWindow.SendToPositionWindow.constructor | SoftwareLibrary/Views/SendToPositionWindow.xaml.cs:10-16 | the text box shows the current position; `max` is taken but never used; no result yet |
| SendToPositionWindow.SendToPositionWindow.OkClick | SoftwareLibrary/Views/SendToPositionWindow.xaml.cs:18-28 | accepted text sets the result and closes with true; anything else shows a warning and leaves the result and the open dialog as they were |
| SendToPositionWindow.SendToPositionWindow.CancelClick | SoftwareLibrary/Views/SendToPositionWindow.xaml.cs:30-34 | closes with false and leaves the result unset |
| SendToPositionWindow.OpenAndConfirm | SoftwareLibrary/Views/SendToPositionWindow.xaml.cs:10-26 | pressing OK at once on a dialog opened at a positive position returns that position |
| SendToPositionWindow.OpenAndCancel | SoftwareLibrary/Views/SendToPositionWindow.xaml.cs:30-34 | opening and cancelling gives no result and dialog result false |
| SendToPositionWindow.SignLength | SoftwareLibrary/Views/SendToPositionWindow.xaml.cs:20 | the length of the optional leading sign that `int.TryParse` allows; `RejectsNonNumeric` and `AcceptsSignedPadded` state its consequences |
| SendToPositionWindow.SendToPositionWindow.EditText | SoftwareLibrary/Views/SendToPositionWindow.xaml.cs:20 | the user's edit replaces the text box's text and nothing else |
| SendToPositionWindow.OpenEditAndConfirm | SoftwareLibrary/Views/SendToPositionWindow.xaml.cs:10-28 | after the user types any text and presses OK, the dialog returns exactly `AcceptedPosition` of it and is closed exactly when that is a position; otherwise it warns and stays open |
| NullToBoolConverter.Convert | SoftwareLibrary/Converters/NullToBoolConverter.cs:10-23 | "show" exactly when the value has content, negated by "inverse"; a `Visibility` target gets Visible or Collapsed (never Hidden), any other target a bool |
| NullToBoolConverter.ContentDecides | SoftwareLibrary/Converters/NullToBoolConverter.cs:12-14 | null, empty and white-space strings give false; any other value gives true |
| NullToBoolConverter.InverseNegates | SoftwareLibrary/Converters/NullToBoolConverter.cs:13-15 | "inverse" in any letter case negates the result; any other parameter changes nothing |
| NullToBoolConverter.HasContent | SoftwareLibrary/Converters/NullToBoolConverter.cs:12 | the negation of `isNullOrEmpty`: neither null nor a null-or-white-space string; `ContentDecides` states its cases |
| NullToBoolConverter.IsInverse | SoftwareLibrary/Converters/NullToBoolConverter.cs:13 | the parameter is a string equal to "inverse" ignoring case; `InverseNegates` states its effect |
| NullToBoolConverter.ConvertBack | SoftwareLibrary/Converters/NullToBoolConverter.cs:25-28 | always throws `NotImplementedException` |
| StatusToBrushConverter.StatusColor | SoftwareLibrary/Converters/StatusToBrushConverter.cs:12-31 | the colour is opaque, and anything other than grey comes from one of the three live statuses |
| StatusToBrushConverter.CaseColor | SoftwareLibrary/Converters/StatusToBrushConverter.cs:14-31 | the `switch`: the four listed statuses get orange, gold, lime green and grey, anything else falls to `default`; `CasesAreTheOptions` and `OptionColours` state this |
| StatusToBrushConverter.Convert | SoftwareLibrary/Converters/StatusToBrushConverter.cs:10-36 | the result is a frozen brush whose colour depends only on the value, not on the target type or parameter |
| StatusToBrushConverter.OptionColours | SoftwareLibrary/Converters/StatusToBrushConverter.cs:16-27 | the four options get FFA500, FFD700, 32CD32 and 808080, in that order |
| StatusToBrushConverter.CasesAreTheOptions | SoftwareLibrary/Converters/StatusToBrushConverter.cs:16-27 | a status has its own case exactly when it is one of the four options, so none of them falls through to the default |
| StatusToBrushConverter.LiveStatusesDistinct | SoftwareLibrary/Converters/StatusToBrushConverter.cs:16-24 | the three live statuses get three different colours, none of them the fallback grey |
| StatusToBrushConverter.ArchivedLooksUnknown | SoftwareLibrary/Converters/StatusToBrushConverter.cs:25-30 | other strings, null and non-strings get `Colors.Gray`, which is the same colour as "Archived" |
| StatusToBrushConverter.ConvertBack | SoftwareLibrary/Converters/StatusToBrushConverter.cs:38-41 | always throws `NotImplementedException` |
| SelectedItemBorderConverter.Convert | SoftwareLibrary/Converters/SelectedItemBorderConverter.cs:10-28 | the look is highlighted exactly when the item is selected; a Thickness target gets 2 or 1, every other target the blue or the transparent brush |
| SelectedItemBorderConverter.IsSelected | SoftwareLibrary/Converters/SelectedItemBorderConverter.cs:12-14 | the current and selected values (null when missing) are the same reference, or the current one is not null and `Equals` the selected one; `Convert`, `MissingValuesAreNull`, `NullCurrentNotSelected` and `ReferenceSelection` state its consequences |
| SelectedItemBorderConverter.MissingValuesAreNull | SoftwareLibrary/Converters/SelectedItemBorderConverter.cs:12-14 | missing values count as null, so fewer than two values, all null, count as selected |
| SelectedItemBorderConverter.NullCurrentNotSelected | SoftwareLibrary/Converters/SelectedItemBorderConverter.cs:14 | a null current item with a non-null selection is not selected |
| SelectedItemBorderConverter.ReferenceSelection | SoftwareLibrary/Converters/SelectedItemBorderConverter.cs:14 | when `Equals` is reference identity, an item is selected exactly when both values are the same reference |
| SelectedItemBorderConverter.BrushBranchesAgree | SoftwareLibrary/Converters/SelectedItemBorderConverter.cs:16-27 | the two brush targets and the fallback give the same brush |
| SelectedItemBorderConverter.ConvertBack | SoftwareLibrary/Converters/SelectedItemBorderConverter.cs:30-33 | always throws `NotImplementedException` |
| StatusData.OptionsDistinct | SoftwareLibrary/StatusData.cs:7-13 | there are exactly four options, no two alike |
| Models.NewSoftwareItem | SoftwareLibrary/Models/SoftwareItem.cs:7-14 | a new item has the supplied GUID text as its id, the title "New Software", and every other field empty |
| Models.DefaultSettings | SoftwareLibrary/Models/AppSettings.cs:7-17 | the initialisers of `AppSettings`: the default folder, a blank backups root, width 360, the `Backups` target, NaN position, 1400 by 900, not maximised; `AppSettings.constructor` and `LoadedGeometry` state them |
| Models.DefaultFolderSegments | SoftwareLibrary/Models/AppSettings.cs:7 | the default storage folder is the documents folder followed by `CHillSW` and `SoftwareLibrary` |
| Models.AppSettings.constructor | SoftwareLibrary/Models/AppSettings.cs:7-17 | a new settings object holds the defaults: the default folder, empty backups root, width 360, targets ["Backups"], position NaN, size 1400x900, not maximised |
| Models.AppSettings.FromJson | SoftwareLibrary/Services/StorageService.cs:36-37 | the object deserialised from a settings file holds exactly the stored settings |
| Timestamps.StampShape | SoftwareLibrary/ViewModels/MainViewModel.cs:228 | the stamp is eight digits, an underscore and six digits |
| Timestamps.BackupStamp | SoftwareLibrary/ViewModels/MainViewModel.cs:228 | `ToString("yyyyMMdd_HHmmss")`: zero-padded year, month, day, an underscore, hour, minute, second; `StampShape`, `StampFields` and `StampInjective` state its properties |
| Timestamps.StampIsPlainName | SoftwareLibrary/ViewModels/MainViewModel.cs:228-229 | the stamp is a single plain folder name, so combining with it adds exactly one level |
| Timestamps.StampInjective | SoftwareLibrary/ViewModels/MainViewModel.cs:228 | two stamps are equal exactly when the times agree to the second |
| Base.TrimSpec | SoftwareLibrary/Views/SendToPositionWindow.xaml.cs:20 | `Trim` keeps a contiguous part of the text, drops only white space, and leaves none at either end |
| Base.PaddedValue | SoftwareLibrary/ViewModels/MainViewModel.cs:228 | reading a zero-padded field back gives the number written |
| Base.DecimalValue | SoftwareLibrary/Views/SendToPositionWindow.xaml.cs:13 | reading `ToString()` of a non-negative number back gives that number |
| Base.ZerosValue | SoftwareLibrary/Views/SendToPositionWindow.xaml.cs:20 | a run of zeros is a digit string worth 0 |
| Base.LeadingZerosValue | SoftwareLibrary/Views/SendToPositionWindow.xaml.cs:20 | leading zeros do not change the value of a digit string |
| Paths.SegmentsCombine | SoftwareLibrary/Services/StorageService.cs:94 | `Path.Combine` with a part that is not rooted appends that part's names |
| Paths.CombineName | SoftwareLibrary/ViewModels/MainViewModel.cs:226-229 | combining with a plain name adds exactly that one name |

## Left out

- The constructor of `StorageService` also creates its base folder
  (`Directory.CreateDirectory`). The store is a map from file paths to
  contents, separate from the backup volume, so that call is not modelled.
- JSON details are not modelled: indentation, property names, partially
  written files, missing or extra properties, and a `null` `BackupsRoot` in a
  file. A file is either a settings value, an item list, JSON `null` or
  unreadable.
- StorageService.StorageService.GetBackupBaseFolder: the settings and items
  files live in the store, which is kept apart from the volume the backup
  folders are created on. With a blank `BackupsRoot` the backup root is the
  base folder that holds `items.json` and `settings.json`, so for an item
  titled `items.json` or `settings.json` the source's
  `Directory.CreateDirectory(base\items.json\Backups)` throws `IOException`.
  By then both files exist: the view model's constructor loads the items and
  `GetBackupBaseFolder` loads the settings first. The model throws only when
  the caller's volume happens to hold that file as well.
- StorageService.StorageService.GetBackupBaseFolder: item titles are never
  null in the model, but `items.json` can hold `"Title": null`. With such a
  title `Path.Combine` throws `ArgumentNullException` after the settings are
  loaded. The model has no such failure.
- MainViewModel.MainViewModel.BackupFolder: the null-title failure above is
  not modelled. The source reports "Backup failed" and creates no backup
  folder. A null `BuildFolder` or `DataFolder` in `items.json` reaches
  `BackupFolder` as a null source and is skipped like a blank one. The model
  keeps these fields as plain strings, so it cannot express them being null.
- Write failures, sharing violations, permissions and every other I/O fault
  except a file in the way of a directory and an existing copy target.
- File names are compared case-sensitively; the Windows file system compares
  them without case.
- The backup source is a snapshot tree, separate from the destination volume.
  A backup root inside the source folder, which could make the copy see its
  own output, is not modelled.
- MainViewModel.CopyDirectory: `GetFiles` and `GetDirectories` are taken in
  the tree's listing order. The file system's own order, and a name that is
  both a file and a directory, are not modelled.
- Paths.SegmentsCombine: a rooted second part, which makes `Path.Combine`
  discard the first, is covered only by `Combine` itself. A rooted item title
  therefore places backups outside the backups root, and no lemma describes
  where.
- Paths.Segments: path names are taken literally. `.` and `..`, relative
  roots, and Windows' trimming of trailing dots and spaces are not resolved,
  although `Directory.CreateDirectory` resolves them. For such a title or
  root the proved folder is not the one the program creates (a title `..`
  creates `Backups` beside the root, not below it).
- StorageService.BackupBaseFolderSegments: states the literal segments
  `root`, `title`, `Backups`. It does not resolve `.`, `..`, relative roots
  or trailing dots and spaces, as `Paths.Segments` explains.
- MainViewModel.MainViewModel.BackupFolder: the proved clone location and the
  copied tree are in literal segments. Titles or roots that `.`, `..`,
  relative paths or trailing dots and spaces would redirect are not resolved.
- `EqualsIgnoreCase` folds only ASCII letters. This is enough for "inverse";
  other Unicode case pairs are not modelled.
- SendToPositionWindow.TryParseInt32: trailing NUL characters, the culture's
  sign symbols and parenthesised or hexadecimal forms are not modelled.
  `int.TryParse` with the default style accepts none of these except trailing
  NULs and culture signs.
- Timestamps.BackupStamp: assumes the Gregorian calendar. `DateTime.ToString`
  formats with the current culture's calendar, so under a culture such as
  th-TH (Thai Buddhist calendar) the year digits differ from the model's.
- Timestamps.IsValid accepts day 31 in every month. Calendar validity belongs
  to `DateTime` and does not affect the stamp's shape.
- Reading `DateTime.Now`, generating GUIDs and finding the documents folder
  are replaced by parameters.
- MessageBox text, property-change notifications and command `CanExecute`
  wiring are not modelled. Neither is window ownership (`Owner`,
  `ShowDialog` modality), beyond what each outcome sets.
- `PasteImage`, `ChooseImage`, `ChooseExecutable`, `ChooseBuildFolder`,
  `ChooseDataFolder`, `RunExecutable` and `RunItem` are left out. They are
  clipboard, dialog and process calls.
- `MainWindow`, `SettingsWindow`, `DragAdorner`, `AddTile`,
  `ItemTypeTemplateSelector` and `StringToImageConverter` are window glue,
  float parsing and image loading. They are not part of this model.
- MainViewModel.MainViewModel.OpenReorder: the user's clicks reach the dialog
  as a list of actions. A dialog still open when they run out is closed from
  the title bar, which gives dialog result false.
- Items are values, so reference identity between list entries is modelled
  as value equality. The border converter keeps references explicit.
- `SoftwareItem.Id` has a public setter, but nothing in the modelled core
  assigns it. The model sets it only at creation.
- Items have no status field in the code, although `StatusData` and the
  status converter exist. The model follows the code.
- Doubles are classified only as finite, NaN or infinite. Their arithmetic
  is not modelled.
