/**
  The JSON store: `items.json` and `settings.json` in the base folder, read
  back with fallbacks, and the settings sanitised before every write so that
  the file never holds a value JSON cannot express.
 */
module StorageService {
  import opened Base
  import opened Doubles
  import opened Paths
  import opened Models
  import FileSystem

  /** What a JSON file holds, as far as its reader can tell. */
  datatype Stored =
    | ItemsJson(items: seq<SoftwareItem>)   // a JSON array of items
    | SettingsJson(settings: Settings)      // a JSON settings object
    | JsonNull                              // the literal `null`
    | Unreadable                            // malformed text, or a read that throws

  /** `Sanitize`: NaN and the infinities become `defaultValue`, every other value is kept. */
  function Sanitize(value: Double, defaultValue: real): (r: Double)
    ensures IsFinite(r)
    ensures IsFinite(value) ==> r == value
    ensures !IsFinite(value) ==> r == Finite(defaultValue)
  {
    if IsNaN(value) || IsInfinity(value) then Finite(defaultValue) else value
  }

  /** Sanitising twice gives what sanitising once gives. */
  lemma SanitizeIdempotent(value: Double, defaultValue: real)
    ensures Sanitize(Sanitize(value, defaultValue), defaultValue) == Sanitize(value, defaultValue)
  {
  }

  /** The five geometry values are finite: the settings can be written as JSON. */
  predicate Serializable(s: Settings) {
    IsFinite(s.leftColumnWidth) && IsFinite(s.windowWidth) && IsFinite(s.windowHeight)
    && IsFinite(s.windowLeft) && IsFinite(s.windowTop)
  }

  /** The settings as `SaveSettings` leaves them, before it writes them. */
  function Sanitized(s: Settings): Settings {
    s.(leftColumnWidth := Sanitize(s.leftColumnWidth, 360.0),
       windowWidth := Sanitize(s.windowWidth, 1400.0),
       windowHeight := Sanitize(s.windowHeight, 900.0),
       windowLeft := Sanitize(s.windowLeft, 100.0),
       windowTop := Sanitize(s.windowTop, 100.0))
  }

  /**
    Sanitised settings can be written; only non-finite geometry values change,
    each to its own default; the folders, the targets and the maximised flag
    are untouched.
   */
  lemma SanitizedSpec(s: Settings)
    ensures Serializable(Sanitized(s))
    ensures Serializable(s) ==> Sanitized(s) == s
    ensures Sanitized(Sanitized(s)) == Sanitized(s)
    ensures var t := Sanitized(s);
      && t.storageFolder == s.storageFolder && t.backupsRoot == s.backupsRoot
      && t.backupTargets == s.backupTargets && t.isMaximized == s.isMaximized
      && (IsFinite(s.windowLeft) ==> t.windowLeft == s.windowLeft)
      && (IsFinite(s.windowTop) ==> t.windowTop == s.windowTop)
      && (IsFinite(s.leftColumnWidth) ==> t.leftColumnWidth == s.leftColumnWidth)
      && (IsFinite(s.windowWidth) ==> t.windowWidth == s.windowWidth)
      && (IsFinite(s.windowHeight) ==> t.windowHeight == s.windowHeight)
      && (!IsFinite(s.windowLeft) ==> t.windowLeft == Finite(100.0))
      && (!IsFinite(s.windowTop) ==> t.windowTop == Finite(100.0))
      && (!IsFinite(s.leftColumnWidth) ==> t.leftColumnWidth == Finite(360.0))
      && (!IsFinite(s.windowWidth) ==> t.windowWidth == Finite(1400.0))
      && (!IsFinite(s.windowHeight) ==> t.windowHeight == Finite(900.0))
  {
  }

  /** What `LoadSettings` returns for the store `files`. */
  function LoadedSettings(files: map<string, Stored>, settingsFile: string, documents: string): Settings {
    if settingsFile !in files then Sanitized(DefaultSettings(documents))
    else match files[settingsFile]
      case SettingsJson(v) => if Serializable(v) then v else DefaultSettings(documents)
      case _ => DefaultSettings(documents)
  }

  /** The store after `LoadSettings`: a missing settings file is created with the sanitised defaults. */
  function FilesAfterLoadSettings(files: map<string, Stored>, settingsFile: string, documents: string): map<string, Stored> {
    if settingsFile in files then files
    else files[settingsFile := SettingsJson(Sanitized(DefaultSettings(documents)))]
  }

  /** What `LoadItems` returns for the store `files`. */
  function LoadedItems(files: map<string, Stored>, itemsFile: string): seq<SoftwareItem> {
    if itemsFile in files && files[itemsFile].ItemsJson? then files[itemsFile].items else []
  }

  /** The store after `LoadItems`: a missing items file is created holding an empty list. */
  function FilesAfterLoadItems(files: map<string, Stored>, itemsFile: string): map<string, Stored> {
    if itemsFile in files then files else files[itemsFile := ItemsJson([])]
  }

  /** Settings saved are the settings loaded back, sanitised. */
  lemma SettingsRoundTrip(files: map<string, Stored>, settingsFile: string, documents: string, s: Settings)
    ensures LoadedSettings(files[settingsFile := SettingsJson(Sanitized(s))], settingsFile, documents) == Sanitized(s)
  {
    SanitizedSpec(s);
  }

  /** Items saved are the items loaded back, in the same order. */
  lemma ItemsRoundTrip(files: map<string, Stored>, itemsFile: string, items: seq<SoftwareItem>)
    ensures LoadedItems(files[itemsFile := ItemsJson(items)], itemsFile) == items
  {
  }

  /** Loading twice gives the same items and leaves the store as the first load left it. */
  lemma LoadItemsStable(files: map<string, Stored>, itemsFile: string)
    ensures var f := FilesAfterLoadItems(files, itemsFile);
      LoadedItems(f, itemsFile) == LoadedItems(files, itemsFile) && FilesAfterLoadItems(f, itemsFile) == f
  {
  }

  /**
    The window position of a first run is written as 100, and every
    settings file that can be read holds finite geometry; an unreadable file,
    by contrast, yields the raw defaults with the position NaN.
   */
  lemma LoadedGeometry(files: map<string, Stored>, settingsFile: string, documents: string)
    ensures settingsFile !in files ==>
      LoadedSettings(files, settingsFile, documents).windowLeft == Finite(100.0)
      && LoadedSettings(files, settingsFile, documents).windowTop == Finite(100.0)
    ensures settingsFile in files && files[settingsFile].SettingsJson? && Serializable(files[settingsFile].settings) ==>
      Serializable(LoadedSettings(files, settingsFile, documents))
    ensures settingsFile in files && !files[settingsFile].SettingsJson? ==>
      LoadedSettings(files, settingsFile, documents) == DefaultSettings(documents)
      && LoadedSettings(files, settingsFile, documents).windowLeft == NaN
  {
  }

  /** The base folder: the one asked for unless it is blank, else `Documents\CHillSW\SoftwareLibrary`. */
  function BaseFolder(requested: Option<string>, documents: string): string {
    if !IsNullOrWhiteSpace(requested) then requested.value else DefaultFolder(documents)
  }

  /** The root under which backups go: `BackupsRoot` unless it is blank, else the base folder. */
  function BackupRoot(backupsRoot: string, baseFolder: string): string {
    if !IsBlank(backupsRoot) then backupsRoot else baseFolder
  }

  /** `<root>\<title>\Backups`. */
  function BackupBaseFolder(backupsRoot: string, baseFolder: string, title: string): string {
    Combine(Combine(BackupRoot(backupsRoot, baseFolder), title), "Backups")
  }

  /**
    The backup folder always ends in a folder named `Backups`; for a title
    that is not a rooted path it is the root, the title's names, then
    `Backups`, and with the default settings the root is the base folder.
   */
  lemma BackupBaseFolderSegments(backupsRoot: string, baseFolder: string, title: string)
    ensures var p := Segments(BackupBaseFolder(backupsRoot, baseFolder, title));
      p != [] && p[|p| - 1] == "Backups"
    ensures !IsPathRooted(title) ==>
      Segments(BackupBaseFolder(backupsRoot, baseFolder, title))
        == Segments(BackupRoot(backupsRoot, baseFolder)) + Segments(title) + ["Backups"]
    ensures IsBlank(backupsRoot) ==> BackupRoot(backupsRoot, baseFolder) == baseFolder
  {
    var root := BackupRoot(backupsRoot, baseFolder);
    assert IsPlainName("Backups");
    CombineName(Combine(root, title), "Backups");
    if !IsPathRooted(title) {
      SegmentsCombine(root, title);
    }
  }

  class StorageService {
    const documents: string
    const baseFolder: string
    const itemsFile: string
    const settingsFile: string
    /** The JSON files on disk, by path. */
    var files: map<string, Stored>

    /** `new StorageService(baseFolder)`; `documents` is the user's documents folder, `files` what is on disk. */
    constructor (requested: Option<string>, documents: string, files: map<string, Stored>)
      ensures this.documents == documents && baseFolder == BaseFolder(requested, documents)
      ensures itemsFile == Combine(baseFolder, "items.json")
      ensures settingsFile == Combine(baseFolder, "settings.json")
      ensures this.files == files
    {
      this.documents := documents;
      var folder := if !IsNullOrWhiteSpace(requested) then requested.value
                    else Combine(Combine(documents, "CHillSW"), "SoftwareLibrary");
      baseFolder := folder;
      itemsFile := Combine(folder, "items.json");
      settingsFile := Combine(folder, "settings.json");
      this.files := files;
    }

    /** `SaveSettings`: sanitises the object in place, then writes it. */
    method SaveSettings(s: AppSettings)
      modifies this`files, s
      ensures s.Snapshot() == Sanitized(old(s.Snapshot()))
      ensures files == old(files)[settingsFile := SettingsJson(s.Snapshot())]
    {
      s.leftColumnWidth := Sanitize(s.leftColumnWidth, 360.0);
      s.windowWidth := Sanitize(s.windowWidth, 1400.0);
      s.windowHeight := Sanitize(s.windowHeight, 900.0);
      s.windowLeft := Sanitize(s.windowLeft, 100.0);
      s.windowTop := Sanitize(s.windowTop, 100.0);
      files := files[settingsFile := SettingsJson(s.Snapshot())];
    }

    /** `LoadSettings`: a new object, from the file, or the defaults (saved first when there is no file). */
    method LoadSettings() returns (s: AppSettings)
      modifies this`files
      ensures fresh(s)
      ensures s.Snapshot() == LoadedSettings(old(files), settingsFile, documents)
      ensures files == FilesAfterLoadSettings(old(files), settingsFile, documents)
    {
      if settingsFile !in files {
        s := new AppSettings(documents);
        SaveSettings(s);
        return;
      }
      var stored := files[settingsFile];
      if stored.SettingsJson? && Serializable(stored.settings) {
        s := new AppSettings.FromJson(stored.settings);
      } else {
        s := new AppSettings(documents);
      }
    }

    /** `SaveItems`: writes the list as it is. */
    method SaveItems(items: seq<SoftwareItem>)
      modifies this`files
      ensures files == old(files)[itemsFile := ItemsJson(items)]
    {
      files := files[itemsFile := ItemsJson(items)];
    }

    /** `LoadItems`: the stored list, or an empty list (saved first when there is no file). */
    method LoadItems() returns (items: seq<SoftwareItem>)
      modifies this`files
      ensures items == LoadedItems(old(files), itemsFile)
      ensures files == FilesAfterLoadItems(old(files), itemsFile)
    {
      if itemsFile !in files {
        items := [];
        SaveItems(items);
        return;
      }
      match files[itemsFile] {
        case ItemsJson(l) => items := l;
        case _ => items := [];
      }
    }

    /**
      `GetBackupBaseFolder`: `<root>\<title>\Backups` with the root taken from
      freshly loaded settings, created on the volume; creating it throws when
      a file is in the way.
     */
    method GetBackupBaseFolder(item: SoftwareItem, vol: FileSystem.DiskVolume) returns (r: Result<string>)
      modifies this`files, vol
      ensures files == FilesAfterLoadSettings(old(files), settingsFile, documents)
      ensures var dest := BackupBaseFolder(LoadedSettings(old(files), settingsFile, documents).backupsRoot, baseFolder, item.title);
        && (r.Ok? <==> FileSystem.NoFileOnPath(old(vol.nodes), Segments(dest)))
        && (r.Ok? ==> r.value == dest && vol.nodes == FileSystem.WithFolders(old(vol.nodes), Segments(dest)))
        && (r.Exception? ==> r.name == "IOException" && vol.nodes == old(vol.nodes))
    {
      var settings := LoadSettings();
      var root := if !IsBlank(settings.backupsRoot) then settings.backupsRoot else baseFolder;
      var dest := Combine(Combine(root, item.title), "Backups");
      BackupBaseFolderSegments(settings.backupsRoot, baseFolder, item.title);
      var ok := vol.CreateDirectory(Segments(dest));
      if !ok {
        return Exception("IOException");
      }
      return Ok(dest);
    }
  }
}
