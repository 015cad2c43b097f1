/**
  The two records of the application: a catalogue entry (`SoftwareItem`) and
  the persisted settings (`AppSettings`), with their default values.
 */
module Models {
  import opened Doubles
  import opened Paths

  /**
    A catalogue entry. Items are compared by value here; in the application
    they are objects compared by reference, told apart by their GUID `id`.
   */
  datatype SoftwareItem = SoftwareItem(
    id: string,
    title: string,
    description: string,
    notes: string,
    imagePath: string,
    executablePath: string,
    buildFolder: string,  // backed up as "AppData"
    dataFolder: string    // backed up as "UserData"
  )

  const DefaultTitle: string := "New Software"

  /** `new SoftwareItem()`: `id` is the freshly generated GUID text, supplied by the caller. */
  function NewSoftwareItem(id: string): (r: SoftwareItem)
    ensures r.id == id && r.title == DefaultTitle
    ensures r.description == "" && r.notes == "" && r.imagePath == ""
    ensures r.executablePath == "" && r.buildFolder == "" && r.dataFolder == ""
  {
    SoftwareItem(id, DefaultTitle, "", "", "", "", "", "")
  }

  /** `Documents\CHillSW\SoftwareLibrary`, for the user's documents folder `documents`. */
  function DefaultFolder(documents: string): string {
    Combine(Combine(documents, "CHillSW"), "SoftwareLibrary")
  }

  /** The default folder is the documents folder with `CHillSW` and then `SoftwareLibrary` below it. */
  lemma DefaultFolderSegments(documents: string)
    ensures Segments(DefaultFolder(documents)) == Segments(documents) + ["CHillSW", "SoftwareLibrary"]
  {
    assert IsPlainName("CHillSW") && IsPlainName("SoftwareLibrary");
    CombineName(documents, "CHillSW");
    CombineName(Combine(documents, "CHillSW"), "SoftwareLibrary");
  }

  /** The settings as a value: what the settings file holds. */
  datatype Settings = Settings(
    storageFolder: string,
    backupsRoot: string,        // optional override of the backup root; blank means "use the base folder"
    leftColumnWidth: Double,
    backupTargets: seq<string>,
    windowLeft: Double,
    windowTop: Double,
    windowWidth: Double,
    windowHeight: Double,
    isMaximized: bool
  )

  /** The initial values of a new `AppSettings` object. */
  function DefaultSettings(documents: string): Settings {
    Settings(DefaultFolder(documents), "", Finite(360.0), ["Backups"],
             NaN, NaN, Finite(1400.0), Finite(900.0), false)
  }

  /** The live settings object; `SaveSettings` rewrites its fields in place. */
  class AppSettings {
    var storageFolder: string
    var backupsRoot: string
    var leftColumnWidth: Double
    var backupTargets: seq<string>
    var windowLeft: Double
    var windowTop: Double
    var windowWidth: Double
    var windowHeight: Double
    var isMaximized: bool

    /** The object's current field values. */
    function Snapshot(): Settings
      reads this
    {
      Settings(storageFolder, backupsRoot, leftColumnWidth, backupTargets,
               windowLeft, windowTop, windowWidth, windowHeight, isMaximized)
    }

    /** `new AppSettings()`, with the user's documents folder as `documents`. */
    constructor (documents: string)
      ensures Snapshot() == DefaultSettings(documents)
    {
      storageFolder := DefaultFolder(documents);
      backupsRoot := "";
      leftColumnWidth := Finite(360.0);
      backupTargets := ["Backups"];
      windowLeft := NaN;
      windowTop := NaN;
      windowWidth := Finite(1400.0);
      windowHeight := Finite(900.0);
      isMaximized := false;
    }

    /** The object the JSON deserializer builds from a settings file holding `s`. */
    constructor FromJson(s: Settings)
      ensures Snapshot() == s
    {
      storageFolder := s.storageFolder;
      backupsRoot := s.backupsRoot;
      leftColumnWidth := s.leftColumnWidth;
      backupTargets := s.backupTargets;
      windowLeft := s.windowLeft;
      windowTop := s.windowTop;
      windowWidth := s.windowWidth;
      windowHeight := s.windowHeight;
      isMaximized := s.isMaximized;
    }
  }
}
