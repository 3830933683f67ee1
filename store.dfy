/**
 * The two external stores the inventory reads: the Lxss registry subtree of
 * the current user, and the directories named by each distribution's BasePath.
 */
module Store {
  import opened Wrappers
  import opened Dotnet

  /** Value names used under the Lxss key. */
  const DistributionName: string := "DistributionName"
  const PackageFamilyName: string := "PackageFamilyName"
  const BasePath: string := "BasePath"
  const DefaultDistribution: string := "DefaultDistribution"

  /** What RegistryKey.OpenSubKey does for one subkey name. */
  datatype KeyState =
    | Missing                                  // returns null: the subkey is passed over
    | Denied                                   // throws SecurityException
    | Opened(values: map<string, string>)      // the subkey's string values by name

  datatype SubKey = SubKey(name: string, state: KeyState)

  /** The opened Lxss key: its own values and its subkeys in GetSubKeyNames order. */
  datatype Root = Root(values: map<string, string>, subKeys: seq<SubKey>)

  /** RegistryKey.GetValue(name, fallback) for a string value. */
  function GetValue(values: map<string, string>, name: string, fallback: string): (v: string)
    ensures name in values ==> v == values[name]
    ensures name !in values ==> v == fallback
  {
    if name in values then values[name] else fallback
  }

  /** The DistributionName of a subkey, read with string.Empty as the fallback. */
  function NameOf(values: map<string, string>): string {
    GetValue(values, DistributionName, "")
  }

  /**
   * A file found by a recursive Directory.GetFiles: its extension, its length
   * (None when FileInfo.Length throws) and its last access time.
   */
  datatype FileEntry = FileEntry(extension: string, length: Option<nat>, lastAccess: Ticks)

  /** A directory whose recursive listing either succeeds, in enumeration order, or throws. */
  datatype DirState = Listable(files: seq<FileEntry>) | Unlistable

  /** Directory.Exists(p) holds exactly for the keys of this map. */
  type FileSystem = map<string, DirState>

  /** The directory scan under this path throws. */
  predicate ScanThrows(fs: FileSystem, path: string) {
    !IsNullOrWhiteSpace(path) && path in fs && fs[path].Unlistable?
  }
}
