# WhistlerCLI in Dafny

A model of the core of WhistlerCLI, a Windows command-line tool that lists the
WSL distributions registered for the current user and renames them. The model
has three layers:

- **The store and the inventory engine**, `WslUtil.cs` (modules `Store` and `Lxss`).
  - The `HKCU\...\Lxss` registry key is an optional root. It holds the root's
    string values, among them the `DefaultDistribution` value, and the
    subkeys in enumeration order.
  - Each subkey is missing, denied, or opened with its string values.
  - The file system is a map from directory to either its recursive file
    listing or a listing that throws. Each file has an extension, a length
    (absent when reading it throws) and an access time.
  - Exceptions are values of an `Outcome` type.
  - GUID parsing is a partial function supplied by the caller.
  - The class `Lxss.WslUtil` holds the registry and the file system. Its
    methods follow the source's loops (`WslDistros`, `GetDiskSpace`,
    `UpdateWslDistroName`). Each is proved equal to a specification function,
    and the lemmas are proved about those functions.
- **The derived presentation**, `WslDistro.cs` (module `Distro`).
  - The `WslDistro` record is a datatype.
  - `LastAccessStr` is modelled as a choice of time bucket plus the count it
    shows. Time is in 100 ns ticks, `DateTime.MinValue` is 0, and "now" is a
    parameter.
  - `TotalSpace` is modelled as a choice of binary unit plus the value
    rounded to hundredths.
- **The command front end**, `Program.cs` (module `Cli`).
  - `Execute` states what `Run` reports and what the registry holds
    afterwards.
  - The class `Cli.Program` carries the handlers as methods over a `WslUtil`.

The modules `Wrappers` (Option, Outcome, exception kinds) and `Dotnet` (Guid,
ticks, `char.IsWhiteSpace`, `ToLower`, integer rendering, `int.TryParse`) model
the parts of the base library the program relies on.

The listing stops at the first entry that fails:

- A subkey whose name is not a GUID, or whose directory cannot be listed, does
  not skip that entry and does not degrade it. The exception leaves the
  `foreach` and the getter returns the entries gathered so far
  (WslUtil.cs:42-67).
- A denied subkey also ends the listing (SecurityException). A subkey that
  `OpenSubKey` returns as null is passed over without using up an Id.

## Model

| member | source | states |
|---|---|---|
| `Dotnet.ToLower` | Program.cs:42 | the lower-cased command has the same length and no upper-case ASCII letter; upper-case letters move 32 code points to their lower-case partner, and every other character stays |
| `Dotnet.ToLowerIdempotent` | Program.cs:42 | lower-casing an already lower-cased command changes nothing |
| `Dotnet.ParseInt32` | Program.cs:110 | an accepted Id always lies in the 32-bit signed range |
| `Dotnet.ParseRendered` | Program.cs:110 | the decimal text of any non-negative 32-bit value parses back to that value |
| `Distro.WslDistro.LastAccessStr` | WslDistro.cs:19-47 | any record reads "never" exactly when its LastAccess is DateTime.MinValue; the buckets are in `ElapsedBuckets`, `RoundedCounts`, `YearsAreFlooredQuarterDays` and `BucketMonotone` |
| `Distro.AccessLabelOf` | WslDistro.cs:21-47 | the label is Never exactly for DateTime.MinValue, whatever the clock says |
| `Distro.ElapsedLabel` | WslDistro.cs:26-46 | an elapsed time never reads "never", and reads "just now" exactly below 60 s, negative times included; the other buckets are in `ElapsedBuckets` |
| `Distro.AccessText` | WslDistro.cs:24-46 | only the Never label is rendered as "never" |
| `Distro.NeverOnlyForMinValue` | WslDistro.cs:23-24 | for every record, the label is "never" exactly when the timestamp is DateTime.MinValue, whatever the clock says |
| `Distro.ElapsedBuckets` | WslDistro.cs:28-44 | each bucket is one half-open interval of elapsed time (negative times included in "just now"); minutes show 1..60, hours 1..24, days 2..29, months 1..12 |
| `Distro.RoundedCounts` | WslDistro.cs:31-35 | the minute and hour counts are the elapsed time rounded to the nearest unit |
| `Distro.YearsAreFlooredQuarterDays` | WslDistro.cs:46 | the year count is the floor of whole days / 365.25 |
| `Distro.ZeroYearsAfterOneYear` | WslDistro.cs:46 | from 365 up to 366 whole days the label reads "0.0 years ago" |
| `Distro.BucketMonotone` | WslDistro.cs:28-46 | a longer elapsed time never lands in an earlier bucket |
| `Distro.MinuteBoundaryExample` | WslDistro.cs:28-32 | 59 s reads "just now" and 61 s reads "1 minutes ago" |
| `Distro.WslDistro.TotalSpace` | WslDistro.cs:53-68 | the text ends with a space and the name of the unit picked for TotalBytes; the unit and value are in `UnitBounds`, `UnitMonotone` and `HundredthsRound` |
| `Distro.SpaceText` | WslDistro.cs:55-67 | a non-empty number text is followed by a space and the unit UnitOf picks by the thresholds at powers of 1024 |
| `Distro.UnitBounds` | WslDistro.cs:57-66 | bytes are shown exactly below 1024; for KiB, MiB and GiB the unrounded value lies in [1, 1024); for TiB it is at least 1 |
| `Distro.UnitMonotone` | WslDistro.cs:57-66 | more bytes never choose a smaller unit |
| `Distro.HundredthsRound` | WslDistro.cs:59-66 | the shown value is bytes / scale rounded to the nearest hundredth |
| `Distro.SpaceTextExamples` | WslDistro.cs:57-60 | 2024 bytes read "1.98 KiB" and 500 bytes read "500 bytes" |
| `Distro.RoundsUpToUnitBoundary` | WslDistro.cs:59-60 | one byte short of 1 MiB reads "1024.00 KiB", because the unit is chosen before rounding |
| `Lxss.DiskSpaceOf` | WslUtil.cs:71-106 | 0 for a blank or absent path; throws exactly when the listing throws; otherwise the sum of the readable lengths |
| `Lxss.ReadableBytesIsSumOfReadable` | WslUtil.cs:90-103 | the running total equals the sum of the lengths that could be read, unreadable files skipped |
| `Lxss.WithExtension` | WslUtil.cs:198-202 | the filtered listing holds only files with the extension; it is empty exactly when none has it; its head is the first such file; it holds every file with the extension and nothing else from the listing |
| `Lxss.GetLastAccess` | WslUtil.cs:183-213 | MinValue for a blank or absent path; throws exactly when the listing throws |
| `Lxss.LastAccessPicksFirstDisk` | WslUtil.cs:196-211 | the time of the first .vhdx file; of the first .vhd only when there is no .vhdx; MinValue when there is neither |
| `Lxss.GetDefaultWslDistro` | WslUtil.cs:149-181 | Guid.Empty without a root or a parsable DefaultDistribution value; a DefaultDistribution value that parses gives that GUID; any result other than Guid.Empty is the parsed value |
| `Lxss.NoValueMeansEmpty` | WslUtil.cs:163-168 | without a DefaultDistribution value the default is Guid.Empty |
| `Lxss.MakeEntry` | WslUtil.cs:39-52 | building an entry throws exactly when the name is not a GUID or the directory scan throws; otherwise it carries the Id, the parsed GUID, the DistributionName, PackageFamilyName and BasePath values, TotalBytes equal to DiskSpaceOf(BasePath) and LastAccess equal to GetLastAccess(BasePath), and is Default iff its GUID is the DefaultDistribution value |
| `Lxss.KeyEntry` | WslUtil.cs:35-54 | a subkey is passed over exactly when it is missing, and ends the listing exactly when it is denied or its entry throws |
| `Lxss.ScanKeys` | WslUtil.cs:33-55 | the listing is no longer than the subkey sequence |
| `Lxss.ScanNumbering` | WslUtil.cs:41-53 | entries are numbered consecutively, and each is Default iff its GUID is the DefaultDistribution value |
| `Lxss.ScanFromIsScan` | WslUtil.cs:33-55 | running the foreach from any point appends the scan of the remaining subkeys to what was gathered |
| `Lxss.Inventory` | WslUtil.cs:24-31 | without the root key the listing is empty |
| `Lxss.InventoryNumbering` | WslUtil.cs:41-52 | listed Ids are exactly 1..N in order, and Default marks the entries whose GUID is the DefaultDistribution value |
| `Lxss.ScanLength` | WslUtil.cs:35-37 | there are never more entries than subkeys that open |
| `Lxss.ScanEntrySource` | WslUtil.cs:35-48 | entry j comes, with Id j + 1, from the j-th subkey that is not missing: missing subkeys use up no Id |
| `Lxss.ScanStopsAtThrow` | WslUtil.cs:42-67 | a listing shorter than the present subkeys stopped at the next present subkey, and that subkey threw |
| `Lxss.StopsAtFailure` | WslUtil.cs:58-67 | a subkey that throws ends the listing: it equals the listing of the subkeys before it |
| `Lxss.ScanPrefix` | WslUtil.cs:58-67 | the listing of the first p subkeys is a prefix of the full listing |
| `Lxss.ScanRenameTarget` | WslUtil.cs:123-133 | renaming by the name of listed entry k hits the subkey behind the first listed entry with that name |
| `Lxss.AtMostOneDefault` | WslUtil.cs:49-52 | with distinct listed GUIDs at most one entry is Default |
| `Lxss.NoDefaultWhenEmpty` | WslUtil.cs:49-52 | with an empty default and no listed Guid.Empty, no entry is Default |
| `Lxss.FindRenameTarget` | WslUtil.cs:123-135 | the loop stops at the first subkey named oldName or the first denied one, having passed only missing or differently named subkeys; it misses exactly when all pass |
| `Lxss.Renamed` | WslUtil.cs:108-147 | the rename returns true exactly when the root opens and FindRenameTarget hits; a false result leaves the store unchanged; a true one keeps the root's values and the number of subkeys (what is written is in `RenameWritesOnlyTarget`) |
| `Lxss.RenameOutcome` | WslUtil.cs:108-147 | the rename succeeds iff the root opens and a subkey named oldName comes before any denied one; a failed rename changes nothing |
| `Lxss.RenameWithoutMatch` | WslUtil.cs:117-146 | with no subkey named oldName the rename returns false and writes nothing |
| `Lxss.RenameWritesOnlyTarget` | WslUtil.cs:129-132 | a successful rename writes newName to DistributionName of the first matching subkey only; every other subkey and value, and the root's values, are unchanged |
| `Lxss.RenameFromEmptyName` | WslUtil.cs:129 | renaming from "" targets the first subkey whose name is absent or empty |
| `Lxss.RenameTwiceFails` | WslUtil.cs:129-146 | after renaming the only subkey named oldName to another name, repeating the call fails |
| `Lxss.WslUtil.GetDiskSpace` | WslUtil.cs:71-106 | the loop's result is DiskSpaceOf of the path |
| `Lxss.WslUtil.ReadSubKey` | WslUtil.cs:35-54 | one pass of the foreach body yields KeyEntry for that subkey and Id |
| `Lxss.WslUtil.WslDistros` | WslUtil.cs:15-68 | the getter returns the Inventory of the current store |
| `Lxss.WslUtil.UpdateWslDistroName` | WslUtil.cs:108-147 | the result and the new registry are those of Renamed on the old registry |
| `Cli.Dispatch` | Program.cs:30-57 | off Windows the platform message; on Windows with no arguments the missing-command message; otherwise each handler is chosen exactly when the lower-cased first argument is its word, and an unknown word is reported lower-cased |
| `Cli.Execute` | Program.cs:26-58 | the registry changes only under renid or ren with at least three arguments, and only with a success report |
| `Cli.FindById` | Program.cs:117 | the result is default(WslDistro) or a listed entry with that Id; it is the default when no entry has the Id, and otherwise it is the first entry with the Id |
| `Cli.RenameStep` | Program.cs:139-150 | the report is success or failure for the two names; a failure leaves the registry as it was; success exactly when the root opens and FindRenameTarget hits |
| `Cli.RenIdStep` | Program.cs:102-126 | fewer than three arguments give usage and no change; any change comes with a well-formed Id and a success report for the name of the entry Find returns, renamed to args[2] |
| `Cli.RenStep` | Program.cs:128-137 | fewer than three arguments give usage and no change; any change is a reported rename from args[1] to args[2] |
| `Cli.NothingWithoutCommand` | Program.cs:30-40 | off Windows or with no arguments, Run only prints its message and the registry is unchanged |
| `Cli.CommandIgnoresCase` | Program.cs:42-57 | command words equal up to ASCII case lead to the same report and registry |
| `Cli.ListInAnyCase` | Program.cs:42-50 | "LIST", "List" and "list" all choose the list handler |
| `Cli.OnlyRenameWrites` | Program.cs:42-57 | only renid and ren with at least three arguments can change the registry |
| `Cli.UsageWithoutArguments` | Program.cs:104-134 | renid and ren with fewer than three arguments print usage and change nothing |
| `Cli.InvalidIdDoesNothing` | Program.cs:110-114 | an Id int.TryParse rejects is reported, and nothing is listed or renamed |
| `Cli.ExtraArgumentsIgnored` | Program.cs:102-137 | arguments after the third never change the outcome |
| `Cli.RenForwardsNames` | Program.cs:128-150 | ren renames args[1] to args[2] unchanged and reports success exactly when the rename returns true |
| `Cli.FindConsecutive` | Program.cs:117 | Find over entries numbered from 1 gives the entry at Id - 1, or the default value outside the range |
| `Cli.IdFoundExactly` | Program.cs:116-123 | the default(WslDistro) test is exact: an Id is found iff it is in 1..N, and then it is entry Id - 1 |
| `Cli.RenIdRenamesIffListed` | Program.cs:110-125 | renid with a well-formed Id attempts a rename iff the Id is in 1..N; otherwise it reports the Id as not found and changes nothing |
| `Cli.RenIdWritesFirstNamed` | Program.cs:117-125 | in this model, where a readable subkey is also writable, renid k always succeeds, and writes the subkey behind the first listed entry sharing entry k's name, whose Id is at most k |
| `Cli.RenIdDistinctNames` | Program.cs:117-125 | with distinct listed names, renid k writes the subkey listed as entry k |
| `Cli.ShownIdSelectsRow` | Program.cs:97-117 | the Id text shown in row k parses back to k + 1, and Find with it returns entry k |
| `Cli.TableShowsInventory` | Program.cs:81-98 | the table has one row per listed entry, numbered 1..N, with the name marked up exactly for the default entry |
| `Cli.Program.Run` | Program.cs:26-58 | the report and the registry afterwards are those of Execute on the arguments and the old registry |
| `Cli.Program.ListDistros` | Program.cs:77-100 | the report is the listing's message or table for the current store |
| `Cli.Program.RenameById` | Program.cs:102-126 | the report and the registry are those of RenIdStep |
| `Cli.Program.Rename` | Program.cs:128-137 | the report and the registry are those of RenStep |
| `Cli.Program.RenameDistro` | Program.cs:139-150 | the report and the registry are those of RenameStep |

## Left out

- The Win32 registry API, registry views, handle disposal and permission checks. One `Denied` subkey state stands for a SecurityException when a subkey is opened, for reading and for writing alike. A root of `None` covers both a missing key and a denied one.
- Cli.RenIdWritesFirstNamed: a subkey that can be read but not written (`OpenSubKey(name, true)` and `ReadWriteSubTree` at WslUtil.cs:115 and 125 need write access) is not modelled, so the lemma's "renid k always succeeds" holds only where read and write access coincide; with a read-only subkey the real rename returns false.
- Registry values that are not strings. `GetValue(...) as string` would give null for those.
- Real directory enumeration order and wildcard semantics. File lists are taken as given. Extensions match exactly, without case folding, and "*.vhd" does not also match ".vhdx" names as the Windows short-name rule can.
- Console and Spectre output: every message, the banner from `DisplayProgramInfo`, and the table layout. Only the row contents are modelled.
- Floating-point arithmetic. `F0` and `F2` are modelled as exact half-up rounding of the true quotient. The `double` quotient and the binary rounding of `TotalBytes` can differ from that at midpoints.
- `DateTime.Now`. It is a parameter. Time zones, and the gap between timestamps taken at different moments, are not modelled.
- Culture-dependent behaviour. `ToLower` changes only ASCII letters. `int.TryParse` is modelled with invariant-culture `NumberStyles.Integer` (ASCII digits, one sign, surrounding white space). Trailing NUL characters and culture-specific signs are not modelled.
- The exact GUID formats that `Guid.Parse` and `Guid.TryParse` accept. Parsing is a partial function supplied by the caller, and both methods use the same one.
- `default(WslDistro)` has null strings; the model uses empty strings. The not-found test is unaffected, because a found entry's Id is never 0.
- `long` overflow of the byte total, and `int` overflow of the Id counter.
- Concurrency and changes made by other processes between reads. Both scans of one directory see the same listing. So `GetLastAccess` cannot throw once `GetDiskSpace` has listed that directory, and `Lxss.WslUtil.ReadSubKey` asserts this instead of keeping that branch.
- `GetDefaultWSLDistro` re-reading the registry for every subkey: the model reads the same registry every time. Exceptions other than the three kinds of `Exn` are not modelled.
