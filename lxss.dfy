/**
 * WslUtil: the inventory of registered distributions and the rename engine,
 * over the Lxss registry key and the file system.
 *
 * The functions in this module say what each operation computes; the class
 * WslUtil holds the store and carries the loops of the original as methods
 * proved against those functions.
 */
module Lxss {
  import opened Wrappers
  import opened Dotnet
  import opened Store
  import opened Distro

  // ---------------------------------------------------------------- disk space

  function LengthOrZero(f: FileEntry): nat {
    match f.length
    case Some(n) => n
    case None => 0
  }

  /** The running total of GetDiskSpace's loop after the given files. */
  function ReadableBytes(files: seq<FileEntry>): nat {
    if files == [] then 0 else ReadableBytes(files[..|files| - 1]) + LengthOrZero(files[|files| - 1])
  }

  /** The lengths that can be read, in enumeration order. */
  function ReadableLengths(files: seq<FileEntry>): (r: seq<nat>)
    ensures |r| <= |files|
  {
    if files == [] then []
    else match files[0].length
      case Some(n) => [n] + ReadableLengths(files[1..])
      case None => ReadableLengths(files[1..])
  }

  function Sum(xs: seq<nat>): nat {
    if xs == [] then 0 else xs[0] + Sum(xs[1..])
  }

  lemma {:induction false} SumAppend(xs: seq<nat>, ys: seq<nat>)
    ensures Sum(xs + ys) == Sum(xs) + Sum(ys)
  {
    if xs != [] {
      assert (xs + ys)[0] == xs[0] && (xs + ys)[1..] == xs[1..] + ys;
      SumAppend(xs[1..], ys);
    } else {
      assert xs + ys == ys;
    }
  }

  lemma {:induction false} ReadableLengthsAppend(a: seq<FileEntry>, b: seq<FileEntry>)
    ensures ReadableLengths(a + b) == ReadableLengths(a) + ReadableLengths(b)
  {
    if a != [] {
      assert (a + b)[0] == a[0] && (a + b)[1..] == a[1..] + b;
      ReadableLengthsAppend(a[1..], b);
    } else {
      assert a + b == b;
    }
  }

  /** The loop's total is the sum of exactly the lengths that could be read. */
  lemma {:induction false} ReadableBytesIsSumOfReadable(files: seq<FileEntry>)
    ensures ReadableBytes(files) == Sum(ReadableLengths(files))
  {
    if files != [] {
      var init, last := files[..|files| - 1], files[|files| - 1];
      assert files == init + [last];
      ReadableBytesIsSumOfReadable(init);
      ReadableLengthsAppend(init, [last]);
      SumAppend(ReadableLengths(init), ReadableLengths([last]));
    }
  }

  /** GetDiskSpace(path): 0 for a blank or absent directory, else the readable files' total. */
  function DiskSpaceOf(fs: FileSystem, path: string): (r: Outcome<nat>)
    ensures IsNullOrWhiteSpace(path) || path !in fs ==> r == Ok(0)
    ensures r.Throw? <==> ScanThrows(fs, path)
    ensures !IsNullOrWhiteSpace(path) && path in fs && fs[path].Listable? ==>
      r == Ok(Sum(ReadableLengths(fs[path].files)))
  {
    if IsNullOrWhiteSpace(path) then Ok(0)
    else if path !in fs then Ok(0)
    else match fs[path]
      case Unlistable => Throw(IOError)
      case Listable(files) =>
        ReadableBytesIsSumOfReadable(files);
        Ok(ReadableBytes(files))
  }

  // ---------------------------------------------------------------- last access

  const VhdxExtension: string := ".vhdx"
  const VhdExtension: string := ".vhd"

  /** Directory.GetFiles with an extension pattern: the matching files, in enumeration order. */
  function WithExtension(files: seq<FileEntry>, ext: string): (r: seq<FileEntry>)
    ensures forall i :: 0 <= i < |r| ==> r[i].extension == ext
    ensures |r| == 0 <==> forall j :: 0 <= j < |files| ==> files[j].extension != ext
    ensures |r| > 0 ==> exists j :: 0 <= j < |files| && files[j] == r[0] && IsFirstWith(files, ext, j)
    ensures forall i :: 0 <= i < |r| ==> r[i] in files
    ensures forall j :: 0 <= j < |files| && files[j].extension == ext ==> files[j] in r
  {
    if files == [] then []
    else if files[0].extension == ext then [files[0]] + WithExtension(files[1..], ext)
    else
      var rest := WithExtension(files[1..], ext);
      assert forall j :: 1 <= j < |files| ==> files[j] == files[1..][j - 1];
      if |rest| > 0 then
        var j :| 0 <= j < |files[1..]| && files[1..][j] == rest[0] && IsFirstWith(files[1..], ext, j);
        assert IsFirstWith(files, ext, j + 1);
        rest
      else rest
  }

  /** files[j] is the first file with this extension. */
  predicate IsFirstWith(files: seq<FileEntry>, ext: string, j: int) {
    0 <= j < |files| && files[j].extension == ext &&
    forall m :: 0 <= m < j ==> files[m].extension != ext
  }

  /**
   * GetLastAccess(path): DateTime.MinValue for a blank or absent directory or
   * when it holds no virtual disk; otherwise the access time of the first
   * .vhdx file, and of the first .vhd file only when there is no .vhdx.
   */
  function GetLastAccess(fs: FileSystem, path: string): (r: Outcome<Ticks>)
    ensures IsNullOrWhiteSpace(path) || path !in fs ==> r == Ok(MinValue)
    ensures r.Throw? <==> ScanThrows(fs, path)
  {
    if IsNullOrWhiteSpace(path) then Ok(MinValue)
    else if path !in fs then Ok(MinValue)
    else match fs[path]
      case Unlistable => Throw(IOError)
      case Listable(all) =>
        var vhdx := WithExtension(all, VhdxExtension);
        var files := if |vhdx| == 0 then WithExtension(all, VhdExtension) else vhdx;
        if |files| > 0 then Ok(files[0].lastAccess) else Ok(MinValue)
  }

  /**
   * In a listable directory GetLastAccess returns the access time of the first
   * .vhdx file; only when there is none, that of the first .vhd file; and
   * DateTime.MinValue when there is neither.
   */
  lemma LastAccessPicksFirstDisk(fs: FileSystem, path: string)
    requires !IsNullOrWhiteSpace(path) && path in fs && fs[path].Listable?
    ensures var files := fs[path].files; var r := GetLastAccess(fs, path);
      && (forall j :: IsFirstWith(files, VhdxExtension, j) ==> r == Ok(files[j].lastAccess))
      && ((forall m :: 0 <= m < |files| ==> files[m].extension != VhdxExtension) ==>
            forall j :: IsFirstWith(files, VhdExtension, j) ==> r == Ok(files[j].lastAccess))
      && ((forall m :: 0 <= m < |files| ==> files[m].extension !in {VhdxExtension, VhdExtension}) ==>
            r == Ok(MinValue))
  {
  }

  // ---------------------------------------------------------------- DefaultDistribution value

  /**
   * GetDefaultWSLDistro: the root's DefaultDistribution value parsed as a
   * GUID, or Guid.Empty when the root is missing or the value is absent or
   * does not parse.
   */
  function GetDefaultWslDistro(lxss: Option<Root>, parse: string -> Option<Guid>): (g: Guid)
    ensures lxss.None? ==> g == EmptyGuid
    ensures lxss.Some? && parse(GetValue(lxss.value.values, DefaultDistribution, "")).None? ==> g == EmptyGuid
    ensures g != EmptyGuid ==> lxss.Some? && parse(GetValue(lxss.value.values, DefaultDistribution, "")) == Some(g)
    ensures lxss.Some? && parse(GetValue(lxss.value.values, DefaultDistribution, "")).Some? ==>
      g == parse(GetValue(lxss.value.values, DefaultDistribution, "")).value
  {
    match lxss
    case None => EmptyGuid
    case Some(root) =>
      match parse(GetValue(root.values, DefaultDistribution, ""))
      case Some(g) => g
      case None => EmptyGuid
  }

  /** With no DefaultDistribution value, and a parser that rejects "", there is no default. */
  lemma NoValueMeansEmpty(lxss: Option<Root>, parse: string -> Option<Guid>)
    requires parse("") == None
    requires lxss.Some? ==> DefaultDistribution !in lxss.value.values
    ensures GetDefaultWslDistro(lxss, parse) == EmptyGuid
  {
  }

  // ---------------------------------------------------------------- inventory

  /** Building one entry throws when its name is not a GUID or its directory scan throws. */
  predicate EntryThrows(name: string, values: map<string, string>, fs: FileSystem, parse: string -> Option<Guid>) {
    parse(name).None? || ScanThrows(fs, GetValue(values, BasePath, ""))
  }

  /** A subkey ends the listing: opening it is denied, or building its entry throws. */
  predicate StopsListing(sub: SubKey, fs: FileSystem, parse: string -> Option<Guid>) {
    sub.state.Denied? || (sub.state.Opened? && EntryThrows(sub.name, sub.state.values, fs, parse))
  }

  /** The object initializer for one opened subkey, with the Default flag set. */
  function MakeEntry(id: int, name: string, values: map<string, string>, fs: FileSystem,
                     parse: string -> Option<Guid>, dflt: Guid): (r: Outcome<WslDistro>)
    ensures r.Throw? <==> EntryThrows(name, values, fs, parse)
    ensures r.Ok? ==>
      && r.value.id == id
      && parse(name) == Some(r.value.wslId)
      && r.value.distroName == NameOf(values)
      && r.value.basePath == GetValue(values, BasePath, "")
      && r.value.packageFamilyName == GetValue(values, PackageFamilyName, "")
      && DiskSpaceOf(fs, r.value.basePath) == Ok(r.value.totalBytes)
      && GetLastAccess(fs, r.value.basePath) == Ok(r.value.lastAccess)
      && (r.value.isDefault <==> r.value.wslId == dflt)
  {
    match parse(name)
    case None => Throw(FormatError)
    case Some(guid) =>
      var basePath := GetValue(values, BasePath, "");
      match DiskSpaceOf(fs, basePath)
      case Throw(e) => Throw(e)
      case Ok(bytes) =>
        match GetLastAccess(fs, basePath)
        case Throw(e) => Throw(e)
        case Ok(last) =>
          Ok(WslDistro(id, guid, NameOf(values), GetValue(values, PackageFamilyName, ""),
                       bytes, last, guid == dflt, basePath))
  }

  /**
   * One pass of the foreach body: None when OpenSubKey returns null and the
   * subkey is passed over, otherwise the entry or the exception it throws.
   */
  function KeyEntry(sub: SubKey, id: int, fs: FileSystem, parse: string -> Option<Guid>,
                    dflt: Guid): (r: Option<Outcome<WslDistro>>)
    ensures r.None? <==> sub.state.Missing?
    ensures r.Some? && r.value.Throw? <==> StopsListing(sub, fs, parse)
  {
    match sub.state
    case Missing => None
    case Denied => Some(Throw(SecurityError))
    case Opened(values) => Some(MakeEntry(id, sub.name, values, fs, parse, dflt))
  }

  /**
   * The entries the foreach over the subkeys gathers, numbered from nextId:
   * a missing subkey is passed over, and the first subkey that throws ends
   * the listing.
   */
  function ScanKeys(keys: seq<SubKey>, fs: FileSystem, parse: string -> Option<Guid>,
                    dflt: Guid, nextId: int): (r: seq<WslDistro>)
    ensures |r| <= |keys|
  {
    if keys == [] then []
    else match KeyEntry(keys[0], nextId, fs, parse, dflt)
      case None => ScanKeys(keys[1..], fs, parse, dflt, nextId)
      case Some(Throw(_)) => []
      case Some(Ok(d)) => [d] + ScanKeys(keys[1..], fs, parse, dflt, nextId + 1)
  }

  /** Entries are numbered consecutively from nextId, and marked default exactly when their GUID is dflt. */
  lemma {:induction false} ScanNumbering(keys: seq<SubKey>, fs: FileSystem, parse: string -> Option<Guid>,
                                         dflt: Guid, nextId: int)
    ensures forall i :: 0 <= i < |ScanKeys(keys, fs, parse, dflt, nextId)| ==>
      ScanKeys(keys, fs, parse, dflt, nextId)[i].id == nextId + i
    ensures forall i :: 0 <= i < |ScanKeys(keys, fs, parse, dflt, nextId)| ==>
      (ScanKeys(keys, fs, parse, dflt, nextId)[i].isDefault <==> ScanKeys(keys, fs, parse, dflt, nextId)[i].wslId == dflt)
  {
    if keys != [] {
      var r := ScanKeys(keys, fs, parse, dflt, nextId);
      var entry := KeyEntry(keys[0], nextId, fs, parse, dflt);
      if entry.None? {
        ScanNumbering(keys[1..], fs, parse, dflt, nextId);
      } else if entry.value.Ok? {
        var rest := ScanKeys(keys[1..], fs, parse, dflt, nextId + 1);
        ScanNumbering(keys[1..], fs, parse, dflt, nextId + 1);
        assert r == [entry.value.value] + rest;
        forall i | 1 <= i < |r|
          ensures r[i].id == nextId + i && (r[i].isDefault <==> r[i].wslId == dflt)
        {
          assert r[i] == rest[i - 1];
        }
      }
    }
  }

  /** One pass of the foreach at subkey i, given what that subkey yields. */
  lemma ScanStep(keys: seq<SubKey>, i: nat, fs: FileSystem, parse: string -> Option<Guid>, dflt: Guid,
                 nextId: int, entry: Option<Outcome<WslDistro>>)
    requires i < |keys| && entry == KeyEntry(keys[i], nextId, fs, parse, dflt)
    ensures entry.None? ==>
      ScanKeys(keys[i..], fs, parse, dflt, nextId) == ScanKeys(keys[i + 1..], fs, parse, dflt, nextId)
    ensures entry.Some? && entry.value.Throw? ==> ScanKeys(keys[i..], fs, parse, dflt, nextId) == []
    ensures entry.Some? && entry.value.Ok? ==>
      ScanKeys(keys[i..], fs, parse, dflt, nextId) == [entry.value.value] + ScanKeys(keys[i + 1..], fs, parse, dflt, nextId + 1)
  {
    assert keys[i..][0] == keys[i] && keys[i..][1..] == keys[i + 1..];
  }

  /** The foreach as it runs: subkeys from i on, appended to the entries gathered so far. */
  function ScanFrom(keys: seq<SubKey>, i: nat, done: seq<WslDistro>, fs: FileSystem,
                    parse: string -> Option<Guid>, dflt: Guid): seq<WslDistro>
    requires i <= |keys|
    decreases |keys| - i
  {
    if i == |keys| then done
    else match KeyEntry(keys[i], |done| + 1, fs, parse, dflt)
      case None => ScanFrom(keys, i + 1, done, fs, parse, dflt)
      case Some(Throw(_)) => done
      case Some(Ok(d)) => ScanFrom(keys, i + 1, done + [d], fs, parse, dflt)
  }

  /** Running the foreach from subkey i extends the entries so far by the scan of the remaining subkeys. */
  lemma {:induction false} ScanFromIsScan(keys: seq<SubKey>, i: nat, done: seq<WslDistro>, fs: FileSystem,
                                          parse: string -> Option<Guid>, dflt: Guid)
    requires i <= |keys|
    ensures ScanFrom(keys, i, done, fs, parse, dflt) == done + ScanKeys(keys[i..], fs, parse, dflt, |done| + 1)
    decreases |keys| - i
  {
    if i == |keys| {
      assert done + [] == done;
    } else {
      var entry := KeyEntry(keys[i], |done| + 1, fs, parse, dflt);
      ScanStep(keys, i, fs, parse, dflt, |done| + 1, entry);
      FromStep(keys, i, done, fs, parse, dflt, entry);
      if entry.None? {
        ScanFromIsScan(keys, i + 1, done, fs, parse, dflt);
      } else if entry.value.Throw? {
        assert done + [] == done;
      } else {
        var d := entry.value.value;
        ScanFromIsScan(keys, i + 1, done + [d], fs, parse, dflt);
        AppendRegroup(done, d, ScanKeys(keys[i + 1..], fs, parse, dflt, |done| + 2));
      }
    }
  }

  /** One pass of the foreach as ScanFrom runs it. */
  lemma FromStep(keys: seq<SubKey>, i: nat, done: seq<WslDistro>, fs: FileSystem,
                 parse: string -> Option<Guid>, dflt: Guid, entry: Option<Outcome<WslDistro>>)
    requires i < |keys| && entry == KeyEntry(keys[i], |done| + 1, fs, parse, dflt)
    ensures entry.None? ==> ScanFrom(keys, i, done, fs, parse, dflt) == ScanFrom(keys, i + 1, done, fs, parse, dflt)
    ensures entry.Some? && entry.value.Throw? ==> ScanFrom(keys, i, done, fs, parse, dflt) == done
    ensures entry.Some? && entry.value.Ok? ==>
      ScanFrom(keys, i, done, fs, parse, dflt) == ScanFrom(keys, i + 1, done + [entry.value.value], fs, parse, dflt)
  {
  }

  lemma AppendRegroup<T>(xs: seq<T>, x: T, ys: seq<T>)
    ensures xs + [x] + ys == xs + ([x] + ys)
  {
  }

  /** The WslDistros property: nothing without the root key, else the scan numbered from 1. */
  function Inventory(lxss: Option<Root>, fs: FileSystem, parse: string -> Option<Guid>): (r: seq<WslDistro>)
    ensures lxss.None? ==> r == []
  {
    match lxss
    case None => []
    case Some(root) => ScanKeys(root.subKeys, fs, parse, GetDefaultWslDistro(lxss, parse), 1)
  }

  /** Listed entries carry Ids 1, 2, 3, ... and the Default flag exactly when their GUID is the DefaultDistribution value. */
  lemma InventoryNumbering(lxss: Option<Root>, fs: FileSystem, parse: string -> Option<Guid>)
    ensures forall i :: 0 <= i < |Inventory(lxss, fs, parse)| ==> Inventory(lxss, fs, parse)[i].id == i + 1
    ensures forall i :: 0 <= i < |Inventory(lxss, fs, parse)| ==>
      (Inventory(lxss, fs, parse)[i].isDefault <==> Inventory(lxss, fs, parse)[i].wslId == GetDefaultWslDistro(lxss, parse))
  {
    if lxss.Some? {
      ScanNumbering(lxss.value.subKeys, fs, parse, GetDefaultWslDistro(lxss, parse), 1);
    }
  }

  /** The raw index of the j-th subkey that is not Missing (|keys| when there is none). */
  function NthPresent(keys: seq<SubKey>, j: nat): (k: nat)
    ensures k <= |keys|
  {
    if keys == [] then 0
    else if keys[0].state.Missing? then 1 + NthPresent(keys[1..], j)
    else if j == 0 then 0
    else 1 + NthPresent(keys[1..], j - 1)
  }

  /** The number of subkeys that are not Missing. */
  function PresentCount(keys: seq<SubKey>): nat {
    if keys == [] then 0
    else (if keys[0].state.Missing? then 0 else 1) + PresentCount(keys[1..])
  }

  /** The listing is no longer than the number of subkeys that are not Missing. */
  lemma {:induction false} ScanLength(keys: seq<SubKey>, fs: FileSystem, parse: string -> Option<Guid>,
                                      dflt: Guid, nextId: int)
    ensures |ScanKeys(keys, fs, parse, dflt, nextId)| <= PresentCount(keys)
  {
    if keys != [] {
      ScanLength(keys[1..], fs, parse, dflt, nextId);
      ScanLength(keys[1..], fs, parse, dflt, nextId + 1);
    }
  }

  /**
   * Entry j of the listing is built, with Id nextId + j, from the j-th subkey
   * that is not Missing, and that subkey opened: Missing subkeys use up no Id.
   */
  lemma {:induction false} ScanEntrySource(keys: seq<SubKey>, fs: FileSystem, parse: string -> Option<Guid>,
                                           dflt: Guid, nextId: int, j: nat)
    requires j < |ScanKeys(keys, fs, parse, dflt, nextId)|
    ensures var k := NthPresent(keys, j);
      k < |keys| && KeyEntry(keys[k], nextId + j, fs, parse, dflt) == Some(Ok(ScanKeys(keys, fs, parse, dflt, nextId)[j]))
  {
    var rest := keys[1..];
    if keys[0].state.Missing? {
      ScanEntrySource(rest, fs, parse, dflt, nextId, j);
    } else if j > 0 {
      ScanEntrySource(rest, fs, parse, dflt, nextId + 1, j - 1);
    }
  }

  /** A listing shorter than the number of present subkeys stopped at the next present subkey, which threw. */
  lemma {:induction false} ScanStopsAtThrow(keys: seq<SubKey>, fs: FileSystem, parse: string -> Option<Guid>,
                                            dflt: Guid, nextId: int)
    requires |ScanKeys(keys, fs, parse, dflt, nextId)| < PresentCount(keys)
    ensures var k := NthPresent(keys, |ScanKeys(keys, fs, parse, dflt, nextId)|);
      k < |keys| && StopsListing(keys[k], fs, parse)
  {
    var rest := keys[1..];
    if keys[0].state.Missing? {
      ScanStopsAtThrow(rest, fs, parse, dflt, nextId);
    } else if !StopsListing(keys[0], fs, parse) {
      ScanStopsAtThrow(rest, fs, parse, dflt, nextId + 1);
    }
  }

  /** A subkey that throws ends the listing: nothing after it is read, and nothing before it is lost. */
  lemma {:induction false} StopsAtFailure(keys: seq<SubKey>, p: nat, fs: FileSystem,
                                          parse: string -> Option<Guid>, dflt: Guid, nextId: int)
    requires p < |keys| && StopsListing(keys[p], fs, parse)
    ensures ScanKeys(keys, fs, parse, dflt, nextId) == ScanKeys(keys[..p], fs, parse, dflt, nextId)
  {
    if p == 0 {
      assert keys[..0] == [];
    } else {
      assert keys[..p][0] == keys[0];
      assert keys[..p][1..] == keys[1..][..p - 1];
      StopsAtFailure(keys[1..], p - 1, fs, parse, dflt, nextId + 1);
      StopsAtFailure(keys[1..], p - 1, fs, parse, dflt, nextId);
    }
  }

  /** The listing of the first p subkeys is a prefix of the listing of all of them. */
  lemma {:induction false} ScanPrefix(keys: seq<SubKey>, p: nat, fs: FileSystem,
                                      parse: string -> Option<Guid>, dflt: Guid, nextId: int)
    requires p <= |keys|
    ensures ScanKeys(keys[..p], fs, parse, dflt, nextId) <= ScanKeys(keys, fs, parse, dflt, nextId)
  {
    if p > 0 {
      assert keys[..p][0] == keys[0];
      assert keys[..p][1..] == keys[1..][..p - 1];
      ScanPrefix(keys[1..], p - 1, fs, parse, dflt, nextId + 1);
      ScanPrefix(keys[1..], p - 1, fs, parse, dflt, nextId);
    }
  }

  /** The position of the first listed entry with this DistributionName (the length when there is none). */
  function FirstNamed(distros: seq<WslDistro>, name: string): (j: nat)
    ensures j <= |distros|
    ensures j < |distros| ==> distros[j].distroName == name
    ensures forall m :: 0 <= m < j ==> distros[m].distroName != name
  {
    if distros == [] then 0
    else if distros[0].distroName == name then 0
    else 1 + FirstNamed(distros[1..], name)
  }

  /** A Missing first subkey adds nothing and uses up no Id. */
  lemma ScanSkipsMissing(keys: seq<SubKey>, fs: FileSystem, parse: string -> Option<Guid>, dflt: Guid, nextId: int)
    requires keys != [] && keys[0].state.Missing?
    ensures ScanKeys(keys, fs, parse, dflt, nextId) == ScanKeys(keys[1..], fs, parse, dflt, nextId)
  {
  }

  /** A present first subkey that lists anything opened, and its entry, carrying its name, comes first. */
  lemma ScanTakesHead(keys: seq<SubKey>, fs: FileSystem, parse: string -> Option<Guid>, dflt: Guid, nextId: int)
    requires keys != [] && !keys[0].state.Missing? && ScanKeys(keys, fs, parse, dflt, nextId) != []
    ensures keys[0].state.Opened?
    ensures var r := ScanKeys(keys, fs, parse, dflt, nextId);
      r == [r[0]] + ScanKeys(keys[1..], fs, parse, dflt, nextId + 1) && r[0].distroName == NameOf(keys[0].state.values)
  {
    var entry := KeyEntry(keys[0], nextId, fs, parse, dflt);
    assert entry.Some? && entry.value.Ok?;
  }

  /** Renaming by the name of entry k of r hits the subkey behind the first entry of r with that name. */
  predicate TargetsFirstNamed(keys: seq<SubKey>, r: seq<WslDistro>, k: nat) {
    k < |r| && FindRenameTarget(keys, r[k].distroName) == Hit(NthPresent(keys, FirstNamed(r, r[k].distroName)))
  }

  lemma TargetPastMissing(keys: seq<SubKey>, r: seq<WslDistro>, k: nat)
    requires keys != [] && keys[0].state.Missing? && TargetsFirstNamed(keys[1..], r, k)
    ensures TargetsFirstNamed(keys, r, k)
  {
    var name := r[k].distroName;
    assert FindRenameTarget(keys, name) == Shift(FindRenameTarget(keys[1..], name));
  }

  lemma TargetAtHead(keys: seq<SubKey>, r: seq<WslDistro>, k: nat)
    requires keys != [] && keys[0].state.Opened? && k < |r|
    requires NameOf(keys[0].state.values) == r[0].distroName == r[k].distroName
    ensures TargetsFirstNamed(keys, r, k)
  {
  }

  lemma TargetPastHead(keys: seq<SubKey>, r: seq<WslDistro>, k: nat)
    requires keys != [] && keys[0].state.Opened? && 0 < k < |r|
    requires NameOf(keys[0].state.values) == r[0].distroName != r[k].distroName
    requires TargetsFirstNamed(keys[1..], r[1..], k - 1)
    ensures TargetsFirstNamed(keys, r, k)
  {
    var name := r[k].distroName;
    assert r[1..][k - 1] == r[k];
    assert FirstNamed(r, name) == 1 + FirstNamed(r[1..], name);
    assert FindRenameTarget(keys, name) == Shift(FindRenameTarget(keys[1..], name));
  }

  /**
   * Renaming by the name of listed entry k hits a subkey: the one behind the
   * first listed entry that carries the same name, which may come before k.
   */
  lemma {:induction false} ScanRenameTarget(keys: seq<SubKey>, fs: FileSystem, parse: string -> Option<Guid>,
                                            dflt: Guid, nextId: int, k: nat)
    requires k < |ScanKeys(keys, fs, parse, dflt, nextId)|
    ensures TargetsFirstNamed(keys, ScanKeys(keys, fs, parse, dflt, nextId), k)
  {
    var r := ScanKeys(keys, fs, parse, dflt, nextId);
    assert keys != [];
    if keys[0].state.Missing? {
      ScanSkipsMissing(keys, fs, parse, dflt, nextId);
      ScanRenameTarget(keys[1..], fs, parse, dflt, nextId, k);
      TargetPastMissing(keys, r, k);
    } else {
      ScanTakesHead(keys, fs, parse, dflt, nextId);
      if r[0].distroName == r[k].distroName {
        TargetAtHead(keys, r, k);
      } else {
        ScanRenameTarget(keys[1..], fs, parse, dflt, nextId + 1, k - 1);
        TargetPastHead(keys, r, k);
      }
    }
  }

  /** When the listed GUIDs are distinct, at most one entry is the default. */
  lemma AtMostOneDefault(lxss: Option<Root>, fs: FileSystem, parse: string -> Option<Guid>, i: int, j: int)
    requires var r := Inventory(lxss, fs, parse);
      && (forall a, b :: 0 <= a < b < |r| ==> r[a].wslId != r[b].wslId)
      && 0 <= i < |r| && 0 <= j < |r| && r[i].isDefault && r[j].isDefault
    ensures i == j
  {
    InventoryNumbering(lxss, fs, parse);
  }

  /** An empty DefaultDistribution value marks no entry when no listed GUID is Guid.Empty. */
  lemma NoDefaultWhenEmpty(lxss: Option<Root>, fs: FileSystem, parse: string -> Option<Guid>)
    requires GetDefaultWslDistro(lxss, parse) == EmptyGuid
    requires forall i :: 0 <= i < |Inventory(lxss, fs, parse)| ==> Inventory(lxss, fs, parse)[i].wslId != EmptyGuid
    ensures forall i :: 0 <= i < |Inventory(lxss, fs, parse)| ==> !Inventory(lxss, fs, parse)[i].isDefault
  {
    InventoryNumbering(lxss, fs, parse);
  }

  // ---------------------------------------------------------------- rename

  /** Where UpdateWSLDistroName's loop stops: the subkey it writes, the subkey that throws, or the end. */
  datatype Target = Hit(index: nat) | Blocked(index: nat) | Miss

  function Shift(t: Target): Target {
    match t
    case Hit(i) => Hit(i + 1)
    case Blocked(i) => Blocked(i + 1)
    case Miss => Miss
  }

  /** The subkey opens and carries this name. */
  predicate IsNamed(sub: SubKey, name: string) {
    sub.state.Opened? && NameOf(sub.state.values) == name
  }

  /** The loop goes past this subkey without writing: it is missing or carries another name. */
  predicate Passes(sub: SubKey, name: string) {
    sub.state.Missing? || (sub.state.Opened? && NameOf(sub.state.values) != name)
  }

  /** The first subkey the loop does not pass decides the outcome. */
  function FindRenameTarget(keys: seq<SubKey>, name: string): (t: Target)
    ensures t.Hit? ==> t.index < |keys| && keys[t.index].state.Opened? && NameOf(keys[t.index].state.values) == name
    ensures t.Blocked? ==> t.index < |keys| && keys[t.index].state.Denied?
    ensures t.Miss? <==> forall j :: 0 <= j < |keys| ==> Passes(keys[j], name)
    ensures !t.Miss? ==> forall j :: 0 <= j < t.index ==> Passes(keys[j], name)
  {
    if keys == [] then Miss
    else match keys[0].state
      case Missing => Shift(FindRenameTarget(keys[1..], name))
      case Denied => Blocked(0)
      case Opened(values) =>
        if NameOf(values) == name then Hit(0) else Shift(FindRenameTarget(keys[1..], name))
  }

  /** The subkey after SetValue("DistributionName", newName). */
  function WithName(sub: SubKey, newName: string): SubKey
    requires sub.state.Opened?
  {
    sub.(state := Opened(sub.state.values[DistributionName := newName]))
  }

  /** UpdateWSLDistroName(oldName, newName): its result and the store afterwards. */
  function Renamed(lxss: Option<Root>, oldName: string, newName: string): (r: (bool, Option<Root>))
    ensures r.0 <==> lxss.Some? && FindRenameTarget(lxss.value.subKeys, oldName).Hit?
    ensures !r.0 ==> r.1 == lxss
    ensures r.0 ==>
      && r.1.Some? && r.1.value.values == lxss.value.values
      && |r.1.value.subKeys| == |lxss.value.subKeys|
  {
    match lxss
    case None => (false, None)
    case Some(root) =>
      match FindRenameTarget(root.subKeys, oldName)
      case Hit(i) => (true, Some(root.(subKeys := root.subKeys[i := WithName(root.subKeys[i], newName)])))
      case _ => (false, lxss)
  }

  /**
   * A rename succeeds exactly when the root opens and, in enumeration order,
   * a subkey named oldName comes before any subkey that is denied; a failed
   * rename leaves the store as it was.
   */
  lemma RenameOutcome(lxss: Option<Root>, oldName: string, newName: string)
    ensures Renamed(lxss, oldName, newName).0 <==>
      lxss.Some? &&
      exists i :: 0 <= i < |lxss.value.subKeys| &&
        lxss.value.subKeys[i].state.Opened? && NameOf(lxss.value.subKeys[i].state.values) == oldName &&
        forall j :: 0 <= j < i ==> Passes(lxss.value.subKeys[j], oldName)
    ensures !Renamed(lxss, oldName, newName).0 ==> Renamed(lxss, oldName, newName).1 == lxss
  {
    if lxss.Some? {
      var keys := lxss.value.subKeys;
      var t := FindRenameTarget(keys, oldName);
      if i :| 0 <= i < |keys| && keys[i].state.Opened? && NameOf(keys[i].state.values) == oldName &&
              forall j :: 0 <= j < i ==> Passes(keys[j], oldName) {
        assert !Passes(keys[i], oldName);
      }
    }
  }

  /** With no subkey named oldName, the rename fails and writes nothing. */
  lemma RenameWithoutMatch(lxss: Option<Root>, oldName: string, newName: string)
    requires lxss.Some? ==> forall i :: 0 <= i < |lxss.value.subKeys| ==>
      !(lxss.value.subKeys[i].state.Opened? && NameOf(lxss.value.subKeys[i].state.values) == oldName)
    ensures Renamed(lxss, oldName, newName) == (false, lxss)
  {
  }

  /**
   * A successful rename writes newName to DistributionName of the first
   * subkey named oldName, and only there: every other subkey, every other
   * value and the root's own values are as they were.
   */
  lemma RenameWritesOnlyTarget(root: Root, oldName: string, newName: string)
    requires Renamed(Some(root), oldName, newName).0
    ensures var after := Renamed(Some(root), oldName, newName).1;
      var i := FindRenameTarget(root.subKeys, oldName).index;
      && after.Some? && after.value.values == root.values
      && |after.value.subKeys| == |root.subKeys|
      && (forall j :: 0 <= j < |root.subKeys| && j != i ==> after.value.subKeys[j] == root.subKeys[j])
      && root.subKeys[i].state.Opened? && NameOf(root.subKeys[i].state.values) == oldName
      && (forall j :: 0 <= j < i ==> Passes(root.subKeys[j], oldName))
      && after.value.subKeys[i].name == root.subKeys[i].name
      && after.value.subKeys[i].state.Opened?
      && NameOf(after.value.subKeys[i].state.values) == newName
      && (forall v :: v != DistributionName ==>
            (v in after.value.subKeys[i].state.values <==> v in root.subKeys[i].state.values) &&
            (v in root.subKeys[i].state.values ==>
               after.value.subKeys[i].state.values[v] == root.subKeys[i].state.values[v]))
  {
  }

  /** Renaming from "" targets the first subkey with no DistributionName or an empty one. */
  lemma RenameFromEmptyName(root: Root, newName: string)
    requires Renamed(Some(root), "", newName).0
    ensures var i := FindRenameTarget(root.subKeys, "").index;
      root.subKeys[i].state.Opened? &&
      (DistributionName !in root.subKeys[i].state.values || root.subKeys[i].state.values[DistributionName] == "")
  {
  }

  /** After renaming the only subkey named oldName to a different name, the same call fails. */
  lemma RenameTwiceFails(root: Root, oldName: string, newName: string)
    requires oldName != newName
    requires forall i, j ::
      (0 <= i < |root.subKeys| && 0 <= j < |root.subKeys| &&
       IsNamed(root.subKeys[i], oldName) && IsNamed(root.subKeys[j], oldName)) ==> i == j
    requires Renamed(Some(root), oldName, newName).0
    ensures !Renamed(Renamed(Some(root), oldName, newName).1, oldName, newName).0
  {
    var after := Renamed(Some(root), oldName, newName).1;
    RenameWritesOnlyTarget(root, oldName, newName);
    RenameWithoutMatch(after, oldName, newName);
  }

  // ---------------------------------------------------------------- the store object

  /**
   * A WslUtil bound to a registry and a file system. Only the Lxss key is
   * written, and only by UpdateWslDistroName.
   */
  class WslUtil {
    var lxss: Option<Root>
    const fs: FileSystem
    const parseGuid: string -> Option<Guid>

    constructor (lxss: Option<Root>, fs: FileSystem, parseGuid: string -> Option<Guid>)
      ensures this.lxss == lxss && this.fs == fs && this.parseGuid == parseGuid
    {
      this.lxss := lxss;
      this.fs := fs;
      this.parseGuid := parseGuid;
    }

    /** GetDiskSpace: sums the lengths it can read, passing over files whose length throws. */
    method GetDiskSpace(path: string) returns (r: Outcome<nat>)
      ensures r == DiskSpaceOf(fs, path)
    {
      if IsNullOrWhiteSpace(path) {
        return Ok(0);
      }
      if path !in fs {
        return Ok(0);
      }
      if fs[path].Unlistable? {
        return Throw(IOError);
      }
      var files := fs[path].files;
      var totalBytes: nat := 0;
      for i := 0 to |files|
        invariant totalBytes == ReadableBytes(files[..i])
      {
        assert files[..i + 1][..i] == files[..i];
        match files[i].length {
          case Some(n) => totalBytes := totalBytes + n;
          case None =>
        }
      }
      assert files[..|files|] == files;
      return Ok(totalBytes);
    }

    /** The body of the WslDistros foreach for one subkey. */
    method ReadSubKey(subKey: SubKey, id: int) returns (r: Option<Outcome<WslDistro>>)
      ensures r == KeyEntry(subKey, id, fs, parseGuid, GetDefaultWslDistro(lxss, parseGuid))
    {
      match subKey.state {
        case Missing =>
          return None;
        case Denied =>
          return Some(Throw(SecurityError));
        case Opened(values) =>
          var wslId := parseGuid(subKey.name);
          if wslId.None? {
            return Some(Throw(FormatError));
          }
          var basePath := GetValue(values, BasePath, "");
          var totalBytes := GetDiskSpace(basePath);
          if totalBytes.Throw? {
            return Some(Throw(totalBytes.error));
          }
          // The directory was listed a moment ago, so in this static model the
          // second scan cannot throw.
          var lastAccess := GetLastAccess(fs, basePath);
          assert lastAccess.Ok?;
          var distro := WslDistro(id, wslId.value, GetValue(values, DistributionName, ""),
                                  GetValue(values, PackageFamilyName, ""), totalBytes.value,
                                  lastAccess.value, false, basePath);
          if distro.wslId == GetDefaultWslDistro(lxss, parseGuid) {
            distro := distro.(isDefault := true);
          }
          return Some(Ok(distro));
      }
    }

    /** The WslDistros property. */
    method WslDistros() returns (distros: seq<WslDistro>)
      ensures distros == Inventory(lxss, fs, parseGuid)
    {
      distros := [];
      if lxss.None? {
        return;
      }
      var keys := lxss.value.subKeys;
      ghost var dflt := GetDefaultWslDistro(lxss, parseGuid);
      ScanFromIsScan(keys, 0, [], fs, parseGuid, dflt);
      assert keys[0..] == keys;
      for i := 0 to |keys|
        invariant ScanFrom(keys, i, distros, fs, parseGuid, dflt) == Inventory(lxss, fs, parseGuid)
      {
        var entry := ReadSubKey(keys[i], |distros| + 1);
        match entry {
          case None =>
          case Some(Throw(_)) =>
            return;
          case Some(Ok(distro)) =>
            distros := distros + [distro];
        }
      }
    }

    /** UpdateWSLDistroName: the first subkey named distroName gets newName. */
    method UpdateWslDistroName(distroName: string, newName: string) returns (ok: bool)
      modifies this
      ensures (ok, lxss) == Renamed(old(lxss), distroName, newName)
    {
      if lxss.None? {
        return false;
      }
      var root := lxss.value;
      var keys := root.subKeys;
      for i := 0 to |keys|
        invariant lxss == old(lxss)
        invariant forall j :: 0 <= j < i ==> Passes(keys[j], distroName)
      {
        var subKey := keys[i];
        match subKey.state {
          case Missing =>
          case Denied =>
            return false;
          case Opened(values) =>
            if GetValue(values, DistributionName, "") == distroName {
              lxss := Some(root.(subKeys := keys[i := subKey.(state := Opened(values[DistributionName := newName]))]));
              return true;
            }
        }
      }
      return false;
    }
  }
}
