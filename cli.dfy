/**
 * The command-line front end: Run picks a handler from the first argument,
 * and the handlers list the distributions or rename one, by Id or by name.
 */
module Cli {
  import opened Wrappers
  import opened Dotnet
  import opened Store
  import opened Distro
  import opened Lxss

  const CmdList: string := "list"
  const CmdRenId: string := "renid"
  const CmdRen: string := "ren"

  /** The branch Run takes. */
  datatype Handler =
    | NotWindows
    | NoCommand
    | UnknownCommand(command: string)
    | ListHandler
    | RenIdHandler
    | RenHandler

  /** Run's choice: the platform check, the empty command line, then the handler table keyed by the lower-cased command. */
  function Dispatch(args: seq<string>, isWindows: bool): (h: Handler)
    ensures h == NotWindows <==> !isWindows
    ensures h == NoCommand <==> isWindows && |args| == 0
    ensures h == ListHandler <==> isWindows && |args| > 0 && ToLower(args[0]) == CmdList
    ensures h == RenIdHandler <==> isWindows && |args| > 0 && ToLower(args[0]) == CmdRenId
    ensures h == RenHandler <==> isWindows && |args| > 0 && ToLower(args[0]) == CmdRen
    ensures h.UnknownCommand? ==> |args| > 0 && h.command == ToLower(args[0])
  {
    if !isWindows then NotWindows
    else if |args| == 0 then NoCommand
    else
      var command := ToLower(args[0]);
      if command == CmdList then ListHandler
      else if command == CmdRenId then RenIdHandler
      else if command == CmdRen then RenHandler
      else UnknownCommand(command)
  }

  /** One table row: Id, Name (marked up when it is the default), Space, LastAccess. */
  datatype Row = Row(id: string, name: string, space: string, lastAccess: string)

  /** What Run writes to the console, apart from the banner. */
  datatype Report =
    | WindowsOnly
    | NoCommandGiven
    | UnknownCommandGiven(command: string)
    | NoDistrosFound
    | Table(rows: seq<Row>)
    | RenIdUsage
    | InvalidId(text: string)
    | IdNotFound(id: int)
    | RenUsage
    | RenameSucceeded(oldName: string, newName: string)
    | RenameFailed(oldName: string, newName: string)

  function RowOf(d: WslDistro, now: Ticks): Row {
    Row(IntString(d.id),
        if d.isDefault then "[bold yellow]" + d.distroName + "[/]" else d.distroName,
        d.TotalSpace(),
        d.LastAccessStr(now))
  }

  function Rows(distros: seq<WslDistro>, now: Ticks): seq<Row> {
    seq(|distros|, i requires 0 <= i < |distros| => RowOf(distros[i], now))
  }

  /** ListDistros: a message when nothing is listed, otherwise one row per entry. */
  function ListReport(distros: seq<WslDistro>, now: Ticks): Report {
    if |distros| == 0 then NoDistrosFound else Table(Rows(distros, now))
  }

  /** List<WslDistro>.Find(x => x.Id == id): the first entry with this Id, or default(WslDistro). */
  function FindById(distros: seq<WslDistro>, id: int): (d: WslDistro)
    ensures d == DefaultWslDistro || (d in distros && d.id == id)
    ensures (forall i :: 0 <= i < |distros| ==> distros[i].id != id) ==> d == DefaultWslDistro
    ensures forall i :: 0 <= i < |distros| && distros[i].id == id ==> d.id == id
    ensures forall i ::
      (0 <= i < |distros| && distros[i].id == id && forall m :: 0 <= m < i ==> distros[m].id != id) ==>
        d == distros[i]
  {
    if distros == [] then DefaultWslDistro
    else if distros[0].id == id then distros[0]
    else FindById(distros[1..], id)
  }

  /** RenameDistro: the rename, and the line reporting it. */
  function RenameStep(lxss: Option<Root>, oldName: string, newName: string): (r: (Report, Option<Root>))
    ensures r.0 == RenameSucceeded(oldName, newName) || r.0 == RenameFailed(oldName, newName)
    ensures r.0.RenameFailed? ==> r.1 == lxss
    ensures r.0.RenameSucceeded? <==> lxss.Some? && FindRenameTarget(lxss.value.subKeys, oldName).Hit?
  {
    var (ok, after) := Renamed(lxss, oldName, newName);
    (if ok then RenameSucceeded(oldName, newName) else RenameFailed(oldName, newName), after)
  }

  /** RenameById: usage, an unparsable Id, an Id not listed, or the rename of that entry's name. */
  function RenIdStep(args: seq<string>, lxss: Option<Root>, fs: FileSystem, parse: string -> Option<Guid>)
    : (r: (Report, Option<Root>))
    ensures |args| < 3 ==> r == (RenIdUsage, lxss)
    ensures r.1 != lxss ==>
      && |args| >= 3 && ParseInt32(args[1]).Some?
      && r.0 == RenameSucceeded(FindById(Inventory(lxss, fs, parse), ParseInt32(args[1]).value).distroName, args[2])
  {
    if |args| < 3 then (RenIdUsage, lxss)
    else match ParseInt32(args[1])
      case None => (InvalidId(args[1]), lxss)
      case Some(id) =>
        var d := FindById(Inventory(lxss, fs, parse), id);
        if d == DefaultWslDistro then (IdNotFound(id), lxss)
        else RenameStep(lxss, d.distroName, args[2])
  }

  /** Rename: usage, or the rename from args[1] to args[2]. */
  function RenStep(args: seq<string>, lxss: Option<Root>): (r: (Report, Option<Root>))
    ensures |args| < 3 ==> r == (RenUsage, lxss)
    ensures r.1 != lxss ==> |args| >= 3 && r.0 == RenameSucceeded(args[1], args[2])
  {
    if |args| < 3 then (RenUsage, lxss) else RenameStep(lxss, args[1], args[2])
  }

  /** Run: what it reports and the Lxss key afterwards, with DateTime.Now passed in. */
  function Execute(args: seq<string>, isWindows: bool, lxss: Option<Root>, fs: FileSystem,
                   parse: string -> Option<Guid>, now: Ticks): (r: (Report, Option<Root>))
    ensures r.1 != lxss ==>
      && (Dispatch(args, isWindows) == RenIdHandler || Dispatch(args, isWindows) == RenHandler)
      && |args| >= 3 && r.0.RenameSucceeded?
  {
    match Dispatch(args, isWindows)
    case NotWindows => (WindowsOnly, lxss)
    case NoCommand => (NoCommandGiven, lxss)
    case UnknownCommand(c) => (UnknownCommandGiven(c), lxss)
    case ListHandler => (ListReport(Inventory(lxss, fs, parse), now), lxss)
    case RenIdHandler => RenIdStep(args, lxss, fs, parse)
    case RenHandler => RenStep(args, lxss)
  }

  // ---------------------------------------------------------------- properties

  /** Off Windows, and with no arguments, Run only prints a message. */
  lemma NothingWithoutCommand(args: seq<string>, isWindows: bool, lxss: Option<Root>, fs: FileSystem,
                              parse: string -> Option<Guid>, now: Ticks)
    requires !isWindows || |args| == 0
    ensures Execute(args, isWindows, lxss, fs, parse, now) ==
      (if !isWindows then WindowsOnly else NoCommandGiven, lxss)
  {
  }

  /** The command word is matched without regard to ASCII case; the other arguments are used as given. */
  lemma {:induction false} CommandIgnoresCase(args1: seq<string>, args2: seq<string>, isWindows: bool,
                                              lxss: Option<Root>, fs: FileSystem,
                                              parse: string -> Option<Guid>, now: Ticks)
    requires |args1| == |args2| > 0
    requires ToLower(args1[0]) == ToLower(args2[0])
    requires args1[1..] == args2[1..]
    ensures Execute(args1, isWindows, lxss, fs, parse, now) == Execute(args2, isWindows, lxss, fs, parse, now)
  {
    if |args1| >= 3 {
      assert args1[1] == args1[1..][0] && args1[2] == args1[1..][1];
      assert args2[1] == args2[1..][0] && args2[2] == args2[1..][1];
    }
  }

  /** "LIST", "List" and "list" all list. */
  lemma ListInAnyCase(isWindows: bool)
    requires isWindows
    ensures Dispatch(["LIST"], isWindows) == ListHandler
    ensures Dispatch(["List"], isWindows) == ListHandler
    ensures Dispatch(["list"], isWindows) == ListHandler
  {
    assert ToLower("LIST") == "list";
    assert ToLower("List") == "list";
    assert ToLower("list") == "list";
  }

  /** Only renid and ren with at least three arguments can write the registry. */
  lemma OnlyRenameWrites(args: seq<string>, isWindows: bool, lxss: Option<Root>, fs: FileSystem,
                         parse: string -> Option<Guid>, now: Ticks)
    ensures Execute(args, isWindows, lxss, fs, parse, now).1 != lxss ==>
      && |args| >= 3
      && (Dispatch(args, isWindows) == RenIdHandler || Dispatch(args, isWindows) == RenHandler)
  {
  }

  /** renid and ren with fewer than three arguments print their usage line and do nothing else. */
  lemma UsageWithoutArguments(args: seq<string>, isWindows: bool, lxss: Option<Root>, fs: FileSystem,
                              parse: string -> Option<Guid>, now: Ticks)
    requires |args| < 3
    requires Dispatch(args, isWindows) == RenIdHandler || Dispatch(args, isWindows) == RenHandler
    ensures Execute(args, isWindows, lxss, fs, parse, now) ==
      (if Dispatch(args, isWindows) == RenIdHandler then RenIdUsage else RenUsage, lxss)
  {
  }

  /** renid with an Id that int.TryParse rejects reports it and neither lists nor renames. */
  lemma InvalidIdDoesNothing(args: seq<string>, isWindows: bool, lxss: Option<Root>, fs: FileSystem,
                             parse: string -> Option<Guid>, now: Ticks)
    requires isWindows && |args| >= 3 && args[0] == CmdRenId
    ensures ParseInt32(args[1]).None? ==> Execute(args, isWindows, lxss, fs, parse, now) == (InvalidId(args[1]), lxss)
  {
    assert ToLower(CmdRenId) == CmdRenId;
  }

  /** Arguments after the third are never read. */
  lemma {:induction false} ExtraArgumentsIgnored(args: seq<string>, isWindows: bool, lxss: Option<Root>,
                                                 fs: FileSystem, parse: string -> Option<Guid>, now: Ticks)
    requires |args| >= 3
    ensures Execute(args, isWindows, lxss, fs, parse, now) == Execute(args[..3], isWindows, lxss, fs, parse, now)
  {
    var short := args[..3];
    assert short[0] == args[0] && short[1] == args[1] && short[2] == args[2];
  }

  /** ren forwards args[1] and args[2] unchanged to UpdateWSLDistroName and reports its result. */
  lemma RenForwardsNames(args: seq<string>, isWindows: bool, lxss: Option<Root>, fs: FileSystem,
                         parse: string -> Option<Guid>, now: Ticks)
    requires Dispatch(args, isWindows) == RenHandler && |args| >= 3
    ensures var (report, after) := Execute(args, isWindows, lxss, fs, parse, now);
      && after == Renamed(lxss, args[1], args[2]).1
      && (report == RenameSucceeded(args[1], args[2]) <==> Renamed(lxss, args[1], args[2]).0)
      && (report == RenameFailed(args[1], args[2]) <==> !Renamed(lxss, args[1], args[2]).0)
  {
  }

  /** Find over entries numbered base, base + 1, ...: the entry at id - base, or the default value. */
  lemma {:induction false} FindConsecutive(distros: seq<WslDistro>, base: int, id: int)
    requires base >= 1
    requires forall i :: 0 <= i < |distros| ==> distros[i].id == base + i
    ensures FindById(distros, id) == if base <= id < base + |distros| then distros[id - base] else DefaultWslDistro
  {
    if distros != [] && distros[0].id != id {
      assert forall i :: 0 <= i < |distros[1..]| ==> distros[1..][i].id == base + 1 + i by {
        forall i | 0 <= i < |distros[1..]| ensures distros[1..][i].id == base + 1 + i {
          assert distros[1..][i] == distros[i + 1];
        }
      }
      FindConsecutive(distros[1..], base + 1, id);
    }
  }

  /**
   * The default(WslDistro) test after Find is exact: an Id is found precisely
   * when it is between 1 and the number of listed entries, and then it is
   * the entry at position Id - 1.
   */
  lemma IdFoundExactly(lxss: Option<Root>, fs: FileSystem, parse: string -> Option<Guid>, id: int)
    ensures var list := Inventory(lxss, fs, parse);
      && (FindById(list, id) != DefaultWslDistro <==> 1 <= id <= |list|)
      && (1 <= id <= |list| ==> FindById(list, id) == list[id - 1])
  {
    InventoryNumbering(lxss, fs, parse);
    FindConsecutive(Inventory(lxss, fs, parse), 1, id);
  }

  /** renid with a well-formed Id attempts a rename exactly when the Id is between 1 and the number of listed entries. */
  lemma RenIdRenamesIffListed(args: seq<string>, lxss: Option<Root>, fs: FileSystem,
                              parse: string -> Option<Guid>, id: int)
    requires |args| >= 3 && ParseInt32(args[1]) == Some(id)
    ensures var report := RenIdStep(args, lxss, fs, parse).0;
      (report.RenameSucceeded? || report.RenameFailed?) <==> 1 <= id <= |Inventory(lxss, fs, parse)|
    ensures !(1 <= id <= |Inventory(lxss, fs, parse)|) ==> RenIdStep(args, lxss, fs, parse) == (IdNotFound(id), lxss)
  {
    IdFoundExactly(lxss, fs, parse, id);
  }

  /**
   * In this model, where a subkey that can be read can also be written,
   * renid with a listed Id always renames, and it renames by name: the subkey
   * written is the one behind the first listed entry carrying that entry's
   * DistributionName, which is the entry itself only when no earlier entry
   * shares its name.
   */
  lemma RenIdWritesFirstNamed(args: seq<string>, lxss: Option<Root>, fs: FileSystem,
                              parse: string -> Option<Guid>, id: int)
    requires |args| >= 3 && ParseInt32(args[1]) == Some(id)
    requires 1 <= id <= |Inventory(lxss, fs, parse)|
    ensures var list := Inventory(lxss, fs, parse);
      var name := list[id - 1].distroName;
      && lxss.Some?
      && RenIdStep(args, lxss, fs, parse) == (RenameSucceeded(name, args[2]), Renamed(lxss, name, args[2]).1)
      && FindRenameTarget(lxss.value.subKeys, name) == Hit(NthPresent(lxss.value.subKeys, FirstNamed(list, name)))
      && FirstNamed(list, name) <= id - 1
  {
    var list := Inventory(lxss, fs, parse);
    IdFoundExactly(lxss, fs, parse, id);
    ScanRenameTarget(lxss.value.subKeys, fs, parse, GetDefaultWslDistro(lxss, parse), 1, id - 1);
  }

  /** With distinct names in the listing, renid k writes the subkey listed as entry k. */
  lemma RenIdDistinctNames(args: seq<string>, lxss: Option<Root>, fs: FileSystem,
                           parse: string -> Option<Guid>, id: int)
    requires |args| >= 3 && ParseInt32(args[1]) == Some(id)
    requires 1 <= id <= |Inventory(lxss, fs, parse)|
    requires forall a, b :: 0 <= a < b < |Inventory(lxss, fs, parse)| ==>
      Inventory(lxss, fs, parse)[a].distroName != Inventory(lxss, fs, parse)[b].distroName
    ensures lxss.Some?
    ensures FindRenameTarget(lxss.value.subKeys, Inventory(lxss, fs, parse)[id - 1].distroName)
      == Hit(NthPresent(lxss.value.subKeys, id - 1))
  {
    RenIdWritesFirstNamed(args, lxss, fs, parse, id);
  }

  /** The Id shown in row k reads back, through renid, as entry k. */
  lemma ShownIdSelectsRow(lxss: Option<Root>, fs: FileSystem, parse: string -> Option<Guid>, k: nat, now: Ticks)
    requires k < |Inventory(lxss, fs, parse)| <= Int32Max
    ensures var list := Inventory(lxss, fs, parse);
      && ParseInt32(RowOf(list[k], now).id) == Some(k + 1)
      && FindById(list, k + 1) == list[k]
  {
    var list := Inventory(lxss, fs, parse);
    InventoryNumbering(lxss, fs, parse);
    assert list[k].id == k + 1;
    assert RowOf(list[k], now).id == DecimalString(k + 1);
    ParseRendered(k + 1);
    IdFoundExactly(lxss, fs, parse, k + 1);
  }

  /**
   * The table has one row per listed entry, numbered 1, 2, 3, ..., and the
   * name is highlighted exactly for entries whose GUID is the DefaultDistribution value.
   */
  lemma TableShowsInventory(lxss: Option<Root>, fs: FileSystem, parse: string -> Option<Guid>, now: Ticks)
    requires |Inventory(lxss, fs, parse)| > 0
    ensures var list := Inventory(lxss, fs, parse);
      var report := ListReport(list, now);
      && report.Table? && |report.rows| == |list|
      && (forall i :: 0 <= i < |list| ==> report.rows[i].id == DecimalString(i + 1))
      && (forall i :: 0 <= i < |list| ==>
            (report.rows[i].name != list[i].distroName <==> list[i].wslId == GetDefaultWslDistro(lxss, parse)))
  {
    InventoryNumbering(lxss, fs, parse);
  }

  // ---------------------------------------------------------------- the program object

  class Program {
    const wslUtil: WslUtil

    constructor (wslUtil: WslUtil)
      ensures this.wslUtil == wslUtil
    {
      this.wslUtil := wslUtil;
    }

    /** Run(args), with the platform check and DateTime.Now passed in; the banner is not modelled. */
    method Run(args: seq<string>, isWindows: bool, now: Ticks) returns (report: Report)
      modifies wslUtil
      ensures (report, wslUtil.lxss) ==
        Execute(args, isWindows, old(wslUtil.lxss), wslUtil.fs, wslUtil.parseGuid, now)
    {
      if !isWindows {
        return WindowsOnly;
      }
      if |args| == 0 {
        return NoCommandGiven;
      }
      var command := ToLower(args[0]);
      if command == CmdList {
        report := ListDistros(now);
      } else if command == CmdRenId {
        report := RenameById(args);
      } else if command == CmdRen {
        report := Rename(args);
      } else {
        report := UnknownCommandGiven(command);
      }
    }

    /** ListDistros: reads the listing once and adds one row per entry. */
    method ListDistros(now: Ticks) returns (report: Report)
      ensures report == ListReport(Inventory(wslUtil.lxss, wslUtil.fs, wslUtil.parseGuid), now)
    {
      var distros := wslUtil.WslDistros();
      if |distros| == 0 {
        return NoDistrosFound;
      }
      var rows: seq<Row> := [];
      for i := 0 to |distros|
        invariant |rows| == i
        invariant forall j :: 0 <= j < i ==> rows[j] == RowOf(distros[j], now)
      {
        rows := rows + [RowOf(distros[i], now)];
      }
      return Table(rows);
    }

    method RenameById(args: seq<string>) returns (report: Report)
      modifies wslUtil
      ensures (report, wslUtil.lxss) == RenIdStep(args, old(wslUtil.lxss), wslUtil.fs, wslUtil.parseGuid)
    {
      if |args| < 3 {
        return RenIdUsage;
      }
      var parsed := ParseInt32(args[1]);
      if parsed.None? {
        return InvalidId(args[1]);
      }
      var id := parsed.value;
      var distros := wslUtil.WslDistros();
      var distro := FindById(distros, id);
      if distro == DefaultWslDistro {
        return IdNotFound(id);
      }
      report := RenameDistro(distro.distroName, args[2]);
    }

    method Rename(args: seq<string>) returns (report: Report)
      modifies wslUtil
      ensures (report, wslUtil.lxss) == RenStep(args, old(wslUtil.lxss))
    {
      if |args| < 3 {
        return RenUsage;
      }
      report := RenameDistro(args[1], args[2]);
    }

    method RenameDistro(oldName: string, newName: string) returns (report: Report)
      modifies wslUtil
      ensures (report, wslUtil.lxss) == RenameStep(old(wslUtil.lxss), oldName, newName)
    {
      var success := wslUtil.UpdateWslDistroName(oldName, newName);
      if success {
        report := RenameSucceeded(oldName, newName);
      } else {
        report := RenameFailed(oldName, newName);
      }
    }
  }
}
