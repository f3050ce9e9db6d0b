/**
  `ubb2mib` (`src/ubb2mib.cpp`): turns a parsed UBB configuration into MIB
  records. Numeric parameters are read with a range check; each GROUPS entry
  becomes a group record, plus its transaction-manager servers when it names
  one; each SERVERS entry becomes MAX server records with consecutive ids.
  The first failing check ends the conversion with the exception it throws,
  and the records made before it stay in the MIB.
 */
module Ubb2mib {
  import opened Wrappers
  import opened Decimal

  /** The parameters of one configuration entry. */
  type Params = map<string, string>

  /** A named configuration entry: its address or name, and its parameters. */
  datatype Section = Section(name: string, params: Params)

  datatype Ubbconfig = Ubbconfig(machines: seq<Section>, groups: seq<Section>, servers: seq<Section>)

  /** The standard exceptions the conversion throws, with their messages. */
  datatype ConfigError = OutOfRange(what: string) | InvalidArgument(what: string) | LogicError(what: string)

  /** `dict[key]` on a `std::map`: a missing key reads as the empty string. */
  function Get(p: Params, key: string): (v: string)
    ensures key in p ==> v == p[key]
    ensures key !in p ==> v == ""
  {
    if key in p then p[key] else ""
  }

  /**
    `std::stol`: the leading number of the text; no number is
    `invalid_argument`, a number beyond the `long` range `out_of_range`.
   */
  function Stol(s: string): (r: Result<int, ConfigError>)
    ensures r.Success? <==> ParsePrefix(s).Some? && LongMin <= ParsePrefix(s).value <= LongMax
    ensures r.Success? ==> r.value == ParsePrefix(s).value
    ensures ParsePrefix(s).None? ==> r == Failure(InvalidArgument("stol"))
  {
    match ParsePrefix(s)
    case None => Failure(InvalidArgument("stol"))
    case Some(v) => if v < LongMin || v > LongMax then Failure(OutOfRange("stol")) else Success(v)
  }

  /**
    `checked_get(dict, key, min, max)`: a missing key is
    `out_of_range("<key> required")`, a value outside [min, max]
    `out_of_range("<key> out of range")`.
   */
  function CheckedGet(dict: Params, key: string, min: int, max: int): (r: Result<int, ConfigError>)
    ensures key !in dict ==> r == Failure(OutOfRange(key + " required"))
    ensures r.Success? <==> key in dict && Stol(dict[key]).Success? && min <= Stol(dict[key]).value <= max
    ensures r.Success? ==> min <= r.value <= max && ParsePrefix(dict[key]) == Some(r.value)
    ensures key in dict && Stol(dict[key]).Success? && !(min <= Stol(dict[key]).value <= max) ==>
      r == Failure(OutOfRange(key + " out of range"))
  {
    if key !in dict then Failure(OutOfRange(key + " required"))
    else
      match Stol(dict[key])
      case Failure(e) => Failure(e)
      case Success(value) =>
        if value < min || value > max then Failure(OutOfRange(key + " out of range"))
        else Success(value)
  }

  /** `checked_get(dict, key, min, max, defvalue)`: the default when the key is missing, otherwise the same check. */
  function CheckedGetOr(dict: Params, key: string, min: int, max: int, defvalue: int): (r: Result<int, ConfigError>)
    ensures key !in dict ==> r == Success(defvalue)
    ensures key in dict ==> r == CheckedGet(dict, key, min, max)
    ensures r.Success? ==> r.value == defvalue || min <= r.value <= max
  {
    if key !in dict then Success(defvalue)
    else
      match Stol(dict[key])
      case Failure(e) => Failure(e)
      case Success(value) =>
        if value < min || value > max then Failure(OutOfRange(key + " out of range"))
        else Success(value)
  }

  /** A value written in decimal and within range is read back as it is. */
  lemma CheckedGetReadsDecimal(dict: Params, key: string, x: int, min: int, max: int)
    requires key in dict && dict[key] == ToDecimal(x)
    requires LongMin <= min <= x <= max <= LongMax
    ensures CheckedGet(dict, key, min, max) == Success(x)
  {
    ParseToDecimal(x);
  }

  datatype GroupRecord = GroupRecord(grpno: int, name: string, openinfo: string, closeinfo: string, tmsname: string)

  datatype ServerRecord = ServerRecord(srvid: int, grpno: int, name: string, clopt: string, rqaddr: string, autostart: bool)

  /** The MIB's group and server tables, which the conversion appends to. */
  class Mib {
    var groups: seq<GroupRecord>
    var servers: seq<ServerRecord>

    constructor ()
      ensures groups == [] && servers == []
    {
      groups := [];
      servers := [];
    }

    /** `make_group`. */
    method MakeGroup(g: GroupRecord)
      modifies this
      ensures groups == old(groups) + [g] && servers == old(servers)
    {
      groups := groups + [g];
    }

    /** `make_server`, with the record's `autostart` already set. */
    method MakeServer(s: ServerRecord)
      modifies this
      ensures servers == old(servers) + [s] && groups == old(groups)
    {
      servers := servers + [s];
    }
  }

  /** The transaction-manager servers of group `grpno`: ids from 30001, queue "<grpno>.TM", all autostarted. */
  function TmServers(grpno: int, tmsname: string, count: nat): (r: seq<ServerRecord>)
    ensures |r| == count
  {
    seq(count, n => ServerRecord(30001 + n, grpno, tmsname, "-A", ToDecimal(grpno) + ".TM", true))
  }

  /** The queue of server `srvid` in group `grpno`: RQADDR, or "<grpno>.<srvid>" when it is empty. */
  function RequestQueue(rqaddr: string, grpno: int, srvid: int): string {
    if rqaddr == "" then ToDecimal(grpno) + "." + ToDecimal(srvid) else rqaddr
  }

  /** The servers of one SERVERS entry: ids from `base`, the first `min` of them autostarted. */
  function EntryServers(name: string, base: int, min: int, max: nat, grpno: int, clopt: string, rqaddr: string)
    : (r: seq<ServerRecord>)
    ensures |r| == max
  {
    seq(max, n => ServerRecord(base + n, grpno, name, clopt, RequestQueue(rqaddr, grpno, base + n), n < min))
  }

  /** The conversion so far: the records made, the group ids seen, and the error that ended it. */
  datatype Progress = Progress(groups: seq<GroupRecord>, servers: seq<ServerRecord>, ids: map<string, int>,
                               error: Option<ConfigError>)

  /** One GROUPS entry. */
  function GroupStep(p: Progress, g: Section): Progress {
    match CheckedGet(g.params, "GRPNO", 1, 30000)
    case Failure(e) => p.(error := Some(e))
    case Success(grpno) =>
      var tmsname := Get(g.params, "TMSNAME");
      var rec := GroupRecord(grpno, g.name, Get(g.params, "OPENINFO"), Get(g.params, "CLOSEINFO"), tmsname);
      var p1 := p.(groups := p.groups + [rec], ids := p.ids[g.name := grpno]);
      if tmsname == "" then p1
      else
        match CheckedGetOr(g.params, "TMSCOUNT", 2, 10, 3)
        case Failure(e) => p1.(error := Some(e))
        case Success(count) => p1.(servers := p1.servers + TmServers(grpno, tmsname, count))
  }

  /** The first `i` entries of `xs` applied by `step` to `p0`, stopping at the first error. */
  function Fold(step: (Progress, Section) -> Progress, p0: Progress, xs: seq<Section>, i: nat): Progress
    requires i <= |xs|
  {
    if i == 0 then p0
    else
      var p := Fold(step, p0, xs, i - 1);
      if p.error.Some? then p else step(p, xs[i - 1])
  }

  /** The first `i` GROUPS entries. */
  function GroupsUpTo(gs: seq<Section>, i: nat): Progress
    requires i <= |gs|
  {
    Fold(GroupStep, Progress([], [], map[], None), gs, i)
  }

  /** One SERVERS entry; its group must already be known. */
  function ServerStep(p: Progress, s: Section): Progress {
    match CheckedGet(s.params, "SRVID", 1, 30000)
    case Failure(e) => p.(error := Some(e))
    case Success(base) =>
      match CheckedGetOr(s.params, "MIN", 1, 1000, 1)
      case Failure(e) => p.(error := Some(e))
      case Success(min) =>
        match CheckedGetOr(s.params, "MAX", 1, 1000, 1)
        case Failure(e) => p.(error := Some(e))
        case Success(max) =>
          if "SRVGRP" !in s.params || s.params["SRVGRP"] !in p.ids then p.(error := Some(OutOfRange("map::at")))
          else
            var grpno := p.ids[s.params["SRVGRP"]];
            var rs := EntryServers(s.name, base, min, max, grpno, Get(s.params, "CLOPT"), Get(s.params, "RQADDR"));
            p.(servers := p.servers + rs)
  }

  /** The first `i` SERVERS entries after progress `p0`. */
  function ServersUpTo(p0: Progress, ss: seq<Section>, i: nat): Progress
    requires i <= |ss|
  {
    Fold(ServerStep, p0, ss, i)
  }

  /**
    The MACHINES checks: exactly one entry, whose TUXCONFIG matches the
    environment's, and which has LMID, TUXDIR and APPDIR.
   */
  function MachineCheck(u: Ubbconfig, tuxconfig: string): (r: Option<ConfigError>)
    ensures |u.machines| != 1 ==> r == Some(LogicError("Excatly one MACHINE entry supported"))
    ensures r.None? <==>
      && |u.machines| == 1
      && (forall k | k in ["TUXCONFIG", "LMID", "TUXDIR", "APPDIR"] :: k in u.machines[0].params)
      && u.machines[0].params["TUXCONFIG"] == tuxconfig
    ensures |u.machines| == 1 && "TUXCONFIG" in u.machines[0].params && u.machines[0].params["TUXCONFIG"] != tuxconfig ==>
      r == Some(LogicError("TUXCONFIG in configuration file and environment do not match"))
  {
    if |u.machines| != 1 then Some(LogicError("Excatly one MACHINE entry supported"))
    else
      var mach := u.machines[0].params;
      if "TUXCONFIG" !in mach then Some(OutOfRange("map::at"))
      else if mach["TUXCONFIG"] != tuxconfig then
        Some(LogicError("TUXCONFIG in configuration file and environment do not match"))
      else if "LMID" !in mach || "TUXDIR" !in mach || "APPDIR" !in mach then Some(OutOfRange("map::at"))
      else None
  }

  /** The whole conversion, with `tuxconfig` the value of the TUXCONFIG environment variable. */
  function Expand(u: Ubbconfig, tuxconfig: string): (r: Progress)
    ensures |u.machines| != 1 ==>
      r.error == Some(LogicError("Excatly one MACHINE entry supported")) && r.groups == [] && r.servers == []
    ensures MachineCheck(u, tuxconfig).Some? ==> r.error == MachineCheck(u, tuxconfig) && r.groups == [] && r.servers == []
  {
    match MachineCheck(u, tuxconfig)
    case Some(e) => Progress([], [], map[], Some(e))
    case None => ServersUpTo(GroupsUpTo(u.groups, |u.groups|), u.servers, |u.servers|)
  }

  /** Once an entry fails, the later entries change nothing. */
  lemma {:induction false} ErrorSticks(step: (Progress, Section) -> Progress, p0: Progress, xs: seq<Section>,
                                       i: nat, j: nat)
    requires i <= j <= |xs| && Fold(step, p0, xs, i).error.Some?
    ensures Fold(step, p0, xs, j) == Fold(step, p0, xs, i)
    decreases j
  {
    if j > i {
      ErrorSticks(step, p0, xs, i, j - 1);
    }
  }

  lemma FoldNext(step: (Progress, Section) -> Progress, p0: Progress, xs: seq<Section>, i: nat)
    requires i < |xs| && Fold(step, p0, xs, i).error.None?
    ensures Fold(step, p0, xs, i + 1) == step(Fold(step, p0, xs, i), xs[i])
  {
  }

  /** Adds the transaction-manager servers of a group one at a time. */
  method AddTmServers(m: Mib, grpno: int, tmsname: string, count: nat)
    modifies m
    ensures m.servers == old(m.servers) + TmServers(grpno, tmsname, count) && m.groups == old(m.groups)
  {
    var n := 0;
    while n < count
      invariant 0 <= n <= count
      invariant m.servers == old(m.servers) + TmServers(grpno, tmsname, n) && m.groups == old(m.groups)
    {
      m.MakeServer(ServerRecord(30001 + n, grpno, tmsname, "-A", ToDecimal(grpno) + ".TM", true));
      assert TmServers(grpno, tmsname, n + 1) == TmServers(grpno, tmsname, n) + [TmServers(grpno, tmsname, n + 1)[n]];
      n := n + 1;
    }
  }

  /** Adds the servers of one SERVERS entry one at a time. */
  method AddEntryServers(m: Mib, name: string, base: int, min: int, max: nat, grpno: int, clopt: string, rqaddr: string)
    modifies m
    ensures m.servers == old(m.servers) + EntryServers(name, base, min, max, grpno, clopt, rqaddr)
    ensures m.groups == old(m.groups)
  {
    var n := 0;
    while n < max
      invariant 0 <= n <= max
      invariant m.servers == old(m.servers) + EntryServers(name, base, min, n, grpno, clopt, rqaddr)
      invariant m.groups == old(m.groups)
    {
      var srvid := base + n;
      var queue := rqaddr;
      if queue == "" {
        queue := ToDecimal(grpno) + "." + ToDecimal(srvid);
      }
      assert queue == RequestQueue(rqaddr, grpno, srvid);
      m.MakeServer(ServerRecord(srvid, grpno, name, clopt, queue, n < min));
      assert EntryServers(name, base, min, n + 1, grpno, clopt, rqaddr)
        == EntryServers(name, base, min, n, grpno, clopt, rqaddr) + [EntryServers(name, base, min, n + 1, grpno, clopt, rqaddr)[n]];
      n := n + 1;
    }
  }

  /** The body of the GROUPS loop: one entry, as `GroupStep` describes it. */
  method AddGroup(m: Mib, g: Section, ids: map<string, int>, ghost p: Progress, ghost g0: seq<GroupRecord>,
                  ghost s0: seq<ServerRecord>)
    returns (err: Option<ConfigError>, ids': map<string, int>)
    requires p.error.None? && ids == p.ids
    requires m.groups == g0 + p.groups && m.servers == s0 + p.servers
    modifies m
    ensures m.groups == g0 + GroupStep(p, g).groups && m.servers == s0 + GroupStep(p, g).servers
    ensures err == GroupStep(p, g).error && ids' == GroupStep(p, g).ids
  {
    ids' := ids;
    var grpno := CheckedGet(g.params, "GRPNO", 1, 30000);
    if grpno.Failure? {
      return Some(grpno.error), ids';
    }
    var tmsname := Get(g.params, "TMSNAME");
    m.MakeGroup(GroupRecord(grpno.value, g.name, Get(g.params, "OPENINFO"), Get(g.params, "CLOSEINFO"), tmsname));
    ids' := ids[g.name := grpno.value];
    if tmsname != "" {
      var count := CheckedGetOr(g.params, "TMSCOUNT", 2, 10, 3);
      if count.Failure? {
        return Some(count.error), ids';
      }
      AddTmServers(m, grpno.value, tmsname, count.value);
    }
    return None, ids';
  }

  /** The body of the SERVERS loop: one entry, as `ServerStep` describes it. */
  method AddServers(m: Mib, s: Section, ids: map<string, int>, ghost p: Progress, ghost g0: seq<GroupRecord>,
                    ghost s0: seq<ServerRecord>)
    returns (err: Option<ConfigError>)
    requires p.error.None? && ids == p.ids
    requires m.groups == g0 + p.groups && m.servers == s0 + p.servers
    modifies m
    ensures m.groups == g0 + ServerStep(p, s).groups && m.servers == s0 + ServerStep(p, s).servers
    ensures err == ServerStep(p, s).error && ids == ServerStep(p, s).ids
  {
    var base := CheckedGet(s.params, "SRVID", 1, 30000);
    if base.Failure? {
      return Some(base.error);
    }
    var min := CheckedGetOr(s.params, "MIN", 1, 1000, 1);
    if min.Failure? {
      return Some(min.error);
    }
    var max := CheckedGetOr(s.params, "MAX", 1, 1000, 1);
    if max.Failure? {
      return Some(max.error);
    }
    if "SRVGRP" !in s.params || s.params["SRVGRP"] !in ids {
      return Some(OutOfRange("map::at"));
    }
    var grpno := ids[s.params["SRVGRP"]];
    AddEntryServers(m, s.name, base.value, min.value, max.value, grpno, Get(s.params, "CLOPT"), Get(s.params, "RQADDR"));
    return None;
  }

  /** The GROUPS loop: the records and group ids of `GroupsUpTo`, or its error. */
  method AddAllGroups(m: Mib, gs: seq<Section>) returns (err: Option<ConfigError>, ids: map<string, int>)
    modifies m
    ensures m.groups == old(m.groups) + GroupsUpTo(gs, |gs|).groups
    ensures m.servers == old(m.servers) + GroupsUpTo(gs, |gs|).servers
    ensures err == GroupsUpTo(gs, |gs|).error && ids == GroupsUpTo(gs, |gs|).ids
  {
    ghost var g0 := m.groups;
    ghost var s0 := m.servers;
    ghost var p := GroupsUpTo(gs, 0);
    assert g0 + p.groups == g0 && s0 + p.servers == s0;
    ids := map[];
    var i := 0;
    while i < |gs|
      invariant 0 <= i <= |gs| && p == GroupsUpTo(gs, i) && p.error.None?
      invariant m.groups == g0 + p.groups && m.servers == s0 + p.servers && ids == p.ids
    {
      err, ids := AddGroup(m, gs[i], ids, p, g0, s0);
      FoldNext(GroupStep, Progress([], [], map[], None), gs, i);
      p := GroupStep(p, gs[i]);
      if err.Some? {
        ErrorSticks(GroupStep, Progress([], [], map[], None), gs, i + 1, |gs|);
        return;
      }
      i := i + 1;
    }
    err := None;
  }

  /** One SERVERS entry within the loop over `ss`, as `ServersUpTo` describes it. */
  method AddServersAt(m: Mib, ss: seq<Section>, j: nat, ids: map<string, int>, ghost p0: Progress,
                      ghost g0: seq<GroupRecord>, ghost s0: seq<ServerRecord>)
    returns (err: Option<ConfigError>)
    requires j < |ss| && ServersUpTo(p0, ss, j).error.None? && ids == ServersUpTo(p0, ss, j).ids
    requires m.groups == g0 + ServersUpTo(p0, ss, j).groups && m.servers == s0 + ServersUpTo(p0, ss, j).servers
    modifies m
    ensures m.groups == g0 + ServersUpTo(p0, ss, j + 1).groups && m.servers == s0 + ServersUpTo(p0, ss, j + 1).servers
    ensures err == ServersUpTo(p0, ss, j + 1).error && ids == ServersUpTo(p0, ss, j + 1).ids
    ensures err.Some? ==> ServersUpTo(p0, ss, |ss|) == ServersUpTo(p0, ss, j + 1)
  {
    err := AddServers(m, ss[j], ids, ServersUpTo(p0, ss, j), g0, s0);
    FoldNext(ServerStep, p0, ss, j);
    if err.Some? {
      ErrorSticks(ServerStep, p0, ss, j + 1, |ss|);
    }
  }

  /** The SERVERS loop after the groups of `p0`: the records of `ServersUpTo`, or its error. */
  method AddAllServers(m: Mib, ss: seq<Section>, ids: map<string, int>, ghost p0: Progress,
                       ghost g0: seq<GroupRecord>, ghost s0: seq<ServerRecord>)
    returns (err: Option<ConfigError>)
    requires p0.error.None? && ids == p0.ids
    requires m.groups == g0 + p0.groups && m.servers == s0 + p0.servers
    modifies m
    ensures m.groups == g0 + ServersUpTo(p0, ss, |ss|).groups
    ensures m.servers == s0 + ServersUpTo(p0, ss, |ss|).servers
    ensures err == ServersUpTo(p0, ss, |ss|).error
  {
    ghost var p := p0;
    assert p == ServersUpTo(p0, ss, 0);
    var j := 0;
    while j < |ss|
      invariant 0 <= j <= |ss| && p == ServersUpTo(p0, ss, j) && p.error.None?
      invariant m.groups == g0 + p.groups && m.servers == s0 + p.servers && ids == p.ids
    {
      err := AddServersAt(m, ss, j, ids, p0, g0, s0);
      p := ServersUpTo(p0, ss, j + 1);
      if err.Some? {
        return;
      }
      j := j + 1;
    }
    err := None;
  }

  /**
    `ubb2mib`: the MIB gains the records of `Expand`, in order, and the
    conversion fails with `Expand`'s error, if any.
   */
  method Convert(m: Mib, u: Ubbconfig, tuxconfig: string) returns (r: Result<Unit, ConfigError>)
    modifies m
    ensures m.groups == old(m.groups) + Expand(u, tuxconfig).groups
    ensures m.servers == old(m.servers) + Expand(u, tuxconfig).servers
    ensures r.Failure? <==> Expand(u, tuxconfig).error.Some?
    ensures r.Failure? ==> r.error == Expand(u, tuxconfig).error.value
  {
    var check := MachineCheck(u, tuxconfig);
    if check.Some? {
      return Failure(check.value);
    }
    ghost var g0 := m.groups;
    ghost var s0 := m.servers;
    var err, groupIds := AddAllGroups(m, u.groups);
    if err.Some? {
      ErrorSticks(ServerStep, GroupsUpTo(u.groups, |u.groups|), u.servers, 0, |u.servers|);
      return Failure(err.value);
    }
    err := AddAllServers(m, u.servers, groupIds, GroupsUpTo(u.groups, |u.groups|), g0, s0);
    if err.Some? {
      return Failure(err.value);
    }
    return Success(Unit);
  }

  /** Some group record has number `grpno`. */
  predicate HasGroup(groups: seq<GroupRecord>, grpno: int) {
    exists g :: g in groups && g.grpno == grpno
  }

  /** Every known group id and every server's group belong to a group record. */
  predicate Consistent(p: Progress) {
    && (forall k | k in p.ids :: HasGroup(p.groups, p.ids[k]))
    && (forall s | s in p.servers :: HasGroup(p.groups, s.grpno))
  }

  lemma HasGroupGrows(groups: seq<GroupRecord>, more: seq<GroupRecord>, grpno: int)
    requires HasGroup(groups, grpno)
    ensures HasGroup(groups + more, grpno)
  {
    var g :| g in groups && g.grpno == grpno;
    assert g in groups + more;
  }

  lemma GroupStepConsistent(p: Progress, g: Section)
    requires Consistent(p)
    ensures Consistent(GroupStep(p, g))
  {
    match CheckedGet(g.params, "GRPNO", 1, 30000)
    case Failure(e) =>
    case Success(grpno) =>
      var tmsname := Get(g.params, "TMSNAME");
      var rec := GroupRecord(grpno, g.name, Get(g.params, "OPENINFO"), Get(g.params, "CLOSEINFO"), tmsname);
      var groups := p.groups + [rec];
      assert rec in groups;
      forall x | HasGroup(p.groups, x)
        ensures HasGroup(groups, x)
      {
        HasGroupGrows(p.groups, [rec], x);
      }
      assert HasGroup(groups, grpno);
  }

  lemma ServerStepConsistent(p: Progress, s: Section)
    requires Consistent(p)
    ensures Consistent(ServerStep(p, s))
  {
  }

  lemma {:induction false} GroupsConsistent(gs: seq<Section>, i: nat)
    requires i <= |gs|
    ensures Consistent(GroupsUpTo(gs, i))
  {
    if i > 0 {
      GroupsConsistent(gs, i - 1);
      if GroupsUpTo(gs, i - 1).error.None? {
        GroupStepConsistent(GroupsUpTo(gs, i - 1), gs[i - 1]);
      }
    }
  }

  lemma {:induction false} ServersConsistent(p0: Progress, ss: seq<Section>, i: nat)
    requires i <= |ss| && Consistent(p0)
    ensures Consistent(ServersUpTo(p0, ss, i))
  {
    if i > 0 {
      ServersConsistent(p0, ss, i - 1);
      if ServersUpTo(p0, ss, i - 1).error.None? {
        ServerStepConsistent(ServersUpTo(p0, ss, i - 1), ss[i - 1]);
      }
    }
  }

  /**
    Every server the conversion makes, transaction managers included, belongs
    to a group it made: a server naming an unknown group never gets a record.
   */
  lemma ServersBelongToGroups(u: Ubbconfig, tuxconfig: string)
    ensures forall s | s in Expand(u, tuxconfig).servers :: HasGroup(Expand(u, tuxconfig).groups, s.grpno)
  {
    if MachineCheck(u, tuxconfig).None? {
      GroupsConsistent(u.groups, |u.groups|);
      ServersConsistent(GroupsUpTo(u.groups, |u.groups|), u.servers, |u.servers|);
    }
  }

  /** The number of records marked for automatic start. */
  function Autostarted(rs: seq<ServerRecord>): nat {
    if rs == [] then 0 else Autostarted(rs[..|rs| - 1]) + (if rs[|rs| - 1].autostart then 1 else 0)
  }

  /** A SERVERS entry autostarts exactly min(MIN, MAX) of its servers. */
  lemma {:induction false} AutostartedIsMin(name: string, base: int, min: nat, max: nat, grpno: int, clopt: string, rqaddr: string)
    ensures Autostarted(EntryServers(name, base, min, max, grpno, clopt, rqaddr)) == if min < max then min else max
  {
    if max > 0 {
      var rs := EntryServers(name, base, min, max, grpno, clopt, rqaddr);
      assert rs[..max - 1] == EntryServers(name, base, min, max - 1, grpno, clopt, rqaddr);
      AutostartedIsMin(name, base, min, max - 1, grpno, clopt, rqaddr);
    }
  }

  /** Within one SERVERS entry the server ids are distinct and each has its own queue unless RQADDR is shared. */
  lemma EntryServersDistinct(name: string, base: int, min: int, max: nat, grpno: int, clopt: string, rqaddr: string)
    ensures var rs := EntryServers(name, base, min, max, grpno, clopt, rqaddr);
      forall a, b | 0 <= a < b < max :: rs[a].srvid < rs[b].srvid && (rqaddr == "" ==> rs[a].rqaddr != rs[b].rqaddr)
  {
    var rs := EntryServers(name, base, min, max, grpno, clopt, rqaddr);
    forall a, b | 0 <= a < b < max
      ensures rqaddr == "" ==> rs[a].rqaddr != rs[b].rqaddr
    {
      if rqaddr == "" {
        DefaultQueuesDiffer(grpno, base + a, base + b);
      }
    }
  }

  /** Default queue names of two servers of a group differ when their ids do. */
  lemma DefaultQueuesDiffer(grpno: int, x: int, y: int)
    requires x != y
    ensures RequestQueue("", grpno, x) != RequestQueue("", grpno, y)
  {
    var g := ToDecimal(grpno) + ".";
    var qx := RequestQueue("", grpno, x);
    var qy := RequestQueue("", grpno, y);
    assert qx == g + ToDecimal(x) && qy == g + ToDecimal(y);
    if qx == qy {
      assert qx[|g|..] == ToDecimal(x);
      assert qy[|g|..] == ToDecimal(y);
      ParseToDecimal(x);
      ParseToDecimal(y);
    }
  }
}
