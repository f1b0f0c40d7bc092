/** The systemd services that `config reload` and `config load_minigraph` stop,
    reset and restart: the generated-services file that lists them, the lists of
    services to act on, the features a user has disabled, and the order in which
    the `systemctl` actions are issued. Running `systemctl` itself is not part of
    the model: each action is recorded in a log instead. */
module Services {
  import opened Common

  const StopAction: string := "stop"
  const RestartAction: string := "restart"
  const ResetFailedAction: string := "reset-failed"
  const Mellanox: string := "mellanox"

  datatype ServiceError =
    | NoGeneratedServicesFile          // unpacking the None returned for a missing file
    | StatusFieldMissing(feature: string)  // `feature_table[name]['status']` raises KeyError
    | StatusUnbound                    // `status` read after a loop that never assigned it

  // ---------------------------------------------------------------------------
  // _get_sonic_generated_services

  /** Python `s.rstrip('\n')`. */
  function StripNewlines(s: string): (r: string)
    ensures |r| <= |s| && r == s[..|r|]
    ensures r == [] || r[|r| - 1] != '\n'
    ensures forall i :: |r| <= i < |s| ==> s[i] == '\n'
    decreases |s|
  {
    if s != [] && s[|s| - 1] == '\n' then StripNewlines(s[..|s| - 1]) else s
  }

  /** Python `s.replace(c, '')` for one character. */
  function RemoveChar(s: string, c: char): (r: string)
    ensures c !in r
    ensures forall x :: x in r <==> x in s && x != c
    ensures multiset(r) == multiset(s)[c := 0]
    ensures c !in s ==> r == s
  {
    if s == [] then []
    else
      assert s == [s[0]] + s[1..];
      (if s[0] == c then [] else [s[0]]) + RemoveChar(s[1..], c)
  }

  /** Removing a character works piece by piece, so the other characters keep
      their order. */
  lemma {:induction false} RemoveCharAppend(u: string, v: string, c: char)
    ensures RemoveChar(u + v, c) == RemoveChar(u, c) + RemoveChar(v, c)
  {
    if u == [] {
      assert u + v == v;
    } else {
      assert (u + v)[0] == u[0] && (u + v)[1..] == u[1..] + v;
      RemoveCharAppend(u[1..], v, c);
    }
  }

  /** A line naming a per-ASIC service template (`name@.service`) on a
      multi-ASIC device. */
  predicate IsMultiInstance(line: string, numAsic: nat) {
    '@' in line && numAsic > 1
  }

  /** The list entry made from one line of the file. */
  function EntryOf(line: string): string {
    StripNewlines(if '@' in line then RemoveChar(line, '@') else line)
  }

  function SingleEntries(lines: seq<string>, numAsic: nat): seq<string> {
    if lines == [] then []
    else
      var line := lines[|lines| - 1];
      SingleEntries(lines[..|lines| - 1], numAsic) + (if IsMultiInstance(line, numAsic) then [] else [EntryOf(line)])
  }

  function MultiEntries(lines: seq<string>, numAsic: nat): seq<string> {
    if lines == [] then []
    else
      var line := lines[|lines| - 1];
      MultiEntries(lines[..|lines| - 1], numAsic) + (if IsMultiInstance(line, numAsic) then [EntryOf(line)] else [])
  }

  datatype Generated = Generated(single: seq<string>, multi: seq<string>)

  /** Sorts the lines of the generated-services file into single-instance and
      multi-instance services; `None` when the file does not exist. */
  method GetGeneratedServices(file: Option<seq<string>>, numAsic: nat) returns (r: Option<Generated>)
    ensures file.None? ==> r.None?
    ensures file.Some? ==> r == Some(Generated(SingleEntries(file.value, numAsic), MultiEntries(file.value, numAsic)))
  {
    if file.None? {
      return None;
    }
    var lines := file.value;
    var single: seq<string> := [];
    var multi: seq<string> := [];
    for i := 0 to |lines|
      invariant single == SingleEntries(lines[..i], numAsic)
      invariant multi == MultiEntries(lines[..i], numAsic)
    {
      var line := lines[i];
      assert lines[..i + 1][..i] == lines[..i];
      if '@' in line {
        line := RemoveChar(line, '@');
        if numAsic > 1 {
          multi := multi + [StripNewlines(line)];
        } else {
          single := single + [StripNewlines(line)];
        }
      } else {
        single := single + [StripNewlines(line)];
      }
    }
    assert lines[..|lines|] == lines;
    return Some(Generated(single, multi));
  }

  /** Every line yields exactly one entry. */
  lemma {:induction false} GeneratedLength(lines: seq<string>, numAsic: nat)
    ensures |SingleEntries(lines, numAsic)| + |MultiEntries(lines, numAsic)| == |lines|
  {
    if lines != [] {
      GeneratedLength(lines[..|lines| - 1], numAsic);
    }
  }

  /** The single-instance list holds exactly the entries of the lines that are
      not multi-instance. */
  lemma {:induction false} SingleMembers(lines: seq<string>, numAsic: nat)
    ensures forall e :: e in SingleEntries(lines, numAsic) <==>
      exists line :: line in lines && !IsMultiInstance(line, numAsic) && e == EntryOf(line)
  {
    if lines != [] {
      var init := lines[..|lines| - 1];
      SingleMembers(init, numAsic);
      assert lines == init + [lines[|lines| - 1]];
    }
  }

  /** The multi-instance list holds exactly the entries of the `@` lines, and
      only on a multi-ASIC device. */
  lemma {:induction false} MultiMembers(lines: seq<string>, numAsic: nat)
    ensures forall e :: e in MultiEntries(lines, numAsic) <==>
      exists line :: line in lines && IsMultiInstance(line, numAsic) && e == EntryOf(line)
    ensures numAsic <= 1 ==> MultiEntries(lines, numAsic) == []
  {
    if lines != [] {
      var init := lines[..|lines| - 1];
      MultiMembers(init, numAsic);
      assert lines == init + [lines[|lines| - 1]];
    }
  }

  /** Entries carry no trailing newline, and those made from `@` lines no `@`. */
  lemma EntryShape(line: string)
    ensures var e := EntryOf(line); e == [] || e[|e| - 1] != '\n'
    ensures '@' in line ==> '@' !in EntryOf(line)
  {
    if '@' in line {
      var stripped := RemoveChar(line, '@');
      assert EntryOf(line) == StripNewlines(stripped);
      assert forall x :: x in StripNewlines(stripped) ==> x in stripped;
    }
  }

  // ---------------------------------------------------------------------------
  // execute_systemctl

  /** One `systemctl <action> <unit>` call: the unit is `service` itself, or
      `service@<instance>.service` for one ASIC instance. */
  datatype Run = Systemctl(action: string, service: string, instance: Option<nat>)

  /** The command line that `Run` stands for. */
  function CommandLine(run: Run): string {
    match run.instance
    case None => "systemctl " + run.action + " " + run.service
    case Some(i) => "systemctl " + run.action + " " + run.service + "@" + NatToString(i) + ".service"
  }

  function InstanceRuns(action: string, service: string, n: nat): (r: seq<Run>)
    ensures |r| == n
    ensures forall i: nat :: i < n ==> r[i] == Systemctl(action, service, Some(i))
  {
    if n == 0 then [] else InstanceRuns(action, service, n - 1) + [Systemctl(action, service, Some(n - 1))]
  }

  /** The actions for one service: the plain unit first, then one per ASIC. */
  function RunsFor(service: string, action: string, gen: Generated, numAsic: nat): seq<Run> {
    (if service + ".service" in gen.single then [Systemctl(action, service, None)] else []) +
    (if service + ".service" in gen.multi then InstanceRuns(action, service, numAsic) else [])
  }

  function AllRuns(services: seq<string>, action: string, gen: Generated, numAsic: nat): seq<Run> {
    if services == [] then []
    else
      var n := |services| - 1;
      AllRuns(services[..n], action, gen, numAsic) + RunsFor(services[n], action, gen, numAsic)
  }

  /** The calls for one service name only its generated units. */
  lemma RunsForMembers(service: string, action: string, gen: Generated, numAsic: nat)
    ensures forall run :: run in RunsFor(service, action, gen, numAsic) ==> run.action == action && run.service == service
    ensures forall s :: Systemctl(action, s, None) in RunsFor(service, action, gen, numAsic) <==>
      s == service && service + ".service" in gen.single
    ensures forall s, i: nat :: Systemctl(action, s, Some(i)) in RunsFor(service, action, gen, numAsic) <==>
      s == service && service + ".service" in gen.multi && i < numAsic
  {
    var instances := InstanceRuns(action, service, numAsic);
    forall i: nat | i < numAsic
      ensures Systemctl(action, service, Some(i)) in instances
    {
      assert instances[i] == Systemctl(action, service, Some(i));
    }
  }

  /** The log names exactly the generated units of the listed services, each
      with the requested action. */
  lemma {:induction false} AllRunsMembers(services: seq<string>, action: string, gen: Generated, numAsic: nat)
    ensures forall run :: run in AllRuns(services, action, gen, numAsic) ==> run.action == action && run.service in services
    ensures forall s :: Systemctl(action, s, None) in AllRuns(services, action, gen, numAsic) <==>
      s in services && s + ".service" in gen.single
    ensures forall s, i: nat :: Systemctl(action, s, Some(i)) in AllRuns(services, action, gen, numAsic) <==>
      s in services && s + ".service" in gen.multi && i < numAsic
  {
    if services != [] {
      var n := |services| - 1;
      AllRunsMembers(services[..n], action, gen, numAsic);
      RunsForMembers(services[n], action, gen, numAsic);
      assert services == services[..n] + [services[n]];
      assert AllRuns(services, action, gen, numAsic) ==
        AllRuns(services[..n], action, gen, numAsic) + RunsFor(services[n], action, gen, numAsic);
    }
  }

  lemma {:induction false} NothingGenerated(services: seq<string>, action: string, gen: Generated, numAsic: nat)
    requires gen.single == [] && gen.multi == []
    ensures AllRuns(services, action, gen, numAsic) == []
  {
    if services != [] {
      NothingGenerated(services[..|services| - 1], action, gen, numAsic);
    }
  }

  /** The calls for one service: its plain unit when it is generated, then one
      per ASIC instance when its templated unit is. */
  method IssueFor(service: string, action: string, gen: Generated, numAsic: nat) returns (runs: seq<Run>)
    ensures runs == RunsFor(service, action, gen, numAsic)
  {
    runs := [];
    if service + ".service" in gen.single {
      runs := [Systemctl(action, service, None)];
    }
    ghost var mid := runs;
    if service + ".service" in gen.multi {
      for inst := 0 to numAsic
        invariant runs == mid + InstanceRuns(action, service, inst)
      {
        runs := runs + [Systemctl(action, service, Some(inst))];
      }
    }
  }

  /** The two generated lists read from the lines of the generated-services file. */
  function GeneratedFrom(lines: seq<string>, numAsic: nat): Generated {
    Generated(SingleEntries(lines, numAsic), MultiEntries(lines, numAsic))
  }

  /** Issues `action` on each listed service that the generated-services file
      knows, in list order; nothing when both generated lists are empty. The
      lists are read from `file` (`None` when it does not exist) for `numAsic`. */
  method ExecuteSystemctl(services: seq<string>, action: string, numAsic: nat, file: Option<seq<string>>)
    returns (r: Result<seq<Run>, ServiceError>)
    ensures file.None? ==> r == Err(NoGeneratedServicesFile)
    ensures file.Some? && GeneratedFrom(file.value, numAsic).single == [] && GeneratedFrom(file.value, numAsic).multi == [] ==> r == Ok([])
    ensures file.Some? ==> r == Ok(AllRuns(services, action, GeneratedFrom(file.value, numAsic), numAsic))
  {
    var generated := GetGeneratedServices(file, numAsic);
    if generated.None? {
      return Err(NoGeneratedServicesFile);
    }
    var gen := generated.value;
    if gen.single == [] && gen.multi == [] {
      NothingGenerated(services, action, gen, numAsic);
      return Ok([]);
    }
    var log: seq<Run> := [];
    for k := 0 to |services|
      invariant log == AllRuns(services[..k], action, gen, numAsic)
    {
      assert services[..k + 1][..k] == services[..k];
      var runs := IssueFor(services[k], action, gen, numAsic);
      log := log + runs;
    }
    assert services[..|services|] == services;
    return Ok(log);
  }

  // ---------------------------------------------------------------------------
  // _get_disabled_services_list

  /** One row of the FEATURE table in iteration order; `status` is `None` when
      the row has no `status` field. */
  datatype Feature = Feature(name: string, status: Option<string>)

  /** The value of the loop's `status` variable after the rows `fs`: `Ok(None)`
      while it is unassigned. Rows with an empty name are skipped before
      `status` is read; an empty status is assigned and then skipped. */
  function StatusAfter(fs: seq<Feature>): Result<Option<string>, ServiceError> {
    if fs == [] then Ok(None)
    else
      var f := fs[|fs| - 1];
      match StatusAfter(fs[..|fs| - 1])
      case Err(e) => Err(e)
      case Ok(st) =>
        if f.name == "" then Ok(st)
        else if f.status.None? then Err(StatusFieldMissing(f.name))
        else Ok(f.status)
  }

  /** What `_get_disabled_services_list` returns for a FEATURE table (`None`
      when the table cannot be read): the `disabled` test stands after the loop,
      so only the status last read, with the name last iterated, is examined. */
  function DisabledAsWritten(features: Option<seq<Feature>>): Result<seq<string>, ServiceError> {
    match features
    case None => Ok([])
    case Some(fs) =>
      match StatusAfter(fs)
      case Err(e) => Err(e)
      case Ok(None) => Err(StatusUnbound)
      case Ok(Some(s)) => Ok(if s == "disabled" then [fs[|fs| - 1].name] else [])
  }

  lemma {:induction false} StatusAfterSomeMeansNonEmpty(fs: seq<Feature>)
    requires StatusAfter(fs).Ok? && StatusAfter(fs).value.Some?
    ensures fs != []
  {
  }

  /** A missing status field ends the scan: the later rows are never read. */
  lemma {:induction false} StatusErrorPersists(fs: seq<Feature>, i: nat)
    requires i <= |fs| && StatusAfter(fs[..i]).Err?
    ensures StatusAfter(fs) == StatusAfter(fs[..i])
    decreases |fs| - i
  {
    if i < |fs| {
      assert fs[..i + 1][..i] == fs[..i];
      StatusErrorPersists(fs, i + 1);
    } else {
      assert fs[..i] == fs;
    }
  }

  /** The scan of the FEATURE table, as written. */
  method DisabledServicesList(features: Option<seq<Feature>>) returns (r: Result<seq<string>, ServiceError>)
    ensures r == DisabledAsWritten(features)
  {
    if features.None? {
      return Ok([]);
    }
    var fs := features.value;
    var status: Option<string> := None;
    var featureName := "";
    for i := 0 to |fs|
      invariant StatusAfter(fs[..i]).Ok? && status == StatusAfter(fs[..i]).value
      invariant 0 < i ==> featureName == fs[i - 1].name
    {
      assert fs[..i + 1][..i] == fs[..i];
      featureName := fs[i].name;
      if featureName == "" {
        continue;
      }
      if fs[i].status.None? {
        StatusErrorPersists(fs, i + 1);
        return Err(StatusFieldMissing(featureName));
      }
      status := fs[i].status;
      if status.value == "" {
        continue;
      }
    }
    assert fs[..|fs|] == fs;
    if status.None? {
      return Err(StatusUnbound);
    }
    StatusAfterSomeMeansNonEmpty(fs);
    if status.value == "disabled" {
      return Ok([featureName]);
    }
    return Ok([]);
  }

  /** When every named row has a status, the status examined is that of the
      last named row. */
  lemma {:induction false} StatusIsLastNamed(fs: seq<Feature>, i: nat)
    requires forall k :: 0 <= k < |fs| && fs[k].name != "" ==> fs[k].status.Some?
    requires i < |fs| && fs[i].name != ""
    requires forall k :: i < k < |fs| ==> fs[k].name == ""
    ensures StatusAfter(fs) == Ok(fs[i].status)
  {
    var init := fs[..|fs| - 1];
    if i < |fs| - 1 {
      StatusIsLastNamed(init, i);
    } else {
      StatusHasNoMissingField(init);
    }
  }

  lemma {:induction false} StatusHasNoMissingField(fs: seq<Feature>)
    requires forall k :: 0 <= k < |fs| && fs[k].name != "" ==> fs[k].status.Some?
    ensures StatusAfter(fs).Ok?
  {
    if fs != [] {
      StatusHasNoMissingField(fs[..|fs| - 1]);
    }
  }

  /** At most one service is ever reported disabled, and only the last row's. */
  lemma DisabledAtMostOne(features: Option<seq<Feature>>)
    ensures DisabledAsWritten(features).Ok? ==> |DisabledAsWritten(features).value| <= 1
    ensures DisabledAsWritten(features).Ok? && DisabledAsWritten(features).value != [] ==>
      features.Some? && features.value != [] &&
      DisabledAsWritten(features).value == [features.value[|features.value| - 1].name]
  {
  }

  /** A disabled feature that is not the last row is not reported. */
  lemma DisabledMissesEarlierRows()
    ensures DisabledAsWritten(Some([Feature("bgp", Some("disabled")), Feature("lldp", Some("enabled"))])) == Ok([])
  {
    var fs := [Feature("bgp", Some("disabled")), Feature("lldp", Some("enabled"))];
    assert fs[..1] == [fs[0]];
    assert fs[..1][..0] == [];
    assert StatusAfter(fs[..1]) == Ok(Some("disabled"));
    assert StatusAfter(fs) == Ok(Some("enabled"));
  }

  // ---------------------------------------------------------------------------
  // _stop_services, _reset_failed_services, _restart_services

  const StopBase: seq<string> := ["restapi", "swss", "lldp", "pmon", "bgp", "hostcfgd", "nat"]

  const ResetBase: seq<string> := ["bgp", "dhcp_relay", "hostcfgd", "hostname-config",
    "interfaces-config", "lldp", "ntp-config", "pmon", "radv", "rsyslog-config", "snmp",
    "swss", "syncd", "teamd", "nat", "sflow", "restapi"]

  const RestartBase: seq<string> := ["hostname-config", "interfaces-config", "ntp-config",
    "rsyslog-config", "swss", "bgp", "pmon", "lldp", "hostcfgd", "nat", "sflow", "restapi"]

  /** The elements of `s` not in `drop`, in order. */
  function Keep(s: seq<string>, drop: set<string>): seq<string> {
    if s == [] then [] else (if s[0] in drop then [] else [s[0]]) + Keep(s[1..], drop)
  }

  ghost predicate Distinct(s: seq<string>) {
    forall i, j :: 0 <= i < j < |s| ==> s[i] != s[j]
  }

  lemma {:induction false} KeepMembers(s: seq<string>, drop: set<string>)
    ensures forall x :: x in Keep(s, drop) <==> x in s && x !in drop
    ensures Distinct(s) ==> Distinct(Keep(s, drop))
  {
    if s != [] {
      KeepMembers(s[1..], drop);
      assert s == [s[0]] + s[1..];
    }
  }

  lemma {:induction false} KeepTwice(s: seq<string>, a: set<string>, b: set<string>)
    ensures Keep(Keep(s, a), b) == Keep(s, a + b)
  {
    if s != [] {
      KeepTwice(s[1..], a, b);
      var k := Keep(s, a);
      if s[0] !in a {
        assert k == [s[0]] + Keep(s[1..], a);
        assert k[1..] == Keep(s[1..], a);
        assert Keep(k, b) == (if s[0] in b then [] else [s[0]]) + Keep(k[1..], b);
      } else {
        assert k == Keep(s[1..], a);
      }
    }
  }

  lemma {:induction false} KeepNothing(s: seq<string>, x: string)
    requires x !in s
    ensures Keep(s, {x}) == s
  {
    if s != [] {
      KeepNothing(s[1..], x);
    }
  }

  /** On a list without duplicates `list.remove(x)` drops every `x`. */
  lemma {:induction false} RemoveFirstIsKeep(s: seq<string>, x: string)
    requires Distinct(s) && x in s
    ensures RemoveFirst(s, x) == Keep(s, {x})
  {
    if s[0] == x {
      assert x !in s[1..];
      KeepNothing(s[1..], x);
    } else {
      RemoveFirstIsKeep(s[1..], x);
    }
  }

  lemma {:induction false} KeepEmpty(s: seq<string>)
    ensures Keep(s, {}) == s
  {
    if s != [] {
      KeepEmpty(s[1..]);
    }
  }

  /** One `list.remove(service)` guarded by `service in list`, on a list that
      is the base list less the services `drop`. */
  lemma KeepStep(base: seq<string>, drop: set<string>, service: string)
    requires Distinct(base)
    ensures service in Keep(base, drop) ==>
      RemoveFirst(Keep(base, drop), service) == Keep(base, drop + {service})
    ensures service !in Keep(base, drop) ==> Keep(base, drop) == Keep(base, drop + {service})
  {
    KeepMembers(base, drop);
    KeepTwice(base, drop, {service});
    if service in Keep(base, drop) {
      RemoveFirstIsKeep(Keep(base, drop), service);
    } else {
      KeepNothing(Keep(base, drop), service);
    }
  }

  lemma StopBaseDistinct()
    ensures Distinct(StopBase)
  {
  }

  lemma RestartBaseDistinct()
    ensures Distinct(RestartBase)
  {
  }

  function SetOf(s: seq<string>): set<string> {
    set x | x in s
  }

  /** The services `_stop_services` stops: pmon is left to syncd on Mellanox. */
  function StopList(asicType: string): (r: seq<string>)
    ensures forall s :: s in r <==> s in StopBase && !(asicType == Mellanox && s == "pmon")
  {
    StopBaseDistinct();
    RemoveDistinct(StopBase, "pmon");
    if asicType == Mellanox then RemoveFirst(StopBase, "pmon") else StopBase
  }

  lemma RemoveDistinct(s: seq<string>, x: string)
    requires Distinct(s) && x in s
    ensures forall y :: y in RemoveFirst(s, x) <==> y in s && y != x
  {
    RemoveFirstIsKeep(s, x);
    KeepMembers(s, {x});
  }

  /** The removal loop of `_restart_services` over any list without duplicates. */
  method RemoveServices(base: seq<string>, disabled: seq<string>, asicType: string) returns (list: seq<string>)
    requires Distinct(base)
    ensures list == Keep(base, SetOf(disabled) + (if asicType == Mellanox then {"pmon"} else {}))
  {
    list := base;
    KeepEmpty(base);
    assert SetOf(disabled[..0]) == {};
    for k := 0 to |disabled|
      invariant list == Keep(base, SetOf(disabled[..k]))
    {
      var service := disabled[k];
      assert SetOf(disabled[..k + 1]) == SetOf(disabled[..k]) + {service} by {
        assert disabled[..k + 1] == disabled[..k] + [service];
      }
      KeepStep(base, SetOf(disabled[..k]), service);
      if service in list {
        list := RemoveFirst(list, service);
      }
    }
    assert disabled[..|disabled|] == disabled;
    ghost var d := SetOf(disabled);
    if asicType == Mellanox {
      KeepStep(base, d, "pmon");
      if "pmon" in list {
        list := RemoveFirst(list, "pmon");
      }
    } else {
      assert d + {} == d;
    }
  }

  /** The services `_restart_services` restarts: the base list without the
      disabled services and, on Mellanox, without pmon. */
  method RestartList(disabled: seq<string>, asicType: string) returns (list: seq<string>)
    ensures list == Keep(RestartBase, SetOf(disabled) + (if asicType == Mellanox then {"pmon"} else {}))
    ensures forall s :: s in list <==> s in RestartBase && s !in disabled && !(asicType == Mellanox && s == "pmon")
  {
    RestartBaseDistinct();
    list := RemoveServices(RestartBase, disabled, asicType);
    KeepMembers(RestartBase, SetOf(disabled) + (if asicType == Mellanox then {"pmon"} else {}));
  }

  /** `_stop_services`. */
  method StopServices(asicType: string, numAsic: nat, file: Option<seq<string>>)
    returns (r: Result<seq<Run>, ServiceError>)
    ensures file.None? ==> r == Err(NoGeneratedServicesFile)
    ensures file.Some? ==> r == Ok(AllRuns(StopList(asicType), StopAction, GeneratedFrom(file.value, numAsic), numAsic))
  {
    r := ExecuteSystemctl(StopList(asicType), StopAction, numAsic, file);
  }

  /** `_reset_failed_services`. */
  method ResetFailedServices(numAsic: nat, file: Option<seq<string>>)
    returns (r: Result<seq<Run>, ServiceError>)
    ensures file.None? ==> r == Err(NoGeneratedServicesFile)
    ensures file.Some? ==> r == Ok(AllRuns(ResetBase, ResetFailedAction, GeneratedFrom(file.value, numAsic), numAsic))
  {
    r := ExecuteSystemctl(ResetBase, ResetFailedAction, numAsic, file);
  }

  /** `_restart_services`: the FEATURE scan, then the restart of what remains. */
  method RestartServices(features: Option<seq<Feature>>, asicType: string, numAsic: nat, file: Option<seq<string>>)
    returns (r: Result<seq<Run>, ServiceError>)
    ensures DisabledAsWritten(features).Err? ==> r == Err(DisabledAsWritten(features).error)
    ensures DisabledAsWritten(features).Ok? && file.None? ==> r == Err(NoGeneratedServicesFile)
    ensures DisabledAsWritten(features).Ok? && file.Some? ==>
      var dropped := SetOf(DisabledAsWritten(features).value) + (if asicType == Mellanox then {"pmon"} else {});
      r == Ok(AllRuns(Keep(RestartBase, dropped), RestartAction, GeneratedFrom(file.value, numAsic), numAsic))
    ensures DisabledAsWritten(features).Ok? && file.Some? ==>
      forall run :: run in r.value ==>
        run.action == RestartAction && run.service in RestartBase &&
        run.service !in DisabledAsWritten(features).value && !(asicType == Mellanox && run.service == "pmon")
  {
    var disabled := DisabledServicesList(features);
    if disabled.Err? {
      return Err(disabled.error);
    }
    var list := RestartList(disabled.value, asicType);
    r := ExecuteSystemctl(list, RestartAction, numAsic, file);
    if file.Some? {
      AllRunsMembers(list, RestartAction, GeneratedFrom(file.value, numAsic), numAsic);
    }
  }
}
