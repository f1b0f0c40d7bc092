/** The `config sflow` commands: the global admin state and counter polling
    interval (the `global` row of the SFLOW table), the per-interface sample
    rate (SFLOW_SESSION) and the collectors (SFLOW_COLLECTOR), of which at most
    two may be configured. The address check `is_ipaddress` and the interface
    check `interface_name_is_valid` are given as parameters. */
module Sflow {
  import opened Common
  import opened ConfigDb

  const SflowTable: string := "SFLOW"
  const SessionTable: string := "SFLOW_SESSION"
  const CollectorTable: string := "SFLOW_COLLECTOR"
  const GlobalRow: string := "global"
  const AdminStateField: string := "admin_state"
  const PollingIntervalField: string := "polling_interval"
  const SampleRateField: string := "sample_rate"
  const AgentIdField: string := "agent_id"
  const MinSampleRate: int := 256
  const MaxSampleRate: int := 8388608
  const MaxCollectorNameLength: nat := 16
  const MaxCollectors: nat := 2

  datatype SflowError =
    | GlobalRowMissing               // `sflow_tbl['global']` raises KeyError
    | InvalidInterfaceName           // "Invalid interface name"
    | InvalidSampleRate(rate: int)
    | InvalidPollingInterval(interval: int)
    | InvalidCollectorInfo
    | TooManyCollectors              // "Only 2 collectors can be configured, please delete one"
    | CollectorNotConfigured(name: string)
    | AgentAlreadyConfigured         // "Agent already configured. Please delete it first."
    | AgentNotConfigured             // "sFlow agent not configured."

  // ---------------------------------------------------------------------------
  // The global row

  function GlobalEntry(db: Db): Entry {
    GetEntry(db, SflowTable, Name(GlobalRow))
  }

  /** The global row as the handlers read it: on an empty SFLOW table it
      starts as `{admin_state: initial}`; a non-empty table without a global
      row makes the lookup fail. */
  function GlobalRowOf(db: Db, initial: string): (r: Result<Entry, SflowError>)
    ensures r.Err? <==> GetTable(db, SflowTable) != map[] && Name(GlobalRow) !in GetTable(db, SflowTable)
    ensures r.Err? ==> r == Err(GlobalRowMissing)
    ensures r.Ok? && GetTable(db, SflowTable) == map[] ==> r.value == map[AdminStateField := Scalar(initial)]
    ensures r.Ok? && GetTable(db, SflowTable) != map[] ==> r.value == GlobalEntry(db)
  {
    var table := GetTable(db, SflowTable);
    if table == map[] then Ok(map[AdminStateField := Scalar(initial)])
    else if Name(GlobalRow) !in table then Err(GlobalRowMissing)
    else Ok(table[Name(GlobalRow)])
  }

  /** The edit shared by `enable`, `disable` and `polling-interval`: `field`
      is set in the global row, which is merged back. */
  function SetGlobalField(db: Db, initial: string, field: string, value: Field): (r: Result<Db, SflowError>)
    ensures r.Err? <==> GetTable(db, SflowTable) != map[] && Name(GlobalRow) !in GetTable(db, SflowTable)
    ensures r.Ok? ==> FieldIs(GlobalEntry(r.value), field, value)
    ensures r.Ok? && GetTable(db, SflowTable) == map[] && field != AdminStateField ==>
      FieldIs(GlobalEntry(r.value), AdminStateField, Scalar(initial))
    ensures r.Ok? && GetTable(db, SflowTable) != map[] ==> SameOtherFields(GlobalEntry(db), GlobalEntry(r.value), field)
    ensures r.Ok? ==> forall t, k :: (t, k) != (SflowTable, Name(GlobalRow)) ==> GetEntry(r.value, t, k) == GetEntry(db, t, k)
  {
    match GlobalRowOf(db, initial)
    case Err(e) => Err(e)
    case Ok(row) => Ok(ModEntry(db, SflowTable, Name(GlobalRow), row[field := value]))
  }

  /** The text of an admin state. */
  function AdminStateText(up: bool): string {
    if up then "up" else "down"
  }

  /** `config sflow enable` and `config sflow disable` (the database part): an
      empty SFLOW table starts from a global row holding just the new state. */
  function SetAdminState(db: Db, up: bool): (r: Result<Db, SflowError>)
    ensures r.Err? <==> GetTable(db, SflowTable) != map[] && Name(GlobalRow) !in GetTable(db, SflowTable)
    ensures r.Ok? ==> FieldIs(GlobalEntry(r.value), AdminStateField, Scalar(AdminStateText(up)))
    ensures r.Ok? && GetTable(db, SflowTable) != map[] ==> SameOtherFields(GlobalEntry(db), GlobalEntry(r.value), AdminStateField)
    ensures r.Ok? ==> forall t, k :: (t, k) != (SflowTable, Name(GlobalRow)) ==> GetEntry(r.value, t, k) == GetEntry(db, t, k)
  {
    SetGlobalField(db, AdminStateText(up), AdminStateField, Scalar(AdminStateText(up)))
  }

  /** The global row after the edit is the row as read, with `field` set. */
  lemma GlobalAfterSet(db: Db, initial: string, field: string, value: Field)
    requires SetGlobalField(db, initial, field, value).Ok?
    ensures GlobalEntry(SetGlobalField(db, initial, field, value).value) == GlobalRowOf(db, initial).value[field := value]
  {
    var row := GlobalRowOf(db, initial).value;
    var r := ModEntry(db, SflowTable, Name(GlobalRow), row[field := value]);
    assert r == SetEntry(db, SflowTable, Name(GlobalRow), Some(GlobalEntry(db) + row[field := value]));
    if GetTable(db, SflowTable) == map[] {
      assert GlobalEntry(db) == map[];
      assert map[] + row[field := value] == row[field := value];
    } else {
      assert GlobalEntry(db) + row[field := value] == row[field := value];
    }
  }

  /** Enabling then disabling leaves the same global row as disabling alone. */
  lemma DisableAfterEnable(db: Db)
    requires SetAdminState(db, true).Ok?
    ensures SetAdminState(SetAdminState(db, true).value, false).Ok?
    ensures GlobalEntry(SetAdminState(SetAdminState(db, true).value, false).value) == GlobalEntry(SetAdminState(db, false).value)
  {
    var on := SetAdminState(db, true).value;
    GlobalAfterSet(db, "up", AdminStateField, Scalar("up"));
    assert GetTable(on, SflowTable) != map[] by {
      assert Name(GlobalRow) in GetTable(on, SflowTable);
    }
    GlobalAfterSet(on, "down", AdminStateField, Scalar("down"));
    GlobalAfterSet(db, "down", AdminStateField, Scalar("down"));
  }

  predicate IsValidPollingInterval(interval: int) {
    5 <= interval < 301 || interval == 0
  }

  /** `config sflow polling-interval <interval>`, as written: an interval out
      of range is reported, and then written all the same. */
  function PollingIntervalAsWritten(db: Db, interval: int): (r: (bool, Result<Db, SflowError>))
    ensures r.0 <==> !IsValidPollingInterval(interval)
    ensures r.1 == SetGlobalField(db, "down", PollingIntervalField, Scalar(IntToString(interval)))
  {
    (!IsValidPollingInterval(interval), SetGlobalField(db, "down", PollingIntervalField, Scalar(IntToString(interval))))
  }

  /** The interval the message refuses is stored: 301 is reported and written. */
  lemma PollingIntervalWrittenDespiteWarning(db: Db)
    requires GetTable(db, SflowTable) == map[]
    ensures PollingIntervalAsWritten(db, 301).0
    ensures PollingIntervalAsWritten(db, 301).1.Ok?
    ensures FieldIs(GlobalEntry(PollingIntervalAsWritten(db, 301).1.value), PollingIntervalField, Scalar(IntToString(301)))
  {
  }

  /** `config sflow polling-interval <interval>` with the evident intent of the
      message: an interval out of range leaves the database alone. */
  function SetPollingInterval(db: Db, interval: int): (r: Result<Db, SflowError>)
    ensures !IsValidPollingInterval(interval) ==> r == Err(InvalidPollingInterval(interval))
    ensures r.Ok? ==> IsValidPollingInterval(interval)
    ensures r.Ok? ==> FieldIs(GlobalEntry(r.value), PollingIntervalField, Scalar(IntToString(interval)))
    ensures IsValidPollingInterval(interval) ==> r == PollingIntervalAsWritten(db, interval).1
  {
    if !IsValidPollingInterval(interval) then Err(InvalidPollingInterval(interval))
    else SetGlobalField(db, "down", PollingIntervalField, Scalar(IntToString(interval)))
  }

  // ---------------------------------------------------------------------------
  // Sample rate

  /** `is_valid_sample_rate`: `rate in range(256, 8388608 + 1)`. */
  predicate IsValidSampleRate(rate: int) {
    MinSampleRate <= rate < MaxSampleRate + 1
  }

  /** The edit shared by `interface enable|disable|sample-rate`: an existing
      session row has `field` set and is merged back, a missing one is created
      with that field alone. `validName` is `interface_name_is_valid(ifname)`. */
  function SetSessionField(db: Db, ifname: string, validName: bool, field: string, value: Field): (r: Result<Db, SflowError>)
    ensures r.Err? <==> !validName && ifname != "all"
    ensures r.Err? ==> r == Err(InvalidInterfaceName)
  {
    if !validName && ifname != "all" then Err(InvalidInterfaceName)
    else
      var sessions := GetTable(db, SessionTable);
      if sessions != map[] && Name(ifname) in sessions then
        Ok(ModEntry(db, SessionTable, Name(ifname), sessions[Name(ifname)][field := value]))
      else
        Ok(ModEntry(db, SessionTable, Name(ifname), map[field := value]))
  }

  /** Both branches come to the same thing: merging the one field into the
      session row. */
  lemma SessionFieldMerges(db: Db, ifname: string, validName: bool, field: string, value: Field)
    requires validName || ifname == "all"
    ensures SetSessionField(db, ifname, validName, field, value) ==
      Ok(ModEntry(db, SessionTable, Name(ifname), map[field := value]))
  {
    var sessions := GetTable(db, SessionTable);
    if sessions != map[] && Name(ifname) in sessions {
      var e := sessions[Name(ifname)];
      assert GetEntry(db, SessionTable, Name(ifname)) == e;
      assert e + e[field := value] == e + map[field := value];
    }
  }

  /** Hence the row gains the field, keeps its others, and nothing else moves. */
  lemma SessionFieldEffect(db: Db, ifname: string, validName: bool, field: string, value: Field)
    requires validName || ifname == "all"
    ensures var r := SetSessionField(db, ifname, validName, field, value).value;
      && FieldIs(GetEntry(r, SessionTable, Name(ifname)), field, value)
      && SameOtherFields(GetEntry(db, SessionTable, Name(ifname)), GetEntry(r, SessionTable, Name(ifname)), field)
      && (forall t, k :: (t, k) != (SessionTable, Name(ifname)) ==> GetEntry(r, t, k) == GetEntry(db, t, k))
  {
    SessionFieldMerges(db, ifname, validName, field, value);
  }

  /** `config sflow interface enable|disable <ifname>`. */
  function SetSessionAdminState(db: Db, ifname: string, validName: bool, up: bool): (r: Result<Db, SflowError>)
    ensures r.Err? <==> !validName && ifname != "all"
    ensures r.Ok? ==> FieldIs(GetEntry(r.value, SessionTable, Name(ifname)), AdminStateField, Scalar(if up then "up" else "down"))
    ensures r.Ok? ==> SameOtherFields(GetEntry(db, SessionTable, Name(ifname)), GetEntry(r.value, SessionTable, Name(ifname)), AdminStateField)
    ensures r.Ok? ==> forall t, k :: (t, k) != (SessionTable, Name(ifname)) ==> GetEntry(r.value, t, k) == GetEntry(db, t, k)
  {
    var r := SetSessionField(db, ifname, validName, AdminStateField, Scalar(if up then "up" else "down"));
    if r.Ok? then
      SessionFieldEffect(db, ifname, validName, AdminStateField, Scalar(if up then "up" else "down"));
      r
    else r
  }

  /** `config sflow interface sample-rate <ifname> <rate>`: the name is checked
      before the rate. */
  function SetSampleRate(db: Db, ifname: string, validName: bool, rate: int): (r: Result<Db, SflowError>)
    ensures !validName && ifname != "all" ==> r == Err(InvalidInterfaceName)
    ensures (validName || ifname == "all") && !IsValidSampleRate(rate) ==> r == Err(InvalidSampleRate(rate))
    ensures r.Ok? <==> (validName || ifname == "all") && IsValidSampleRate(rate)
    ensures r.Ok? ==> FieldIs(GetEntry(r.value, SessionTable, Name(ifname)), SampleRateField, Scalar(IntToString(rate)))
    ensures r.Ok? ==> SameOtherFields(GetEntry(db, SessionTable, Name(ifname)), GetEntry(r.value, SessionTable, Name(ifname)), SampleRateField)
    ensures r.Ok? ==> forall t, k :: (t, k) != (SessionTable, Name(ifname)) ==> GetEntry(r.value, t, k) == GetEntry(db, t, k)
  {
    if !validName && ifname != "all" then Err(InvalidInterfaceName)
    else if !IsValidSampleRate(rate) then Err(InvalidSampleRate(rate))
    else
      SessionFieldEffect(db, ifname, validName, SampleRateField, Scalar(IntToString(rate)));
      SetSessionField(db, ifname, validName, SampleRateField, Scalar(IntToString(rate)))
  }

  // ---------------------------------------------------------------------------
  // Collectors

  /** `is_valid_collector_info`, checks in order: name length, port range,
      address. */
  function IsValidCollectorInfo(name: string, port: int, validIp: bool): (b: bool)
    ensures b <==> |name| <= MaxCollectorNameLength && 0 <= port <= 65535 && validIp
  {
    if |name| > MaxCollectorNameLength then false
    else if !(0 <= port < 65535 + 1) then false
    else if !validIp then false
    else true
  }

  function CollectorEntry(ip: string, port: int): Entry {
    map["collector_ip" := Scalar(ip), "collector_port" := Scalar(IntToString(port))]
  }

  /** The guard against a third collector. */
  predicate CollectorsFull(collectors: Table, name: string) {
    collectors != map[] && Name(name) !in collectors && |collectors| == MaxCollectors
  }

  /** `config sflow collector add [--port p] <name> <ip>`: the address is
      lower-cased before it is checked and stored; a third collector is
      refused. */
  function AddCollector(db: Db, name: string, ip: string, port: int, isIp: string -> bool): (r: Result<Db, SflowError>)
    ensures !IsValidCollectorInfo(name, port, isIp(Lower(ip))) ==> r == Err(InvalidCollectorInfo)
    ensures r == Err(TooManyCollectors) <==>
      IsValidCollectorInfo(name, port, isIp(Lower(ip))) &&
      Name(name) !in GetTable(db, CollectorTable) && |GetTable(db, CollectorTable)| == MaxCollectors
    ensures r.Ok? <==> IsValidCollectorInfo(name, port, isIp(Lower(ip))) && !CollectorsFull(GetTable(db, CollectorTable), name)
    ensures r.Ok? ==>
      && GetTable(r.value, CollectorTable).Keys == GetTable(db, CollectorTable).Keys + {Name(name)}
      && FieldIs(GetEntry(r.value, CollectorTable, Name(name)), "collector_ip", Scalar(Lower(ip)))
      && FieldIs(GetEntry(r.value, CollectorTable, Name(name)), "collector_port", Scalar(IntToString(port)))
      && (forall t, k :: (t, k) != (CollectorTable, Name(name)) ==> GetEntry(r.value, t, k) == GetEntry(db, t, k))
  {
    var lowered := Lower(ip);
    if !IsValidCollectorInfo(name, port, isIp(lowered)) then Err(InvalidCollectorInfo)
    else if CollectorsFull(GetTable(db, CollectorTable), name) then Err(TooManyCollectors)
    else
      var r := ModEntry(db, CollectorTable, Name(name), CollectorEntry(lowered, port));
      assert GetEntry(r, CollectorTable, Name(name))["collector_ip"] == Scalar(lowered);
      assert GetEntry(r, CollectorTable, Name(name))["collector_port"] == Scalar(IntToString(port));
      Ok(r)
  }

  /** `config sflow collector del <name>`. */
  function DelCollector(db: Db, name: string): (r: Result<Db, SflowError>)
    ensures r.Err? <==> Name(name) !in GetTable(db, CollectorTable)
    ensures r.Err? ==> r == Err(CollectorNotConfigured(name))
    ensures r.Ok? ==>
      && GetTable(r.value, CollectorTable).Keys == GetTable(db, CollectorTable).Keys - {Name(name)}
      && (forall t, k :: (t, k) != (CollectorTable, Name(name)) ==> GetEntry(r.value, t, k) == GetEntry(db, t, k))
  {
    if Name(name) !in GetTable(db, CollectorTable) then Err(CollectorNotConfigured(name))
    else Ok(SetEntry(db, CollectorTable, Name(name), None))
  }

  /** At most two collectors: both commands keep the bound. */
  lemma CollectorLimitKept(db: Db, name: string, ip: string, port: int, isIp: string -> bool)
    requires |GetTable(db, CollectorTable)| <= MaxCollectors
    ensures AddCollector(db, name, ip, port, isIp).Ok? ==>
      |GetTable(AddCollector(db, name, ip, port, isIp).value, CollectorTable)| <= MaxCollectors
    ensures DelCollector(db, name).Ok? ==>
      |GetTable(DelCollector(db, name).value, CollectorTable)| <= MaxCollectors
  {
    var before := GetTable(db, CollectorTable);
    assert |before.Keys| == |before|;
    if AddCollector(db, name, ip, port, isIp).Ok? {
      var after := GetTable(AddCollector(db, name, ip, port, isIp).value, CollectorTable);
      assert |after.Keys| == |after|;
      if Name(name) in before {
        assert before.Keys + {Name(name)} == before.Keys;
      } else {
        assert |before| < MaxCollectors;
        assert |before.Keys + {Name(name)}| == |before.Keys| + 1;
      }
    }
    if DelCollector(db, name).Ok? {
      var after := GetTable(DelCollector(db, name).value, CollectorTable);
      assert |after.Keys| == |after|;
      assert |before.Keys - {Name(name)}| <= |before.Keys|;
    }
  }

  /** Re-adding a configured collector only updates it, even at the limit. */
  lemma CollectorUpdateAtLimit(db: Db, name: string, ip: string, port: int, isIp: string -> bool)
    requires Name(name) in GetTable(db, CollectorTable)
    requires IsValidCollectorInfo(name, port, isIp(Lower(ip)))
    ensures AddCollector(db, name, ip, port, isIp).Ok?
    ensures |GetTable(AddCollector(db, name, ip, port, isIp).value, CollectorTable)| == |GetTable(db, CollectorTable)|
  {
    var before := GetTable(db, CollectorTable);
    var after := GetTable(AddCollector(db, name, ip, port, isIp).value, CollectorTable);
    assert before.Keys + {Name(name)} == before.Keys;
    assert |after.Keys| == |after| && |before.Keys| == |before|;
  }

  // ---------------------------------------------------------------------------
  // Agent id

  /** `config sflow agent-id add <ifname>`: `kernelInterfaces` stands for
      `netifaces.interfaces()`. */
  function AddAgentId(db: Db, ifname: string, kernelInterfaces: seq<string>): (r: Result<Db, SflowError>)
    ensures ifname !in kernelInterfaces ==> r == Err(InvalidInterfaceName)
    ensures r.Ok? <==> ifname in kernelInterfaces && GlobalRowOf(db, "down").Ok? && AgentIdField !in GlobalRowOf(db, "down").value
    ensures r.Ok? ==> FieldIs(GlobalEntry(r.value), AgentIdField, Scalar(ifname))
    ensures r.Ok? ==> forall t, k :: (t, k) != (SflowTable, Name(GlobalRow)) ==> GetEntry(r.value, t, k) == GetEntry(db, t, k)
  {
    if ifname !in kernelInterfaces then Err(InvalidInterfaceName)
    else
      match GlobalRowOf(db, "down")
      case Err(e) => Err(e)
      case Ok(row) =>
        if AgentIdField in row then Err(AgentAlreadyConfigured)
        else SetGlobalField(db, "down", AgentIdField, Scalar(ifname))
  }

  /** `config sflow agent-id del`: the global row is written back without the
      agent id (a replacing write, not a merge). */
  function DelAgentId(db: Db): (r: Result<Db, SflowError>)
    ensures r.Ok? <==> GlobalRowOf(db, "down").Ok? && AgentIdField in GlobalRowOf(db, "down").value
    ensures r.Ok? ==> GlobalEntry(r.value) == GlobalEntry(db) - {AgentIdField}
    ensures r.Ok? ==> forall t, k :: (t, k) != (SflowTable, Name(GlobalRow)) ==> GetEntry(r.value, t, k) == GetEntry(db, t, k)
  {
    match GlobalRowOf(db, "down")
    case Err(e) => Err(e)
    case Ok(row) =>
      if AgentIdField !in row then Err(AgentNotConfigured)
      else Ok(SetEntry(db, SflowTable, Name(GlobalRow), Some(row - {AgentIdField})))
  }

  /** Deleting the agent id just added gives back the global row as it was
      read (on an empty table, the `{admin_state: down}` row it started as). */
  lemma DelAfterAddAgentId(db: Db, ifname: string, kernelInterfaces: seq<string>)
    requires AddAgentId(db, ifname, kernelInterfaces).Ok?
    ensures DelAgentId(AddAgentId(db, ifname, kernelInterfaces).value).Ok?
    ensures GlobalEntry(DelAgentId(AddAgentId(db, ifname, kernelInterfaces).value).value) == GlobalRowOf(db, "down").value
  {
    var added := AddAgentId(db, ifname, kernelInterfaces).value;
    GlobalAfterSet(db, "down", AgentIdField, Scalar(ifname));
    var row := GlobalRowOf(db, "down").value;
    assert GlobalEntry(added) == row[AgentIdField := Scalar(ifname)];
    assert Name(GlobalRow) in GetTable(added, SflowTable);
    assert row[AgentIdField := Scalar(ifname)] - {AgentIdField} == row;
  }
}
