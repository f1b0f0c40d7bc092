/** `config snmpagentaddress add|del`: the listening address of the SNMP agent
    is stored as one key of the SNMP_AGENT_ADDRESS_CONFIG table, formed as
    `<ip>|<port>|<vrf>` with an empty part for an option not given. */
module Snmp {
  import opened Common
  import opened ConfigDb

  const AgentAddressTable: string := "SNMP_AGENT_ADDRESS_CONFIG"
  const KeySeparator: char := '|'

  /** An option's text in the key: an option not given, or given empty, adds
      nothing. */
  function OptionText(o: Option<string>): string {
    if o.Some? && o.value != "" then o.value else ""
  }

  /** The key built by `add_snmp_agent_address` and `del_snmp_agent_address`. */
  function AgentAddressKey(ip: string, port: Option<string>, vrf: Option<string>): (key: string)
    ensures Count(key, KeySeparator) == Count(ip, KeySeparator) + Count(OptionText(port), KeySeparator) + Count(OptionText(vrf), KeySeparator) + 2
  {
    var key := ip + [KeySeparator];
    var key := if port.Some? && port.value != "" then key + port.value else key;
    var key := key + [KeySeparator];
    var key := if vrf.Some? && vrf.value != "" then key + vrf.value else key;
    CountAppend(ip, [KeySeparator], KeySeparator);
    CountAppend(ip + [KeySeparator], OptionText(port), KeySeparator);
    CountAppend(ip + [KeySeparator] + OptionText(port), [KeySeparator], KeySeparator);
    CountAppend(ip + [KeySeparator] + OptionText(port) + [KeySeparator], OptionText(vrf), KeySeparator);
    assert key == ip + [KeySeparator] + OptionText(port) + [KeySeparator] + OptionText(vrf);
    key
  }

  /** When no part contains the separator, the key splits back into its three
      parts: the ip, the port (or empty) and the VRF (or empty). */
  lemma AgentAddressKeySplits(ip: string, port: Option<string>, vrf: Option<string>)
    requires KeySeparator !in ip && KeySeparator !in OptionText(port) && KeySeparator !in OptionText(vrf)
    ensures Split(AgentAddressKey(ip, port, vrf), KeySeparator) == [ip, OptionText(port), OptionText(vrf)]
  {
    var p, v := OptionText(port), OptionText(vrf);
    var parts := [ip, p, v];
    KeyShape(ip, port, vrf);
    JoinThree(ip, p, v, KeySeparator);
    SplitJoin(parts, KeySeparator);
  }

  lemma KeyShape(ip: string, port: Option<string>, vrf: Option<string>)
    ensures AgentAddressKey(ip, port, vrf) == ip + [KeySeparator] + OptionText(port) + [KeySeparator] + OptionText(vrf)
  {
  }

  /** Hence two commands name the same row only when their parts agree. */
  lemma AgentAddressKeyInjective(ip1: string, port1: Option<string>, vrf1: Option<string>,
                                 ip2: string, port2: Option<string>, vrf2: Option<string>)
    requires KeySeparator !in ip1 && KeySeparator !in OptionText(port1) && KeySeparator !in OptionText(vrf1)
    requires KeySeparator !in ip2 && KeySeparator !in OptionText(port2) && KeySeparator !in OptionText(vrf2)
    requires AgentAddressKey(ip1, port1, vrf1) == AgentAddressKey(ip2, port2, vrf2)
    ensures ip1 == ip2 && OptionText(port1) == OptionText(port2) && OptionText(vrf1) == OptionText(vrf2)
  {
    AgentAddressKeySplits(ip1, port1, vrf1);
    AgentAddressKeySplits(ip2, port2, vrf2);
    var s1 := Split(AgentAddressKey(ip1, port1, vrf1), KeySeparator);
    assert s1[0] == ip1 && s1[1] == OptionText(port1) && s1[2] == OptionText(vrf1);
  }

  /** `config snmpagentaddress add <ip> [-p port] [-v vrf]`: an empty row. */
  function AddAgentAddress(db: Db, ip: string, port: Option<string>, vrf: Option<string>): (r: Db)
    ensures Name(AgentAddressKey(ip, port, vrf)) in GetTable(r, AgentAddressTable)
    ensures GetEntry(r, AgentAddressTable, Name(AgentAddressKey(ip, port, vrf))) == map[]
    ensures forall t, k :: (t, k) != (AgentAddressTable, Name(AgentAddressKey(ip, port, vrf))) ==> GetEntry(r, t, k) == GetEntry(db, t, k)
  {
    SetEntry(db, AgentAddressTable, Name(AgentAddressKey(ip, port, vrf)), Some(map[]))
  }

  /** `config snmpagentaddress del <ip> [-p port] [-v vrf]`. */
  function DelAgentAddress(db: Db, ip: string, port: Option<string>, vrf: Option<string>): (r: Db)
    ensures Name(AgentAddressKey(ip, port, vrf)) !in GetTable(r, AgentAddressTable)
    ensures GetTable(r, AgentAddressTable).Keys == GetTable(db, AgentAddressTable).Keys - {Name(AgentAddressKey(ip, port, vrf))}
    ensures forall t, k :: (t, k) != (AgentAddressTable, Name(AgentAddressKey(ip, port, vrf))) ==> GetEntry(r, t, k) == GetEntry(db, t, k)
  {
    SetEntry(db, AgentAddressTable, Name(AgentAddressKey(ip, port, vrf)), None)
  }

  /** Deleting with the same arguments undoes an add of a row that was absent. */
  lemma DelAfterAddAgentAddress(db: Db, ip: string, port: Option<string>, vrf: Option<string>)
    requires Name(AgentAddressKey(ip, port, vrf)) !in GetTable(db, AgentAddressTable)
    ensures GetTable(DelAgentAddress(AddAgentAddress(db, ip, port, vrf), ip, port, vrf), AgentAddressTable) ==
      GetTable(db, AgentAddressTable)
  {
    var k := Name(AgentAddressKey(ip, port, vrf));
    var back := GetTable(DelAgentAddress(AddAgentAddress(db, ip, port, vrf), ip, port, vrf), AgentAddressTable);
    assert back.Keys == GetTable(db, AgentAddressTable).Keys;
    forall k' | k' in back
      ensures back[k'] == GetTable(db, AgentAddressTable)[k']
    {
      assert GetEntry(DelAgentAddress(AddAgentAddress(db, ip, port, vrf), ip, port, vrf), AgentAddressTable, k') ==
        GetEntry(db, AgentAddressTable, k');
    }
  }
}
