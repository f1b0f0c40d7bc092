/** Interface names: the table an interface's configuration lives in, the
    translation between default port names and their aliases (the PORT table),
    and the selection of an interface's address keys. */
module Interfaces {
  import opened Common
  import opened ConfigDb

  const SubInterfaceSeparator: char := '.'

  /** One row of the PORT table, in the order the table is iterated. `alias` is
      `None` when the row has no `alias` field. */
  datatype Port = Port(name: string, alias: Option<string>)

  datatype PortError =
    | PortTableEmpty              // "port_dict is None!" followed by an abort
    | AliasFieldMissing(port: string)  // `port_dict[port]['alias']` raises KeyError

  // ---------------------------------------------------------------------------
  // get_interface_table_name

  /** The table holding the configuration of `name`, chosen by its prefix; a
      name with a `.` under the Ethernet or PortChannel prefix is a sub-interface. */
  function InterfaceTableName(name: string): (r: string)
    ensures StartsWith(name, "Ethernet") ==>
      r == (if SubInterfaceSeparator in name then "VLAN_SUB_INTERFACE" else "INTERFACE")
    ensures StartsWith(name, "PortChannel") ==>
      r == (if SubInterfaceSeparator in name then "VLAN_SUB_INTERFACE" else "PORTCHANNEL_INTERFACE")
    ensures StartsWith(name, "Vlan") ==> r == "VLAN_INTERFACE"
    ensures StartsWith(name, "Loopback") ==> r == "LOOPBACK_INTERFACE"
    ensures r == "" <==>
      !StartsWith(name, "Ethernet") && !StartsWith(name, "PortChannel") &&
      !StartsWith(name, "Vlan") && !StartsWith(name, "Loopback")
  {
    // The four prefixes differ in their first letter, so at most one applies.
    assert StartsWith(name, "Ethernet") ==> name[0] == 'E';
    assert StartsWith(name, "PortChannel") ==> name[0] == 'P';
    assert StartsWith(name, "Vlan") ==> name[0] == 'V';
    assert StartsWith(name, "Loopback") ==> name[0] == 'L';
    if StartsWith(name, "Ethernet") then
      (if SubInterfaceSeparator in name then "VLAN_SUB_INTERFACE" else "INTERFACE")
    else if StartsWith(name, "PortChannel") then
      (if SubInterfaceSeparator in name then "VLAN_SUB_INTERFACE" else "PORTCHANNEL_INTERFACE")
    else if StartsWith(name, "Vlan") then "VLAN_INTERFACE"
    else if StartsWith(name, "Loopback") then "LOOPBACK_INTERFACE"
    else ""
  }

  /** A name that is given a table is at least as long as the shortest prefix. */
  lemma TableNameMeansLongName(name: string)
    requires InterfaceTableName(name) != ""
    ensures |name| >= 4
  {
  }

  // ---------------------------------------------------------------------------
  // interface_alias_to_name

  /** The part of `alias` before its first `.` (all of it when there is none). */
  function ParentName(alias: string): (r: string)
    ensures SubInterfaceSeparator !in r
  {
    var i := Find(alias, SubInterfaceSeparator);
    if i == -1 then alias else alias[..i]
  }

  /** The `.vlan` suffix of a sub-interface name, separator included ("" when none). */
  function SubSuffix(alias: string): string {
    var i := Find(alias, SubInterfaceSeparator);
    if i == -1 then "" else alias[i..]
  }

  /** Splitting at the first `.` and re-attaching the suffix is the identity. */
  lemma SplitRejoin(alias: string)
    ensures ParentName(alias) + SubSuffix(alias) == alias
    ensures SubSuffix(alias) == "" <==> SubInterfaceSeparator !in alias
  {
    var i := Find(alias, SubInterfaceSeparator);
    if i != -1 {
      assert alias[..i] + alias[i..] == alias;
    }
  }

  /** The first port whose alias is `alias`; reading a port without an alias
      field before that is a KeyError. */
  function PortWithAlias(ports: seq<Port>, alias: string): (r: Result<Option<string>, PortError>)
    ensures r == Ok(None) <==>
      forall i :: 0 <= i < |ports| ==> ports[i].alias.Some? && ports[i].alias.value != alias
    ensures r.Ok? && r.value.Some? ==>
      exists i :: 0 <= i < |ports| && ports[i].name == r.value.value && ports[i].alias == Some(alias) &&
        forall j :: 0 <= j < i ==> ports[j].alias.Some? && ports[j].alias.value != alias
    ensures r.Err? ==>
      exists i :: 0 <= i < |ports| && r.error == AliasFieldMissing(ports[i].name) && ports[i].alias.None? &&
        forall j :: 0 <= j < i ==> ports[j].alias.Some? && ports[j].alias.value != alias
  {
    if ports == [] then Ok(None)
    else if ports[0].alias.None? then Err(AliasFieldMissing(ports[0].name))
    else if ports[0].alias.value == alias then Ok(Some(ports[0].name))
    else
      var r := PortWithAlias(ports[1..], alias);
      assert forall i :: 1 <= i < |ports| ==> ports[i] == ports[1..][i - 1];
      r
  }

  /** Translates an alias (or a sub-interface `alias.vlan`) to the default port
      name, keeping the `.vlan` suffix; an unknown name is returned unchanged. */
  function InterfaceAliasToName(alias: Option<string>, ports: seq<Port>): (r: Result<Option<string>, PortError>)
    ensures alias.None? ==> r == Ok(None)
    ensures alias.Some? && ports == [] ==> r == Err(PortTableEmpty)
    ensures alias.Some? && r.Ok? ==> r.value.Some?
    ensures alias.Some? && ports != [] && PortWithAlias(ports, ParentName(alias.value)) == Ok(None) ==>
      r == Ok(alias)
    ensures alias.Some? && ports != [] &&
      PortWithAlias(ports, ParentName(alias.value)).Ok? && PortWithAlias(ports, ParentName(alias.value)).value.Some?
      ==> r == Ok(Some(PortWithAlias(ports, ParentName(alias.value)).value.value + SubSuffix(alias.value)))
    ensures alias.Some? && ports != [] && PortWithAlias(ports, ParentName(alias.value)).Err? ==>
      r == Err(PortWithAlias(ports, ParentName(alias.value)).error)
  {
    match alias
    case None => Ok(None)
    case Some(a) =>
      var parent := ParentName(a);
      if ports == [] then Err(PortTableEmpty)
      else
        match PortWithAlias(ports, parent)
        case Err(e) => Err(e)
        case Ok(Some(port)) => Ok(Some(port + SubSuffix(a)))
        case Ok(None) =>
          SplitRejoin(a);
          Ok(Some(parent + SubSuffix(a)))
  }

  // ---------------------------------------------------------------------------
  // interface_name_to_alias

  /** The alias of the first port named `name`, `None` when there is none. */
  function AliasOfPort(ports: seq<Port>, name: string): (r: Result<Option<string>, PortError>)
    ensures r == Ok(None) <==> forall i :: 0 <= i < |ports| ==> ports[i].name != name
    ensures r.Ok? && r.value.Some? ==>
      exists i :: 0 <= i < |ports| && ports[i].name == name && ports[i].alias == r.value &&
        forall j :: 0 <= j < i ==> ports[j].name != name
    ensures r.Err? ==> r == Err(AliasFieldMissing(name))
    ensures r.Err? ==> exists i :: 0 <= i < |ports| && ports[i].name == name && ports[i].alias.None?
  {
    if ports == [] then Ok(None)
    else if ports[0].name == name then
      (if ports[0].alias.None? then Err(AliasFieldMissing(name)) else Ok(ports[0].alias))
    else
      var r := AliasOfPort(ports[1..], name);
      assert forall i :: 1 <= i < |ports| ==> ports[i] == ports[1..][i - 1];
      r
  }

  /** Translates a default port name to its alias; `None` for a name that is not a port. */
  function InterfaceNameToAlias(name: Option<string>, ports: seq<Port>): (r: Result<Option<string>, PortError>)
    ensures name.None? ==> r == Ok(None)
    ensures name.Some? && ports == [] ==> r == Err(PortTableEmpty)
    ensures name.Some? && ports != [] ==> r == AliasOfPort(ports, name.value)
  {
    match name
    case None => Ok(None)
    case Some(n) => if ports == [] then Err(PortTableEmpty) else AliasOfPort(ports, n)
  }

  /** Port names are unique: they are the keys of the PORT table. */
  ghost predicate DistinctNames(ports: seq<Port>) {
    forall i, j :: 0 <= i < j < |ports| ==> ports[i].name != ports[j].name
  }

  /** On a table whose ports all have aliases, translating an alias to its name
      and back gives the alias again. */
  lemma AliasRoundTrip(ports: seq<Port>, alias: string, k: nat)
    requires DistinctNames(ports)
    requires forall i :: 0 <= i < |ports| ==> ports[i].alias.Some?
    requires k < |ports| && ports[k].alias == Some(alias)
    requires SubInterfaceSeparator !in alias
    ensures InterfaceAliasToName(Some(alias), ports).Ok?
    ensures InterfaceNameToAlias(InterfaceAliasToName(Some(alias), ports).value, ports) == Ok(Some(alias))
  {
    assert ParentName(alias) == alias && SubSuffix(alias) == "";
    var found := PortWithAlias(ports, alias);
    assert found != Ok(None);
    assert found.Ok? && found.value.Some?;
    var i :| 0 <= i < |ports| && ports[i].name == found.value.value && ports[i].alias == Some(alias);
    assert ports[i].name + SubSuffix(alias) == ports[i].name;
    assert InterfaceAliasToName(Some(alias), ports) == Ok(Some(ports[i].name));
    var back := AliasOfPort(ports, ports[i].name);
    assert back != Ok(None);
    assert back.Ok?;
    var j :| 0 <= j < |ports| && ports[j].name == ports[i].name && ports[j].alias == back.value;
    assert i == j;
  }

  // ---------------------------------------------------------------------------
  // interface_ipaddr_dependent_on_interface

  /** Python `name in key` for a key read back from the database. */
  predicate KeyMentions(key: Key, name: string) {
    match key
    case Pair(a, b) => name == a || name == b
    case Name(s) => IsSubstring(name, s)
  }

  /** Python `len(key)`. */
  function KeyLen(key: Key): nat {
    match key
    case Pair(_, _) => 2
    case Name(s) => |s|
  }

  predicate IsAddressKey(key: Key, name: string) {
    KeyMentions(key, name) && KeyLen(key) == 2
  }

  /** The keys of `keys` that are address keys of `name`, in order. */
  function AddressKeys(keys: seq<Key>, name: string): seq<Key> {
    if keys == [] then []
    else (if IsAddressKey(keys[0], name) then [keys[0]] else []) + AddressKeys(keys[1..], name)
  }

  lemma {:induction false} AddressKeysMembers(keys: seq<Key>, name: string)
    ensures forall k :: k in AddressKeys(keys, name) <==> k in keys && IsAddressKey(k, name)
  {
    if keys != [] {
      AddressKeysMembers(keys[1..], name);
      assert keys == [keys[0]] + keys[1..];
    }
  }

  lemma {:induction false} AddressKeysSnoc(keys: seq<Key>, k: Key, name: string)
    ensures AddressKeys(keys + [k], name) == AddressKeys(keys, name) + (if IsAddressKey(k, name) then [k] else [])
  {
    if keys != [] {
      assert (keys + [k])[1..] == keys[1..] + [k];
      AddressKeysSnoc(keys[1..], k, name);
    }
  }

  /** The address keys of an interface: the keys of its interface table that
      mention it and have length two. `getKeys` stands for the connector's
      `get_keys`. */
  method InterfaceAddressKeys(getKeys: string -> seq<Key>, name: string) returns (data: seq<Key>)
    ensures InterfaceTableName(name) == "" ==> data == []
    ensures InterfaceTableName(name) != "" ==> data == AddressKeys(getKeys(InterfaceTableName(name)), name)
  {
    data := [];
    var tableName := InterfaceTableName(name);
    if tableName == "" {
      return;
    }
    var keys := getKeys(tableName);
    var i := 0;
    while i < |keys|
      invariant 0 <= i <= |keys|
      invariant data == AddressKeys(keys[..i], name)
    {
      AddressKeysSnoc(keys[..i], keys[i], name);
      assert keys[..i + 1] == keys[..i] + [keys[i]];
      if KeyMentions(keys[i], name) && KeyLen(keys[i]) == 2 {
        data := data + [keys[i]];
      }
      i := i + 1;
    }
    assert keys[..i] == keys;
  }

  /** The selected keys exist in the table, and each is a two-part key that has
      the interface as one of its parts: a plain key would have to be a
      two-character string containing the whole name. */
  lemma AddressKeysArePairs(keys: seq<Key>, name: string)
    requires InterfaceTableName(name) != ""
    ensures forall k :: k in AddressKeys(keys, name) ==> k in keys && k.Pair? && (k.first == name || k.second == name)
  {
    AddressKeysMembers(keys, name);
    TableNameMeansLongName(name);
    forall k | k in AddressKeys(keys, name)
      ensures k.Pair?
    {
      if k.Name? {
        SubstringNotLonger(name, k.name);
      }
    }
  }
}
