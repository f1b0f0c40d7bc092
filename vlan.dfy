/** The VLAN commands: creating and deleting a VLAN, adding and removing its
    member ports, and adding and removing its DHCP relay destinations. Each
    command reads the database, edits one VLAN entry's `members` or
    `dhcp_servers` list and writes the entry back. In alias naming mode the
    interface argument is first translated through the PORT table, given here
    as `ports`. */
module Vlan {
  import opened Common
  import opened ConfigDb
  import opened Interfaces

  const VlanTable: string := "VLAN"
  const VlanMemberTable: string := "VLAN_MEMBER"
  const InterfaceTable: string := "INTERFACE"
  const MembersField: string := "members"
  const DhcpServersField: string := "dhcp_servers"
  const VlanIdField: string := "vlanid"
  const TaggingModeField: string := "tagging_mode"

  datatype VlanError =
    | InvalidVlanId(vid: int)              // "Invalid VLAN ID {} (1-4094)"
    | VlanExists(vlan: string)             // "{} already exists"
    | NoSuchVlan(vlan: string)             // "{} doesn't exist"
    | AliasLookupFailed(cause: PortError)  // the alias translation aborts
    | NameIsNone                           // "'interface_name' is None!"
    | AlreadyMember(iface: string, vlan: string)
    | NotMember(iface: string, vlan: string)
    | L3Interface(iface: string)           // "{} is a L3 interface!"
    | MalformedMemberKey(key: Key)         // unpacking a VLAN_MEMBER key into two parts fails
    | InvalidIp                            // "Invalid IP address"
    | NotRelayDestination(ip: string, vlan: string)

  /** `'Vlan{}'.format(vid)`. */
  function VlanName(vid: int): string {
    "Vlan" + IntToString(vid)
  }

  function VlanEntry(db: Db, vid: int): Entry {
    GetEntry(db, VlanTable, Name(VlanName(vid)))
  }

  /** `vlan.get('members', [])`. */
  function Members(db: Db, vid: int): seq<string> {
    ListField(VlanEntry(db, vid), MembersField)
  }

  /** `vlan.get('dhcp_servers', [])`. */
  function RelayDestinations(db: Db, vid: int): seq<string> {
    ListField(VlanEntry(db, vid), DhcpServersField)
  }

  /** Only the VLAN entry (and the one VLAN_MEMBER entry `member`, when given)
      differ between the two databases. */
  ghost predicate OnlyVlanChanged(db: Db, r: Db, vid: int, member: Option<Key>) {
    forall t, k :: (t, k) != (VlanTable, Name(VlanName(vid))) && !(member.Some? && (t, k) == (VlanMemberTable, member.value)) ==>
      GetEntry(r, t, k) == GetEntry(db, t, k)
  }

  /** The fields of the VLAN entry other than `field` keep their values. */
  predicate OtherFieldsKept(db: Db, r: Db, vid: int, field: string) {
    SameOtherFields(VlanEntry(db, vid), VlanEntry(r, vid), field)
  }

  // ---------------------------------------------------------------------------
  // add_vlan / del_vlan

  /** `config vlan add <vid>`. */
  function AddVlan(db: Db, vid: int): (r: Result<Db, VlanError>)
    ensures r.Ok? <==> 1 <= vid <= 4094 && VlanEntry(db, vid) == map[]
    ensures !(1 <= vid <= 4094) ==> r == Err(InvalidVlanId(vid))
    ensures 1 <= vid <= 4094 && VlanEntry(db, vid) != map[] ==> r == Err(VlanExists(VlanName(vid)))
    ensures r.Ok? ==> VlanEntry(r.value, vid) == map[VlanIdField := Scalar(IntToString(vid))]
    ensures r.Ok? ==> OnlyVlanChanged(db, r.value, vid, None)
  {
    if 1 <= vid <= 4094 then
      if |VlanEntry(db, vid)| != 0 then Err(VlanExists(VlanName(vid)))
      else Ok(SetEntry(db, VlanTable, Name(VlanName(vid)), Some(map[VlanIdField := Scalar(IntToString(vid))])))
    else Err(InvalidVlanId(vid))
  }

  /** A VLAN_MEMBER key `del_vlan` selects: the unpacked first part names the VLAN. */
  predicate BelongsTo(k: Key, vlanName: string) {
    k.Pair? && k.first == vlanName
  }

  /** A key that does not unpack into two parts: a plain name is unpacked
      character by character, so only names of length two succeed. */
  predicate Malformed(k: Key) {
    k.Name? && |k.name| != 2
  }

  /** The database after `del_vlan`: the VLAN's member entries and the VLAN
      entry are gone. */
  function WithoutVlan(db: Db, vid: int): Db {
    var members := GetTable(db, VlanMemberTable);
    var kept := map k | k in members && !BelongsTo(k, VlanName(vid)) :: members[k];
    SetEntry(db[VlanMemberTable := kept], VlanTable, Name(VlanName(vid)), None)
  }

  /** `config vlan del <vid>`: every VLAN_MEMBER key of the VLAN is collected
      first, then each is deleted, then the VLAN entry. */
  method DelVlan(db: Db, vid: int) returns (r: Result<Db, VlanError>)
    ensures (exists k :: k in GetTable(db, VlanMemberTable) && Malformed(k)) <==> r.Err?
    ensures r.Err? ==> r.error.MalformedMemberKey? && r.error.key in GetTable(db, VlanMemberTable) && Malformed(r.error.key)
    ensures r.Ok? ==> SameEntries(r.value, WithoutVlan(db, vid))
  {
    var vlanName := VlanName(vid);
    var table := GetTable(db, VlanMemberTable);
    // The list comprehension: unpack every key, keep those of this VLAN.
    var unseen := table.Keys;
    var keys: set<Key> := {};
    while unseen != {}
      invariant unseen <= table.Keys
      invariant forall k :: k in table.Keys - unseen ==> !Malformed(k)
      invariant keys == set k | k in table.Keys - unseen && BelongsTo(k, vlanName)
      decreases |unseen|
    {
      var k :| k in unseen;
      if Malformed(k) {
        return Err(MalformedMemberKey(k));
      }
      if BelongsTo(k, vlanName) {
        keys := keys + {k};
      }
      unseen := unseen - {k};
    }
    var out := db;
    var todo := keys;
    while todo != {}
      invariant todo <= keys
      invariant forall t, k :: GetEntry(out, t, k) == (if t == VlanMemberTable && k in keys - todo then map[] else GetEntry(db, t, k))
      decreases |todo|
    {
      var k :| k in todo;
      out := SetEntry(out, VlanMemberTable, k, None);
      todo := todo - {k};
    }
    assert forall k :: k in table ==> !Malformed(k);
    out := SetEntry(out, VlanTable, Name(vlanName), None);
    WithoutVlanEffect(db, vid);
    forall t, k
      ensures GetEntry(out, t, k) == GetEntry(WithoutVlan(db, vid), t, k)
    {
      if t == VlanMemberTable && BelongsTo(k, vlanName) && k !in keys {
        assert k !in table;
      }
    }
    return Ok(out);
  }

  /** Deleting a VLAN removes exactly its entry and its members' entries. */
  lemma WithoutVlanEffect(db: Db, vid: int)
    ensures VlanEntry(WithoutVlan(db, vid), vid) == map[]
    ensures forall k :: BelongsTo(k, VlanName(vid)) ==> GetEntry(WithoutVlan(db, vid), VlanMemberTable, k) == map[]
    ensures forall t, k :: (t, k) != (VlanTable, Name(VlanName(vid))) && !(t == VlanMemberTable && BelongsTo(k, VlanName(vid))) ==>
      GetEntry(WithoutVlan(db, vid), t, k) == GetEntry(db, t, k)
  {
  }

  /** A VLAN just added has no members, so deleting it gives back the database. */
  lemma DelAfterAddVlan(db: Db, vid: int)
    requires AddVlan(db, vid).Ok?
    requires forall k :: k in GetTable(db, VlanMemberTable) ==> !BelongsTo(k, VlanName(vid))
    ensures SameEntries(WithoutVlan(AddVlan(db, vid).value, vid), db)
  {
    var added := AddVlan(db, vid).value;
    WithoutVlanEffect(added, vid);
    forall t, k
      ensures GetEntry(WithoutVlan(added, vid), t, k) == GetEntry(db, t, k)
    {
      if t == VlanMemberTable && BelongsTo(k, VlanName(vid)) {
        assert k !in GetTable(db, VlanMemberTable);
      }
    }
  }

  // ---------------------------------------------------------------------------
  // add_vlan_member / del_vlan_member

  /** The interface argument as a default name: translated in alias mode. */
  function ResolveName(iface: string, aliasMode: bool, ports: seq<Port>): Result<string, VlanError> {
    if !aliasMode then Ok(iface)
    else
      match InterfaceAliasToName(Some(iface), ports)
      case Err(e) => Err(AliasLookupFailed(e))
      case Ok(None) => Err(NameIsNone)
      case Ok(Some(n)) => Ok(n)
  }

  /** The name shown in an error message: translated back in alias mode. */
  function DisplayName(name: string, aliasMode: bool, ports: seq<Port>): Result<string, VlanError> {
    if !aliasMode then Ok(name)
    else
      match InterfaceNameToAlias(Some(name), ports)
      case Err(e) => Err(AliasLookupFailed(e))
      case Ok(None) => Err(NameIsNone)
      case Ok(Some(a)) => Ok(a)
  }

  /** The membership error, as reported: the display name, or the failure to
      compute it. */
  function MembershipError(name: string, vid: int, aliasMode: bool, ports: seq<Port>, member: bool): VlanError {
    match DisplayName(name, aliasMode, ports)
    case Err(e) => e
    case Ok(shown) => if member then AlreadyMember(shown, VlanName(vid)) else NotMember(shown, VlanName(vid))
  }

  /** `interface_name == entry[0]` for a key of the INTERFACE table: the first
      part of a two-part key, or the first character of a plain one. */
  predicate IsL3Key(k: Key, name: string) {
    match k
    case Pair(first, _) => name == first
    case Name(n) => n != "" && name == [n[0]]
  }

  ghost predicate IsL3(db: Db, name: string) {
    exists k :: k in GetTable(db, InterfaceTable) && IsL3Key(k, name)
  }

  function TaggingMode(untagged: bool): Entry {
    map[TaggingModeField := Scalar(if untagged then "untagged" else "tagged")]
  }

  /** The database after a successful `add_vlan_member`. */
  function WithMember(db: Db, vid: int, name: string, untagged: bool): Db {
    var vlan := AppendItem(VlanEntry(db, vid), MembersField, name);
    var db1 := SetEntry(db, VlanTable, Name(VlanName(vid)), Some(vlan));
    SetEntry(db1, VlanMemberTable, Pair(VlanName(vid), name), Some(TaggingMode(untagged)))
  }

  /** The outcome of `config vlan member add`. */
  ghost function AddMemberOutcome(db: Db, vid: int, iface: string, untagged: bool, aliasMode: bool, ports: seq<Port>): Result<Db, VlanError> {
    match ResolveName(iface, aliasMode, ports)
    case Err(e) => Err(e)
    case Ok(name) =>
      if |VlanEntry(db, vid)| == 0 then Err(NoSuchVlan(VlanName(vid)))
      else if name in Members(db, vid) then Err(MembershipError(name, vid, aliasMode, ports, true))
      else if IsL3(db, name) then Err(L3Interface(name))
      else Ok(WithMember(db, vid, name, untagged))
  }

  /** `config vlan member add <vid> <interface_name> [--untagged]`. */
  method AddVlanMember(db: Db, vid: int, iface: string, untagged: bool, aliasMode: bool, ports: seq<Port>)
    returns (r: Result<Db, VlanError>)
    ensures r == AddMemberOutcome(db, vid, iface, untagged, aliasMode, ports)
  {
    var vlanName := VlanName(vid);
    var vlan := GetEntry(db, VlanTable, Name(vlanName));
    var interfaceTable := GetTable(db, InterfaceTable);
    var resolved := ResolveName(iface, aliasMode, ports);
    if resolved.Err? {
      return Err(resolved.error);
    }
    var name := resolved.value;
    if |vlan| == 0 {
      return Err(NoSuchVlan(vlanName));
    }
    var members := ListField(vlan, MembersField);
    if name in members {
      return Err(MembershipError(name, vid, aliasMode, ports, true));
    }
    var unseen := interfaceTable.Keys;
    while unseen != {}
      invariant unseen <= interfaceTable.Keys
      invariant forall k :: k in interfaceTable.Keys - unseen ==> !IsL3Key(k, name)
      decreases |unseen|
    {
      var entry :| entry in unseen;
      if IsL3Key(entry, name) {
        return Err(L3Interface(name));
      }
      unseen := unseen - {entry};
    }
    members := members + [name];
    vlan := vlan[MembersField := List(members)];
    var out := SetEntry(db, VlanTable, Name(vlanName), Some(vlan));
    out := SetEntry(out, VlanMemberTable, Pair(vlanName, name), Some(TaggingMode(untagged)));
    return Ok(out);
  }

  /** The add succeeds exactly when the VLAN exists and the interface is neither
      a member nor an L3 interface; then the members list gains that one name at
      its end, the member entry records the tagging mode, and nothing else
      changes. */
  lemma AddMemberEffect(db: Db, vid: int, iface: string, untagged: bool, aliasMode: bool, ports: seq<Port>)
    ensures var r := AddMemberOutcome(db, vid, iface, untagged, aliasMode, ports);
      r.Ok? <==>
        && ResolveName(iface, aliasMode, ports).Ok?
        && VlanEntry(db, vid) != map[]
        && ResolveName(iface, aliasMode, ports).value !in Members(db, vid)
        && !IsL3(db, ResolveName(iface, aliasMode, ports).value)
    ensures var r := AddMemberOutcome(db, vid, iface, untagged, aliasMode, ports);
      r.Ok? ==>
        var name := ResolveName(iface, aliasMode, ports).value;
        && Members(r.value, vid) == Members(db, vid) + [name]
        && GetEntry(r.value, VlanMemberTable, Pair(VlanName(vid), name)) == TaggingMode(untagged)
        && OtherFieldsKept(db, r.value, vid, MembersField)
        && OnlyVlanChanged(db, r.value, vid, Some(Pair(VlanName(vid), name)))
  {
  }

  /** The database after a successful `del_vlan_member`. */
  function WithoutMember(db: Db, vid: int, name: string): Db
    requires name in Members(db, vid)
  {
    var vlan := RemoveItem(VlanEntry(db, vid), MembersField, name);
    var db1 := SetEntry(db, VlanTable, Name(VlanName(vid)), Some(vlan));
    SetEntry(db1, VlanMemberTable, Pair(VlanName(vid), name), None)
  }

  /** `config vlan member del <vid> <interface_name>`. */
  function DelVlanMember(db: Db, vid: int, iface: string, aliasMode: bool, ports: seq<Port>): (r: Result<Db, VlanError>)
    ensures r.Ok? <==>
      && ResolveName(iface, aliasMode, ports).Ok?
      && VlanEntry(db, vid) != map[]
      && ResolveName(iface, aliasMode, ports).value in Members(db, vid)
    ensures ResolveName(iface, aliasMode, ports).Ok? && VlanEntry(db, vid) == map[] ==> r == Err(NoSuchVlan(VlanName(vid)))
    ensures r.Ok? ==> r.value == WithoutMember(db, vid, ResolveName(iface, aliasMode, ports).value)
  {
    match ResolveName(iface, aliasMode, ports)
    case Err(e) => Err(e)
    case Ok(name) =>
      if |VlanEntry(db, vid)| == 0 then Err(NoSuchVlan(VlanName(vid)))
      else if name !in Members(db, vid) then Err(MembershipError(name, vid, aliasMode, ports, false))
      else Ok(WithoutMember(db, vid, name))
  }

  /** Deleting a member removes one occurrence of its name from the members
      list, drops the `members` field once the list is empty, deletes the
      member entry and changes nothing else. */
  lemma WithoutMemberEffect(db: Db, vid: int, name: string)
    requires name in Members(db, vid)
    ensures var r := WithoutMember(db, vid, name);
      && multiset(Members(r, vid)) == multiset(Members(db, vid)) - multiset{name}
      && (Members(db, vid) == [name] ==> MembersField !in VlanEntry(r, vid))
      && GetEntry(r, VlanMemberTable, Pair(VlanName(vid), name)) == map[]
      && OtherFieldsKept(db, r, vid, MembersField)
      && OnlyVlanChanged(db, r, vid, Some(Pair(VlanName(vid), name)))
  {
    var vlan := RemoveItem(VlanEntry(db, vid), MembersField, name);
    var db1 := SetEntry(db, VlanTable, Name(VlanName(vid)), Some(vlan));
    var r := SetEntry(db1, VlanMemberTable, Pair(VlanName(vid), name), None);
    assert WithoutMember(db, vid, name) == r;
    assert VlanEntry(r, vid) == VlanEntry(db1, vid) == vlan;
  }

  /** Removing drops the first occurrence of the name, keeping the order of the
      others. */
  lemma DelMemberOrder(db: Db, vid: int, name: string, i: nat)
    requires i < |Members(db, vid)| && Members(db, vid)[i] == name && name !in Members(db, vid)[..i]
    ensures Members(WithoutMember(db, vid, name), vid) == Members(db, vid)[..i] + Members(db, vid)[i + 1..]
  {
    RemoveFirstAt(Members(db, vid), name, i);
  }

  /** Adding a port and deleting it again gives back the database, when its
      members field was a non-empty list or absent and the member entry was
      absent. */
  lemma DelAfterAddMember(db: Db, vid: int, name: string, untagged: bool)
    requires VlanEntry(db, vid) != map[] && name !in Members(db, vid)
    requires MembersField in VlanEntry(db, vid) ==>
      VlanEntry(db, vid)[MembersField].List? && VlanEntry(db, vid)[MembersField].items != []
    requires Pair(VlanName(vid), name) !in GetTable(db, VlanMemberTable)
    ensures name in Members(WithMember(db, vid, name, untagged), vid)
    ensures SameEntries(WithoutMember(WithMember(db, vid, name, untagged), vid, name), db)
  {
    RemoveAppended(VlanEntry(db, vid), MembersField, name);
    var added := WithMember(db, vid, name, untagged);
    var back := WithoutMember(added, vid, name);
    assert VlanEntry(back, vid) == VlanEntry(db, vid);
    assert GetEntry(back, VlanMemberTable, Pair(VlanName(vid), name)) == GetEntry(db, VlanMemberTable, Pair(VlanName(vid), name));
  }

  // ---------------------------------------------------------------------------
  // DHCP relay destinations

  /** `config vlan dhcp_relay add <vid> <ip>`; `validIp` is the address check. */
  function AddDhcpRelay(db: Db, vid: int, ip: string, validIp: bool): (r: Result<Db, VlanError>)
    ensures !validIp ==> r == Err(InvalidIp)
    ensures validIp && VlanEntry(db, vid) == map[] ==> r == Err(NoSuchVlan(VlanName(vid)))
    ensures r.Ok? <==> validIp && VlanEntry(db, vid) != map[]
    ensures r.Ok? && ip in RelayDestinations(db, vid) ==> r.value == db
    ensures r.Ok? && ip !in RelayDestinations(db, vid) ==>
      && RelayDestinations(r.value, vid) == RelayDestinations(db, vid) + [ip]
      && OtherFieldsKept(db, r.value, vid, DhcpServersField)
      && OnlyVlanChanged(db, r.value, vid, None)
  {
    if !validIp then Err(InvalidIp)
    else if |VlanEntry(db, vid)| == 0 then Err(NoSuchVlan(VlanName(vid)))
    else if ip in RelayDestinations(db, vid) then Ok(db)
    else
      var vlan := AppendItem(VlanEntry(db, vid), DhcpServersField, ip);
      Ok(SetEntry(db, VlanTable, Name(VlanName(vid)), Some(vlan)))
  }

  /** `config vlan dhcp_relay del <vid> <ip>`. */
  function DelDhcpRelay(db: Db, vid: int, ip: string, validIp: bool): (r: Result<Db, VlanError>)
    ensures !validIp ==> r == Err(InvalidIp)
    ensures validIp && VlanEntry(db, vid) == map[] ==> r == Err(NoSuchVlan(VlanName(vid)))
    ensures validIp && VlanEntry(db, vid) != map[] && ip !in RelayDestinations(db, vid) ==>
      r == Err(NotRelayDestination(ip, VlanName(vid)))
    ensures r.Ok? <==> validIp && VlanEntry(db, vid) != map[] && ip in RelayDestinations(db, vid)
    ensures r.Ok? ==>
      && multiset(RelayDestinations(r.value, vid)) == multiset(RelayDestinations(db, vid)) - multiset{ip}
      && (RelayDestinations(db, vid) == [ip] ==> DhcpServersField !in VlanEntry(r.value, vid))
      && OtherFieldsKept(db, r.value, vid, DhcpServersField)
      && OnlyVlanChanged(db, r.value, vid, None)
  {
    if !validIp then Err(InvalidIp)
    else if |VlanEntry(db, vid)| == 0 then Err(NoSuchVlan(VlanName(vid)))
    else if ip in RelayDestinations(db, vid) then
      var vlan := RemoveItem(VlanEntry(db, vid), DhcpServersField, ip);
      Ok(SetEntry(db, VlanTable, Name(VlanName(vid)), Some(vlan)))
    else Err(NotRelayDestination(ip, VlanName(vid)))
  }

  /** Adding a destination twice is the same as adding it once. */
  lemma AddDhcpRelayIdempotent(db: Db, vid: int, ip: string)
    requires AddDhcpRelay(db, vid, ip, true).Ok?
    ensures AddDhcpRelay(AddDhcpRelay(db, vid, ip, true).value, vid, ip, true) == AddDhcpRelay(db, vid, ip, true)
  {
    var once := AddDhcpRelay(db, vid, ip, true).value;
    assert ip in RelayDestinations(once, vid);
    assert VlanEntry(once, vid) != map[] by {
      assert DhcpServersField in VlanEntry(once, vid);
    }
  }

  /** Deleting a destination just added gives back the database, when its
      `dhcp_servers` field was a non-empty list or absent. */
  lemma DelAfterAddDhcpRelay(db: Db, vid: int, ip: string)
    requires AddDhcpRelay(db, vid, ip, true).Ok? && ip !in RelayDestinations(db, vid)
    requires DhcpServersField in VlanEntry(db, vid) ==>
      VlanEntry(db, vid)[DhcpServersField].List? && VlanEntry(db, vid)[DhcpServersField].items != []
    ensures DelDhcpRelay(AddDhcpRelay(db, vid, ip, true).value, vid, ip, true).Ok?
    ensures SameEntries(DelDhcpRelay(AddDhcpRelay(db, vid, ip, true).value, vid, ip, true).value, db)
  {
    RemoveAppended(VlanEntry(db, vid), DhcpServersField, ip);
    var added := AddDhcpRelay(db, vid, ip, true).value;
    var back := DelDhcpRelay(added, vid, ip, true).value;
    assert VlanEntry(back, vid) == VlanEntry(db, vid);
  }
}
