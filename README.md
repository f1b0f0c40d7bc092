# The decision procedures of the SONiC `config` command

`config/main.py` of sonic-utilities is the `config` command line of a SONiC
switch. Most of it hands work to other programs or to the configuration
database. Inside it, though, are small procedures whose behaviour can be stated
exactly. This project models those procedures in Dafny and proves what they
promise:

- resolving abbreviated sub-commands;
- classifying interface names and translating aliases;
- parsing static-route arguments and building the route command;
- reading the generated-services list, and choosing which services are
  stopped, reset and restarted, and in what order;
- the VLAN, VLAN-member and DHCP-relay edits;
- the VRF, SNMP agent-address, warm-restart and sFlow settings;
- the ports an ACL binds to by default;
- which configuration files `save`, `load` and `reload` use on a single-ASIC
  or multi-ASIC device.

The configuration database is a value: table name → key → field map
(`ConfigDb`). Each command takes the database and returns the new database, or
the error that made it stop. `set_entry` replaces or deletes one entry.
`mod_entry` merges fields into one entry. Where the code iterates over a table
whose order matters (the PORT table, the FEATURE table), the rows are a
sequence. Checks the code delegates to a library become parameters:

- IP address syntax is `validIp` / `isIp`;
- interface validity is `validName`;
- file existence is `isFile`;
- the naming mode is `aliasMode`.

Modules, one file each:

- `Common`: the string and list operations of Python the code relies on:
  `split`, `join`, `find`, `in`, `lower`, `str(int)` and `list.remove`.
- `ConfigDb`: the database, and the list-field append and remove.
- `Abbreviation`: `AbbreviationGroup.get_command`.
- `Interfaces`: interface tables, alias translation, and address keys.
- `Services`: generated services, `execute_systemctl`, and the stop, reset
  and restart lists.
- `Routes`: `add_route` and `del_route`.
- `Vlan`: VLANs, their members, and DHCP relay destinations.
- `WarmRestart`, `Vrf`, `Snmp`, `Sflow`: the settings commands.
- `Acl`: `get_acl_bound_ports`.
- `ConfigFiles`: `save`, `load` and `reload`.

## Model

| member | source | states |
|---|---|---|
| Abbreviation.GetCommand | config/main.py:69-101 | An exact name wins. With no case-insensitive prefix match the result is "not found". With exactly one match, that match is returned. With several, the shortest (the first among equal lengths) is returned when every match starts with it; otherwise the result is "too many matches". A resolved command is always one of the group's commands. |
| Abbreviation.MatchesMembers | config/main.py:82-84 | A name is among the matches exactly when it is a command that starts with the lower-cased input. |
| Abbreviation.ShortestIsAMatch | config/main.py:85-88 | The shortest match is one of the matches. |
| Abbreviation.ShortestIsFirstOfLeastLength | config/main.py:85-88 | The shortest match is the first match of least length. |
| Interfaces.InterfaceTableName | config/main.py:244-260 | `Ethernet*` and `PortChannel*` names map to VLAN_SUB_INTERFACE when they contain `.`. Without `.`, they map to INTERFACE and PORTCHANNEL_INTERFACE respectively. `Vlan*` maps to VLAN_INTERFACE and `Loopback*` to LOOPBACK_INTERFACE. The result is empty exactly when the name has none of these prefixes. |
| Interfaces.TableNameMeansLongName | config/main.py:244-260 | A name that maps to a table has at least four characters. |
| Interfaces.ParentName | config/main.py:176-183 | The part before the first `.` contains no `.`. |
| Interfaces.SplitRejoin | config/main.py:176-195 | Parent name plus suffix gives back the input. The suffix is empty exactly when the input has no `.`. |
| Interfaces.PortWithAlias | config/main.py:185-191 | No port found exactly when no port's alias equals the name. A found port is the first such port. A port without an alias field fails. |
| Interfaces.InterfaceAliasToName | config/main.py:169-195 | None stays None. An empty port table aborts. A port row without an `alias` field, met before the match, is the KeyError. When no alias matches, the input is returned unchanged. Otherwise the matching port's name is returned with the suffix re-attached. |
| Interfaces.AliasOfPort | config/main.py:234-240 | No alias found exactly when no port has the name. A found alias belongs to the first port with that name. A port without an alias field fails. |
| Interfaces.InterfaceNameToAlias | config/main.py:227-242 | None stays None. An empty port table aborts. Otherwise the result is the port's alias. |
| Interfaces.AliasRoundTrip | config/main.py:169-242 | With distinct port names and every port aliased, translating an alias to a name and back gives the alias. |
| Interfaces.AddressKeysMembers | config/main.py:262-273 | A key is kept exactly when it is a two-part key of the interface's table that mentions the interface. |
| Interfaces.AddressKeysSnoc | config/main.py:270-272 | The filter keeps the table's key order. |
| Interfaces.InterfaceAddressKeys | config/main.py:262-273 | No keys for a name without a table. Otherwise the result is the filtered keys of that table, in order. |
| Interfaces.AddressKeysArePairs | config/main.py:270-272 | Every key returned is a two-part key of the table naming the interface. |
| Services.StripNewlines | config/main.py:481-485 | `rstrip('\n')` gives a prefix of the line that does not end in a newline, and cuts only newlines. |
| Services.RemoveChar | config/main.py:479 | `replace('@', '')` removes every `@` and keeps every other character with its count; a line without `@` is unchanged. |
| Services.RemoveCharAppend | config/main.py:479 | The removal works piece by piece, so the kept characters stay in order. |
| Services.GetGeneratedServices | config/main.py:471-486 | A missing file gives no result. Otherwise the result is the single-instance and multi-instance lists, built line by line. |
| Services.GeneratedLength | config/main.py:477-485 | Every line yields exactly one entry. |
| Services.SingleMembers | config/main.py:478-485 | An entry is single-instance exactly when its line has no `@`, or when the device has at most one ASIC. |
| Services.MultiMembers | config/main.py:478-485 | An entry is multi-instance exactly when its line has `@` and the device has more than one ASIC. With one ASIC the multi-instance list is empty. |
| Services.EntryShape | config/main.py:478-485 | An entry has no trailing newline. An entry from a multi-instance line has no `@`. |
| Services.InstanceRuns | config/main.py:135-136 | One run per ASIC, numbered 0 to num_asic - 1, in order. |
| Services.AllRunsMembers | config/main.py:118-140 | Every run uses the given action on a given service. A plain run happens exactly for services in the single list, and instance `i` exactly for services in the multi list with `i` < num_asic. |
| Services.RunsForMembers | config/main.py:130-140 | One service's runs name only that service with the given action: the plain unit exactly when it is in the single list, and instance `i` exactly when the service is in the multi list and `i` < num_asic. |
| Services.NothingGenerated | config/main.py:118-140 | With both lists empty, nothing runs. |
| Services.ExecuteSystemctl | config/main.py:118-140 | The two generated lists are read from the generated-services file for the given ASIC count. A missing file is an error, and two empty lists give no runs. Otherwise the runs are exactly those of the services in order, for each service first its single run and then its instance runs. |
| Services.IssueFor | config/main.py:130-140 | The runs issued for one service are its specified runs: the plain unit first, then instances 0 to num_asic - 1 in order. |
| Services.StatusAfterSomeMeansNonEmpty | config/main.py:501-511 | A status is left from the loop only when the FEATURE table has rows. |
| Services.StatusErrorPersists | config/main.py:501-506 | Once a row lacks its status field, the whole scan fails. |
| Services.DisabledServicesList | config/main.py:494-516 | The result is that of the scan as written: the status is tested once, after the loop. |
| Services.StatusIsLastNamed | config/main.py:501-511 | The status tested is that of the last named row. |
| Services.StatusHasNoMissingField | config/main.py:501-509 | When every named row has a status, the scan does not fail on a missing field. |
| Services.DisabledAtMostOne | config/main.py:501-516 | At most one service is reported disabled, and it is the name of the last row iterated. |
| Services.DisabledMissesEarlierRows | config/main.py:501-516 | A disabled `bgp` followed by an enabled `lldp` reports nothing disabled. |
| Services.KeepMembers | config/main.py:580-585 | Filtering keeps exactly the services not dropped, and keeps them distinct. |
| Services.KeepTwice | config/main.py:580-585 | Dropping two sets one after the other is dropping their union. |
| Services.KeepNothing | config/main.py:581-582 | Dropping an absent service changes nothing. |
| Services.RemoveFirstIsKeep | config/main.py:581-582 | On a list without repeats, `remove(x)` is dropping `x`. |
| Services.KeepEmpty | config/main.py:580-582 | Dropping nothing changes nothing. |
| Services.KeepStep | config/main.py:580-582 | Removing one more disabled service extends the set dropped. |
| Services.StopList | config/main.py:519-532 | The services stopped are the base list, without `pmon` on a Mellanox ASIC. |
| Services.RemoveDistinct | config/main.py:531-532 | On a list without repeats, `remove(x)` drops exactly `x`. |
| Services.RemoveServices | config/main.py:578-585 | Removing the disabled services and, on Mellanox, `pmon` keeps the base list's order and drops exactly those. |
| Services.RestartList | config/main.py:561-585 | The restart list is the base list in order, without disabled services and without `pmon` on Mellanox. |
| Services.StopServices | config/main.py:519-534 | The stop runs are those of the stop list. |
| Services.ResetFailedServices | config/main.py:537-558 | The `reset-failed` runs are those of all seventeen services. |
| Services.RestartServices | config/main.py:561-587 | A FEATURE scan error or a missing generated-services file stops the command. Otherwise the runs are exactly those of the restart base list, minus the services reported disabled and minus `pmon` on Mellanox. Each run restarts such a service. |
| Routes.LastIndex | config/main.py:2196-2199 | The index found is the last occurrence, or -1 when the word is absent. |
| Routes.CutAtLastNexthop | config/main.py:2196-2199 | The loop leaves the arguments cut before the last `nexthop`. |
| Routes.SplitAtLastNexthop | config/main.py:2196-2199 | The prefix part followed by the nexthop part is the input. The nexthop part starts with `nexthop`, and the prefix part holds no `nexthop`. |
| Routes.AppendPrefix | config/main.py:2202-2211 | A prefix part of length 2 or 4 appends the mask, and length 4 also yields the VRF. Any other non-empty length fails. |
| Routes.AppendNexthop | config/main.py:2212-2233 | A nexthop part of length 2 (ip), 3 (dev) or 4 (vrf + ip) appends its clause. Any other length fails. |
| Routes.BuildRouteCommand | config/main.py:2188-2235 | The method builds the command or error of the specification function. |
| Routes.RouteAccepted | config/main.py:2190-2233 | Accepted exactly when 4 ≤ length ≤ 9, both `prefix` and `nexthop` occur, and the two parts have admissible lengths. |
| Routes.PartsOk | config/main.py:2202-2233 | The admissible part lengths: prefix 0, 2 or 4; nexthop 2, 3 or 4. |
| Routes.RouteErrorOrder | config/main.py:2190-2233 | Each error is reported exactly when every earlier check passes and this one fails, in the order of the code. |
| Routes.RouteShape | config/main.py:2201-2234 | The command starts with the vtysh header of its verb and ends with `"`. |
| Routes.PlainRoute | config/main.py:2201-2234 | `prefix M nexthop IP` gives the header, ` M`, ` IP` and `"`. |
| Routes.VrfDeviceRoute | config/main.py:2201-2234 | `prefix vrf V M nexthop dev D` gives ` M D vrf V`. |
| Vlan.AddVlan | config/main.py:1326-1334 | Accepted exactly when 1 ≤ vid ≤ 4094 and the VLAN does not exist, each failure with its error. The new entry holds just `vlanid`, and nothing else changes. |
| Vlan.DelVlan | config/main.py:1339-1344 | A VLAN_MEMBER key that cannot be unpacked into two parts fails. Otherwise the VLAN and all its member rows are gone. |
| Vlan.WithoutVlanEffect | config/main.py:1341-1344 | The VLAN entry and its member rows are empty, and every other entry is unchanged. |
| Vlan.DelAfterAddVlan | config/main.py:1326-1344 | Deleting a VLAN just added restores every entry. |
| Vlan.AddVlanMember | config/main.py:1361-1392 | The method's result is the add-member outcome. |
| Vlan.AddMemberEffect | config/main.py:1367-1392 | Fails exactly on an unresolvable alias, a missing VLAN, an existing member, or an L3 interface, in that order. Otherwise the members list gains the name at its end, other fields stay, the member row gets its tagging mode, and nothing else changes. |
| Vlan.DelVlanMember | config/main.py:1399-1426 | Fails exactly on an unresolvable alias, a missing VLAN, or a non-member, in that order. Otherwise the result is the VLAN without that member. |
| Vlan.WithoutMemberEffect | config/main.py:1420-1426 | One occurrence leaves the list. The `members` field goes when the list empties. The member row is deleted, and nothing else changes. |
| Vlan.DelMemberOrder | config/main.py:1420 | The member list keeps its order around the removed name. |
| Vlan.DelAfterAddMember | config/main.py:1356-1426 | Removing a member just added restores every entry. |
| Vlan.AddDhcpRelay | config/main.py:1572-1589 | An invalid IP fails first, then a missing VLAN. An existing destination leaves the database alone. Otherwise the destination is appended and nothing else changes. |
| Vlan.DelDhcpRelay | config/main.py:1601-1626 | An invalid IP fails first, then a missing VLAN, then an absent destination. Otherwise one occurrence is removed, `dhcp_servers` goes when it empties, and nothing else changes. |
| Vlan.AddDhcpRelayIdempotent | config/main.py:1582-1585 | Adding a destination twice is adding it once. |
| Vlan.DelAfterAddDhcpRelay | config/main.py:1572-1626 | Deleting a destination just added restores every entry. |
| WarmRestart.SetWarmRestartEnable | config/main.py:1253-1270 | Only system, swss, bgp and teamd are accepted. The module's `enable` field is set to true or false, other fields stay, and nothing else changes. |
| WarmRestart.EnableThenDisable | config/main.py:1253-1270 | Disabling after enabling gives the row that disabling alone gives. |
| WarmRestart.SetTimer | config/main.py:1273-1299 | An out-of-range timer fails. Otherwise that timer's field of its row is set, and nothing else changes. |
| WarmRestart.TimerRanges | config/main.py:1278-1296 | neighsyncd accepts 1 to 9998 (9999 is refused), and bgp and teamsyncd accept 1 to 3599. |
| WarmRestart.TimersIndependent | config/main.py:1273-1299 | Setting one timer leaves the other timers' rows alone. |
| WarmRestart.SetBgpEoiu | config/main.py:1300-1305 | Only `true` and `false` are accepted. The `bgp_eoiu` field is set, and nothing else changes. |
| Vrf.CheckVrfName | config/main.py:2149-2152 | A name passes exactly when it starts with `Vrf` or is `mgmt`/`management`, and is at most 15 characters; prefix is checked before length. |
| Vrf.AddManagementVrf | config/main.py:1445-1453 | Sets `mgmtVrfEnabled` to true. An already enabled flag changes nothing, and a row without the flag fails. |
| Vrf.DeleteManagementVrf | config/main.py:1455-1463 | Sets the flag to false. An empty row or a false flag changes nothing, and a row without the flag fails. |
| Vrf.AddVrf | config/main.py:2146-2156 | The name checks come first. The management names switch the flag. A data VRF gets the entry `{NULL: NULL}`, and nothing else changes. |
| Vrf.DelVrf | config/main.py:2161-2172 | The name checks come first. The management names clear the flag. A data VRF's entry is deleted. |
| Vrf.ManagementVrfIdempotent | config/main.py:2153-2154 | Both management names do the same, and enabling twice is enabling once. |
| Vrf.DelAfterAddVrf | config/main.py:2146-2172 | Deleting a data VRF just added restores every entry. |
| Snmp.AgentAddressKey | config/main.py:1482-1488 | The key holds exactly two more `\|` than its parts. |
| Snmp.AgentAddressKeySplits | config/main.py:1482-1488 | Without `\|` in the parts, the key splits back into ip, port and VRF. |
| Snmp.AgentAddressKeyInjective | config/main.py:1482-1488 | Two commands then name the same row only when their parts agree. |
| Snmp.AddAgentAddress | config/main.py:1479-1490 | The row exists and is empty, and nothing else changes. |
| Snmp.DelAgentAddress | config/main.py:1501-1511 | The row is gone, and nothing else changes. |
| Snmp.DelAfterAddAgentAddress | config/main.py:1479-1511 | Deleting a row just added restores the table. |
| Sflow.GlobalRowOf | config/main.py:2802-2807 | An empty SFLOW table reads as `{admin_state: initial}`. A non-empty table without a global row fails, and otherwise the global row is read. |
| Sflow.SetGlobalField | config/main.py:2802-2809 | The global row gets the field. On an empty table it also gets the initial admin state. Its other fields stay, and nothing else changes. |
| Sflow.GlobalAfterSet | config/main.py:2802-2809 | The row written is the row read, with the field set. |
| Sflow.SetAdminState | config/main.py:2799-2837 | `enable` and `disable`: the admin state becomes `up` or `down`, the other global fields stay, and nothing else changes. A non-empty table without a global row fails. |
| Sflow.DisableAfterEnable | config/main.py:2799-2837 | Enabling then disabling leaves the global row that disabling alone leaves. |
| Sflow.PollingIntervalAsWritten | config/main.py:2846-2858 | As written: an interval outside 5-300 and not 0 is reported, and then written all the same. |
| Sflow.PollingIntervalWrittenDespiteWarning | config/main.py:2848-2858 | An interval of 301 is both reported and written. |
| Sflow.SetPollingInterval | config/main.py:2846-2858 | Corrected: an invalid interval fails and writes nothing. A valid one is written as the code writes it. |
| Sflow.SetSessionField | config/main.py:2880-2894 | An invalid interface name other than `all` fails. |
| Sflow.SessionFieldMerges | config/main.py:2885-2894 | Both branches of the session edit merge the one field into the row. |
| Sflow.SessionFieldEffect | config/main.py:2885-2894 | The session row gains the field, keeps its others, and nothing else changes. |
| Sflow.SetSessionAdminState | config/main.py:2879-2914 | An invalid name fails. Otherwise the session's admin state is set, its other fields stay, and every other entry is unchanged. |
| Sflow.SetSampleRate | config/main.py:2920-2934 | The name is checked before the rate. It is accepted exactly when the name is valid and 256 ≤ rate ≤ 8388608, and then the session's `sample_rate` is set and nothing else changes. |
| Sflow.IsValidCollectorInfo | config/main.py:2948-2961 | Valid exactly when the name has at most 16 characters, the port is in 0..65535, and the address is valid. |
| Sflow.AddCollector | config/main.py:2970-2990 | The address is lower-cased before it is checked and stored. Bad information fails. A third collector fails exactly when two others are configured. A collector is accepted exactly when its information is valid and the table has room for it. Otherwise the collector row holds the address and port, the key set gains the name, and nothing else changes. |
| Sflow.DelCollector | config/main.py:2996-3007 | An unknown collector fails. Otherwise its row is gone, and nothing else changes. |
| Sflow.CollectorLimitKept | config/main.py:2979-2990 | Add and del keep the table at most two collectors. |
| Sflow.CollectorUpdateAtLimit | config/main.py:2979-2984 | Re-adding a configured collector succeeds and does not grow the table. |
| Sflow.AddAgentId | config/main.py:3023-3039 | An interface not in the kernel's list fails, and so does an agent id already set. Otherwise `agent_id` is set in the global row, and nothing else changes. |
| Sflow.DelAgentId | config/main.py:3046-3059 | Fails unless an agent id is set. Otherwise the global row is written back without it. |
| Sflow.DelAfterAddAgentId | config/main.py:3023-3059 | Deleting the agent id just added gives back the global row as read. |
| Acl.SplitMemberKeys | config/main.py:2317-2320 | The first loop collects exactly the port channels and exactly the member ports. |
| Acl.AclBoundPorts | config/main.py:2310-2327 | A port is bound exactly when it is a port channel, or a port that is no port channel's member. |
| Acl.GetAclBoundPorts | config/main.py:2310-2327 | The same, read from the PORTCHANNEL_MEMBER and PORT tables. |
| Acl.BoundPortsPartition | config/main.py:2322-2325 | A member port is never bound unless it is itself a port channel, its port channel always is, and a non-member port always is. |
| ConfigFiles.NumConfigFiles | config/main.py:628-630 | One file, plus one per ASIC on a multi-ASIC device. |
| ConfigFiles.Namespace | config/main.py:645-648 | Instance -1 has no namespace, and the others have `asic<i>`. |
| ConfigFiles.UserFiles | config/main.py:633-638 | The user's argument is split at commas and must name exactly the right number of files. The list joins back into the argument. |
| ConfigFiles.FileFor | config/main.py:650-657 | Instance `inst` uses `cfg_files[inst + 1]` when the user gave files, and its default file otherwise. |
| ConfigFiles.InstanceFiles | config/main.py:643-657 | The default files are `/etc/sonic/config_db.json` for the host and `/etc/sonic/config_db<i>.json` for ASIC `i`. A user list is used as given. |
| ConfigFiles.InstancesDistinct | config/main.py:645-657 | Distinct instances have distinct namespaces and distinct default files. |
| ConfigFiles.DefaultFileShape | config/main.py:654-657 | No ASIC's default file is the host's. |
| ConfigFiles.SaveCommandsAt | config/main.py:643-664 | Entry `i` of the save command list is the `sonic-cfggen -d --print-data` command of instance `i - 1` and its file. |
| ConfigFiles.SaveAll | config/main.py:643-664 | The commands issued are the save command list of the instance files, one per file in order. |
| ConfigFiles.Save | config/main.py:621-664 | A wrong file count fails. Otherwise one `sonic-cfggen -d --print-data` command per instance, in instance order, each with its namespace and file. |
| ConfigFiles.LoadCommandsAt | config/main.py:700-725 | Entry `i` of the load command list is the `-j file --write-to-db` command of instance `i - 1` and its file. |
| ConfigFiles.LoadAll | config/main.py:700-725 | Load commands are issued in order for files that exist. The run stops at the first missing file, which is reported. No file goes missing exactly when every file gets its command. |
| ConfigFiles.Load | config/main.py:669-725 | A wrong file count fails. Otherwise one `-j file --write-to-db` command per instance in order, stopping at the first missing file, which is reported. |
| ConfigFiles.Reload | config/main.py:733-833 | A wrong file count fails. Otherwise every instance whose file exists is flushed and reloaded in order (with the initial config file first when it exists), and missing files are skipped. |
| ConfigFiles.ReloadStepsMembers | config/main.py:782-833 | An instance's namespace is reloaded exactly when the instance's file exists. |
| ConfigFiles.ReloadStepsDistinct | config/main.py:782-833 | No instance is reloaded twice: the steps' namespaces are pairwise distinct. |
| Common.Split | config/main.py:634 | `str.split(',')`: at least one piece, none holding the separator. |
| Common.JoinSplit | config/main.py:634 | Joining the pieces gives back the string. |
| Common.SplitJoin | config/main.py:1482-1488 | Splitting a join of separator-free parts gives back the parts. |
| Common.RemoveFirst | config/main.py:1420 | `list.remove` drops one occurrence. |
| Common.RemoveFirstAt | config/main.py:1420 | `list.remove` cuts at the first occurrence. |
| Common.NatToStringInjective | config/main.py:648 | Different numbers have different decimal texts. |
| ConfigDb.AppendItem | config/main.py:1389-1390 | The list field gains the item at its end, and the other fields stay. |
| ConfigDb.RemoveItem | config/main.py:1420-1424 | One occurrence leaves the list. The field goes exactly when the list had one item, and the other fields stay. |
| ConfigDb.RemoveAppended | config/main.py:1389-1424 | Removing an item just appended gives back the entry. |
| ConfigDb.ModEntryOverwrite | config/main.py:1253-1270 | A second `mod_entry` that sets every field of the first leaves the entry as the second alone would. |

## Left out

- Services.ExecuteSystemctl, ConfigFiles.SaveAll, ConfigFiles.LoadAll, ConfigFiles.Reload: every command is taken to succeed. In the code a non-zero exit ends the whole command through `sys.exit` in `run_command`, and this is not modelled. So later services get no action, and the remaining instances are not saved, loaded or reloaded. Likewise `reload` stops before any flush when stopping the services fails.
- Process I/O. `run_command`, `os.system`, `subprocess`, and every systemctl, vtysh, sfputil or
  `sonic-cfggen` invocation are not executed. The model returns the command
  strings or an abstract log of the systemctl runs instead. This covers the service restarts
  after an SNMP, management VRF or DHCP relay change, and the sFlow service
  start after `sflow enable`.
- The database connector. Its redis client and `flushdb` are outside the model.
  `set_entry` and `mod_entry` are given their plain map meaning, and
  `mod_entry(t, k, None)` (used by `collector del`) is read as deleting the
  entry. Values are stored as strings: an `int` written by the code becomes
  its decimal text.
- Library predicates. `is_ipaddress`, `interface_name_is_valid`,
  `netifaces.interfaces()`, `os.path.isfile`, the device's ASIC count and type,
  and the naming mode are parameters.
- Abbreviation.GetCommand: `lower()` is modelled on ASCII letters only.
  Unicode case folding is not modelled.
- Vlan.AddMemberEffect, Vlan.DelVlanMember: a `members` value that is not a list reads as an empty list.
- Vlan.AddMemberEffect: a plain-name INTERFACE key is compared through its first character, as `entry[0]` does. An empty plain key is treated as not matching; Python raises IndexError there.
- Vrf.DelVrf: the unbinding of the VRF's interfaces by `del_interface_bind_to_vrf` is not modelled.
- Acl.GetAclBoundPorts: the result is a set. The order of the returned list is not modelled, and plain-name keys in PORTCHANNEL_MEMBER are ignored.
- ConfigFiles.Reload: the `--load-sysinfo` HWSKU step, the db_migrator run, the `INIT_INDICATOR` write and the service stop and restart around the loop are not modelled. The service lists are modelled separately in `Services`.
- Other work of `save`, `load` and `reload`: the confirmation prompts and `ctx.fail` messages are not modelled, and failures become error results.
- Interface naming mode: `set_interface_naming_mode` rewrites `.bashrc` with a regular expression. It is file I/O and is not modelled.
- Bind wait: the busy-wait loop in `bind` depends on timing and on an external daemon, and is not modelled.
- Whole-system commands: `load_minigraph`, QoS, firmware and ZTP orchestrate
  external tools and are not modelled.
- Syslog wrappers: not modelled.
- Fast and warm reboot: there is no reboot handshake, drain or snapshot logic in the code, so none is modelled.

## Findings

| source | as written | input that shows it | evidently intended | confidence | as-written member | corrected member |
|---|---|---|---|---|---|---|
| config/main.py:2848-2858 | `polling-interval` prints that the interval must be 5-300 or 0, then stores the interval anyway | `config sflow polling-interval 301` stores `polling_interval = 301` | an interval out of range is refused and nothing is written | medium, not executed | Sflow.PollingIntervalWrittenDespiteWarning | Sflow.SetPollingInterval |
