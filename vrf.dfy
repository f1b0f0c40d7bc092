/** `config vrf add|del`: data VRFs are rows of the VRF table; the names
    `mgmt` and `management` instead switch the management VRF flag in the
    MGMT_VRF_CONFIG table. */
module Vrf {
  import opened Common
  import opened ConfigDb

  const VrfTable: string := "VRF"
  const MgmtVrfTable: string := "MGMT_VRF_CONFIG"
  const MgmtVrfRow: string := "vrf_global"
  const MgmtVrfEnabledField: string := "mgmtVrfEnabled"
  const MaxVrfNameLength: nat := 15

  datatype VrfError =
    | BadVrfPrefix(name: string)   // "'vrf_name' is not start with Vrf, mgmt or management!"
    | VrfNameTooLong(name: string) // "'vrf_name' is too long!"
    | MgmtFlagMissing              // `entry['mgmtVrfEnabled']` raises KeyError

  predicate IsManagementName(name: string) {
    name == "mgmt" || name == "management"
  }

  /** The checks shared by `add` and `del`, in their order. */
  function CheckVrfName(name: string): (r: Option<VrfError>)
    ensures r.None? <==> (StartsWith(name, "Vrf") || IsManagementName(name)) && |name| <= MaxVrfNameLength
    ensures !(StartsWith(name, "Vrf") || IsManagementName(name)) ==> r == Some(BadVrfPrefix(name))
    ensures (StartsWith(name, "Vrf") || IsManagementName(name)) && |name| > MaxVrfNameLength ==>
      r == Some(VrfNameTooLong(name))
  {
    if !StartsWith(name, "Vrf") && !(name == "mgmt") && !(name == "management") then Some(BadVrfPrefix(name))
    else if |name| > MaxVrfNameLength then Some(VrfNameTooLong(name))
    else None
  }

  function MgmtEntry(db: Db): Entry {
    GetEntry(db, MgmtVrfTable, Name(MgmtVrfRow))
  }

  /** `vrf_add_management_vrf`: nothing to do when the flag is already `true`. */
  function AddManagementVrf(db: Db): (r: Result<Db, VrfError>)
    ensures r.Err? <==> MgmtEntry(db) != map[] && MgmtVrfEnabledField !in MgmtEntry(db)
    ensures r.Ok? ==> FieldIs(MgmtEntry(r.value), MgmtVrfEnabledField, Scalar("true"))
    ensures r.Ok? && FieldIs(MgmtEntry(db), MgmtVrfEnabledField, Scalar("true")) ==> r.value == db
    ensures r.Ok? ==> forall t, k :: (t, k) != (MgmtVrfTable, Name(MgmtVrfRow)) ==> GetEntry(r.value, t, k) == GetEntry(db, t, k)
  {
    var entry := MgmtEntry(db);
    if entry != map[] && MgmtVrfEnabledField !in entry then Err(MgmtFlagMissing)
    else if entry != map[] && entry[MgmtVrfEnabledField] == Scalar("true") then Ok(db)
    else Ok(ModEntry(db, MgmtVrfTable, Name(MgmtVrfRow), map[MgmtVrfEnabledField := Scalar("true")]))
  }

  /** `vrf_delete_management_vrf`: nothing to do when the row is empty or the
      flag is already `false`. */
  function DeleteManagementVrf(db: Db): (r: Result<Db, VrfError>)
    ensures r.Err? <==> MgmtEntry(db) != map[] && MgmtVrfEnabledField !in MgmtEntry(db)
    ensures r.Ok? && MgmtEntry(db) != map[] ==> FieldIs(MgmtEntry(r.value), MgmtVrfEnabledField, Scalar("false"))
    ensures r.Ok? && (MgmtEntry(db) == map[] || FieldIs(MgmtEntry(db), MgmtVrfEnabledField, Scalar("false"))) ==> r.value == db
    ensures r.Ok? ==> forall t, k :: (t, k) != (MgmtVrfTable, Name(MgmtVrfRow)) ==> GetEntry(r.value, t, k) == GetEntry(db, t, k)
  {
    var entry := MgmtEntry(db);
    if entry == map[] then Ok(db)
    else if MgmtVrfEnabledField !in entry then Err(MgmtFlagMissing)
    else if entry[MgmtVrfEnabledField] == Scalar("false") then Ok(db)
    else Ok(ModEntry(db, MgmtVrfTable, Name(MgmtVrfRow), map[MgmtVrfEnabledField := Scalar("false")]))
  }

  /** `config vrf add <vrf_name>`. */
  function AddVrf(db: Db, name: string): (r: Result<Db, VrfError>)
    ensures CheckVrfName(name).Some? ==> r == Err(CheckVrfName(name).value)
    ensures CheckVrfName(name).None? && IsManagementName(name) ==> r == AddManagementVrf(db)
    ensures CheckVrfName(name).None? && !IsManagementName(name) ==>
      && r.Ok?
      && GetEntry(r.value, VrfTable, Name(name)) == map["NULL" := Scalar("NULL")]
      && (forall t, k :: (t, k) != (VrfTable, Name(name)) ==> GetEntry(r.value, t, k) == GetEntry(db, t, k))
  {
    match CheckVrfName(name)
    case Some(e) => Err(e)
    case None =>
      if IsManagementName(name) then AddManagementVrf(db)
      else Ok(SetEntry(db, VrfTable, Name(name), Some(map["NULL" := Scalar("NULL")])))
  }

  /** `config vrf del <vrf_name>`, without the unbinding of the VRF's interfaces. */
  function DelVrf(db: Db, name: string): (r: Result<Db, VrfError>)
    ensures CheckVrfName(name).Some? ==> r == Err(CheckVrfName(name).value)
    ensures CheckVrfName(name).None? && IsManagementName(name) ==> r == DeleteManagementVrf(db)
    ensures CheckVrfName(name).None? && !IsManagementName(name) ==>
      && r.Ok?
      && Name(name) !in GetTable(r.value, VrfTable)
      && (forall t, k :: (t, k) != (VrfTable, Name(name)) ==> GetEntry(r.value, t, k) == GetEntry(db, t, k))
  {
    match CheckVrfName(name)
    case Some(e) => Err(e)
    case None =>
      if IsManagementName(name) then DeleteManagementVrf(db)
      else Ok(SetEntry(db, VrfTable, Name(name), None))
  }

  /** Both management names reach the same flag, and enabling it twice is
      enabling it once. */
  lemma ManagementVrfIdempotent(db: Db)
    requires AddVrf(db, "mgmt").Ok?
    ensures AddVrf(db, "management") == AddVrf(db, "mgmt")
    ensures AddVrf(AddVrf(db, "mgmt").value, "mgmt") == AddVrf(db, "mgmt")
  {
    var once := AddVrf(db, "mgmt").value;
    assert CheckVrfName("mgmt").None? && CheckVrfName("management").None?;
    assert FieldIs(MgmtEntry(once), MgmtVrfEnabledField, Scalar("true"));
  }

  /** A data VRF that was absent is gone again after add then del. */
  lemma DelAfterAddVrf(db: Db, name: string)
    requires CheckVrfName(name).None? && !IsManagementName(name)
    requires Name(name) !in GetTable(db, VrfTable)
    ensures SameEntries(DelVrf(AddVrf(db, name).value, name).value, db)
  {
    var added := AddVrf(db, name).value;
    var back := DelVrf(added, name).value;
    forall t, k
      ensures GetEntry(back, t, k) == GetEntry(db, t, k)
    {
      if (t, k) == (VrfTable, Name(name)) {
        assert GetEntry(back, t, k) == map[];
      }
    }
  }
}
