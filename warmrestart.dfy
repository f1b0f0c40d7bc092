/** The `config warm_restart` commands: the per-module enable flag, kept in the
    state database, and the reconciliation timers and the BGP end-of-RIB flag,
    kept in the WARM_RESTART table of the configuration database. */
module WarmRestart {
  import opened Common
  import opened ConfigDb

  const WarmRestartTable: string := "WARM_RESTART"
  const EnableTable: string := "WARM_RESTART_ENABLE_TABLE"
  const EnableField: string := "enable"

  datatype WarmRestartError =
    | NotAChoice(value: string)   // rejected by the argument's list of choices
    | TimerOutOfRange(timer: Timer, seconds: int)

  /** The modules whose warm restart can be switched on and off. */
  predicate IsWarmRestartModule(service: string) {
    service == "system" || service == "swss" || service == "bgp" || service == "teamd"
  }

  /** `warm_restart enable|disable [module]`: writes the `enable` field of the
      module's row of the state database. */
  function SetWarmRestartEnable(stateDb: Db, service: string, enable: bool): (r: Result<Db, WarmRestartError>)
    ensures r.Ok? <==> IsWarmRestartModule(service)
    ensures r.Err? ==> r == Err(NotAChoice(service))
    ensures r.Ok? ==>
      && FieldIs(GetEntry(r.value, EnableTable, Name(service)), EnableField, Scalar(if enable then "true" else "false"))
      && SameOtherFields(GetEntry(stateDb, EnableTable, Name(service)), GetEntry(r.value, EnableTable, Name(service)), EnableField)
      && (forall t, k :: (t, k) != (EnableTable, Name(service)) ==> GetEntry(r.value, t, k) == GetEntry(stateDb, t, k))
  {
    if !IsWarmRestartModule(service) then Err(NotAChoice(service))
    else Ok(ModEntry(stateDb, EnableTable, Name(service), map[EnableField := Scalar(if enable then "true" else "false")]))
  }

  /** Disabling after enabling leaves the flag off, whatever it was before. */
  lemma EnableThenDisable(stateDb: Db, service: string)
    requires IsWarmRestartModule(service)
    ensures var on := SetWarmRestartEnable(stateDb, service, true).value;
      GetEntry(SetWarmRestartEnable(on, service, false).value, EnableTable, Name(service)) ==
      GetEntry(SetWarmRestartEnable(stateDb, service, false).value, EnableTable, Name(service))
  {
    ModEntryOverwrite(stateDb, EnableTable, Name(service), map[EnableField := Scalar("true")], map[EnableField := Scalar("false")]);
  }

  datatype Timer = NeighsyncdTimer | BgpTimer | TeamsyncdTimer

  /** The exclusive upper bound of the timer's `range(1, bound)`. */
  function TimerBound(timer: Timer): int {
    match timer
    case NeighsyncdTimer => 9999
    case BgpTimer => 3600
    case TeamsyncdTimer => 3600
  }

  /** The WARM_RESTART row that holds the timer. */
  function TimerRow(timer: Timer): string {
    match timer
    case NeighsyncdTimer => "swss"
    case BgpTimer => "bgp"
    case TeamsyncdTimer => "teamd"
  }

  function TimerField(timer: Timer): string {
    match timer
    case NeighsyncdTimer => "neighsyncd_timer"
    case BgpTimer => "bgp_timer"
    case TeamsyncdTimer => "teamsyncd_timer"
  }

  /** `warm_restart neighsyncd_timer|bgp_timer|teamsyncd_timer <seconds>`. */
  function SetTimer(db: Db, timer: Timer, seconds: int): (r: Result<Db, WarmRestartError>)
    ensures r.Err? ==> r == Err(TimerOutOfRange(timer, seconds))
    ensures r.Ok? ==>
      && FieldIs(GetEntry(r.value, WarmRestartTable, Name(TimerRow(timer))), TimerField(timer), Scalar(IntToString(seconds)))
      && SameOtherFields(GetEntry(db, WarmRestartTable, Name(TimerRow(timer))), GetEntry(r.value, WarmRestartTable, Name(TimerRow(timer))), TimerField(timer))
      && (forall t, k :: (t, k) != (WarmRestartTable, Name(TimerRow(timer))) ==> GetEntry(r.value, t, k) == GetEntry(db, t, k))
  {
    if !(1 <= seconds < TimerBound(timer)) then Err(TimerOutOfRange(timer, seconds))
    else Ok(ModEntry(db, WarmRestartTable, Name(TimerRow(timer)), map[TimerField(timer) := Scalar(IntToString(seconds))]))
  }

  /** The accepted ranges: 1 to 9998 seconds for neighsyncd (9999 itself is
      refused, although the message announces 1-9999), 1 to 3599 for bgp and
      teamsyncd. */
  lemma TimerRanges(db: Db, seconds: int)
    ensures SetTimer(db, NeighsyncdTimer, seconds).Ok? <==> 1 <= seconds <= 9998
    ensures SetTimer(db, BgpTimer, seconds).Ok? <==> 1 <= seconds <= 3599
    ensures SetTimer(db, TeamsyncdTimer, seconds).Ok? <==> 1 <= seconds <= 3599
    ensures SetTimer(db, NeighsyncdTimer, 9999).Err?
    ensures SetTimer(db, BgpTimer, 3600).Err? && SetTimer(db, TeamsyncdTimer, 3600).Err?
  {
  }

  /** The three timers live in distinct rows, so setting one never disturbs
      another. */
  lemma TimersIndependent(db: Db, a: Timer, b: Timer, seconds: int)
    requires a != b && SetTimer(db, a, seconds).Ok?
    ensures GetEntry(SetTimer(db, a, seconds).value, WarmRestartTable, Name(TimerRow(b))) ==
      GetEntry(db, WarmRestartTable, Name(TimerRow(b)))
  {
  }

  /** `warm_restart bgp_eoiu [true|false]`. */
  function SetBgpEoiu(db: Db, enable: string): (r: Result<Db, WarmRestartError>)
    ensures r.Ok? <==> enable == "true" || enable == "false"
    ensures r.Ok? ==>
      && FieldIs(GetEntry(r.value, WarmRestartTable, Name("bgp")), "bgp_eoiu", Scalar(enable))
      && SameOtherFields(GetEntry(db, WarmRestartTable, Name("bgp")), GetEntry(r.value, WarmRestartTable, Name("bgp")), "bgp_eoiu")
      && (forall t, k :: (t, k) != (WarmRestartTable, Name("bgp")) ==> GetEntry(r.value, t, k) == GetEntry(db, t, k))
  {
    if enable != "true" && enable != "false" then Err(NotAChoice(enable))
    else Ok(ModEntry(db, WarmRestartTable, Name("bgp"), map["bgp_eoiu" := Scalar(enable)]))
  }
}
