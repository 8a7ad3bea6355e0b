/**
 * The application profile the mapper gives EDHOC (`AppProfileBuilder`): a
 * numbered mode selects whether message_4 is expected, whether EDHOC keys
 * OSCORE, and whether the combined EDHOC+OSCORE request is supported.
 */
module AppProfiles {
  import opened Types
  import opened Strings

  /** The profile handed to the EDHOC library. */
  datatype AppProfile = AppProfile(authMethods: set<int>, useMessage4: bool, usedForOscore: bool,
                                   supportCombinedRequest: bool)

  const ALL_OPTIONS_MODE: int := 6

  /** `build(authMethods, mode)`: modes 1 to 6 select a fixed triple of options; any other mode raises. */
  function Build(authMethods: set<int>, mode: int): (r: Result<AppProfile, Exception>)
    ensures r.Ok? <==> 1 <= mode <= 6
    ensures r.Err? ==> r.error.Runtime?
    ensures r.Ok? ==> r.value.authMethods == authMethods
    ensures r.Ok? ==> (r.value.useMessage4 <==> mode >= 4)
    ensures r.Ok? ==> (r.value.usedForOscore <==> mode != 1 && mode != 4)
    ensures r.Ok? ==> (r.value.supportCombinedRequest <==> mode == 3 || mode == 6)
  {
    match mode
    case 1 => Ok(AppProfile(authMethods, false, false, false))
    case 2 => Ok(AppProfile(authMethods, false, true, false))
    case 3 => Ok(AppProfile(authMethods, false, true, true))
    case 4 => Ok(AppProfile(authMethods, true, false, false))
    case 5 => Ok(AppProfile(authMethods, true, true, false))
    case 6 => Ok(AppProfile(authMethods, true, true, true))
    case _ => Err(Runtime("Invalid application profile mode: " + IntToString(mode) +
                          ". Available application profile modes are 1, 2, 3, 4, 5, 6"))
  }

  /** `build(authMethods)`: every option enabled. */
  function BuildDefault(authMethods: set<int>): (r: AppProfile)
    ensures r.authMethods == authMethods
    ensures r.useMessage4 && r.usedForOscore && r.supportCombinedRequest
  {
    Build(authMethods, ALL_OPTIONS_MODE).value
  }

  /** The combined request only comes with OSCORE keyed by EDHOC. */
  lemma CombinedImpliesOscore(authMethods: set<int>, mode: int)
    requires Build(authMethods, mode).Ok?
    ensures Build(authMethods, mode).value.supportCombinedRequest ==> Build(authMethods, mode).value.usedForOscore
  {
  }

  /** Different modes give different profiles: the mode can be read back from the options. */
  lemma ModesDistinct(authMethods: set<int>, m1: int, m2: int)
    requires Build(authMethods, m1).Ok? && Build(authMethods, m2).Ok?
    requires Build(authMethods, m1) == Build(authMethods, m2)
    ensures m1 == m2
  {
  }

  /** The default profile is the one of the all-options mode, and no other mode. */
  lemma DefaultIsModeSix(authMethods: set<int>, mode: int)
    requires Build(authMethods, mode) == Ok(BuildDefault(authMethods))
    ensures mode == ALL_OPTIONS_MODE
  {
  }
}
