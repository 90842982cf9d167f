/** Who is mailed: the department manager chosen by the submit handler's
    switch over department codes, with its fallbacks, and the IT mailbox the
    approve handler notifies. The environment is passed in as a map. */
module Recipients {
  import opened Requests

  /** Environment variables by name. */
  type Env = map<string, string>

  const DefaultManager: string := "default.manager@example.com"
  const DefaultIT: string := "it.department@example.com"

  /** A variable as the handlers' `||` and `!` tests see it: unset reads as
      the empty string, and both count as false. */
  function Setting(env: Env, name: string): string {
    if name in env then env[name] else ""
  }

  /** `a || b` on strings. */
  function Or(a: string, b: string): string {
    if a != "" then a else b
  }

  /** The variable each case of the switch reads, exactly as written (the
      FN_dep case reads FN_MANAGER_EMAI); None is the default branch. */
  function ManagerVariableAsWritten(department: string): (v: Option<string>)
    ensures v.Some? <==> department in ManagerVariables
    ensures department == "FN_dep" ==> v == Some("FN_MANAGER_EMAI")
    ensures department != "FN_dep" && v.Some? ==> v.value == ManagerVariables[department]
  {
    match department
    case "HR_dep" => Some("HR_MANAGER_EMAIL")
    case "IT_dep" => Some("IT_MANAGER_EMAIL")
    case "GA_dep" => Some("GA_MANAGER_EMAIL")
    case "FA_dep" => Some("FA_MANAGER_EMAIL")
    case "FN_dep" => Some("FN_MANAGER_EMAI")
    case "MC_dep" => Some("MC_MANAGER_EMAIL")
    case "SL_dep" => Some("SL_MANAGER_EMAIL")
    case "ST_dep" => Some("ST_MANAGER_EMAIL")
    case "FT_dep" => Some("FT_MANAGER_EMAIL")
    case "SV_dep" => Some("SV_MANAGER_EMAIL")
    case "CC_dep" => Some("CC_MANAGER_EMAIL")
    case "BP_dep" => Some("BP_MANAGER_EMAIL")
    case "BW_dep" => Some("BW_MANAGER_EMAIL")
    case "KR_dep" => Some("KR_MANAGER_EMAIL")
    case "KK_dep" => Some("KK_MANAGER_EMAIL")
    case "MP_dep" => Some("MP_MANAGER_EMAIL")
    case "LC_dep" => Some("LC_MANAGER_EMAIL")
    case "PK_dep" => Some("PK_MANAGER_EMAIL")
    case "PY_dep" => Some("PY_MANAGER_EMAIL")
    case _ => None
  }

  /** The department table the switch is meant to be: each of the 19 codes
      XX_dep reads XX_MANAGER_EMAIL. */
  const ManagerVariables: map<string, string> := map[
    "HR_dep" := "HR_MANAGER_EMAIL", "IT_dep" := "IT_MANAGER_EMAIL",
    "GA_dep" := "GA_MANAGER_EMAIL", "FA_dep" := "FA_MANAGER_EMAIL",
    "FN_dep" := "FN_MANAGER_EMAIL", "MC_dep" := "MC_MANAGER_EMAIL",
    "SL_dep" := "SL_MANAGER_EMAIL", "ST_dep" := "ST_MANAGER_EMAIL",
    "FT_dep" := "FT_MANAGER_EMAIL", "SV_dep" := "SV_MANAGER_EMAIL",
    "CC_dep" := "CC_MANAGER_EMAIL", "BP_dep" := "BP_MANAGER_EMAIL",
    "BW_dep" := "BW_MANAGER_EMAIL", "KR_dep" := "KR_MANAGER_EMAIL",
    "KK_dep" := "KK_MANAGER_EMAIL", "MP_dep" := "MP_MANAGER_EMAIL",
    "LC_dep" := "LC_MANAGER_EMAIL", "PK_dep" := "PK_MANAGER_EMAIL",
    "PY_dep" := "PY_MANAGER_EMAIL"]

  /** The address the handler settles on once the switch has picked a
      variable (or the default branch), after the empty-value fallback. */
  function ResolveManager(env: Env, variable: Option<string>): string {
    var chosen := match variable
      case Some(name) => Setting(env, name)
      case None => Or(Setting(env, "MANAGER_EMAIL_DEFAULT"), DefaultManager);
    Or(chosen, DefaultManager)
  }

  /** The recipient as the handler computes it, typo included. */
  function ManagerRecipientAsWritten(env: Env, department: string): (addr: string)
    ensures addr != ""
    ensures department == "FN_dep" ==>
      addr == (if "FN_MANAGER_EMAI" in env && env["FN_MANAGER_EMAI"] != "" then env["FN_MANAGER_EMAI"] else DefaultManager)
    ensures department != "FN_dep" ==> addr == ManagerRecipient(env, department)
  {
    ResolveManager(env, ManagerVariableAsWritten(department))
  }

  /** The manager to mail for a department: the configured address of a
      listed department, the configured default for any other department, and
      default.manager@example.com whenever the chosen value is unset or empty. */
  function ManagerRecipient(env: Env, department: string): (addr: string)
    ensures addr != ""
    ensures department in ManagerVariables ==>
      var name := ManagerVariables[department];
      addr == (if name in env && env[name] != "" then env[name] else DefaultManager)
    ensures department !in ManagerVariables ==>
      addr == (if "MANAGER_EMAIL_DEFAULT" in env && env["MANAGER_EMAIL_DEFAULT"] != ""
               then env["MANAGER_EMAIL_DEFAULT"] else DefaultManager)
  {
    ResolveManager(env, if department in ManagerVariables then Some(ManagerVariables[department]) else None)
  }

  /** The IT mailbox notified after an approval, with its fallback. */
  function ITRecipient(env: Env): (addr: string)
    ensures addr != ""
    ensures addr == (if "IT_EMAIL" in env && env["IT_EMAIL"] != "" then env["IT_EMAIL"] else DefaultIT)
  {
    Or(Setting(env, "IT_EMAIL"), DefaultIT)
  }

  /** The switch is the table in every case but FN_dep, so for every other
      department both give the same recipient. */
  lemma SwitchIsTableExceptFN(env: Env, department: string)
    ensures department != "FN_dep" ==>
      ManagerVariableAsWritten(department) ==
        (if department in ManagerVariables then Some(ManagerVariables[department]) else None)
    ensures department != "FN_dep" ==>
      ManagerRecipientAsWritten(env, department) == ManagerRecipient(env, department)
    ensures ManagerVariableAsWritten("FN_dep") == Some("FN_MANAGER_EMAI")
    ensures ManagerVariables["FN_dep"] == "FN_MANAGER_EMAIL"
  {
  }

  /** The FN_dep case reads a misspelt variable: whatever FN_MANAGER_EMAIL
      and MANAGER_EMAIL_DEFAULT hold, the written switch mails
      default.manager@example.com for FN_dep unless FN_MANAGER_EMAI itself is
      set, while the corrected table mails FN_MANAGER_EMAIL when it is set. */
  lemma FNManagerIsNeverReached(env: Env)
    requires Setting(env, "FN_MANAGER_EMAI") == ""
    ensures ManagerRecipientAsWritten(env, "FN_dep") == DefaultManager
    ensures ManagerRecipient(env, "FN_dep") == Or(Setting(env, "FN_MANAGER_EMAIL"), DefaultManager)
  {
  }

  /** One environment on which the two disagree. */
  lemma FNManagerWitness()
    ensures var env := map["FN_MANAGER_EMAIL" := "fn.manager@example.com"];
      ManagerRecipientAsWritten(env, "FN_dep") == DefaultManager &&
      ManagerRecipient(env, "FN_dep") == "fn.manager@example.com"
  {
    FNManagerIsNeverReached(map["FN_MANAGER_EMAIL" := "fn.manager@example.com"]);
  }
}
