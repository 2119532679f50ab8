/** How each client-side extension merges, and what a preference item's action asks for. */
module Cse {
  import opened Estate
  import opened Text

  datatype MergeMode =
    | LastWriterWins | Union | AuthoritativeReplace | Additive
    | Accumulate | SingleWinner | MergeReplaceFlag | Approximate

  const REGISTRY_CSES: set<string> := {"registry", "windows registry"}

  const SCRIPTS_CSES: set<string> := {"scripts", "group policy scripts"}

  const GPP_CSES: set<string> := {
    "group policy preferences", "gpp", "gpp drive maps", "gpp registry", "gpp files", "gpp local users and groups",
    "gpp scheduled tasks", "drives", "files", "groups", "scheduledtasks", "localusersandgroups", "datasources",
    "printers", "folders", "services", "environment", "shortcuts", "internetsettings", "regional", "poweroptions",
    "networkshares", "eventlogs"}

  const IPSEC_WIRELESS_CSES: set<string> := {
    "ipsec", "ip security", "wireless", "wired", "wireless network (ieee 802.11) policy", "wired network policy"}

  const FOLDER_REDIRECTION_CSES: set<string> := {"folder redirection", "folders redirection"}

  predicate StartsWith(s: string, prefix: string) {
    prefix <= s
  }

  predicate Mentions(s: string, word: string) {
    exists i :: 0 <= i <= |s| && word <= s[i..]
  }

  predicate IsGpp(cse: string) {
    Lower(Strip(cse)) in GPP_CSES
  }

  /** Members dominates Member Of. */
  function RestrictedGroupsMode(s: Setting): MergeMode {
    if "members" in s.sections then AuthoritativeReplace
    else if "memberof" in s.sections then Additive
    else AuthoritativeReplace
  }

  function FolderRedirectionMode(s: Setting): MergeMode {
    var val := Lower(Strip(s.value));
    if Mentions(val, "replace") then AuthoritativeReplace
    else if Mentions(val, "merge") then Accumulate
    else MergeReplaceFlag
  }

  function ModeOf(s: Setting): MergeMode {
    var cse := Lower(Strip(s.cse));
    if cse in REGISTRY_CSES then LastWriterWins
    else if cse in SCRIPTS_CSES then Union
    else if cse == "security" then
      if StartsWith(Lower(s.identity), "restrictedgroups:") || StartsWith(Lower(s.identity), "restricted groups:")
      then RestrictedGroupsMode(s)
      else LastWriterWins
    else if cse == "software installation" then Accumulate
    else if cse in GPP_CSES then Accumulate
    else if cse in IPSEC_WIRELESS_CSES then SingleWinner
    else if cse in FOLDER_REDIRECTION_CSES then FolderRedirectionMode(s)
    else Approximate
  }

  datatype Action = Create | Replace | Update | Delete | Unknown

  /** No action means an update. */
  function Classify(action: string): Action {
    if action == "" || action == "U" || action == "UPDATE" then Update
    else if action == "D" || action == "DELETE" then Delete
    else if action == "R" || action == "REPLACE" then Replace
    else if action == "C" || action == "CREATE" then Create
    else Unknown
  }

  /** Only preference items carry an action. */
  function ActionOf(o: Occurrence): Action {
    if IsGpp(o.setting.cse) then Classify(o.setting.action) else Update
  }

  /** The action letters and words; anything else is not recognised. */
  lemma ActionsExactly(action: string)
    ensures Classify(action).Update? <==> action in {"", "U", "UPDATE"}
    ensures Classify(action).Replace? <==> action in {"R", "REPLACE"}
    ensures Classify(action).Create? <==> action in {"C", "CREATE"}
    ensures Classify(action).Delete? <==> action in {"D", "DELETE"}
  {
  }

  /** What goes through the action machine: preference items, software, and folders redirected with "merge". */
  lemma AccumulatesExactly(s: Setting)
    ensures var cse, val := Lower(Strip(s.cse)), Lower(Strip(s.value));
            ModeOf(s).Accumulate? <==>
              || IsGpp(s.cse)
              || cse == "software installation"
              || ((cse == "folder redirection" || cse == "folders redirection")
                  && !Mentions(val, "replace") && Mentions(val, "merge"))
  {
    hide Lower, Strip, Mentions, StartsWith;
    if IsGpp(s.cse) { GppIsSeparate(Lower(Strip(s.cse))); }
  }

  lemma GppIsSeparate(cse: string)
    requires cse in GPP_CSES
    ensures cse !in REGISTRY_CSES && cse !in SCRIPTS_CSES && cse != "security"
  {
  }
}
