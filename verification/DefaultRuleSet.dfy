/** The rule set shipped with the engine, and what its windows and IDs guarantee. */
module DefaultRuleSet {
  import opened Domain
  import opened Fingerprints
  import opened EngineModel

  function Cond(source: string, etype: string, fieldMatch: map<string, string>, minCount: int): Condition {
    Condition(source, etype, fieldMatch, minCount)
  }

  function LateralMovement(): Rule {
    Rule("R001", "Lateral Movement: Process Exec + Outbound Network", "", 4, 30 * SECOND,
         [Cond("coresec", "process", map[], 1), Cond("netguard", "network", map["direction" := "outbound"], 1)],
         "TA0008", "T1021", 0)
  }

  function DefenseEvasion(): Rule {
    Rule("R002", "Defense Evasion: Obfuscated Cmdline + File Write", "", 4, 2 * MINUTE,
         [Cond("coresec", "process", map["cmdline" := "-enc"], 1), Cond("coresec", "fim", map[], 1)],
         "TA0005", "T1027", 0)
  }

  function CredentialDumping(): Rule {
    Rule("R003", "Credential Dumping: LSASS Access + Outbound Network", "", 5, 60 * SECOND,
         [Cond("coresec", "process", map["cmdline" := "lsass"], 1),
          Cond("netguard", "network", map["direction" := "outbound"], 1)],
         "TA0006", "T1003", 0)
  }

  function C2Beaconing(): Rule {
    Rule("R004", "C2 Beaconing: Repeated Outbound Connections", "", 4, 5 * MINUTE,
         [Cond("netguard", "network", map["direction" := "outbound"], 5)],
         "TA0011", "T1071", 5)
  }

  function Ransomware(): Rule {
    Rule("R005", "Ransomware Indicators: Mass File Modification", "", 5, 60 * SECOND,
         [Cond("coresec", "fim", map[], 20)],
         "TA0040", "T1486", 20)
  }

  function PrivilegeEscalation(): Rule {
    Rule("R006", "Privilege Escalation: Root Process from Non-Privileged Parent", "", 4, 30 * SECOND,
         [Cond("coresec", "process", map["user" := "root"], 1),
          Cond("wazuh", "alert", map["rule_group" := "privilege_escalation"], 1)],
         "TA0004", "T1548", 0)
  }

  function DataExfiltration(): Rule {
    Rule("R007", "Data Exfiltration: Sensitive File Access + Large Outbound Transfer", "", 5, 5 * MINUTE,
         [Cond("coresec", "fim", map["path" := "/etc/"], 1),
          Cond("netguard", "network", map["direction" := "outbound"], 1)],
         "TA0010", "T1041", 0)
  }

  function CrossSource(): Rule {
    Rule("R008", "Cross-Source: Wazuh HIDS + CoreSec Process Co-occurrence", "", 3, 2 * MINUTE,
         [Cond("wazuh", "alert", map[], 1), Cond("coresec", "process", map[], 1)],
         "TA0002", "T1059", 0)
  }

  function DefaultRules(): seq<Rule> {
    [LateralMovement(), DefenseEvasion(), CredentialDumping(), C2Beaconing(),
     Ransomware(), PrivilegeEscalation(), DataExfiltration(), CrossSource()]
  }

  const RULE_IDS: seq<string> := ["R001", "R002", "R003", "R004", "R005", "R006", "R007", "R008"]

  lemma RuleIdsApart()
    ensures forall i, j :: 0 <= i < j < |RULE_IDS| ==> RULE_IDS[i] != RULE_IDS[j]
    ensures forall i :: 0 <= i < |RULE_IDS| ==> BarFree(RULE_IDS[i])
  {
    assert forall i :: 0 <= i < |RULE_IDS| ==> |RULE_IDS[i]| == 4 && RULE_IDS[i][3] == "12345678"[i];
  }

  lemma DefaultIds()
    ensures WellFormedRules(DefaultRules())
  {
    RuleIdsApart();
    assert forall i :: 0 <= i < |DefaultRules()| ==> DefaultRules()[i].id == RULE_IDS[i];
  }

  /** The shipped rules meet every assumption the engine's theorems make: distinct IDs without
      a bar, and windows whose double leaves 50 minutes of slack before the cleaner. */
  lemma DefaultRulesQualify()
    ensures WellFormedRules(DefaultRules()) && ShortWindows(DefaultRules())
    ensures forall i :: 0 <= i < |DefaultRules()| ==>
              && 0 < DefaultRules()[i].window <= BUFFER_WINDOW
              && CACHE_RETENTION - 2 * DefaultRules()[i].window >= 50 * MINUTE
  {
    DefaultIds();
  }
}
