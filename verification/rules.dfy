/**
 * The detection rules (rules.py): an ordered table of keyword rules. The detector tries
 * them in this order and the first whose keyword occurs in a message wins.
 */
module Rules {
  import opened Text

  datatype Rule = Rule(id: string, keyword: string, severity: string, description: string)

  const Table: seq<Rule> := [
    Rule("BRUTE_FORCE_LOGIN", "failed login", "high", "Possible brute-force login attempts detected."),
    Rule("PORT_SCAN", "port scan", "medium", "Potential port scan or reconnaissance activity."),
    Rule("PRIV_ESC", "privilege escalation", "high", "Privilege escalation attempt detected."),
    Rule("SUSPICIOUS_PROCESS", "suspicious process", "medium", "Suspicious process execution detected."),
    Rule("CREDENTIAL_COMPROMISE", "credential compromise", "high", "Possible credential compromise.")]

  /** Five rules, in this order. */
  lemma TableOrder()
    ensures |Table| == 5
    ensures Table[0].id == "BRUTE_FORCE_LOGIN" && Table[1].id == "PORT_SCAN" && Table[2].id == "PRIV_ESC"
      && Table[3].id == "SUSPICIOUS_PROCESS" && Table[4].id == "CREDENTIAL_COMPROMISE"
  {
  }

  /** No two rules share an id. */
  lemma DistinctIds()
    ensures forall i, j | 0 <= i < j < |Table| :: Table[i].id != Table[j].id
  {
  }

  /** Every keyword is written in lower case, so lowering it changes nothing. */
  lemma KeywordsLower()
    ensures forall i | 0 <= i < |Table| :: Lower(Table[i].keyword) == Table[i].keyword
  {
    forall i | 0 <= i < |Table|
      ensures Lower(Table[i].keyword) == Table[i].keyword
    {
      var k := Table[i].keyword;
      assert IsLower(k);
      LowerOfLower(k);
    }
  }

  /** Every severity is `high` or `medium`; the brute-force rule looks for `failed login` and is `high`. */
  lemma Severities()
    ensures forall i | 0 <= i < |Table| :: Table[i].severity == "high" || Table[i].severity == "medium"
    ensures Table[0].keyword == "failed login" && Table[0].severity == "high"
  {
  }
}
