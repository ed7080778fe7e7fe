/**
 * The rule detector (analyzer.py). Every event whose `message` contains a rule's keyword,
 * ignoring case, yields one warning for the first such rule of the table; the warning
 * records the event's position in the list, the rule and a few fields of the event.
 * The DataFrame the source builds is replaced by the event list itself: its columns are
 * the keys that occur in some event, and a cell of a missing key is pandas' NaN.
 */
module Analyzer {
  import opened Wrappers
  import opened Dicts
  import opened Values
  import opened Library
  import opened Text
  import opened Rules

  type Event = Dict<Value>

  /** One warning (lines 26-35). A `None` cell is a NaN: the event lacks that key. */
  datatype Hit = Hit(
    rowIndex: nat,
    ruleId: string,
    severity: string,
    description: string,
    matchedKeyword: string,
    message: string,
    eventCategory: Option<Value>,
    timestamp: Option<Value>)

  /** What `analyze_events_with_rules` returns, without the DataFrame (lines 41-49). */
  datatype Analysis = Analysis(warnings: seq<Hit>, hasWarning: bool)

  /** The DataFrame has a `message` column: some event has that key (lines 14-15). */
  predicate HasMessageColumn(events: seq<Event>)
  {
    exists i | 0 <= i < |events| :: HasKey(events[i], "message")
  }

  /** `str(row.get("message", ""))` (line 20): a missing cell is NaN, which prints as `nan`. */
  function MessageText(o: Oracles, ev: Event): string
  {
    match Get(ev, "message")
    case Some(v) => o.str(v)
    case None => "nan"
  }

  /** Rule `r` fires on the lower-cased message `low` (lines 23-24). */
  predicate Fires(rules: seq<Rule>, low: string, r: int)
    requires 0 <= r < |rules|
  {
    Contains(low, Lower(rules[r].keyword))
  }

  /** The first rule from position `r` on that fires on `low`. */
  function FirstRuleFrom(rules: seq<Rule>, low: string, r: nat): (k: Option<nat>)
    requires r <= |rules|
    ensures k.Some? ==> r <= k.value < |rules|
    decreases |rules| - r
  {
    if r == |rules| then None
    else if Fires(rules, low, r) then Some(r)
    else FirstRuleFrom(rules, low, r + 1)
  }

  /** The warning event `ev` at position `idx` yields, if any (lines 19-36). */
  function HitFor(o: Oracles, rules: seq<Rule>, ev: Event, idx: nat): (r: Option<Hit>)
    ensures r.Some? ==> r.value.rowIndex == idx
  {
    var msg := MessageText(o, ev);
    match FirstRuleFrom(rules, Lower(msg), 0)
    case None => None
    case Some(r) =>
      var rule := rules[r];
      Some(Hit(idx, rule.id, rule.severity, rule.description, rule.keyword, msg,
        Get(ev, "event.category"), Get(ev, "timestamp")))
  }

  /** Each event's warning, if any, by position. */
  function RowHits(o: Oracles, rules: seq<Rule>, events: seq<Event>): (rs: seq<Option<Hit>>)
    ensures |rs| == |events| && forall i | 0 <= i < |events| :: rs[i] == HitFor(o, rules, events[i], i)
  {
    seq(|events|, i requires 0 <= i < |events| => HitFor(o, rules, events[i], i))
  }

  /** The warnings present in `rs`, in order. */
  function Somes(rs: seq<Option<Hit>>): seq<Hit>
  {
    if rs == [] then []
    else Somes(rs[..|rs| - 1]) + match rs[|rs| - 1] case Some(h) => [h] case None => []
  }

  lemma SomesSnoc(rs: seq<Option<Hit>>, n: nat)
    requires n < |rs|
    ensures Somes(rs[..n + 1]) == Somes(rs[..n]) + match rs[n] case Some(h) => [h] case None => []
  {
    assert rs[..n + 1][..n] == rs[..n];
  }

  /** What `detect_rule_warnings` returns (lines 13-38) when it scans the table `rules`. */
  function DetectSpec(o: Oracles, rules: seq<Rule>, events: seq<Event>): seq<Hit>
  {
    if !HasMessageColumn(events) then [] else Somes(RowHits(o, rules, events))
  }

  /** Lines 13-38: the scan of every row over the rule table. */
  method DetectRuleWarnings(o: Oracles, rules: seq<Rule>, events: seq<Event>) returns (hits: seq<Hit>)
    ensures hits == DetectSpec(o, rules, events)
  {
    if !HasMessageColumn(events) {
      return [];
    }
    ghost var rs := RowHits(o, rules, events);
    hits := [];
    for idx := 0 to |events|
      invariant hits == Somes(rs[..idx])
    {
      var hit := ScanRules(o, rules, events[idx], idx);
      assert hit == rs[idx];
      SomesSnoc(rs, idx);
      if hit.Some? {
        hits := hits + [hit.value];
      }
    }
    assert rs[..|events|] == rs;
  }

  /** Lines 20-36 for one row: the rules in order, stopping at the first that fires. */
  method ScanRules(o: Oracles, rules: seq<Rule>, ev: Event, idx: nat) returns (hit: Option<Hit>)
    ensures hit == HitFor(o, rules, ev, idx)
  {
    var msg := MessageText(o, ev);
    var low := Lower(msg);
    var r := 0;
    while r < |rules|
      invariant r <= |rules|
      invariant FirstRuleFrom(rules, low, r) == FirstRuleFrom(rules, low, 0)
    {
      var keyword := Lower(rules[r].keyword);
      if Contains(low, keyword) {
        var rule := rules[r];
        return Some(Hit(idx, rule.id, rule.severity, rule.description, rule.keyword, msg,
          Get(ev, "event.category"), Get(ev, "timestamp")));
      }
      r := r + 1;
    }
    return None;
  }

  /** Lines 41-49: the warnings and whether there are any. */
  method AnalyzeEventsWithRules(o: Oracles, events: seq<Event>) returns (a: Analysis)
    ensures a.warnings == DetectSpec(o, Table, events)
    ensures a.hasWarning <==> a.warnings != []
  {
    var warnings := DetectRuleWarnings(o, Table, events);
    a := Analysis(warnings, |warnings| > 0);
  }

  /** No `message` column (in particular no events) means no warnings (lines 14-15). */
  lemma NoMessageNoWarnings(o: Oracles, rules: seq<Rule>, events: seq<Event>)
    requires !HasMessageColumn(events)
    ensures DetectSpec(o, rules, events) == []
  {
  }

  predicate SomeRuleFires(rules: seq<Rule>, low: string)
  {
    exists q | 0 <= q < |rules| :: Fires(rules, low, q)
  }

  /** Some keyword of `rules`, as written, occurs in `low`. */
  predicate MentionsKeyword(rules: seq<Rule>, low: string)
  {
    exists q | 0 <= q < |rules| :: Contains(low, rules[q].keyword)
  }

  /** Rule `r` is the first rule from position `s` on that fires. */
  predicate FirstFiring(rules: seq<Rule>, low: string, s: nat, r: int)
  {
    s <= r < |rules| && Fires(rules, low, r) && forall q | s <= q < r :: !Fires(rules, low, q)
  }

  /**
   * The scan of lines 22-36 picks the earliest rule whose lower-cased keyword occurs in
   * the lower-cased message, and none when no keyword occurs.
   */
  lemma {:induction false} FirstRuleWins(rules: seq<Rule>, low: string, s: nat)
    requires s <= |rules|
    ensures forall r :: FirstRuleFrom(rules, low, s) == Some(r) <==> FirstFiring(rules, low, s, r)
    ensures FirstRuleFrom(rules, low, s).None? <==> forall q | s <= q < |rules| :: !Fires(rules, low, q)
    decreases |rules| - s
  {
    if s < |rules| && !Fires(rules, low, s) {
      FirstRuleWins(rules, low, s + 1);
      forall r
        ensures FirstFiring(rules, low, s, r) <==> FirstFiring(rules, low, s + 1, r)
      {
      }
    }
  }

  /**
   * Lines 19-36 for one event: it yields a warning exactly when some rule fires on its
   * message, and the warning then carries the event's position, the first firing rule's
   * id, severity, description and keyword as written, the message, and the event's
   * `event.category` and `timestamp` cells.
   */
  lemma HitContents(o: Oracles, rules: seq<Rule>, ev: Event, idx: nat)
    ensures HitFor(o, rules, ev, idx).Some? <==> SomeRuleFires(rules, Lower(MessageText(o, ev)))
    ensures forall h | HitFor(o, rules, ev, idx) == Some(h) ::
      exists r | FirstFiring(rules, Lower(MessageText(o, ev)), 0, r) ::
        h == Hit(idx, rules[r].id, rules[r].severity, rules[r].description, rules[r].keyword,
          MessageText(o, ev), Get(ev, "event.category"), Get(ev, "timestamp"))
  {
    var low := Lower(MessageText(o, ev));
    FirstRuleWins(rules, low, 0);
  }

  /** Each entry of `rs` that is a warning sits at the warning's own position. */
  predicate Positioned(rs: seq<Option<Hit>>)
  {
    forall i | 0 <= i < |rs| :: rs[i].Some? ==> rs[i].value.rowIndex == i
  }

  /** The collected warnings are entries of `rs`, each found at its own position. */
  lemma {:induction false} SomesFrom(rs: seq<Option<Hit>>)
    requires Positioned(rs)
    ensures |Somes(rs)| <= |rs|
    ensures forall k | 0 <= k < |Somes(rs)| :: Somes(rs)[k].rowIndex < |rs| && rs[Somes(rs)[k].rowIndex] == Some(Somes(rs)[k])
  {
    if rs != [] {
      var pre := rs[..|rs| - 1];
      assert Positioned(pre) by {
        assert forall i | 0 <= i < |pre| :: pre[i] == rs[i];
      }
      SomesFrom(pre);
    }
  }

  /** The collected warnings keep the order of `rs`: their positions strictly increase. */
  lemma {:induction false} SomesInOrder(rs: seq<Option<Hit>>)
    requires Positioned(rs)
    ensures forall k, l | 0 <= k < l < |Somes(rs)| :: Somes(rs)[k].rowIndex < Somes(rs)[l].rowIndex
  {
    if rs != [] {
      var pre := rs[..|rs| - 1];
      assert Positioned(pre) by {
        assert forall i | 0 <= i < |pre| :: pre[i] == rs[i];
      }
      SomesInOrder(pre);
      SomesFrom(pre);
    }
  }

  /** Some warning of `hs` is for the event at position `i`. */
  predicate HasHitAt(hs: seq<Hit>, i: int)
  {
    exists k | 0 <= k < |hs| :: hs[k].rowIndex == i
  }

  /** Every warning of `rs` is collected. */
  lemma {:induction false} SomesComplete(rs: seq<Option<Hit>>)
    requires Positioned(rs)
    ensures forall i | 0 <= i < |rs| :: rs[i].Some? <==> HasHitAt(Somes(rs), i)
  {
    if rs != [] {
      var n := |rs| - 1;
      var pre := rs[..n];
      assert forall i | 0 <= i < n :: pre[i] == rs[i];
      assert Positioned(pre);
      SomesComplete(pre);
      SomesFrom(pre);
      var old_ := Somes(pre);
      var hs := Somes(rs);
      assert hs == old_ + match rs[n] case Some(h) => [h] case None => [];
      forall i | 0 <= i < |rs|
        ensures rs[i].Some? <==> HasHitAt(hs, i)
      {
        if i < n && rs[i].Some? {
          var k :| 0 <= k < |old_| && old_[k].rowIndex == i;
          assert hs[k] == old_[k];
        } else if i == n && rs[n].Some? {
          assert hs[|old_|].rowIndex == n;
        }
      }
    }
  }

  /**
   * Lines 13-38: when the events have a `message` column, there is at most one warning
   * per event; the warnings come in input order, each at its event's 0-based position
   * and equal to the warning that event yields; and an event has a warning exactly when
   * it yields one, so events on which no rule fires contribute nothing.
   */
  lemma WarningsInOrder(o: Oracles, rules: seq<Rule>, events: seq<Event>)
    requires HasMessageColumn(events)
    ensures |DetectSpec(o, rules, events)| <= |events|
    ensures forall k | 0 <= k < |DetectSpec(o, rules, events)| ::
      DetectSpec(o, rules, events)[k].rowIndex < |events|
      && HitFor(o, rules, events[DetectSpec(o, rules, events)[k].rowIndex], DetectSpec(o, rules, events)[k].rowIndex) == Some(DetectSpec(o, rules, events)[k])
    ensures forall k, l | 0 <= k < l < |DetectSpec(o, rules, events)| ::
      DetectSpec(o, rules, events)[k].rowIndex < DetectSpec(o, rules, events)[l].rowIndex
    ensures forall i | 0 <= i < |events| :: HitFor(o, rules, events[i], i).Some? <==> HasHitAt(DetectSpec(o, rules, events), i)
  {
    var rs := RowHits(o, rules, events);
    assert Positioned(rs);
    SomesFrom(rs);
    SomesInOrder(rs);
    SomesComplete(rs);
  }

  /**
   * With keywords written in lower case, as every keyword of rules.py is (see
   * `Rules.KeywordsLower`), an event is warned about exactly when its lower-cased message
   * contains one of the keywords as written.
   */
  lemma LowerKeywordsHit(o: Oracles, rules: seq<Rule>, ev: Event, idx: nat)
    requires forall q | 0 <= q < |rules| :: Lower(rules[q].keyword) == rules[q].keyword
    ensures HitFor(o, rules, ev, idx).Some? <==> MentionsKeyword(rules, Lower(MessageText(o, ev)))
  {
    HitContents(o, rules, ev, idx);
    var low := Lower(MessageText(o, ev));
    assert forall q | 0 <= q < |rules| :: Fires(rules, low, q) == Contains(low, rules[q].keyword);
    assert SomeRuleFires(rules, low) <==> MentionsKeyword(rules, low);
  }

  /**
   * A message that is a string is searched as written: with lower-case keywords, it is
   * warned about exactly when its lower-cased text contains a keyword.
   */
  lemma StringMessageHit(o: Oracles, rules: seq<Rule>, ev: Event, idx: nat, m: string)
    requires StrKeepsStrings(o) && Get(ev, "message") == Some(VJson(JStr(m)))
    requires forall q | 0 <= q < |rules| :: Lower(rules[q].keyword) == rules[q].keyword
    ensures HitFor(o, rules, ev, idx).Some? <==> MentionsKeyword(rules, Lower(m))
    ensures HitFor(o, rules, ev, idx).Some? ==> HitFor(o, rules, ev, idx).value.message == m
  {
    assert MessageText(o, ev) == m;
    LowerKeywordsHit(o, rules, ev, idx);
  }

  /** A message containing the first rule's keyword gets that rule's warning. */
  lemma FirstRuleHit(o: Oracles, rules: seq<Rule>, ev: Event, idx: nat)
    requires rules != [] && Contains(Lower(MessageText(o, ev)), Lower(rules[0].keyword))
    ensures HitFor(o, rules, ev, idx) == Some(Hit(idx, rules[0].id, rules[0].severity, rules[0].description,
      rules[0].keyword, MessageText(o, ev), Get(ev, "event.category"), Get(ev, "timestamp")))
  {
    assert Fires(rules, Lower(MessageText(o, ev)), 0);
  }

  lemma LowerFailedLogin()
    ensures Lower("failed login") == "failed login"
  {
    assert IsLower("failed login");
    LowerOfLower("failed login");
  }

  /**
   * With the table of rules.py, a string message containing `failed login` in any letter
   * case is a BRUTE_FORCE_LOGIN warning of severity `high`, since that rule comes first.
   */
  lemma FailedLoginHit(o: Oracles, ev: Event, idx: nat, m: string)
    requires StrKeepsStrings(o) && Get(ev, "message") == Some(VJson(JStr(m)))
    requires Contains(Lower(m), "failed login")
    ensures HitFor(o, Table, ev, idx).Some?
    ensures HitFor(o, Table, ev, idx).value.ruleId == "BRUTE_FORCE_LOGIN"
    ensures HitFor(o, Table, ev, idx).value.severity == "high"
    ensures HitFor(o, Table, ev, idx).value.message == m
  {
    TableOrder();
    Severities();
    LowerFailedLogin();
    assert MessageText(o, ev) == m;
    FirstRuleHit(o, Table, ev, idx);
  }
}
