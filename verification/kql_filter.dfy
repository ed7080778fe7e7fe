/**
 * `event_matches_condition` and `filter_events_by_kql` (kql_parser.py). A condition on a
 * named field tests the first of three lookups that is not `None`; a condition on `_all`
 * searches every entry of the event but `structured`, then the top-level values of
 * `structured`. Conditions are combined strictly left to right with Python's
 * short-circuit `and`/`or`, and the events whose combination is true are kept in order.
 *
 * Where Python raises (`.values()` or indexing on a `structured` that is not a dict, `in`
 * on a number), a result is `None`; the filter requires that no condition it evaluates
 * raises.
 */
module KqlFilter {
  import opened Wrappers
  import opened Dicts
  import opened Values
  import opened Library
  import opened Text
  import opened KqlTokenizer
  import opened KqlParser

  type Event = Dict<Value>

  /** `v is None` for the result of `d.get(k)`: a missing key or a `None` value. */
  predicate IsNone(v: Option<Value>)
  {
    v.None? || v.value == None_
  }

  /** `value in str(v).lower()`. */
  predicate Shows(o: Oracles, v: Value, value: string)
  {
    Contains(Lower(o.str(v)), value)
  }

  /** An entry the loop of lines 75-81 does not skip and finds `value` in. */
  predicate EntryShows(o: Oracles, ev: Event, i: int, value: string)
    requires 0 <= i < |ev|
  {
    ev[i].0 != "structured" && ev[i].1 != None_ && Shows(o, ev[i].1, value)
  }

  /** `(event.get("structured") or {}).values()`; `None` when `.values()` raises on a non-dict. */
  function StructuredValues(ev: Event): Option<seq<Json>>
  {
    match Get(ev, "structured")
    case None => Some([])
    case Some(sd) =>
      if !ValueTruthy(sd) then Some([])
      else if sd.VJson? && sd.j.JObj? then Some(Dicts.Values(sd.j.members))
      else None
  }

  /** A top-level value of `structured` the loop of lines 84-88 finds `value` in. */
  predicate MemberShows(o: Oracles, vs: seq<Json>, j: int, value: string)
    requires 0 <= j < |vs|
  {
    vs[j] != JNull && Shows(o, VJson(vs[j]), value)
  }

  /** Some entry but `structured` shows `value`. */
  predicate EntriesShow(o: Oracles, ev: Event, value: string)
  {
    exists i | 0 <= i < |ev| :: EntryShows(o, ev, i, value)
  }

  /** Lines 74-90. */
  function MatchAll(o: Oracles, ev: Event, value: string): Option<bool>
  {
    if EntriesShow(o, ev, value) then Some(true)
    else
      match StructuredValues(ev)
      case None => None
      case Some(vs) => Some(exists j | 0 <= j < |vs| :: MemberShows(o, vs, j, value))
  }

  /**
   * Lines 98-101: `field in sd` and then `sd[field]`, with `sd` the `structured` entry or
   * `{}`. The outer `None` is an exception: `in` on a number or a `datetime`, or indexing a
   * string or a list with a string.
   */
  function StructuredLookup(ev: Event, field: string): Option<Option<Value>>
  {
    match Get(ev, "structured")
    case None => Some(None)
    case Some(sd) =>
      if !ValueTruthy(sd) then Some(None)
      else
        match sd
        case VTime(_) => None
        case VJson(j) =>
          match PyIn(field, j)
          case None => None
          case Some(found) =>
            if !found then Some(None)
            else if j.JObj? then Some(Some(VJson(GetOrNull(j.members, field))))
            else None
  }

  /** The first two lookups of lines 92-96: the field itself, then its `_` spelling. */
  function DirectLookup(ev: Event, field: string): Option<Value>
  {
    var v := Get(ev, field);
    if IsNone(v) && '.' in field then Get(ev, ReplaceChar(field, '.', "_")) else v
  }

  /** Lines 92-106. */
  function FieldMatch(o: Oracles, ev: Event, field: string, value: string): Option<bool>
  {
    var v := DirectLookup(ev, field);
    if !IsNone(v) then Some(Shows(o, v.value, value))
    else
      match StructuredLookup(ev, field)
      case None => None
      case Some(w) => Some(!IsNone(w) && Shows(o, w.value, value))
  }

  /** `event_matches_condition` (lines 63-106); `str(value)` of a string is the string. */
  function Matches(o: Oracles, ev: Event, c: Condition): Option<bool>
  {
    var value := Lower(c.value);
    if c.field == "_all" then MatchAll(o, ev, value) else FieldMatch(o, ev, c.field, value)
  }

  /** One round of the loop of lines 143-147: `result and m` or `result or m`, short-circuit. */
  function Step(o: Oracles, ev: Event, acc: Option<bool>, op: string, c: Condition): Option<bool>
  {
    match acc
    case None => None
    case Some(b) =>
      if op == "and" then (if b then Matches(o, ev, c) else Some(false))
      else (if b then Some(true) else Matches(o, ev, c))
  }

  /** Lines 141-147: the conditions folded from the left, with no precedence. */
  function Eval(o: Oracles, ev: Event, conds: seq<Condition>, ops: seq<string>): Option<bool>
    requires |conds| >= 1 && |ops| == |conds| - 1
    decreases |conds|
  {
    if |conds| == 1 then Matches(o, ev, conds[0])
    else Step(o, ev, Eval(o, ev, conds[..|conds| - 1], ops[..|ops| - 1]), ops[|ops| - 1], conds[|conds| - 1])
  }

  /** The events of lines 140-150 whose fold is true, in order. */
  function Selected(o: Oracles, events: seq<Event>, conds: seq<Condition>, ops: seq<string>): seq<Event>
    requires |conds| >= 1 && |ops| == |conds| - 1
  {
    if events == [] then []
    else
      var ev := events[|events| - 1];
      Selected(o, events[..|events| - 1], conds, ops) + (if Eval(o, ev, conds, ops) == Some(true) then [ev] else [])
  }

  /** What `filter_events_by_kql` returns (lines 126-152). */
  function FilterSpec(o: Oracles, events: seq<Event>, query: string): seq<Event>
  {
    var q := Strip(query);
    if q == [] then events
    else
      var tokens := Tokens(q);
      if tokens == [] then events
      else
        var p := Parse(tokens);
        if p.conditions == [] then events
        else Selected(o, events, p.conditions, p.operators)
  }

  /** No condition the filter evaluates raises. */
  predicate FilterDefined(o: Oracles, events: seq<Event>, query: string)
  {
    var p := Parse(Tokens(Strip(query)));
    p.conditions != [] ==> forall i | 0 <= i < |events| :: Eval(o, events[i], p.conditions, p.operators).Some?
  }

  /** Lines 141-147 for one event. */
  method EvalEvent(o: Oracles, ev: Event, conds: seq<Condition>, ops: seq<string>) returns (result: bool)
    requires |conds| >= 1 && |ops| == |conds| - 1
    requires Eval(o, ev, conds, ops).Some?
    ensures Eval(o, ev, conds, ops) == Some(result)
  {
    EvalPrefixDefined(o, ev, conds, ops, 1);
    assert conds[..1] == [conds[0]];
    result := Matches(o, ev, conds[0]).value;
    for j := 0 to |ops|
      invariant Eval(o, ev, conds[..j + 1], ops[..j]) == Some(result)
    {
      EvalSnoc(o, ev, conds, ops, j + 1);
      EvalPrefixDefined(o, ev, conds, ops, j + 2);
      if ops[j] == "and" {
        if result {
          result := Matches(o, ev, conds[j + 1]).value;
        }
      } else {
        if !result {
          result := Matches(o, ev, conds[j + 1]).value;
        }
      }
    }
    assert conds[..|ops| + 1] == conds && ops[..|ops|] == ops;
  }

  /** Lines 109-152. */
  method FilterEventsByKql(o: Oracles, events: seq<Event>, query: string) returns (filtered: seq<Event>)
    requires FilterDefined(o, events, query)
    ensures filtered == FilterSpec(o, events, query)
  {
    var q := Strip(query);
    if q == [] {
      return events;
    }
    var tokens := TokenizeKql(q);
    if tokens == [] {
      return events;
    }
    var conditions, operators := ParseKqlConditions(tokens);
    if conditions == [] {
      return events;
    }
    filtered := [];
    for n := 0 to |events|
      invariant filtered == Selected(o, events[..n], conditions, operators)
    {
      assert events[..n + 1][..n] == events[..n];
      var result := EvalEvent(o, events[n], conditions, operators);
      if result {
        filtered := filtered + [events[n]];
      }
    }
    assert events[..|events|] == events;
  }

  lemma EvalSnoc(o: Oracles, ev: Event, conds: seq<Condition>, ops: seq<string>, n: nat)
    requires |ops| == |conds| - 1 && 1 <= n < |conds|
    ensures Eval(o, ev, conds[..n + 1], ops[..n]) == Step(o, ev, Eval(o, ev, conds[..n], ops[..n - 1]), ops[n - 1], conds[n])
  {
    assert conds[..n + 1][..n] == conds[..n];
    assert ops[..n][..n - 1] == ops[..n - 1];
  }

  /** An exception ends the fold: when the whole fold does not raise, no prefix of it does. */
  lemma {:induction false} EvalPrefixDefined(o: Oracles, ev: Event, conds: seq<Condition>, ops: seq<string>, n: nat)
    requires |conds| >= 1 && |ops| == |conds| - 1 && 1 <= n <= |conds|
    requires Eval(o, ev, conds, ops).Some?
    ensures Eval(o, ev, conds[..n], ops[..n - 1]).Some?
    decreases |conds| - n
  {
    if n == |conds| {
      assert conds[..n] == conds && ops[..n - 1] == ops;
    } else {
      EvalPrefixDefined(o, ev, conds, ops, n + 1);
      EvalSnoc(o, ev, conds, ops, n);
    }
  }

  /**
   * Lines 126-136: a blank query, a query without tokens, or one without a condition
   * returns the events as they are; any other query keeps the events whose fold is true.
   */
  lemma FilterCases(o: Oracles, events: seq<Event>, query: string)
    ensures var p := Parse(Tokens(Strip(query)));
      (p.conditions == [] ==> FilterSpec(o, events, query) == events)
      && (p.conditions != [] ==> FilterSpec(o, events, query) == Selected(o, events, p.conditions, p.operators))
  {
    if Strip(query) == [] {
      assert Tokens(Strip(query)) == [];
    }
  }

  /** A query made only of operators, such as `and or`, filters nothing out. */
  lemma OperatorQueryKeepsAll(o: Oracles, events: seq<Event>, query: string)
    requires var tokens := Tokens(Strip(query));
      forall i | 0 <= i < |tokens| :: Lower(tokens[i]) == "and" || Lower(tokens[i]) == "or"
    ensures FilterSpec(o, events, query) == events
  {
    var tokens := Tokens(Strip(query));
    forall i | 0 <= i < |tokens|
      ensures Classify(tokens[i]).Operator?
    {
      OperatorCase(tokens[i]);
    }
    OperatorsOnly(tokens);
    FilterCases(o, events, query);
  }

  /** The positions of the events `Selected` keeps, in increasing order. */
  function KeptIndices(o: Oracles, events: seq<Event>, conds: seq<Condition>, ops: seq<string>): seq<nat>
    requires |conds| >= 1 && |ops| == |conds| - 1
  {
    if events == [] then []
    else
      var n := |events| - 1;
      KeptIndices(o, events[..n], conds, ops) + (if Eval(o, events[n], conds, ops) == Some(true) then [n] else [])
  }

  /**
   * Lines 138-152: the filter's output is the subsequence of the input at strictly
   * increasing positions, and a position is among them exactly when the event there
   * folds to true.
   */
  lemma {:induction false} SelectedSubsequence(o: Oracles, events: seq<Event>, conds: seq<Condition>, ops: seq<string>)
    requires |conds| >= 1 && |ops| == |conds| - 1
    ensures var idx := KeptIndices(o, events, conds, ops);
      var s := Selected(o, events, conds, ops);
      |s| == |idx|
      && (forall k | 0 <= k < |idx| :: idx[k] < |events| && s[k] == events[idx[k]])
      && (forall k, l | 0 <= k < l < |idx| :: idx[k] < idx[l])
      && (forall i | 0 <= i < |events| :: i in idx <==> Eval(o, events[i], conds, ops) == Some(true))
  {
    if events != [] {
      var n := |events| - 1;
      var pre := events[..n];
      SelectedSubsequence(o, pre, conds, ops);
      assert forall i | 0 <= i < n :: pre[i] == events[i];
    }
  }

  /** `c1 or c2 and c3` is `(c1 or c2) and c3`: a true first condition does not rescue a false last one. */
  lemma NoPrecedence(o: Oracles, ev: Event, c1: Condition, c2: Condition, c3: Condition)
    requires Matches(o, ev, c1) == Some(true) && Matches(o, ev, c3) == Some(false)
    ensures Eval(o, ev, [c1, c2, c3], ["or", "and"]) == Some(false)
  {
    var cs, ops := [c1, c2, c3], ["or", "and"];
    assert cs[..2] == [c1, c2] && [c1, c2][..1] == [c1];
    assert ops[..1] == ["or"] && ["or"][..0] == [];
    assert Eval(o, ev, [c1], []) == Some(true);
    assert Eval(o, ev, [c1, c2], ["or"]) == Some(true);
    assert Eval(o, ev, cs, ops) == Step(o, ev, Some(true), "and", c3);
  }

  /** Conditions `0..i-1` all hold and condition `i` is false: where an `and` chain stops. */
  predicate FirstFalse(o: Oracles, ev: Event, conds: seq<Condition>, i: int)
    requires 0 <= i < |conds|
  {
    Matches(o, ev, conds[i]) == Some(false) && forall k | 0 <= k < i :: Matches(o, ev, conds[k]) == Some(true)
  }

  /** Conditions `0..i-1` all fail and condition `i` holds: where an `or` chain stops. */
  predicate FirstTrue(o: Oracles, ev: Event, conds: seq<Condition>, i: int)
    requires 0 <= i < |conds|
  {
    Matches(o, ev, conds[i]) == Some(true) && forall k | 0 <= k < i :: Matches(o, ev, conds[k]) == Some(false)
  }

  predicate AllHold(o: Oracles, ev: Event, conds: seq<Condition>)
  {
    forall i | 0 <= i < |conds| :: Matches(o, ev, conds[i]) == Some(true)
  }

  predicate AllFail(o: Oracles, ev: Event, conds: seq<Condition>)
  {
    forall i | 0 <= i < |conds| :: Matches(o, ev, conds[i]) == Some(false)
  }

  predicate SomeFirstFalse(o: Oracles, ev: Event, conds: seq<Condition>)
  {
    exists i | 0 <= i < |conds| :: FirstFalse(o, ev, conds, i)
  }

  predicate SomeFirstTrue(o: Oracles, ev: Event, conds: seq<Condition>)
  {
    exists i | 0 <= i < |conds| :: FirstTrue(o, ev, conds, i)
  }

  /** How the four predicates above extend by one condition. */
  lemma ExtendAll(o: Oracles, ev: Event, conds: seq<Condition>)
    requires |conds| >= 2
    ensures var pre, m := conds[..|conds| - 1], Matches(o, ev, conds[|conds| - 1]);
      (AllHold(o, ev, conds) <==> AllHold(o, ev, pre) && m == Some(true))
      && (AllFail(o, ev, conds) <==> AllFail(o, ev, pre) && m == Some(false))
  {
    var n := |conds| - 1;
    assert forall i | 0 <= i < n :: conds[..n][i] == conds[i];
  }

  lemma ExtendFirstFalse(o: Oracles, ev: Event, conds: seq<Condition>)
    requires |conds| >= 2
    ensures var pre, m := conds[..|conds| - 1], Matches(o, ev, conds[|conds| - 1]);
      SomeFirstFalse(o, ev, conds) <==> SomeFirstFalse(o, ev, pre) || (AllHold(o, ev, pre) && m == Some(false))
  {
    var n := |conds| - 1;
    var pre := conds[..n];
    assert forall i | 0 <= i < n :: pre[i] == conds[i];
    assert forall i | 0 <= i < n :: FirstFalse(o, ev, pre, i) == FirstFalse(o, ev, conds, i);
    if AllHold(o, ev, pre) && Matches(o, ev, conds[n]) == Some(false) {
      assert FirstFalse(o, ev, conds, n);
    }
  }

  lemma ExtendFirstTrue(o: Oracles, ev: Event, conds: seq<Condition>)
    requires |conds| >= 2
    ensures var pre, m := conds[..|conds| - 1], Matches(o, ev, conds[|conds| - 1]);
      SomeFirstTrue(o, ev, conds) <==> SomeFirstTrue(o, ev, pre) || (AllFail(o, ev, pre) && m == Some(true))
  {
    var n := |conds| - 1;
    var pre := conds[..n];
    assert forall i | 0 <= i < n :: pre[i] == conds[i];
    assert forall i | 0 <= i < n :: FirstTrue(o, ev, pre, i) == FirstTrue(o, ev, conds, i);
    if AllFail(o, ev, pre) && Matches(o, ev, conds[n]) == Some(true) {
      assert FirstTrue(o, ev, conds, n);
    }
  }

  /**
   * With only `and`s the fold is true exactly when every condition holds, and false
   * exactly when some condition fails after all those before it held.
   */
  lemma {:induction false} AllAnd(o: Oracles, ev: Event, conds: seq<Condition>, ops: seq<string>)
    requires |conds| >= 1 && |ops| == |conds| - 1
    requires forall i | 0 <= i < |ops| :: ops[i] == "and"
    ensures Eval(o, ev, conds, ops) == Some(true) <==> AllHold(o, ev, conds)
    ensures Eval(o, ev, conds, ops) == Some(false) <==> SomeFirstFalse(o, ev, conds)
    decreases |conds|
  {
    var n := |conds| - 1;
    if n > 0 {
      AllAnd(o, ev, conds[..n], ops[..n - 1]);
      ExtendAll(o, ev, conds);
      ExtendFirstFalse(o, ev, conds);
    } else if Matches(o, ev, conds[0]) == Some(false) {
      assert FirstFalse(o, ev, conds, 0);
    }
  }

  /**
   * With only `or`s the fold is true exactly when some condition holds after all those
   * before it failed, and false exactly when every condition fails.
   */
  lemma {:induction false} AllOr(o: Oracles, ev: Event, conds: seq<Condition>, ops: seq<string>)
    requires |conds| >= 1 && |ops| == |conds| - 1
    requires forall i | 0 <= i < |ops| :: ops[i] == "or"
    ensures Eval(o, ev, conds, ops) == Some(false) <==> AllFail(o, ev, conds)
    ensures Eval(o, ev, conds, ops) == Some(true) <==> SomeFirstTrue(o, ev, conds)
    decreases |conds|
  {
    var n := |conds| - 1;
    if n > 0 {
      AllOr(o, ev, conds[..n], ops[..n - 1]);
      ExtendAll(o, ev, conds);
      ExtendFirstTrue(o, ev, conds);
    } else if Matches(o, ev, conds[0]) == Some(true) {
      assert FirstTrue(o, ev, conds, 0);
    }
  }

  /**
   * Lines 92-106 for a named field: a value under the field itself decides; failing that,
   * the `_` spelling of a dotted field; failing that, the top-level key of `structured`;
   * when all three are `None` the condition is false.
   */
  lemma FieldLookupOrder(o: Oracles, ev: Event, c: Condition)
    requires c.field != "_all"
    ensures var v := Get(ev, c.field);
      !IsNone(v) ==> Matches(o, ev, c) == Some(Shows(o, v.value, Lower(c.value)))
    ensures var alt := Get(ev, ReplaceChar(c.field, '.', "_"));
      IsNone(Get(ev, c.field)) && '.' in c.field && !IsNone(alt) ==>
        Matches(o, ev, c) == Some(Shows(o, alt.value, Lower(c.value)))
    ensures IsNone(DirectLookup(ev, c.field)) && StructuredLookup(ev, c.field) == Some(Some(None_)) ==>
      Matches(o, ev, c) == Some(false)
    ensures IsNone(DirectLookup(ev, c.field)) && StructuredLookup(ev, c.field) == Some(None) ==>
      Matches(o, ev, c) == Some(false)
  {
  }

  /**
   * Line 101 is a key lookup, not a path walk: when `structured` is an object holding
   * `field`, the third step reads that key's value, whatever dots `field` contains.
   */
  lemma StructuredKey(o: Oracles, ev: Event, c: Condition, members: Dict<Json>)
    requires c.field != "_all" && IsNone(DirectLookup(ev, c.field))
    requires Get(ev, "structured") == Some(VJson(JObj(members))) && members != []
    ensures !HasKey(members, c.field) ==> Matches(o, ev, c) == Some(false)
    ensures var w := GetOrNull(members, c.field);
      HasKey(members, c.field) && w != JNull ==> Matches(o, ev, c) == Some(Shows(o, VJson(w), Lower(c.value)))
  {
  }

  /**
   * Lines 74-90: an `_all` condition holds exactly when the lower-cased value occurs in
   * some non-`None` entry other than `structured`, or in some non-`None` top-level value
   * of `structured`; it is false when neither holds, unless `structured` is not a dict.
   */
  lemma AllSearch(o: Oracles, ev: Event, c: Condition)
    requires c.field == "_all"
    ensures Matches(o, ev, c) == Some(true) <==>
      EntriesShow(o, ev, Lower(c.value))
      || (StructuredValues(ev).Some? && exists j | 0 <= j < |StructuredValues(ev).value| :: MemberShows(o, StructuredValues(ev).value, j, Lower(c.value)))
    ensures Matches(o, ev, c).None? <==> StructuredValues(ev).None? && !EntriesShow(o, ev, Lower(c.value))
  {
    var value := Lower(c.value);
    assert Matches(o, ev, c) == MatchAll(o, ev, value);
  }

  /** The comparison ignores letter case in the condition's value. */
  lemma CaseInsensitive(o: Oracles, ev: Event, field: string, value: string)
    ensures Matches(o, ev, Condition(field, value)) == Matches(o, ev, Condition(field, Lower(value)))
  {
    var low := Lower(value);
    assert forall i | 0 <= i < |low| :: low[i] == LowerChar(value[i]);
    LowerOfLower(low);
  }

  /**
   * A field holding a string is searched as written: `field:value` holds exactly when the
   * lower-cased string contains the lower-cased value.
   */
  lemma StringFieldMatch(o: Oracles, ev: Event, field: string, value: string, s: string)
    requires StrKeepsStrings(o) && field != "_all" && Get(ev, field) == Some(VJson(JStr(s)))
    ensures Matches(o, ev, Condition(field, value)) == Some(Contains(Lower(s), Lower(value)))
  {
    assert !IsNone(Get(ev, field));
    assert o.str(VJson(JStr(s))) == s;
  }
}
