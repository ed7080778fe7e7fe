/**
 * `parse_kql_conditions` (kql_parser.py): each token is an operator (`and`/`or` in any
 * case), a `field:value` condition split at its first colon, or a free-text condition on
 * the pseudo-field `_all`. When the operators do not number one fewer than the
 * conditions, they are silently replaced by that many `and`s.
 */
module KqlParser {
  import opened Text
  import KqlTokenizer

  datatype Condition = Condition(field: string, value: string)

  datatype Token = Operator(op: string) | Term(cond: Condition)

  /** `val[1:-1]` when `val` both starts and ends with `"` (lines 51-52); a lone `"` becomes empty. */
  function Unquote(v: string): (r: string)
    ensures |r| <= |v|
  {
    if StartsWith(v, "\"") && EndsWith(v, "\"") then (if |v| >= 2 then v[1..|v| - 1] else []) else v
  }

  /** How one token is read (lines 42-55). */
  function Classify(token: string): (r: Token)
    ensures r.Operator? ==> r.op == "and" || r.op == "or"
  {
    var low := Lower(token);
    if low == "and" || low == "or" then Operator(low)
    else
      var k := Find(token, ':');
      if k != -1 then Term(Condition(Strip(token[..k]), Unquote(Strip(token[k + 1..]))))
      else Term(Condition("_all", token))
  }

  /** The conditions the loop of lines 41-55 appends, in token order. */
  function RawConditions(tokens: seq<string>): seq<Condition>
  {
    if tokens == [] then []
    else
      var t := Classify(tokens[|tokens| - 1]);
      RawConditions(tokens[..|tokens| - 1]) + (if t.Term? then [t.cond] else [])
  }

  /** The operators the loop of lines 41-55 appends, lower-cased, in token order. */
  function RawOperators(tokens: seq<string>): seq<string>
  {
    if tokens == [] then []
    else
      var t := Classify(tokens[|tokens| - 1]);
      RawOperators(tokens[..|tokens| - 1]) + (if t.Operator? then [t.op] else [])
  }

  function Expected(conditions: seq<Condition>): nat
  {
    if |conditions| == 0 then 0 else |conditions| - 1
  }

  function Ands(n: nat): (r: seq<string>)
    ensures |r| == n && forall i | 0 <= i < n :: r[i] == "and"
  {
    seq(n, _ => "and")
  }

  /** Lines 57-58: the repair. */
  function Repair(conditions: seq<Condition>, operators: seq<string>): (r: seq<string>)
    ensures |r| == Expected(conditions)
  {
    if |operators| != Expected(conditions) then Ands(Expected(conditions)) else operators
  }

  datatype Parsed = Parsed(conditions: seq<Condition>, operators: seq<string>)

  function Parse(tokens: seq<string>): Parsed
  {
    var c := RawConditions(tokens);
    Parsed(c, Repair(c, RawOperators(tokens)))
  }

  /** Lines 38-60. */
  method ParseKqlConditions(tokens: seq<string>) returns (conditions: seq<Condition>, operators: seq<string>)
    ensures Parsed(conditions, operators) == Parse(tokens)
  {
    conditions, operators := ClassifyAll(tokens);
    if |operators| != Expected(conditions) {
      operators := Ands(Expected(conditions));
    }
  }

  /** Lines 41-55. */
  method ClassifyAll(tokens: seq<string>) returns (conditions: seq<Condition>, operators: seq<string>)
    ensures conditions == RawConditions(tokens) && operators == RawOperators(tokens)
  {
    conditions := [];
    operators := [];
    for i := 0 to |tokens|
      invariant conditions == RawConditions(tokens[..i])
      invariant operators == RawOperators(tokens[..i])
    {
      assert tokens[..i + 1][..i] == tokens[..i];
      var t := Classify(tokens[i]);
      if t.Operator? {
        operators := operators + [t.op];
      } else {
        conditions := conditions + [t.cond];
      }
    }
    assert tokens[..|tokens|] == tokens;
  }

  /**
   * Whatever the tokens, there is one operator fewer than there are conditions (none when
   * there are none), and every operator is `and` or `or`.
   */
  lemma OperatorCount(tokens: seq<string>)
    ensures var p := Parse(tokens);
      |p.operators| == Expected(p.conditions)
      && forall i | 0 <= i < |p.operators| :: p.operators[i] == "and" || p.operators[i] == "or"
  {
    RawOperatorsValid(tokens);
  }

  lemma {:induction false} RawOperatorsValid(tokens: seq<string>)
    ensures forall i | 0 <= i < |RawOperators(tokens)| :: RawOperators(tokens)[i] == "and" || RawOperators(tokens)[i] == "or"
  {
    if tokens != [] {
      RawOperatorsValid(tokens[..|tokens| - 1]);
    }
  }

  /**
   * The operators as written are kept exactly when their number is right; otherwise every
   * operator is `and`, wherever the written ones stood.
   */
  lemma RepairKeepsOrReplaces(tokens: seq<string>)
    ensures var raw := RawOperators(tokens);
      var p := Parse(tokens);
      (|raw| == Expected(p.conditions) ==> p.operators == raw)
      && (|raw| != Expected(p.conditions) ==> forall i | 0 <= i < |p.operators| :: p.operators[i] == "and")
  {
  }

  /** Every token becomes exactly one condition or one operator. */
  lemma {:induction false} EveryTokenCounted(tokens: seq<string>)
    ensures |RawConditions(tokens)| + |RawOperators(tokens)| == |tokens|
  {
    if tokens != [] {
      EveryTokenCounted(tokens[..|tokens| - 1]);
    }
  }

  /** Tokens that are all operators, such as `and or`, leave no condition. */
  lemma {:induction false} OperatorsOnly(tokens: seq<string>)
    requires forall i | 0 <= i < |tokens| :: Classify(tokens[i]).Operator?
    ensures Parse(tokens).conditions == []
  {
    if tokens != [] {
      OperatorsOnly(tokens[..|tokens| - 1]);
    }
  }

  /** Unquoting strips exactly one pair of surrounding quotes and leaves other values alone. */
  lemma UnquoteSpec(v: string)
    ensures Unquote("\"" + v + "\"") == v
    ensures !StartsWith(v, "\"") || !EndsWith(v, "\"") ==> Unquote(v) == v
  {
    var w := "\"" + v + "\"";
    assert StartsWith(w, "\"") && EndsWith(w, "\"");
    assert w[1..|w| - 1] == v;
  }

  /** A token without a colon that is not an operator searches every field for itself. */
  lemma FreeText(token: string)
    requires ':' !in token && Lower(token) != "and" && Lower(token) != "or"
    ensures Classify(token) == Term(Condition("_all", token))
  {
  }

  /** `and`/`or` are operators in any letter case. */
  lemma OperatorCase(token: string)
    ensures Classify(token).Operator? <==> Lower(token) == "and" || Lower(token) == "or"
    ensures Classify(token).Operator? ==> Classify(token).op == Lower(token)
  {
  }

  lemma {:induction false} FieldCharsNoColon(w: string)
    requires KqlTokenizer.AllFieldChars(w)
    ensures forall k | 0 <= k < |w| :: w[k] != ':' && !IsSpace(w[k])
    decreases |w|
  {
    if w != [] {
      FieldCharsNoColon(w[1..]);
      assert forall k | 1 <= k < |w| :: w[k] == w[1..][k - 1];
    }
  }

  /**
   * A token of the tokenizer's quoted form `field:"value"` reads as the condition on
   * `field` with the value between the quotes, whitespace inside the quotes kept.
   */
  lemma QuotedCondition(field: string, value: string)
    requires field != [] && KqlTokenizer.AllFieldChars(field)
    ensures Classify(field + ":\"" + value + "\"") == Term(Condition(field, value))
  {
    var rest := "\"" + value + "\"";
    var t := field + ":\"" + value + "\"";
    assert t == field + [':'] + rest;
    FieldCharsNoColon(field);
    ColonAfter(field, rest);
    ClassifyColon(t, |field|);
    StripField(field);
    StripQuoted(value);
  }

  lemma StripField(field: string)
    requires field != [] && forall k | 0 <= k < |field| :: field[k] != ':' && !IsSpace(field[k])
    ensures Strip(field) == field
  {
    StripOfStripped(field);
  }

  lemma StripQuoted(value: string)
    ensures Unquote(Strip("\"" + value + "\"")) == value
  {
    var rest := "\"" + value + "\"";
    assert rest[0] == '"' && rest[|rest| - 1] == '"';
    StripOfStripped(rest);
    UnquoteSpec(value);
  }

  /** A token whose first colon is at `k` is split there, both sides stripped, the value unquoted. */
  lemma ClassifyColon(t: string, k: nat)
    requires Find(t, ':') == k
    ensures Classify(t) == Term(Condition(Strip(t[..k]), Unquote(Strip(t[k + 1..]))))
  {
    var low := Lower(t);
    assert low[k] == ':';
    assert low != "and" && low != "or";
    var colon := Find(t, ':');
    assert colon == k && colon != -1;
  }

  /** The first colon of `field:rest` is the one after `field` when `field` has none. */
  lemma ColonAfter(field: string, rest: string)
    requires forall k | 0 <= k < |field| :: field[k] != ':' && !IsSpace(field[k])
    ensures var t := field + [':'] + rest;
      Find(t, ':') == |field| && t[..|field|] == field && t[|field| + 1..] == rest
  {
    var t := field + [':'] + rest;
    assert t[|field|] == ':';
    assert forall k | 0 <= k < |field| :: t[k] == field[k];
    assert t[..|field|] == field;
    assert t[|field| + 1..] == rest;
  }
}
