/**
 * `tokenize_kql` (kql_parser.py): the query is scanned with the pattern
 * `([\w\.-]+:"[^"]*")|(\S+)` and every match becomes a token. At a whitespace
 * position neither alternative matches and the scan moves on; at any other position
 * the first alternative is tried, and the second one takes the rest of the run of
 * non-whitespace characters when it fails.
 */
module KqlTokenizer {
  import opened Text

  /** The class `[\w\.-]` of the first alternative. */
  predicate IsFieldChar(c: char)
  {
    IsWordChar(c) || c == '.' || c == '-'
  }

  /** End of the longest run of field characters starting at `i`. */
  function FieldRunEnd(q: string, i: nat): (r: nat)
    requires i <= |q|
    ensures i <= r <= |q|
    decreases |q| - i
  {
    if i < |q| && IsFieldChar(q[i]) then FieldRunEnd(q, i + 1) else i
  }

  /** End of the longest run of non-whitespace characters starting at `i` (`\S+`). */
  function WordEnd(q: string, i: nat): (r: nat)
    requires i <= |q|
    ensures i <= r <= |q|
    decreases |q| - i
  {
    if i < |q| && !IsSpace(q[i]) then WordEnd(q, i + 1) else i
  }

  /** The first `"` at or after `i`, or `|q|` when there is none (`[^"]*"`). */
  function QuoteFrom(q: string, i: nat): (r: nat)
    requires i <= |q|
    ensures i <= r <= |q|
    decreases |q| - i
  {
    if i < |q| && q[i] != '"' then QuoteFrom(q, i + 1) else i
  }

  lemma {:induction false} FieldRun(q: string, i: nat)
    requires i <= |q|
    ensures forall k | i <= k < FieldRunEnd(q, i) :: IsFieldChar(q[k])
    ensures FieldRunEnd(q, i) == |q| || !IsFieldChar(q[FieldRunEnd(q, i)])
    decreases |q| - i
  {
    if i < |q| && IsFieldChar(q[i]) {
      FieldRun(q, i + 1);
    }
  }

  lemma {:induction false} WordRun(q: string, i: nat)
    requires i <= |q|
    ensures forall k | i <= k < WordEnd(q, i) :: !IsSpace(q[k])
    ensures WordEnd(q, i) == |q| || IsSpace(q[WordEnd(q, i)])
    decreases |q| - i
  {
    if i < |q| && !IsSpace(q[i]) {
      WordRun(q, i + 1);
    }
  }

  lemma {:induction false} QuoteRun(q: string, i: nat)
    requires i <= |q|
    ensures forall k | i <= k < QuoteFrom(q, i) :: q[k] != '"'
    ensures QuoteFrom(q, i) == |q| || q[QuoteFrom(q, i)] == '"'
    decreases |q| - i
  {
    if i < |q| && q[i] != '"' {
      QuoteRun(q, i + 1);
    }
  }

  /**
   * `[\w\.-]+:"[^"]*"` matches at `i`: the longest field run (no shorter one can be
   * followed by `:`, which is not a field character) is followed by `:"` and a later `"`.
   */
  predicate QuotedMatchAt(q: string, i: nat)
    requires i <= |q|
  {
    var f := FieldRunEnd(q, i);
    f > i && f + 1 < |q| && q[f] == ':' && q[f + 1] == '"' && QuoteFrom(q, f + 2) < |q|
  }

  /** Where the match starting at the non-whitespace position `i` ends. */
  function MatchEnd(q: string, i: nat): (r: nat)
    requires i < |q| && !IsSpace(q[i])
    ensures i < r <= |q|
  {
    if QuotedMatchAt(q, i) then QuoteFrom(q, FieldRunEnd(q, i) + 2) + 1 else WordEnd(q, i)
  }

  /** The tokens `re.finditer` yields from position `i` on. */
  function TokensFrom(q: string, i: nat): seq<string>
    requires i <= |q|
    decreases |q| - i
  {
    if i == |q| then []
    else if IsSpace(q[i]) then TokensFrom(q, i + 1)
    else [q[i..MatchEnd(q, i)]] + TokensFrom(q, MatchEnd(q, i))
  }

  function Tokens(query: string): seq<string>
  {
    TokensFrom(query, 0)
  }

  /** Lines 15-20: one token per match, in the order of the matches. */
  method TokenizeKql(query: string) returns (tokens: seq<string>)
    ensures tokens == Tokens(query)
  {
    tokens := [];
    var i := 0;
    while i < |query|
      invariant i <= |query|
      invariant tokens + TokensFrom(query, i) == Tokens(query)
      decreases |query| - i
    {
      if IsSpace(query[i]) {
        i := i + 1;
      } else {
        var e := MatchEnd(query, i);
        tokens := tokens + [query[i..e]];
        i := e;
      }
    }
  }

  /** The shape `field:"value"` of the first alternative: a field run, `:"`, no `"`, then `"`. */
  predicate QuotedToken(t: string)
  {
    exists f | 1 <= f <= |t| - 3 :: QuotedTokenAt(t, f)
  }

  predicate QuotedTokenAt(t: string, f: nat)
    requires 1 <= f <= |t| - 3
  {
    && (forall k | 0 <= k < f :: IsFieldChar(t[k]))
    && t[f] == ':' && t[f + 1] == '"' && t[|t| - 1] == '"'
    && (forall k | f + 2 <= k < |t| - 1 :: t[k] != '"')
  }

  predicate TokenShape(t: string)
  {
    t != [] && !IsSpace(t[0]) && (HasSpace(t) ==> QuotedToken(t))
  }

  lemma MatchShape(q: string, i: nat)
    requires i < |q| && !IsSpace(q[i])
    ensures TokenShape(q[i..MatchEnd(q, i)])
  {
    var e := MatchEnd(q, i);
    var t := q[i..e];
    if QuotedMatchAt(q, i) {
      var f := FieldRunEnd(q, i);
      FieldRun(q, i);
      QuoteRun(q, f + 2);
      assert QuotedTokenAt(t, f - i);
    } else {
      WordRun(q, i);
      assert forall k | 0 <= k < |t| :: t[k] == q[i + k];
    }
  }

  lemma {:induction false} TokensFromShape(q: string, i: nat)
    requires i <= |q|
    ensures forall k | 0 <= k < |TokensFrom(q, i)| :: TokenShape(TokensFrom(q, i)[k])
    decreases |q| - i
  {
    if i < |q| {
      if IsSpace(q[i]) {
        TokensFromShape(q, i + 1);
      } else {
        MatchShape(q, i);
        TokensFromShape(q, MatchEnd(q, i));
      }
    }
  }

  /**
   * Every token is non-empty and starts with a non-whitespace character, and a token
   * holding whitespace has the quoted form `field:"…"`: the `\S+` alternative never spans
   * whitespace.
   */
  lemma TokensShape(query: string)
    ensures forall k | 0 <= k < |Tokens(query)| :: TokenShape(Tokens(query)[k])
  {
    TokensFromShape(query, 0);
  }

  lemma {:induction false} NoTokensFromIffBlank(q: string, i: nat)
    requires i <= |q|
    ensures TokensFrom(q, i) == [] <==> forall k | i <= k < |q| :: IsSpace(q[k])
    decreases |q| - i
  {
    if i < |q| {
      NoTokensFromIffBlank(q, i + 1);
    }
  }

  /** A query has no tokens exactly when it is whitespace only. */
  lemma NoTokensIffBlank(query: string)
    ensures Tokens(query) == [] <==> forall k | 0 <= k < |query| :: IsSpace(query[k])
  {
    NoTokensFromIffBlank(query, 0);
  }

  /** The non-whitespace characters of `s`, in order. */
  function Visible(s: string): string
  {
    if s == [] then [] else Visible(s[..|s| - 1]) + (if IsSpace(s[|s| - 1]) then [] else [s[|s| - 1]])
  }

  function Concat(ts: seq<string>): string
  {
    if ts == [] then [] else ts[0] + Concat(ts[1..])
  }

  lemma {:induction false} VisibleAppend(a: string, b: string)
    ensures Visible(a + b) == Visible(a) + Visible(b)
  {
    if b != [] {
      assert (a + b)[..|a + b| - 1] == a + b[..|b| - 1];
      VisibleAppend(a, b[..|b| - 1]);
    } else {
      assert a + b == a;
    }
  }

  lemma {:induction false} VisibleFrom(q: string, i: nat)
    requires i <= |q|
    ensures Visible(Concat(TokensFrom(q, i))) == Visible(q[i..])
    decreases |q| - i
  {
    if i < |q| {
      assert q[i..] == [q[i]] + q[i + 1..];
      VisibleAppend([q[i]], q[i + 1..]);
      assert Visible([q[i]]) == (if IsSpace(q[i]) then [] else [q[i]]) by {
        assert [q[i]][..0] == [];
      }
      if IsSpace(q[i]) {
        VisibleFrom(q, i + 1);
      } else {
        var e := MatchEnd(q, i);
        VisibleFrom(q, e);
        assert q[i..] == q[i..e] + q[e..];
        VisibleAppend(q[i..e], q[e..]);
        VisibleAppend(q[i..e], Concat(TokensFrom(q, e)));
      }
    }
  }

  /**
   * No visible character is lost or invented: the tokens hold, in order, exactly the
   * non-whitespace characters of the query.
   */
  lemma TokensCoverQuery(query: string)
    ensures Visible(Concat(Tokens(query))) == Visible(query)
  {
    VisibleFrom(query, 0);
    assert query[0..] == query;
  }

  predicate AllFieldChars(w: string)
  {
    w == [] || (IsFieldChar(w[0]) && AllFieldChars(w[1..]))
  }

  predicate NoSpaceChars(w: string)
  {
    w == [] || (!IsSpace(w[0]) && NoSpaceChars(w[1..]))
  }

  predicate NoQuoteChars(w: string)
  {
    w == [] || (w[0] != '"' && NoQuoteChars(w[1..]))
  }

  /** A field run passes over a stretch of field characters. */
  lemma {:induction false} FieldRunOver(q: string, i: nat, w: string)
    requires i + |w| <= |q| && q[i..i + |w|] == w && AllFieldChars(w)
    ensures FieldRunEnd(q, i) == FieldRunEnd(q, i + |w|)
    decreases |w|
  {
    if w != [] {
      assert q[i + 1..i + |w|] == w[1..];
      FieldRunOver(q, i + 1, w[1..]);
    }
  }

  lemma {:induction false} WordRunOver(q: string, i: nat, w: string)
    requires i + |w| <= |q| && q[i..i + |w|] == w && NoSpaceChars(w)
    ensures WordEnd(q, i) == WordEnd(q, i + |w|)
    decreases |w|
  {
    if w != [] {
      assert q[i + 1..i + |w|] == w[1..];
      WordRunOver(q, i + 1, w[1..]);
    }
  }

  lemma {:induction false} QuoteRunOver(q: string, i: nat, w: string)
    requires i + |w| <= |q| && q[i..i + |w|] == w && NoQuoteChars(w)
    ensures QuoteFrom(q, i) == QuoteFrom(q, i + |w|)
    decreases |w|
  {
    if w != [] {
      assert q[i + 1..i + |w|] == w[1..];
      QuoteRunOver(q, i + 1, w[1..]);
    }
  }

  lemma {:induction false} FieldCharsNoSpace(w: string)
    requires AllFieldChars(w)
    ensures NoSpaceChars(w)
    decreases |w|
  {
    if w != [] {
      FieldCharsNoSpace(w[1..]);
    }
  }

  /** `s` is the text of `q` from position `d` on. */
  predicate SuffixAt(q: string, s: string, d: nat)
  {
    |q| == d + |s| && forall k | 0 <= k < |s| :: q[d + k] == s[k]
  }

  lemma SuffixOfAppend(pre: string, s: string)
    ensures SuffixAt(pre + s, s, |pre|)
  {
  }

  lemma {:induction false} FieldRunShift(q: string, s: string, d: nat, i: nat)
    requires SuffixAt(q, s, d) && i <= |s|
    ensures FieldRunEnd(q, d + i) == d + FieldRunEnd(s, i)
    decreases |s| - i
  {
    if i < |s| {
      assert q[d + i] == s[i];
      FieldRunShift(q, s, d, i + 1);
    }
  }

  lemma {:induction false} WordEndShift(q: string, s: string, d: nat, i: nat)
    requires SuffixAt(q, s, d) && i <= |s|
    ensures WordEnd(q, d + i) == d + WordEnd(s, i)
    decreases |s| - i
  {
    if i < |s| {
      assert q[d + i] == s[i];
      WordEndShift(q, s, d, i + 1);
    }
  }

  lemma {:induction false} QuoteFromShift(q: string, s: string, d: nat, i: nat)
    requires SuffixAt(q, s, d) && i <= |s|
    ensures QuoteFrom(q, d + i) == d + QuoteFrom(s, i)
    decreases |s| - i
  {
    if i < |s| {
      assert q[d + i] == s[i];
      QuoteFromShift(q, s, d, i + 1);
    }
  }

  lemma MatchShift(q: string, s: string, d: nat, i: nat)
    requires SuffixAt(q, s, d) && i < |s| && !IsSpace(s[i])
    ensures q[d + i] == s[i]
    ensures MatchEnd(q, d + i) == d + MatchEnd(s, i)
  {
    assert q[d + i] == s[i];
    FieldRunShift(q, s, d, i);
    var f := FieldRunEnd(s, i);
    if f + 2 <= |s| {
      QuoteFromShift(q, s, d, f + 2);
    }
    if f + 1 < |s| {
      assert q[d + f] == s[f] && q[d + f + 1] == s[f + 1];
    }
    WordEndShift(q, s, d, i);
    assert QuotedMatchAt(q, d + i) == QuotedMatchAt(s, i);
  }

  /** What the scan yields from a position depends only on the text from there on. */
  lemma {:induction false} TokensShift(q: string, s: string, d: nat, i: nat)
    requires SuffixAt(q, s, d) && i <= |s|
    ensures TokensFrom(q, d + i) == TokensFrom(s, i)
    decreases |s| - i
  {
    if i < |s| {
      if IsSpace(s[i]) {
        TokensShift(q, s, d, i + 1);
        SpaceShift(q, s, d, i);
      } else {
        TokensShift(q, s, d, MatchEnd(s, i));
        MatchStepShift(q, s, d, i);
      }
    }
  }

  lemma SpaceShift(q: string, s: string, d: nat, i: nat)
    requires SuffixAt(q, s, d) && i < |s| && IsSpace(s[i])
    requires TokensFrom(q, d + i + 1) == TokensFrom(s, i + 1)
    ensures TokensFrom(q, d + i) == TokensFrom(s, i)
  {
    assert q[d + i] == s[i];
  }

  lemma MatchStepShift(q: string, s: string, d: nat, i: nat)
    requires SuffixAt(q, s, d) && i < |s| && !IsSpace(s[i])
    requires TokensFrom(q, d + MatchEnd(s, i)) == TokensFrom(s, MatchEnd(s, i))
    ensures TokensFrom(q, d + i) == TokensFrom(s, i)
  {
    MatchShift(q, s, d, i);
    StepTransfer(q, s, d, i);
  }

  lemma SliceShift(q: string, s: string, d: nat, i: nat, e: nat)
    requires SuffixAt(q, s, d) && i <= e <= |s|
    ensures q[d + i..d + e] == s[i..e]
  {
    assert forall k | 0 <= k < e - i :: q[d + i..d + e][k] == s[i..e][k] by {
      forall k | 0 <= k < e - i
        ensures q[d + i..d + e][k] == s[i..e][k]
      {
        assert q[d + (i + k)] == s[i + k];
      }
    }
  }

  /** A match taken at the same place of the same text, followed by the same tokens, gives the same tokens. */
  lemma StepTransfer(q: string, s: string, d: nat, i: nat)
    requires SuffixAt(q, s, d) && i < |s| && !IsSpace(s[i]) && q[d + i] == s[i]
    requires MatchEnd(q, d + i) == d + MatchEnd(s, i)
    requires TokensFrom(q, d + MatchEnd(s, i)) == TokensFrom(s, MatchEnd(s, i))
    ensures TokensFrom(q, d + i) == TokensFrom(s, i)
  {
    var e := MatchEnd(s, i);
    SliceShift(q, s, d, i, e);
    TokensStep(q, d + i, d + e);
    TokensStep(s, i, e);
    var tail := TokensFrom(s, e);
    assert TokensFrom(q, d + i) == [s[i..e]] + tail;
  }

  /** One match of the scan. */
  lemma TokensStep(q: string, i: nat, e: nat)
    requires i < |q| && !IsSpace(q[i]) && e == MatchEnd(q, i)
    ensures TokensFrom(q, i) == [q[i..e]] + TokensFrom(q, e)
  {
  }

  /** `field:"value"` at the start of a query is matched by the first alternative as a whole. */
  lemma QuotedLead(field: string, value: string, rest: string)
    requires field != [] && AllFieldChars(field) && NoQuoteChars(value)
    ensures var t := field + ":\"" + value + "\"";
      MatchEnd(t + rest, 0) == |t| && (t + rest)[0..|t|] == t
  {
    var t := field + ":\"" + value + "\"";
    var q := t + rest;
    assert q[0..|field|] == field;
    FieldRunOver(q, 0, field);
    assert q[|field|] == ':' && q[|field| + 1] == '"';
    assert q[|field| + 2..|field| + 2 + |value|] == value;
    QuoteRunOver(q, |field| + 2, value);
    assert q[|t| - 1] == '"';
  }

  /** A run of non-whitespace that is not of the quoted form is matched by `\S+` up to the next whitespace. */
  lemma BareLead(w: string, rest: string)
    requires w != [] && NoSpaceChars(w) && (rest == [] || IsSpace(rest[0]))
    requires !QuotedMatchAt(w + rest, 0)
    ensures !IsSpace((w + rest)[0]) && MatchEnd(w + rest, 0) == |w| && (w + rest)[0..|w|] == w
  {
    var q := w + rest;
    assert q[0..|w|] == w;
    WordRunOver(q, 0, w);
  }

  /** A whole query of non-whitespace that is not of the quoted form is a single token. */
  lemma BareWhole(w: string)
    requires w != [] && NoSpaceChars(w) && !QuotedMatchAt(w, 0)
    ensures Tokens(w) == [w]
  {
    assert w[0..|w|] == w;
    WordRunOver(w, 0, w);
    assert MatchEnd(w, 0) == |w|;
    assert TokensFrom(w, |w|) == [];
  }

  lemma BareCondition(field: string, value: string)
    requires field != [] && AllFieldChars(field)
    requires value != [] && NoSpaceChars(value) && value[0] != '"'
    ensures Tokens(field + ":" + value) == [field + ":" + value]
  {
    BareNotQuoted(field, value);
    BareNoSpace(field, value);
    BareWhole(field + ":" + value);
  }

  /** `field:value` with a value not opening a quote does not match the first alternative. */
  lemma BareNotQuoted(field: string, value: string)
    requires field != [] && AllFieldChars(field)
    requires value != [] && value[0] != '"'
    ensures !QuotedMatchAt(field + ":" + value, 0)
  {
    var t := field + ":" + value;
    assert t[0..|field|] == field;
    FieldRunOver(t, 0, field);
    assert t[|field|] == ':' && t[|field| + 1] == value[0];
  }

  lemma BareNoSpace(field: string, value: string)
    requires AllFieldChars(field) && NoSpaceChars(value)
    ensures NoSpaceChars(field + ":" + value)
  {
    FieldCharsNoSpace(field);
    assert (":" + value)[1..] == value;
    assert field + ":" + value == field + (":" + value);
    NoSpaceAppend(field, ":" + value);
  }

  lemma {:induction false} NoSpaceAppend(a: string, b: string)
    requires NoSpaceChars(a) && NoSpaceChars(b)
    ensures NoSpaceChars(a + b)
    decreases |a|
  {
    if a != [] {
      assert (a + b)[1..] == a[1..] + b;
      NoSpaceAppend(a[1..], b);
    } else {
      assert a + b == b;
    }
  }

  /** A leading match that ends exactly at the end of `t` contributes `t` and the scan goes on with `rest`. */
  lemma TokensLead(t: string, rest: string)
    requires t != [] && !IsSpace((t + rest)[0]) && MatchEnd(t + rest, 0) == |t|
    ensures Tokens(t + rest) == [t] + Tokens(rest)
  {
    assert (t + rest)[0..|t|] == t;
    SuffixOfAppend(t, rest);
    TokensShift(t + rest, rest, |t|, 0);
  }

  /** Leading whitespace is skipped. */
  lemma TokensSkip(rest: string)
    ensures Tokens(" " + rest) == Tokens(rest)
  {
    var q := " " + rest;
    SuffixOfAppend(" ", rest);
    assert q[0] == ' ';
    assert TokensFrom(q, 0) == TokensFrom(q, 1);
    TokensShift(q, rest, 1, 0);
  }

  lemma AndLead(rest: string)
    requires rest == [] || IsSpace(rest[0])
    ensures Tokens("and" + rest) == ["and"] + Tokens(rest)
  {
    var w := "and" + rest;
    assert w[0..3] == "and";
    FieldRunOver(w, 0, "and");
    BareLead("and", rest);
    TokensLead("and", rest);
  }

  lemma QuotedLeadTokens(field: string, value: string, rest: string)
    requires field != [] && AllFieldChars(field) && NoQuoteChars(value)
    ensures Tokens((field + ":\"" + value + "\"") + rest) == [field + ":\"" + value + "\""] + Tokens(rest)
  {
    QuotedLead(field, value, rest);
    FieldCharsNoSpace(field);
    TokensLead(field + ":\"" + value + "\"", rest);
  }

  /**
   * A quoted condition, `and` and a bare condition, as in the docstring, give exactly
   * three tokens: the quoted value keeps its whitespace, the operator stands alone and
   * the bare condition runs to the end of the query.
   */
  lemma QuotedAndBare(field: string, value: string, field2: string, value2: string)
    requires field != [] && AllFieldChars(field) && NoQuoteChars(value)
    requires field2 != [] && AllFieldChars(field2)
    requires value2 != [] && NoSpaceChars(value2) && value2[0] != '"'
    ensures Tokens((field + ":\"" + value + "\"") + (" " + ("and" + (" " + (field2 + ":" + value2)))))
      == [field + ":\"" + value + "\"", "and", field2 + ":" + value2]
  {
    var t1 := field + ":\"" + value + "\"";
    var t3 := field2 + ":" + value2;
    QuotedLeadTokens(field, value, " " + ("and" + (" " + t3)));
    TokensSkip("and" + (" " + t3));
    AndLead(" " + t3);
    TokensSkip(t3);
    BareCondition(field2, value2);
  }
}
