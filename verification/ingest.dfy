/**
 * `parse_ndjson_file` (app.py): numbered lines, already decoded to text, become the list
 * of accepted events, the list of line errors and the list of warnings.
 */
module Ingest {
  import opened Wrappers
  import opened Dicts
  import opened Values
  import opened Library
  import opened Normalizer
  import Text

  /** `{"line": idx, "error": ...}`. */
  datatype LineError = LineError(line: nat, error: Value)

  datatype Ingested = Ingested(events: seq<Dict<Value>>, errors: seq<LineError>, warnings: seq<string>)

  /** What one line contributes. */
  datatype LineOutcome = Skipped | Rejected(err: LineError) | Loaded(event: Dict<Value>, warnings: seq<string>)

  /** Normalising the decoded line does not raise. */
  predicate LineDefined(o: Oracles, line: string)
  {
    var s := Text.Strip(line);
    s != [] && o.loads(s).Success? ==> NormalizeDefined(o, o.loads(s).value)
  }

  predicate LinesDefined(o: Oracles, lines: seq<string>)
  {
    forall i | 0 <= i < |lines| :: LineDefined(o, lines[i])
  }

  /** `ev.get("parse_error")` is truthy. */
  predicate HasParseError(ev: Dict<Value>)
  {
    Get(ev, "parse_error").Some? && ValueTruthy(Get(ev, "parse_error").value)
  }

  /** The body of the loop for line number `idx`. */
  function LineResult(o: Oracles, idx: nat, line: string): LineOutcome
    requires LineDefined(o, line)
  {
    var s := Text.Strip(line);
    if s == [] then Skipped
    else
      match o.loads(s)
      case Failure(e) => Rejected(LineError(idx, VJson(JStr("JSON parse: " + e))))
      case Success(obj) =>
        var n := Normalize(o, obj, idx);
        if HasParseError(n.record) then Rejected(LineError(idx, Get(n.record, "parse_error").value))
        else Loaded(n.record, n.warnings)
  }

  /** The outcome of every line, the line at position `i` numbered `i + 1`. */
  function Outcomes(o: Oracles, lines: seq<string>): (r: seq<LineOutcome>)
    requires LinesDefined(o, lines)
    ensures |r| == |lines|
  {
    if lines == [] then []
    else Outcomes(o, lines[..|lines| - 1]) + [LineResult(o, |lines|, lines[|lines| - 1])]
  }

  /** The three lists built from a sequence of line outcomes, in order. */
  function Collect(outs: seq<LineOutcome>): Ingested
  {
    if outs == [] then Ingested([], [], [])
    else
      var acc := Collect(outs[..|outs| - 1]);
      match outs[|outs| - 1]
      case Skipped => acc
      case Rejected(e) => acc.(errors := acc.errors + [e])
      case Loaded(ev, w) => acc.(events := acc.events + [ev], warnings := acc.warnings + w)
  }

  /** What `parse_ndjson_file` returns for these lines. */
  function ParseLines(o: Oracles, lines: seq<string>): Ingested
    requires LinesDefined(o, lines)
  {
    Collect(Outcomes(o, lines))
  }

  /** The body of the loop for one line. */
  method ParseLine(o: Oracles, idx: nat, raw: string) returns (outcome: LineOutcome)
    requires LineDefined(o, raw)
    ensures outcome == LineResult(o, idx, raw)
  {
    var line := Text.Strip(raw);
    if line == [] {
      return Skipped;
    }
    var decoded := o.loads(line);
    if decoded.Failure? {
      return Rejected(LineError(idx, VJson(JStr("JSON parse: " + decoded.error))));
    }
    var ev, w := NormalizeEcsRow(o, decoded.value, idx);
    var parseError := Get(ev, "parse_error");
    if parseError.Some? && ValueTruthy(parseError.value) {
      return Rejected(LineError(idx, parseError.value));
    }
    return Loaded(ev, w);
  }

  method ParseNdjsonFile(o: Oracles, lines: seq<string>) returns (events: seq<Dict<Value>>, errors: seq<LineError>, warns: seq<string>)
    requires LinesDefined(o, lines)
    ensures Ingested(events, errors, warns) == ParseLines(o, lines)
  {
    ghost var outs: seq<LineOutcome> := [];
    events, errors, warns := [], [], [];
    for idx := 1 to |lines| + 1
      invariant outs == Outcomes(o, lines[..idx - 1])
      invariant Ingested(events, errors, warns) == Collect(outs)
    {
      var outcome := ParseLine(o, idx, lines[idx - 1]);
      OutcomesSnoc(o, lines, idx);
      CollectSnoc(outs, outcome);
      outs := outs + [outcome];
      match outcome
      case Skipped =>
      case Rejected(e) =>
        errors := errors + [e];
      case Loaded(ev, w) =>
        events := events + [ev];
        warns := warns + w;
    }
    assert lines[..|lines|] == lines;
  }

  lemma OutcomesSnoc(o: Oracles, lines: seq<string>, idx: nat)
    requires LinesDefined(o, lines) && 1 <= idx <= |lines|
    ensures LinesDefined(o, lines[..idx - 1]) && LinesDefined(o, lines[..idx])
    ensures Outcomes(o, lines[..idx]) == Outcomes(o, lines[..idx - 1]) + [LineResult(o, idx, lines[idx - 1])]
  {
    assert lines[..idx][..idx - 1] == lines[..idx - 1];
  }

  /** The line number a record's `id` names (0 when it names none). */
  function LineOf(ev: Dict<Value>): nat
  {
    var id: Option<Value> := Get(ev, "id");
    match id
    case Some(VJson(JInt(i))) => if i >= 0 then i else 0
    case _ => 0
  }

  /** A record without a truthy `parse_error` came from an accepted document: its `id` is the line number and its warnings name that line. */
  lemma CleanRecord(o: Oracles, obj: Json, idx: nat)
    requires NormalizeDefined(o, obj) && !HasParseError(Normalize(o, obj, idx).record)
    ensures Accepted(o, obj)
    ensures LineOf(Normalize(o, obj, idx).record) == idx
    ensures forall w | w in Normalize(o, obj, idx).warnings ::
      NamesLine(w, idx)
  {
    if !Accepted(o, obj) {
      RejectedRecord(o, obj, idx);
    }
    AcceptedId(o, obj, idx);
    AcceptedWarnings(o, obj, idx);
  }

  /** `w` is the warning about a bad source or destination address on line `n`. */
  predicate NamesLine(w: string, n: nat)
  {
    w == IpWarning(n, "source.ip") || w == IpWarning(n, "destination.ip")
  }

  /** An outcome carries line number `n`: in its error, or as its record's `id` and in its warnings. */
  predicate NumberedAt(out: LineOutcome, n: nat)
  {
    && (out.Rejected? ==> out.err.line == n)
    && (out.Loaded? ==>
          && LineOf(out.event) == n
          && forall w | w in out.warnings :: NamesLine(w, n))
  }

  /** Each outcome carries the number of its line. */
  predicate Numbered(outs: seq<LineOutcome>)
  {
    forall i | 0 <= i < |outs| :: NumberedAt(outs[i], i + 1)
  }

  /** A line that loads yields a record whose `id` is its number, and warnings that name that number. */
  lemma LoadedLine(o: Oracles, idx: nat, line: string)
    requires LineDefined(o, line) && LineResult(o, idx, line).Loaded?
    ensures LineOf(LineResult(o, idx, line).event) == idx
    ensures forall w | w in LineResult(o, idx, line).warnings ::
      NamesLine(w, idx)
  {
    var obj := o.loads(Text.Strip(line)).value;
    CleanRecord(o, obj, idx);
  }

  /** Whatever a line yields carries its number. */
  lemma LineNumbered(o: Oracles, idx: nat, line: string)
    requires LineDefined(o, line)
    ensures NumberedAt(LineResult(o, idx, line), idx)
  {
    if LineResult(o, idx, line).Loaded? {
      LoadedLine(o, idx, line);
    }
  }

  lemma {:induction false} OutcomesNumbered(o: Oracles, lines: seq<string>)
    requires LinesDefined(o, lines)
    ensures Numbered(Outcomes(o, lines))
  {
    if lines != [] {
      var init := lines[..|lines| - 1];
      OutcomesNumbered(o, init);
      LineNumbered(o, |lines|, lines[|lines| - 1]);
      var before := Outcomes(o, init);
      var out := LineResult(o, |lines|, lines[|lines| - 1]);
      assert Outcomes(o, lines) == before + [out];
      NumberedSnoc(before, out);
    }
  }

  lemma NumberedSnoc(outs: seq<LineOutcome>, out: LineOutcome)
    requires Numbered(outs) && NumberedAt(out, |outs| + 1)
    ensures Numbered(outs + [out])
  {
    assert forall i | 0 <= i < |outs| :: (outs + [out])[i] == outs[i];
  }

  /** A line is skipped exactly when it is empty or whitespace only. */
  lemma SkippedIffBlank(o: Oracles, idx: nat, line: string)
    requires LineDefined(o, line)
    ensures LineResult(o, idx, line).Skipped? <==> forall i | 0 <= i < |line| :: Text.IsSpace(line[i])
  {
    Text.StripEmptyIff(line);
  }

  /** The number of outcomes that are not skips. */
  function Entries(outs: seq<LineOutcome>): nat
  {
    if outs == [] then 0
    else Entries(outs[..|outs| - 1]) + (if outs[|outs| - 1].Skipped? then 0 else 1)
  }

  lemma {:induction false} CollectCount(outs: seq<LineOutcome>)
    ensures |Collect(outs).events| + |Collect(outs).errors| == Entries(outs)
  {
    if outs != [] {
      CollectCount(outs[..|outs| - 1]);
    }
  }

  /** The number of lines that are not blank once stripped. */
  function NonBlank(lines: seq<string>): nat
  {
    if lines == [] then 0
    else NonBlank(lines[..|lines| - 1]) + (if Text.Strip(lines[|lines| - 1]) == [] then 0 else 1)
  }

  lemma {:induction false} EntriesNonBlank(o: Oracles, lines: seq<string>)
    requires LinesDefined(o, lines)
    ensures Entries(Outcomes(o, lines)) == NonBlank(lines)
  {
    if lines != [] {
      var init := lines[..|lines| - 1];
      EntriesNonBlank(o, init);
      var before := Outcomes(o, init);
      var out := LineResult(o, |lines|, lines[|lines| - 1]);
      assert Outcomes(o, lines) == before + [out];
      assert (before + [out])[..|before|] == before;
    }
  }

  /** Every line that is not blank adds exactly one entry, to the events or to the errors. */
  lemma OneEntryPerLine(o: Oracles, lines: seq<string>)
    requires LinesDefined(o, lines)
    ensures |ParseLines(o, lines).events| + |ParseLines(o, lines).errors| == NonBlank(lines)
  {
    CollectCount(Outcomes(o, lines));
    EntriesNonBlank(o, lines);
  }

  /** Some event's `id` is line `n`. */
  predicate HasEventFor(events: seq<Dict<Value>>, n: nat)
  {
    exists k | 0 <= k < |events| :: LineOf(events[k]) == n
  }

  /** Some error is about line `n`. */
  predicate HasErrorFor(errors: seq<LineError>, n: nat)
  {
    exists k | 0 <= k < |errors| :: errors[k].line == n
  }

  /** Adding one outcome at the end touches only the list it belongs to. */
  lemma CollectSnoc(outs: seq<LineOutcome>, out: LineOutcome)
    ensures Collect(outs + [out]) == match out
      case Skipped => Collect(outs)
      case Rejected(e) => Collect(outs).(errors := Collect(outs).errors + [e])
      case Loaded(ev, w) => Collect(outs).(events := Collect(outs).events + [ev], warnings := Collect(outs).warnings + w)
  {
    assert (outs + [out])[..|outs|] == outs;
  }

  lemma NumberedPrefix(outs: seq<LineOutcome>)
    requires Numbered(outs) && outs != []
    ensures Numbered(outs[..|outs| - 1])
    ensures NumberedAt(outs[|outs| - 1], |outs|)
  {
    var init := outs[..|outs| - 1];
    forall i | 0 <= i < |init| ensures NumberedAt(init[i], i + 1) {
      assert init[i] == outs[i];
    }
  }

  /** Each event is the record of the loaded outcome at the position its `id` names. */
  lemma {:induction false} EventsFromLines(outs: seq<LineOutcome>)
    requires Numbered(outs)
    ensures forall k | 0 <= k < |Collect(outs).events| ::
      && 1 <= LineOf(Collect(outs).events[k]) <= |outs|
      && outs[LineOf(Collect(outs).events[k]) - 1].Loaded?
      && outs[LineOf(Collect(outs).events[k]) - 1].event == Collect(outs).events[k]
  {
    if outs != [] {
      var init := outs[..|outs| - 1];
      var last := outs[|outs| - 1];
      NumberedPrefix(outs);
      EventsFromLines(init);
      assert outs == init + [last];
      CollectSnoc(init, last);
      var acc := Collect(init).events;
      var r := Collect(outs).events;
      forall k | 0 <= k < |r|
        ensures 1 <= LineOf(r[k]) <= |outs| && outs[LineOf(r[k]) - 1].Loaded? && outs[LineOf(r[k]) - 1].event == r[k]
      {
        if k < |acc| {
          assert r[k] == acc[k];
          assert outs[LineOf(acc[k]) - 1] == init[LineOf(acc[k]) - 1];
        } else {
          assert r[k] == last.event;
        }
      }
    }
  }

  /** Every event's `id` is at most the number of outcomes so far. */
  lemma EventsBounded(outs: seq<LineOutcome>)
    requires Numbered(outs)
    ensures forall k | 0 <= k < |Collect(outs).events| :: 1 <= LineOf(Collect(outs).events[k]) <= |outs|
  {
    EventsFromLines(outs);
  }

  /** The events' line numbers strictly increase. */
  lemma {:induction false} EventsIncreasing(outs: seq<LineOutcome>)
    requires Numbered(outs)
    ensures forall k, k' | 0 <= k < k' < |Collect(outs).events| ::
      LineOf(Collect(outs).events[k]) < LineOf(Collect(outs).events[k'])
  {
    if outs != [] {
      var init := outs[..|outs| - 1];
      var last := outs[|outs| - 1];
      NumberedPrefix(outs);
      EventsIncreasing(init);
      EventsBounded(init);
      assert outs == init + [last];
      CollectSnoc(init, last);
      var acc := Collect(init).events;
      var r := Collect(outs).events;
      forall k, k' | 0 <= k < k' < |r| ensures LineOf(r[k]) < LineOf(r[k']) {
        assert r[k] == acc[k];
        if k' < |acc| {
          assert r[k'] == acc[k'];
        } else {
          assert r[k'] == last.event;
        }
      }
    }
  }

  /** A loaded outcome's position appears as the `id` of an event. */
  lemma {:induction false} LoadedLinesAppear(outs: seq<LineOutcome>)
    requires Numbered(outs)
    ensures forall i | 0 <= i < |outs| && outs[i].Loaded? :: HasEventFor(Collect(outs).events, i + 1)
  {
    if outs != [] {
      var init := outs[..|outs| - 1];
      var last := outs[|outs| - 1];
      NumberedPrefix(outs);
      LoadedLinesAppear(init);
      assert outs == init + [last];
      CollectSnoc(init, last);
      var acc := Collect(init).events;
      var r := Collect(outs).events;
      forall i | 0 <= i < |outs| && outs[i].Loaded? ensures HasEventFor(r, i + 1)
      {
        if i < |init| {
          assert init[i] == outs[i];
          var k :| 0 <= k < |acc| && LineOf(acc[k]) == i + 1;
          assert r[k] == acc[k];
        } else {
          assert r[|r| - 1] == last.event;
        }
      }
    }
  }

  /** A position appears as the `id` of an event exactly when its outcome loaded. */
  lemma EventsExactlyLoaded(outs: seq<LineOutcome>)
    requires Numbered(outs)
    ensures forall i | 0 <= i < |outs| :: HasEventFor(Collect(outs).events, i + 1) <==> outs[i].Loaded?
  {
    var r := Collect(outs).events;
    LoadedLinesAppear(outs);
    forall i | 0 <= i < |outs| && HasEventFor(r, i + 1) ensures outs[i].Loaded? {
      var k :| 0 <= k < |r| && LineOf(r[k]) == i + 1;
      EventsFromLines(outs);
    }
  }

  /** A position appears as the line of an error exactly when its outcome was rejected. */
  lemma ErrorsExactlyRejected(outs: seq<LineOutcome>)
    requires Numbered(outs)
    ensures forall i | 0 <= i < |outs| :: HasErrorFor(Collect(outs).errors, i + 1) <==> outs[i].Rejected?
  {
    var r := Collect(outs).errors;
    RejectedLinesAppear(outs);
    forall i | 0 <= i < |outs| && HasErrorFor(r, i + 1) ensures outs[i].Rejected? {
      var k :| 0 <= k < |r| && r[k].line == i + 1;
      ErrorsFromLines(outs);
    }
  }

  /** Each error is the error of the rejected outcome at the position it names. */
  lemma {:induction false} ErrorsFromLines(outs: seq<LineOutcome>)
    requires Numbered(outs)
    ensures forall k | 0 <= k < |Collect(outs).errors| ::
      1 <= Collect(outs).errors[k].line <= |outs| && outs[Collect(outs).errors[k].line - 1] == Rejected(Collect(outs).errors[k])
  {
    if outs != [] {
      var init := outs[..|outs| - 1];
      var last := outs[|outs| - 1];
      NumberedPrefix(outs);
      ErrorsFromLines(init);
      assert outs == init + [last];
      CollectSnoc(init, last);
      var acc := Collect(init).errors;
      var r := Collect(outs).errors;
      forall k | 0 <= k < |r|
        ensures 1 <= r[k].line <= |outs| && outs[r[k].line - 1] == Rejected(r[k])
      {
        if k < |acc| {
          assert r[k] == acc[k];
          assert outs[acc[k].line - 1] == init[acc[k].line - 1];
        } else {
          assert r[k] == last.err;
        }
      }
    }
  }

  /** The errors' line numbers strictly increase. */
  lemma {:induction false} ErrorsIncreasing(outs: seq<LineOutcome>)
    requires Numbered(outs)
    ensures forall k, k' | 0 <= k < k' < |Collect(outs).errors| ::
      Collect(outs).errors[k].line < Collect(outs).errors[k'].line
  {
    if outs != [] {
      var init := outs[..|outs| - 1];
      var last := outs[|outs| - 1];
      NumberedPrefix(outs);
      ErrorsIncreasing(init);
      ErrorsFromLines(init);
      assert outs == init + [last];
      CollectSnoc(init, last);
      var acc := Collect(init).errors;
      var r := Collect(outs).errors;
      forall k, k' | 0 <= k < k' < |r| ensures r[k].line < r[k'].line {
        assert r[k] == acc[k];
        if k' < |acc| {
          assert r[k'] == acc[k'];
        } else {
          assert r[k'] == last.err;
        }
      }
    }
  }

  /** A rejected outcome's position appears as the line of an error. */
  lemma {:induction false} RejectedLinesAppear(outs: seq<LineOutcome>)
    requires Numbered(outs)
    ensures forall i | 0 <= i < |outs| && outs[i].Rejected? :: HasErrorFor(Collect(outs).errors, i + 1)
  {
    if outs != [] {
      var init := outs[..|outs| - 1];
      var last := outs[|outs| - 1];
      NumberedPrefix(outs);
      RejectedLinesAppear(init);
      assert outs == init + [last];
      CollectSnoc(init, last);
      var acc := Collect(init).errors;
      var r := Collect(outs).errors;
      forall i | 0 <= i < |outs| && outs[i].Rejected? ensures HasErrorFor(r, i + 1)
      {
        if i < |init| {
          assert init[i] == outs[i];
          var k :| 0 <= k < |acc| && acc[k].line == i + 1;
          assert r[k] == acc[k];
        } else {
          assert r[|r| - 1] == last.err;
        }
      }
    }
  }

  /** `w` names the line of one of `events`. */
  predicate NamedByEvent(w: string, events: seq<Dict<Value>>)
  {
    exists k | 0 <= k < |events| :: NamesLine(w, LineOf(events[k]))
  }

  /** Each warning names the line of one of the events. */
  predicate WarningsNameEvents(r: Ingested)
  {
    forall i | 0 <= i < |r.warnings| :: NamedByEvent(r.warnings[i], r.events)
  }

  lemma {:induction false} CollectWarnings(outs: seq<LineOutcome>)
    requires Numbered(outs)
    ensures WarningsNameEvents(Collect(outs))
  {
    if outs != [] {
      var init := outs[..|outs| - 1];
      var last := outs[|outs| - 1];
      NumberedPrefix(outs);
      CollectWarnings(init);
      assert outs == init + [last];
      CollectSnoc(init, last);
      var acc := Collect(init);
      var r := Collect(outs);
      if last.Loaded? {
        assert r.warnings == acc.warnings + last.warnings;
        assert r.events == acc.events + [last.event];
        forall i | 0 <= i < |r.warnings| ensures NamedByEvent(r.warnings[i], r.events) {
          if i >= |acc.warnings| {
            assert r.warnings[i] in last.warnings;
            assert NamesLine(r.warnings[i], LineOf(r.events[|r.events| - 1]));
          } else {
            var k :| 0 <= k < |acc.events| && NamesLine(acc.warnings[i], LineOf(acc.events[k]));
            assert r.events[k] == acc.events[k];
          }
        }
      } else {
        assert r.warnings == acc.warnings && r.events == acc.events;
      }
    }
  }

  /**
   * The events against the line outcomes: each event's `id` names a line that loaded that
   * very record, the `id`s strictly increase, and a line's number is some event's `id`
   * exactly when that line loaded.
   */
  predicate EventsMatchLines(outs: seq<LineOutcome>, events: seq<Dict<Value>>)
  {
    && (forall k | 0 <= k < |events| ::
          1 <= LineOf(events[k]) <= |outs|
          && outs[LineOf(events[k]) - 1].Loaded? && outs[LineOf(events[k]) - 1].event == events[k])
    && (forall k, k' | 0 <= k < k' < |events| :: LineOf(events[k]) < LineOf(events[k']))
    && (forall i | 0 <= i < |outs| :: HasEventFor(events, i + 1) <==> outs[i].Loaded?)
  }

  /**
   * The errors against the line outcomes: each error names a line that was rejected with
   * that very error, the line numbers strictly increase, and a line's number is some
   * error's line exactly when that line was rejected.
   */
  predicate ErrorsMatchLines(outs: seq<LineOutcome>, errors: seq<LineError>)
  {
    && (forall k | 0 <= k < |errors| ::
          1 <= errors[k].line <= |outs| && outs[errors[k].line - 1] == Rejected(errors[k]))
    && (forall k, k' | 0 <= k < k' < |errors| :: errors[k].line < errors[k'].line)
    && (forall i | 0 <= i < |outs| :: HasErrorFor(errors, i + 1) <==> outs[i].Rejected?)
  }

  lemma CollectEvents(outs: seq<LineOutcome>)
    requires Numbered(outs)
    ensures EventsMatchLines(outs, Collect(outs).events)
  {
    EventsFromLines(outs);
    EventsIncreasing(outs);
    EventsExactlyLoaded(outs);
  }

  lemma CollectErrors(outs: seq<LineOutcome>)
    requires Numbered(outs)
    ensures ErrorsMatchLines(outs, Collect(outs).errors)
  {
    ErrorsFromLines(outs);
    ErrorsIncreasing(outs);
    ErrorsExactlyRejected(outs);
  }

  /** The events of a file, against the outcomes of its lines. */
  lemma EventLines(o: Oracles, lines: seq<string>)
    requires LinesDefined(o, lines)
    ensures EventsMatchLines(Outcomes(o, lines), ParseLines(o, lines).events)
  {
    OutcomesNumbered(o, lines);
    CollectEvents(Outcomes(o, lines));
  }

  /** The errors of a file, against the outcomes of its lines. */
  lemma ErrorLines(o: Oracles, lines: seq<string>)
    requires LinesDefined(o, lines)
    ensures ErrorsMatchLines(Outcomes(o, lines), ParseLines(o, lines).errors)
  {
    OutcomesNumbered(o, lines);
    CollectErrors(Outcomes(o, lines));
  }

  /** Warnings come only from loaded lines: each names the line of one of the events. */
  lemma WarningsFromEvents(o: Oracles, lines: seq<string>)
    requires LinesDefined(o, lines)
    ensures WarningsNameEvents(ParseLines(o, lines))
  {
    OutcomesNumbered(o, lines);
    CollectWarnings(Outcomes(o, lines));
  }
}
