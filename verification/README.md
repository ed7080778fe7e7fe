# ECS log analyser core, in Dafny

This project models the pipeline behind a small Flask log-analysis application and proves
properties of it. The pipeline has four parts:

- **Ingestion and normalisation** (`app.py`):
  - `flatten_dict` turns a nested JSON document into dot-joined keys;
  - `normalize_ecs_row` checks the required ECS fields `@timestamp` and `event.category`,
    parses the timestamp, validates the source and destination addresses, and builds the
    flat event record with its `_all_concat` search text;
  - `parse_ndjson_file` folds this over numbered lines into events, errors and warnings.
- **Query engine** (`kql_parser.py`): the tokenizer, the parser with its silent all-`and`
  repair, the three-step field lookup, the `_all` free-text search, and the filter. The
  filter folds the conditions left to right with no precedence and keeps matching events
  in order.
- **Rule detector** (`analyzer.py` with the table of `rules.py`): each event's `message`
  is scanned against the ordered rule table; the first rule whose keyword occurs wins.
- **Histogram** (`app.py`, `build_histogram`): 25 buckets between the earliest and the
  latest instant, clamped last index, bar heights in [10, 100], and y ticks. Also
  `extract_json`, which cuts the JSON object out of a language-model reply.

Modules, one per source concept:

| module | models |
|---|---|
| `Wrappers` | `Option` / `Result` |
| `Text` | the `str` methods the code calls |
| `Dicts` | Python dicts as ordered entry lists |
| `Values` | decoded JSON values and event values |
| `Library` | the library calls, as oracles |
| `Flattening` | `flatten_dict` |
| `Normalizer` | `normalize_ecs_row` |
| `Ingest` | `parse_ndjson_file` |
| `Histogram` | `build_histogram` |
| `Extract` | `extract_json` |
| `KqlTokenizer` | `tokenize_kql` |
| `KqlParser` | `parse_kql_conditions` |
| `KqlFilter` | `event_matches_condition`, `filter_events_by_kql` |
| `Rules` | `RULES` |
| `Analyzer` | `detect_rule_warnings`, `analyze_events_with_rules` |

Where the code loops and appends, the model is a method with a loop. Each such method is
proved equal to a specification function, and the properties are lemmas about that
function. Examples:

- `FlattenDict` is proved against `Flatten`;
- `NormalizeEcsRow` against `Normalize`;
- `ParseNdjsonFile` against `ParseLines`;
- `TokenizeKql` against `Tokens`;
- `ParseKqlConditions` against `Parse`;
- `FilterEventsByKql` against `FilterSpec`;
- `DetectRuleWarnings` against `DetectSpec`;
- `BuildHistogram` against `ChartOf`.

`CountBuckets` keeps the source's in-place `counts[idx] += 1` on an `array`.

Python library behaviour is not modelled; it is passed in as one `Library.Oracles`
value. That value covers:

- `json.loads` and `json.dumps`;
- `datetime.fromisoformat`, giving an instant in microseconds;
- `ipaddress.ip_address` succeeding;
- `str()` of a value.

Python raising is modelled as `None` wherever the code would raise. Examples:

- `in` on a number;
- `.get` on a non-dict;
- `.values()` on a non-dict `structured`.

The public operations require that no such exception happens (`NormalizeDefined`,
`LinesDefined`, `FilterDefined`, `TimesDefined`).

The detector `DetectRuleWarnings` takes the rule table as a parameter, so its lemmas hold
for any ordered table. `AnalyzeEventsWithRules` runs it on `Rules.Table`, the five rules
of `rules.py`.

Behaviour of the code worth knowing:

- **`_all` search.** A bare value is looked for in the rendering of every entry of the
  event record except `structured`, so `raw` (the JSON dump) and `_all_concat` are
  searched too; then in the top-level values of `structured` (kql_parser.py:74-90).
- **Third lookup step.** After the event record and its flattened form, a field is
  looked up as a top-level key of `structured`, not as a dotted path
  (kql_parser.py:98-101).
- **Trailing `Z`.** When a timestamp string ends in `Z`, every `Z` in it is replaced by
  `+00:00`, not only the last one (app.py:71-72).
- **Non-object nodes.** Normalization raises when `event`, `source`, `destination`,
  `user`, `host` or (when read) `log` holds something other than an object
  (app.py:116-141).
- **`row_index`.** It is the 0-based position in the list passed in, not the line number
  (analyzer.py:19-27).
- **A valid document with a top-level `parse_error` key.** The `setdefault` loop copies
  that key into the event; if its value is truthy, `parse_ndjson_file` reports the line
  as an error with that value (app.py:149-171). `Ingest.LineResult` models this.

## Model

| member | source | states |
|---|---|---|
| Text.Find | app.py:34 | `str.find`: -1 exactly when the character is absent, otherwise the index of its first occurrence |
| Text.RFind | app.py:35 | `str.rfind`: -1 exactly when the character is absent, otherwise the index of its last occurrence |
| Text.Lower | kql_parser.py:42 | lower-casing keeps the length and lowers each character in place |
| Text.StripEmptyIff | kql_parser.py:126-127 | a string strips to empty exactly when it is all whitespace |
| Text.DecimalRoundTrip | app.py:119 | the decimal rendering of a line number reads back as that number |
| Dicts.SetDefaultAllGet | app.py:149-150 | after the `setdefault` loop a key reads from the original dict when it was there, otherwise from the added entries |
| Dicts.UpdateHasKey | app.py:83 | `items.update(sub)` has exactly the keys of both |
| Values.PyIn | app.py:94 | `key in x` is defined exactly for dicts, strings and lists |
| Flattening.FlattenDict | app.py:77-86 | the loop builds exactly `Flatten(d, parent_key)` |
| Flattening.FlattenIsLeaves | app.py:77-86 | the flattened dict is the dict built from the leaves, in traversal order, under their dot-joined paths |
| Flattening.LeavesNoObjects | app.py:82-85 | no leaf is an object: nested dicts are always descended |
| Flattening.FlattenShape | app.py:77-86 | the result holds no dict value and has distinct keys |
| Flattening.FlattenKeys | app.py:81-85 | a key is in the result exactly when it is the dot-joined path of some leaf |
| Flattening.FlattenWithoutCollisions | app.py:77-86 | with distinct leaf paths, the result is the leaves themselves: lists and scalars kept whole |
| Flattening.EmptyObjectAddsNothing | app.py:82-83 | an empty nested object adds no key |
| Flattening.LeavesOfFlat | app.py:80-85 | a document without nested objects is its own leaf list |
| Flattening.FlattenFlat | app.py:77-86 | an already flat dict is returned unchanged |
| Flattening.FlattenIdempotent | app.py:77-86 | flattening twice equals flattening once |
| Normalizer.TimestampZulu | app.py:69-75 | a string ending in `Z` is parsed with every `Z` in it replaced by `+00:00` (just `s + "+00:00"` when the trailing `Z` is the only one), a string not ending in `Z` is parsed as it is, and a non-string gives `None` |
| Normalizer.MissingField | app.py:92-105 | no required-field error only when the document is an object with `@timestamp` and `event` keys |
| Normalizer.CanonicalRecord | app.py:127-147 | the record literal has exactly the canonical keys, in their order |
| Normalizer.NormalizeEcsRow | app.py:88-154 | the method returns `Normalize(obj, line_no)` |
| Normalizer.AcceptRow | app.py:116-154 | address validation and record building return `Accept` |
| Normalizer.BuildEventRecord | app.py:125-152 | flatten, fill by `setdefault`, then set `_all_concat`: returns `EventRecord` |
| Normalizer.FillDefaults | app.py:149-150 | the `setdefault` loop returns `SetDefaultAll` of the flattened entries |
| Normalizer.FailuresInOrder | app.py:92-114 | missing `@timestamp`, then missing `event`/`event.category`, then an unparsable timestamp, in that order. Each gives `id == line_no`, a truthy `parse_error` naming the cause, and no warning |
| Normalizer.RejectedRecord | app.py:95-114 | a rejected document's record has a truthy `parse_error` |
| Normalizer.CanonicalKeysDistinct | app.py:127-147 | the record literal's keys are pairwise distinct |
| Normalizer.CanonicalGet | app.py:127-147 | each canonical key reads back the value the literal sets |
| Normalizer.FilledGet | app.py:149-152 | after filling and `_all_concat`: `_all_concat` is the buffer, existing keys keep their values, other keys come from the flattened entries |
| Normalizer.EventRecordGet | app.py:125-152 | in an accepted record every key reads as its canonical value, the `_all_concat` buffer, or its flattened value |
| Normalizer.EventRecordCanonical | app.py:127-150 | canonical keys win over flattened ones |
| Normalizer.EventRecordIps | app.py:136-150 | the stored addresses are the validated ones, not the document's |
| Normalizer.IpValidation | app.py:116-123 | an address is warned about exactly when it is truthy and invalid: one `line N: invalid …ip` warning each, in order, and the address is then stored as `None` |
| Normalizer.AcceptedId | app.py:127-128 | an accepted record has `id == line_no` |
| Normalizer.AcceptedWarnings | app.py:118-123 | every warning of an accepted line names that line and one of the two addresses |
| Normalizer.AcceptedRecord | app.py:125-152 | an accepted record has `id`, keeps the document as `structured`, has every flattened key, reads non-canonical keys from the flattened map, and has `_all_concat` equal to the space-join of `str(x)` for the non-`None` flattened values in flatten order |
| Ingest.Outcomes | app.py:158 | one outcome per input line |
| Ingest.ParseLine | app.py:159-174 | the loop body returns `LineResult`: skip a blank line, reject a JSON error or a truthy `parse_error`, otherwise load |
| Ingest.ParseNdjsonFile | app.py:156-175 | the loop returns `ParseLines`, the three lists collected from the numbered line outcomes |
| Ingest.CleanRecord | app.py:168-173 | a record without a truthy `parse_error` came from an accepted document; its `id` and warnings name its line |
| Ingest.LoadedLine | app.py:168-174 | a loaded line's event has its 1-based number as `id`, and its warnings name that number |
| Ingest.LineNumbered | app.py:158-173 | each outcome carries its own line number |
| Ingest.OutcomesNumbered | app.py:158-173 | line numbers are 1-based positions |
| Ingest.SkippedIffBlank | app.py:159-161 | a line is skipped exactly when it is all whitespace |
| Ingest.CollectCount | app.py:165-173 | each non-skipped outcome adds exactly one event or one error |
| Ingest.EntriesNonBlank | app.py:159-173 | the non-skipped outcomes are exactly the non-blank lines |
| Ingest.OneEntryPerLine | app.py:156-175 | events plus errors number exactly the non-blank lines |
| Ingest.CollectSnoc | app.py:165-174 | one line appends to `errors`, to `events` and `warns`, or to nothing |
| Ingest.EventsFromLines | app.py:168-173 | every event is the event of the loaded line its `id` names |
| Ingest.EventsBounded | app.py:158-173 | every event's `id` is a line number of the input |
| Ingest.EventsIncreasing | app.py:158-173 | event ids strictly increase |
| Ingest.LoadedLinesAppear | app.py:173 | every loaded line has an event |
| Ingest.EventsExactlyLoaded | app.py:168-173 | a line has an event exactly when it loaded |
| Ingest.ErrorsExactlyRejected | app.py:162-171 | a line has an error exactly when it was rejected |
| Ingest.ErrorsFromLines | app.py:165-170 | every error is the error of the line it names |
| Ingest.ErrorsIncreasing | app.py:158-170 | error line numbers strictly increase |
| Ingest.RejectedLinesAppear | app.py:165-170 | every rejected line has an error |
| Ingest.CollectWarnings | app.py:173-174 | every warning names the line of an event that was kept |
| Ingest.CollectEvents | app.py:168-173 | events correspond, in order, to the loaded lines |
| Ingest.CollectErrors | app.py:162-171 | errors correspond, in order, to the rejected lines |
| Ingest.EventLines | app.py:156-175 | `parse_ndjson_file`'s events correspond exactly, in order, to the lines that load |
| Ingest.ErrorLines | app.py:156-175 | its errors correspond exactly, in order, to the lines rejected |
| Ingest.WarningsFromEvents | app.py:156-175 | warnings come only from accepted lines |
| Histogram.TimesMembers | app.py:193 | an instant is listed exactly when some event has it |
| Histogram.Min | app.py:197-198 | the earliest instant: a member that is at most every member |
| Histogram.Max | app.py:197-217 | the latest instant and the largest count: a member that is at least every member |
| Histogram.Span | app.py:201-203 | the span is positive, and equals `max - min` when that is positive |
| Histogram.BucketOf | app.py:211-214 | the index is always below 25 |
| Histogram.Counts | app.py:208-215 | 25 counts, each the number of instants in its bucket |
| Histogram.Step | app.py:237 | the tick step is at least 1 |
| Histogram.Range | app.py:238 | `range` starts at its start |
| Histogram.Bars | app.py:219-232 | one bar per bucket with its count and height |
| Histogram.BuildHistogram | app.py:192-246 | the method returns `ChartOf(events)` |
| Histogram.BuildBars | app.py:219-232 | the bar loop returns `Bars` |
| Histogram.BuildTicks | app.py:234-240 | the tick code returns `YTicks` |
| Histogram.CountBuckets | app.py:208-215 | the in-place increments leave `Counts` in the array |
| Histogram.BucketMonotone | app.py:211-214 | a later instant never lands in an earlier bucket |
| Histogram.BucketInterval | app.py:206-214 | an instant lands in bucket `b` exactly when it lies in `b`'s interval, the last bucket absorbing everything from its start on |
| Histogram.BucketEnds | app.py:201-214 | the earliest instant lands in bucket 0, the latest in bucket 24 (or 0 when all coincide) |
| Histogram.CountsSum | app.py:208-215 | the counts sum to the number of timestamped events |
| Histogram.HeightBounds | app.py:224-227 | heights lie in [10, 100], and a bucket has height 100 exactly when it holds the maximum count |
| Histogram.HeightMonotone | app.py:225 | a larger count never gets a lower bar |
| Histogram.RangeElements | app.py:238 | `range(start, stop, step)` lists `start + i*step` below `stop`, up to the last one before `stop` |
| Histogram.RangeIncreasing | app.py:238 | `range` increases strictly by `step` |
| Histogram.StepCovers | app.py:237 | the step is `ceil(max/5)`: five steps reach the maximum count and five steps of one less fall short |
| Histogram.TickRange | app.py:237-238 | the generated ticks start at 0, increase by the step, stay within [0, max] and number at most 6 |
| Histogram.YTicksShape | app.py:234-240 | the ticks start at 0, increase strictly by the step (except for the appended last tick), and end at the maximum count |
| Histogram.EmptyChart | app.py:193-195 | stated for any event list (wider than `build_histogram`, which raises on a non-datetime `timestamp_dt`; `ChartOf` skips such an event): the result is `([], None, [], None, None)` exactly when no event has a timestamp |
| Histogram.ChartShape | app.py:192-232 | stated for any event list, as for `EmptyChart`; when some event has a timestamp: exactly 25 buckets, each counting its instants; the counts sum to the timestamped events; heights lie in [10, 100] and some bar is 100; the range ends and the interval are the earliest and latest instant and span/25 |
| Histogram.ChartTicks | app.py:217-240 | stated for any event list, as for `EmptyChart`: the ticks start at 0, increase strictly, and end at the largest bucket count |
| Extract.ExtractJson | app.py:33-38 | the cut is never longer than the reply, and whenever it differs it runs from a `{` to a `}` |
| Extract.ExtractJsonCut | app.py:33-38 | the reply is cut exactly when a `{` precedes a `}`, and then from its first `{` to its last `}`; otherwise it is returned as is |
| Extract.ExtractJsonIdempotent | app.py:33-38 | cutting a cut reply changes nothing |
| KqlTokenizer.FieldRun | kql_parser.py:15 | `[\w\.-]+` stops at the first non-field character |
| KqlTokenizer.WordRun | kql_parser.py:15 | `\S+` stops at the first whitespace |
| KqlTokenizer.QuoteRun | kql_parser.py:15 | `[^"]*` stops at the next quote |
| KqlTokenizer.MatchEnd | kql_parser.py:15-17 | every match consumes at least one character |
| KqlTokenizer.TokenizeKql | kql_parser.py:7-20 | the loop returns `Tokens(query)`, one token per match in order |
| KqlTokenizer.MatchShape | kql_parser.py:15-18 | a match is non-empty, and it holds whitespace only in the quoted `field:"…"` form |
| KqlTokenizer.TokensShape | kql_parser.py:15-20 | every token is non-empty, and only the `field:"…"` form can contain whitespace |
| KqlTokenizer.NoTokensIffBlank | kql_parser.py:15-20 | no tokens exactly when the query is all whitespace |
| KqlTokenizer.VisibleFrom | kql_parser.py:15-20 | the tokens from a position cover the query from there, up to whitespace |
| KqlTokenizer.TokensCoverQuery | kql_parser.py:15-20 | the tokens, joined, hold every non-whitespace character of the query, in order |
| KqlTokenizer.QuotedLead | kql_parser.py:15 | a leading `field:"value"` is matched whole by the first alternative |
| KqlTokenizer.BareLead | kql_parser.py:15 | a leading run without whitespace, not of the quoted form, is matched up to the next whitespace |
| KqlTokenizer.BareWhole | kql_parser.py:15-20 | such a run alone is one token |
| KqlTokenizer.BareCondition | kql_parser.py:15-20 | `field:value` without whitespace or a leading quote is one token |
| KqlTokenizer.TokensLead | kql_parser.py:17-19 | a leading match becomes the first token, followed by the tokens of the rest |
| KqlTokenizer.TokensSkip | kql_parser.py:15-17 | leading whitespace yields no token |
| KqlTokenizer.AndLead | kql_parser.py:15-19 | a leading `and` is its own token |
| KqlTokenizer.QuotedLeadTokens | kql_parser.py:15-19 | a leading `field:"value"` is one token, whitespace inside the quotes kept |
| KqlTokenizer.QuotedAndBare | kql_parser.py:8-20 | a query of the form `f:"v w" and g:x` tokenizes to exactly those three tokens |
| KqlParser.Unquote | kql_parser.py:51-52 | unquoting never lengthens the value |
| KqlParser.Classify | kql_parser.py:42-55 | an operator token is always `and` or `or` |
| KqlParser.Ands | kql_parser.py:58 | `["and"] * n` |
| KqlParser.Repair | kql_parser.py:57-58 | after the repair there are `max(0, len(conditions)-1)` operators |
| KqlParser.ParseKqlConditions | kql_parser.py:23-60 | the method returns `Parse(tokens)` |
| KqlParser.ClassifyAll | kql_parser.py:41-55 | the token loop returns the conditions and operators in token order |
| KqlParser.OperatorCount | kql_parser.py:57-60 | after parsing, `len(operators) == max(0, len(conditions)-1)` and every operator is `and` or `or` |
| KqlParser.RawOperatorsValid | kql_parser.py:42-45 | every operator collected is lower-case `and` or `or` |
| KqlParser.RepairKeepsOrReplaces | kql_parser.py:57-58 | the written operators are kept exactly when their count is right; otherwise every operator is `and` |
| KqlParser.EveryTokenCounted | kql_parser.py:41-55 | each token becomes exactly one condition or one operator |
| KqlParser.OperatorsOnly | kql_parser.py:41-45 | tokens that are all operators leave no condition |
| KqlParser.UnquoteSpec | kql_parser.py:51-52 | exactly one pair of surrounding quotes is removed; a value without both quotes is kept |
| KqlParser.FreeText | kql_parser.py:54-55 | a non-operator token without a colon becomes `("_all", token)` |
| KqlParser.OperatorCase | kql_parser.py:42-45 | a token is an operator exactly when its lowercase is `and` or `or`, and it is stored lowercase |
| KqlParser.QuotedCondition | kql_parser.py:47-53 | a `field:"value"` token becomes `(field, value)` |
| KqlParser.ClassifyColon | kql_parser.py:42-53 | every token with a colon, whatever its length (`a:b`, `:`), is split at its first colon, both sides stripped, the value unquoted |
| KqlParser.StripQuoted | kql_parser.py:50-52 | a quoted value strips and unquotes to its inside |
| KqlParser.StripField | kql_parser.py:49 | a field name without whitespace strips to itself |
| KqlParser.ColonAfter | kql_parser.py:47-48 | the first colon of `field:rest` is the one after a colon-free field |
| KqlFilter.EvalEvent | kql_parser.py:141-147 | the zip loop computes the left fold `Eval` |
| KqlFilter.FilterEventsByKql | kql_parser.py:109-152 | the method returns `FilterSpec(events, query)` |
| KqlFilter.EvalSnoc | kql_parser.py:143-147 | one more round of the loop applies the next operator to the result so far |
| KqlFilter.EvalPrefixDefined | kql_parser.py:141-147 | if the whole fold does not raise, no prefix of it raises |
| KqlFilter.FilterCases | kql_parser.py:126-136 | a query that strips to empty, has no tokens, or has no conditions returns the input unchanged; any other query returns the selected events |
| KqlFilter.OperatorQueryKeepsAll | kql_parser.py:134-136 | a query made only of operators, such as `and or`, returns the input unchanged |
| KqlFilter.SelectedSubsequence | kql_parser.py:138-152 | the output is the input at strictly increasing positions, and a position is kept exactly when its fold is true |
| KqlFilter.NoPrecedence | kql_parser.py:140-147 | `a or b and c` is `(a or b) and c`: true `a` and false `c` give false |
| KqlFilter.AllAnd | kql_parser.py:143-145 | with only `and`: true exactly when every condition holds, and false exactly when some condition is false after true ones |
| KqlFilter.AllOr | kql_parser.py:146-147 | with only `or`: false exactly when every condition fails, and true exactly when some condition holds after failing ones |
| KqlFilter.FieldLookupOrder | kql_parser.py:92-106 | a named field is tested against the first non-`None` of `event[field]`, `event[field with "_"]` (only when it has a dot), and the top-level key of `structured`. When all three are `None` the condition is false; otherwise it is a case-insensitive substring test |
| KqlFilter.StructuredKey | kql_parser.py:98-106 | the third step looks up the field as a top-level key of `structured`, not as a dotted path |
| KqlFilter.AllSearch | kql_parser.py:74-90 | `_all` is true exactly when the lowered value occurs in the lowered rendering of some non-`None` entry other than `structured`, or of some non-`None` top-level value of `structured`. It raises only when no entry matches and `structured` is a truthy non-dict |
| KqlFilter.StringFieldMatch | kql_parser.py:92-106 | with `str` the identity on strings, a field holding a string matches exactly when the lowered string contains the lowered value |
| KqlFilter.CaseInsensitive | kql_parser.py:72 | a condition's value is compared lower-cased, so its case does not matter |
| Rules.TableOrder | rules.py:1-32 | exactly five rules, in the order BRUTE_FORCE_LOGIN, PORT_SCAN, PRIV_ESC, SUSPICIOUS_PROCESS, CREDENTIAL_COMPROMISE |
| Rules.DistinctIds | rules.py:1-32 | the rule ids are pairwise distinct |
| Rules.KeywordsLower | rules.py:1-32 | every keyword is already lower case, so lowering it is a no-op |
| Rules.Severities | rules.py:1-32 | every severity is `high` or `medium`; BRUTE_FORCE_LOGIN looks for `failed login` with severity `high` |
| Analyzer.FirstRuleFrom | analyzer.py:23-36 | the scan stops on a rule of the table at or after where it started |
| Analyzer.HitFor | analyzer.py:19-36 | an event's warning carries its position as `row_index` |
| Analyzer.RowHits | analyzer.py:19-36 | one candidate warning per row, by position |
| Analyzer.DetectRuleWarnings | analyzer.py:13-38 | the nested loop with `break` returns `DetectSpec` |
| Analyzer.ScanRules | analyzer.py:20-36 | the rule loop for one row stops at the first rule that fires and returns that row's warning |
| Analyzer.AnalyzeEventsWithRules | analyzer.py:41-49 | the warnings come from `RULES`, and `has_warning` is true exactly when there is a warning |
| Analyzer.NoMessageNoWarnings | analyzer.py:14-15 | no events, or no `message` column, means no warnings |
| Analyzer.FirstRuleWins | analyzer.py:23-36 | the rule chosen is the earliest whose lowercased keyword occurs in the lowercased message; none is chosen exactly when no keyword occurs |
| Analyzer.HitContents | analyzer.py:19-36 | an event yields a warning exactly when some rule fires. The warning copies the first firing rule's id, severity, description and keyword, plus the event's message, `event.category` and `timestamp` |
| Analyzer.SomesFrom | analyzer.py:17-36 | every collected warning is its row's warning |
| Analyzer.SomesInOrder | analyzer.py:19-26 | the collected warnings are in row order |
| Analyzer.SomesComplete | analyzer.py:19-36 | every row's warning is collected |
| Analyzer.WarningsInOrder | analyzer.py:13-38 | at most one warning per event; warnings in input order with strictly increasing 0-based `row_index`; each equal to its event's warning; an event whose message has no keyword contributes nothing |
| Analyzer.StringMessageHit | analyzer.py:20-25 | with `str` the identity on strings and lower-case keywords, a string message is warned about exactly when its lowered text contains a keyword, and the warning carries the message |
| Analyzer.FirstRuleHit | analyzer.py:23-36 | a message containing the first rule's keyword gets exactly that rule's warning |
| Analyzer.FailedLoginHit | analyzer.py:20-36 | with the table of rules.py, a string message containing `failed login` in any case is a BRUTE_FORCE_LOGIN warning of severity `high` carrying the message |
| Analyzer.LowerKeywordsHit | analyzer.py:24-25 | with lower-case keywords, an event is warned about exactly when its lowered message contains a keyword as written |

## Left out

- **Web layer.** The Flask routes `index` and `nl2kql`, the process-wide `ALL_EVENTS` and
  `LAST_FILENAME`, and the 200-item display caps are web plumbing (app.py:251-343).
- **Language-model client.** The Gemini client, the prompt and the decoding of its reply
  are an external service (app.py:20-31,40-55). Only `extract_json` is modelled.
  prompts.py is a constant string, and the test-data generator uses randomness and file
  output; neither is part of this model.
- **Library behaviour.** `json.loads`, `json.dumps`, `datetime.fromisoformat`,
  `ipaddress.ip_address` and Python's `str()` are the uninterpreted fields of
  `Library.Oracles`. The lemmas about string messages and string fields assume only
  `Library.StrKeepsStrings`: `str(s)` of a string is `s`.
- Library.Oracles: `loads` may return objects with duplicate keys, which `json.loads`
  never produces. The lemmas hold for those documents too. On them `Dicts.Get` reads the
  first entry, while `Set` and `Flatten` keep the last.
- **Upload decoding.** Decoding the upload stream from UTF-8, with bad bytes ignored, is
  not modelled. `Ingest.ParseNdjsonFile` takes the lines already decoded (app.py:158-159).
- **Label formatting.** `strftime` labels and `pretty_interval` are float formatting
  (app.py:180-190,222,242-244). `Chart` keeps the bucket width as an exact real number
  of seconds and the range ends as instants.
- **Float arithmetic.** Timestamps are whole microseconds. The span is `max - min`,
  replaced by one second when not positive. The bucket index is `min(25*delta div span,
  24)` in exact arithmetic; IEEE rounding at bucket boundaries is not modelled.
- Histogram.Height: is the exact `10 + 90*count div max`, while the source computes
  `10 + int(90 * (count / max_count))` in floating point (app.py:225), which can come out
  one lower on ordinary inputs: count 7 of maximum 10 gives 72 in the source (90 * 0.7 is
  62.99…) and 73 in the model, and so do 14/20, 21/30, 13/45 and 26/45. `HeightBounds`
  and `HeightMonotone` hold for the floating-point formula as well.
- **Sorting.** `ts_list.sort()` is replaced by taking the minimum and maximum. Counting
  does not depend on order.
- **Mixed datetimes.** Sorting naive and aware datetimes together raises, and is not
  modelled. Every instant is on one timeline.
- **pandas.** `events_to_df` and its NaN filling are replaced by the event list itself.
  A missing `message` cell renders as `nan`, and a missing `event.category` or
  `timestamp` cell is `None`. Column dtype coercion (for example integers with gaps
  turned into floats) and the `df` entry of the result are not modelled.
- **Text handling.** `Text.Lower` lowers ASCII letters only, and `\w` in the tokenizer is
  ASCII letters, digits and `_`. Python applies Unicode rules to both. Whitespace is the
  set of characters `str.isspace` accepts.
- **`None` query.** `filter_events_by_kql` with a `None` query (`query or ""`) is not
  modelled; the query is always a string.
- **Crashing inputs.** Inputs on which Python raises are excluded by preconditions
  (`NormalizeDefined`, `LinesDefined`, `FilterDefined`, `TimesDefined`). Examples: a
  non-object document that passes the field checks, a non-object `event`, `source`,
  `destination`, `user`, `host` or `log`, and `in` on a number.
- KqlTokenizer.QuotedAndBare: proved for every query of the docstring's shape. The
  docstring's literal example `event.category:"process start" and severity:high` is not
  evaluated on its own, because unfolding the tokenizer over that literal is beyond the
  verifier's resource bound.
