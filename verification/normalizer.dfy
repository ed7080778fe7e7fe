/**
 * `normalize_ecs_row` (app.py): one decoded document becomes a flat event record, or an
 * error record carrying `parse_error`, plus the soft warnings about invalid addresses.
 */
module Normalizer {
  import opened Wrappers
  import opened Dicts
  import opened Values
  import opened Library
  import opened Flattening
  import Text

  /** `ECS_MIN_FIELDS`, checked in this order. */
  const EcsMinFields: seq<string> := ["@timestamp", "event.category"]

  /** The record and the warnings `normalize_ecs_row` returns. */
  datatype Normalized = Normalized(record: Dict<Value>, warnings: seq<string>)

  /**
   * `_parse_ecs_timestamp`: a string ending in `Z` has every `Z` replaced by `+00:00`
   * before `fromisoformat`; a value that is not a string raises inside the `try` and
   * gives `None`, as does a string `fromisoformat` refuses.
   */
  function ParseEcsTimestamp(o: Oracles, ts: Json): (r: Option<int>)
  {
    match ts
    case JStr(s) => o.fromIsoFormat(if Text.EndsWith(s, "Z") then Text.ReplaceChar(s, 'Z', "+00:00") else s)
    case _ => None
  }

  lemma {:induction false} ReplaceCharAppend(a: string, b: string, c: char, rep: string)
    ensures Text.ReplaceChar(a + b, c, rep) == Text.ReplaceChar(a, c, rep) + Text.ReplaceChar(b, c, rep)
  {
    if a == [] {
      assert a + b == b;
    } else {
      assert (a + b)[1..] == a[1..] + b;
      ReplaceCharAppend(a[1..], b, c, rep);
    }
  }

  /**
   * A string ending in `Z` has every `Z` read as the UTC offset `+00:00`, the trailing one
   * and any earlier one; a string not ending in `Z` is parsed as it is; only a string can
   * be a timestamp.
   */
  lemma TimestampZulu(o: Oracles, s: string)
    ensures ParseEcsTimestamp(o, JStr(s + "Z")) == o.fromIsoFormat(Text.ReplaceChar(s, 'Z', "+00:00") + "+00:00")
    ensures 'Z' !in s ==> ParseEcsTimestamp(o, JStr(s + "Z")) == o.fromIsoFormat(s + "+00:00")
    ensures !Text.EndsWith(s, "Z") ==> ParseEcsTimestamp(o, JStr(s)) == o.fromIsoFormat(s)
    ensures forall j: Json :: !j.JStr? ==> ParseEcsTimestamp(o, j).None?
  {
    ReplaceCharAppend(s, "Z", 'Z', "+00:00");
    assert Text.ReplaceChar("Z", 'Z', "+00:00") == "+00:00" by { assert "Z"[1..] == []; }
    assert (s + "Z")[|s + "Z"| - 1..] == "Z";
  }

  /** The required-field checks run without raising: membership tests on the line and on `event`. */
  predicate RequiredChecksDefined(obj: Json)
  {
    PyIn("@timestamp", obj).Some?
    && (PyIn("@timestamp", obj) == Some(true) && PyIn("event", obj) == Some(true) ==>
          obj.JObj? && PyIn("category", GetOrNull(obj.members, "event")).Some?)
  }

  /** The error the required-field checks report, in the order of `ECS_MIN_FIELDS`. */
  function MissingField(obj: Json): (r: Option<string>)
    requires RequiredChecksDefined(obj)
    ensures r.None? ==> obj.JObj? && HasKey(obj.members, "@timestamp") && HasKey(obj.members, "event")
  {
    if PyIn("@timestamp", obj) == Some(false) then Some("missing required field: @timestamp")
    else if PyIn("event", obj) == Some(false) || PyIn("category", GetOrNull(obj.members, "event")) == Some(false) then
      Some("missing required field: event.category")
    else None
  }

  /** `obj.get(k, {})` can be followed by `.get`: the key is missing or holds an object. */
  predicate ChainOk(m: Dict<Json>, k: string)
  {
    !HasKey(m, k) || GetOrNull(m, k).JObj?
  }

  /** `obj.get(k, {})`. */
  function Sub(m: Dict<Json>, k: string): Dict<Json>
    requires ChainOk(m, k)
  {
    if HasKey(m, k) then GetOrNull(m, k).members else []
  }

  /** The `.get` chains of lines 116-141 run without raising (`log` is read only when `event.severity` is falsy). */
  predicate SuccessPathDefined(m: Dict<Json>)
  {
    ChainOk(m, "source") && ChainOk(m, "destination") && ChainOk(m, "event")
    && ChainOk(m, "user") && ChainOk(m, "host")
    && (ChainOk(m, "event") && !Truthy(GetOrNull(Sub(m, "event"), "severity")) ==> ChainOk(m, "log"))
  }

  /** `normalize_ecs_row(obj, line_no)` returns instead of raising. */
  predicate NormalizeDefined(o: Oracles, obj: Json)
  {
    RequiredChecksDefined(obj)
    && (MissingField(obj).None? && ParseEcsTimestamp(o, GetOrNull(obj.members, "@timestamp")).Some? ==>
          SuccessPathDefined(obj.members))
  }

  function ErrorRecord(o: Oracles, obj: Json, lineNo: nat, msg: string): Dict<Value>
  {
    [("id", VJson(JInt(lineNo))), ("raw", VJson(JStr(o.dumps(obj)))), ("parse_error", VJson(JStr(msg)))]
  }

  /** `_is_valid_ip` fails on a truthy value: the value is dropped with a warning. */
  predicate BadIp(o: Oracles, ip: Json)
  {
    Truthy(ip) && !o.isIpAddress(ip)
  }

  function IpWarning(lineNo: nat, field: string): string
  {
    "line " + Text.NatToDecimal(lineNo) + ": invalid " + field
  }

  function ProcessField(m: Dict<Json>, k: string): Json
  {
    var process := GetOrNull(m, "process");
    if process.JObj? then GetOrNull(process.members, k) else JNull
  }

  function Severity(m: Dict<Json>): Json
    requires SuccessPathDefined(m)
  {
    var severity := GetOrNull(Sub(m, "event"), "severity");
    if Truthy(severity) then severity else GetOrNull(Sub(m, "log"), "level")
  }

  /** The keys the record literal of lines 127-147 sets, in its order. */
  const CanonicalKeys: seq<string> := [
    "id", "raw", "timestamp", "timestamp_dt", "message", "event.category", "event.action",
    "source.ip", "destination.ip", "severity", "outcome", "user.name", "host.name",
    "process.name", "process.pid", "process.command_line", "structured"]

  /** The record literal of lines 127-147, before the flattened entries are added. */
  function CanonicalRecord(o: Oracles, m: Dict<Json>, lineNo: nat, ts: int, srcIp: Json, dstIp: Json): (r: Dict<Value>)
    requires SuccessPathDefined(m)
    ensures |r| == |CanonicalKeys| && forall i | 0 <= i < |r| :: r[i].0 == CanonicalKeys[i]
  {
    var event := Sub(m, "event");
    [ ("id", VJson(JInt(lineNo))),
      ("raw", VJson(JStr(o.dumps(JObj(m))))),
      ("timestamp", VJson(GetOrNull(m, "@timestamp"))),
      ("timestamp_dt", VTime(ts)),
      ("message", VJson(match Get(m, "message") case Some(msg) => msg case None => JStr(""))),
      ("event.category", VJson(GetOrNull(event, "category"))),
      ("event.action", VJson(GetOrNull(event, "action"))),
      ("source.ip", VJson(srcIp)),
      ("destination.ip", VJson(dstIp)),
      ("severity", VJson(Severity(m))),
      ("outcome", VJson(GetOrNull(event, "outcome"))),
      ("user.name", VJson(GetOrNull(Sub(m, "user"), "name"))),
      ("host.name", VJson(GetOrNull(Sub(m, "host"), "name"))),
      ("process.name", VJson(ProcessField(m, "name"))),
      ("process.pid", VJson(ProcessField(m, "pid"))),
      ("process.command_line", VJson(ProcessField(m, "command_line"))),
      ("structured", VJson(JObj(m))) ]
  }

  /** The flattened entries as event values. */
  function AsValues(m: Dict<Json>): (r: Dict<Value>)
    ensures |r| == |m| && forall i | 0 <= i < |m| :: r[i] == (m[i].0, VJson(m[i].1))
  {
    if m == [] then [] else [(m[0].0, VJson(m[0].1))] + AsValues(m[1..])
  }

  /** `str(x)` of the flattened values that are not `None`, in order. */
  function Rendered(o: Oracles, m: Dict<Json>): seq<string>
  {
    if m == [] then []
    else (if m[0].1 == JNull then [] else [o.str(VJson(m[0].1))]) + Rendered(o, m[1..])
  }

  /** `_all_concat`: the space-joined rendering of the non-`None` flattened values. */
  function AllConcat(o: Oracles, flat: Dict<Json>): string
  {
    Text.JoinSpace(Rendered(o, flat))
  }

  /** The record of an accepted line: the literal, then every flattened key it lacks, then `_all_concat`. */
  function EventRecord(o: Oracles, m: Dict<Json>, lineNo: nat, ts: int, srcIp: Json, dstIp: Json): Dict<Value>
    requires SuccessPathDefined(m)
  {
    var flat := Flatten(m, "");
    var ev := SetDefaultAll(CanonicalRecord(o, m, lineNo, ts, srcIp, dstIp), AsValues(flat));
    Set(ev, "_all_concat", VJson(JStr(AllConcat(o, flat))))
  }

  /** The address warnings of lines 118-123, in order. */
  function IpWarnings(o: Oracles, lineNo: nat, srcIp: Json, dstIp: Json): seq<string>
  {
    (if BadIp(o, srcIp) then [IpWarning(lineNo, "source.ip")] else [])
    + (if BadIp(o, dstIp) then [IpWarning(lineNo, "destination.ip")] else [])
  }

  /** What `normalize_ecs_row` returns once the required fields and the timestamp are in place. */
  function Accept(o: Oracles, m: Dict<Json>, lineNo: nat, ts: int): Normalized
    requires SuccessPathDefined(m)
  {
    var srcIp := GetOrNull(Sub(m, "source"), "ip");
    var dstIp := GetOrNull(Sub(m, "destination"), "ip");
    Normalized(
      EventRecord(o, m, lineNo, ts, if BadIp(o, srcIp) then JNull else srcIp, if BadIp(o, dstIp) then JNull else dstIp),
      IpWarnings(o, lineNo, srcIp, dstIp))
  }

  /** What `normalize_ecs_row(obj, line_no)` returns. */
  function Normalize(o: Oracles, obj: Json, lineNo: nat): Normalized
    requires NormalizeDefined(o, obj)
  {
    match MissingField(obj)
    case Some(msg) => Normalized(ErrorRecord(o, obj, lineNo, msg), [])
    case None =>
      match ParseEcsTimestamp(o, GetOrNull(obj.members, "@timestamp"))
      case None => Normalized(ErrorRecord(o, obj, lineNo, "invalid @timestamp"), [])
      case Some(ts) => Accept(o, obj.members, lineNo, ts)
  }

  method NormalizeEcsRow(o: Oracles, obj: Json, lineNo: nat) returns (ev: Dict<Value>, warnings: seq<string>)
    requires NormalizeDefined(o, obj)
    ensures Normalized(ev, warnings) == Normalize(o, obj, lineNo)
  {
    warnings := [];
    for i := 0 to |EcsMinFields|
      invariant i >= 1 ==> PyIn("@timestamp", obj) == Some(true)
      invariant i >= 2 ==> MissingField(obj).None?
    {
      var f := EcsMinFields[i];
      if f == "event.category" {
        if PyIn("event", obj) == Some(false) || PyIn("category", GetOrNull(obj.members, "event")) == Some(false) {
          ev := ErrorRecord(o, obj, lineNo, "missing required field: event.category");
          return;
        }
      } else if PyIn(f, obj) == Some(false) {
        assert f == "@timestamp" && "missing required field: " + f == "missing required field: @timestamp";
        ev := ErrorRecord(o, obj, lineNo, "missing required field: " + f);
        return;
      }
    }
    var m := obj.members;
    var tsRaw := GetOrNull(m, "@timestamp");
    var tsDt := ParseEcsTimestamp(o, tsRaw);
    if tsDt.None? {
      ev := ErrorRecord(o, obj, lineNo, "invalid @timestamp");
      return;
    }
    ev, warnings := AcceptRow(o, m, lineNo, tsDt.value);
  }

  /** Lines 116-152: validate both addresses, then build the record. */
  method AcceptRow(o: Oracles, m: Dict<Json>, lineNo: nat, ts: int) returns (ev: Dict<Value>, warnings: seq<string>)
    requires SuccessPathDefined(m)
    ensures Normalized(ev, warnings) == Accept(o, m, lineNo, ts)
  {
    var srcIp := GetOrNull(Sub(m, "source"), "ip");
    var dstIp := GetOrNull(Sub(m, "destination"), "ip");
    ghost var src0, dst0 := srcIp, dstIp;
    warnings := [];
    if Truthy(srcIp) && !o.isIpAddress(srcIp) {
      warnings := warnings + [IpWarning(lineNo, "source.ip")];
      srcIp := JNull;
    }
    if Truthy(dstIp) && !o.isIpAddress(dstIp) {
      warnings := warnings + [IpWarning(lineNo, "destination.ip")];
      dstIp := JNull;
    }
    assert warnings == IpWarnings(o, lineNo, src0, dst0);
    ev := BuildEventRecord(o, m, lineNo, ts, srcIp, dstIp);
  }

  /** Lines 125-152: flatten, fill the literal with `setdefault`, then set `_all_concat`. */
  method BuildEventRecord(o: Oracles, m: Dict<Json>, lineNo: nat, ts: int, srcIp: Json, dstIp: Json) returns (ev: Dict<Value>)
    requires SuccessPathDefined(m)
    ensures ev == EventRecord(o, m, lineNo, ts, srcIp, dstIp)
  {
    var flat := FlattenDict(m, "");
    ev := CanonicalRecord(o, m, lineNo, ts, srcIp, dstIp);
    ev := FillDefaults(ev, flat);
    ev := Set(ev, "_all_concat", VJson(JStr(AllConcat(o, flat))));
  }

  /** The `setdefault` loop of lines 149-150. */
  method FillDefaults(base: Dict<Value>, flat: Dict<Json>) returns (ev: Dict<Value>)
    ensures ev == SetDefaultAll(base, AsValues(flat))
  {
    ev := base;
    for i := 0 to |flat|
      invariant ev == SetDefaultAll(base, AsValues(flat)[..i])
    {
      assert AsValues(flat)[..i + 1][..i] == AsValues(flat)[..i];
      ev := SetDefault(ev, flat[i].0, VJson(flat[i].1));
    }
    assert AsValues(flat)[..|flat|] == AsValues(flat);
  }

  /** The line passed the required-field checks and its timestamp parsed. */
  predicate Accepted(o: Oracles, obj: Json)
    requires NormalizeDefined(o, obj)
  {
    MissingField(obj).None? && ParseEcsTimestamp(o, GetOrNull(obj.members, "@timestamp")).Some?
  }

  /**
   * Hard failures, in the order they are checked: a missing `@timestamp`, then a missing
   * `event` or `event.category`, then a timestamp that does not parse. Each gives a record
   * with the line number as `id`, a `parse_error` naming the cause, and no warning.
   */
  lemma FailuresInOrder(o: Oracles, obj: Json, lineNo: nat)
    requires NormalizeDefined(o, obj)
    ensures PyIn("@timestamp", obj) == Some(false) ==>
      Normalize(o, obj, lineNo) == Normalized(ErrorRecord(o, obj, lineNo, "missing required field: @timestamp"), [])
    ensures PyIn("@timestamp", obj) == Some(true) && PyIn("event", obj) == Some(false) ==>
      Normalize(o, obj, lineNo) == Normalized(ErrorRecord(o, obj, lineNo, "missing required field: event.category"), [])
    ensures (PyIn("@timestamp", obj) == Some(true) && PyIn("event", obj) == Some(true)
             && PyIn("category", GetOrNull(obj.members, "event")) == Some(false)) ==>
      Normalize(o, obj, lineNo) == Normalized(ErrorRecord(o, obj, lineNo, "missing required field: event.category"), [])
    ensures MissingField(obj).None? && ParseEcsTimestamp(o, GetOrNull(obj.members, "@timestamp")).None? ==>
      Normalize(o, obj, lineNo) == Normalized(ErrorRecord(o, obj, lineNo, "invalid @timestamp"), [])
    ensures !Accepted(o, obj) ==>
      && Get(Normalize(o, obj, lineNo).record, "id") == Some(VJson(JInt(lineNo)))
      && Get(Normalize(o, obj, lineNo).record, "parse_error").Some?
      && ValueTruthy(Get(Normalize(o, obj, lineNo).record, "parse_error").value)
      && Normalize(o, obj, lineNo).warnings == []
  {
    if !Accepted(o, obj) {
      var rec := Normalize(o, obj, lineNo).record;
      assert rec[0].0 == "id" && rec[2].0 == "parse_error";
      GetAt(rec, 0);
      GetAt(rec, 2);
    }
  }

  /** A document that is not accepted gives a record with a truthy `parse_error`. */
  lemma RejectedRecord(o: Oracles, obj: Json, lineNo: nat)
    requires NormalizeDefined(o, obj) && !Accepted(o, obj)
    ensures Get(Normalize(o, obj, lineNo).record, "parse_error").Some?
    ensures ValueTruthy(Get(Normalize(o, obj, lineNo).record, "parse_error").value)
  {
    var rec := Normalize(o, obj, lineNo).record;
    assert rec[2].0 == "parse_error";
    GetAt(rec, 2);
  }

  lemma CanonicalKeysDistinct()
    ensures forall i, j | 0 <= i < j < |CanonicalKeys| :: CanonicalKeys[i] != CanonicalKeys[j]
  {
  }

  /** Every key of the literal reads back the value the literal gives it. */
  lemma CanonicalGet(o: Oracles, m: Dict<Json>, lineNo: nat, ts: int, srcIp: Json, dstIp: Json, i: nat)
    requires SuccessPathDefined(m) && i < |CanonicalKeys|
    ensures Get(CanonicalRecord(o, m, lineNo, ts, srcIp, dstIp), CanonicalKeys[i])
      == Some(CanonicalRecord(o, m, lineNo, ts, srcIp, dstIp)[i].1)
  {
    CanonicalKeysDistinct();
    GetAt(CanonicalRecord(o, m, lineNo, ts, srcIp, dstIp), i);
  }

  function LiftOpt(v: Option<Json>): Option<Value>
  {
    match v
    case Some(j) => Some(VJson(j))
    case None => None
  }

  lemma {:induction false} AsValuesGet(m: Dict<Json>, x: string)
    ensures Get(AsValues(m), x) == LiftOpt(Get(m, x))
  {
    if m != [] {
      assert AsValues(m)[1..] == AsValues(m[1..]);
      AsValuesGet(m[1..], x);
    }
  }

  /** Reading a record filled with `setdefault` and then given `_all_concat`. */
  lemma FilledGet(base: Dict<Value>, extra: Dict<Value>, v: Value, x: string)
    ensures Get(Set(SetDefaultAll(base, extra), "_all_concat", v), x) ==
      if x == "_all_concat" then Some(v) else if HasKey(base, x) then Get(base, x) else Get(extra, x)
  {
    SetGet(SetDefaultAll(base, extra), "_all_concat", v, x);
    SetDefaultAllGet(base, extra, x);
  }

  /**
   * Reading a key of an accepted record: `_all_concat` is the concatenation, the keys of
   * the literal keep the literal's values (`setdefault` never overrides them), every other
   * key reads its flattened value.
   */
  lemma EventRecordGet(o: Oracles, m: Dict<Json>, lineNo: nat, ts: int, srcIp: Json, dstIp: Json, x: string)
    requires SuccessPathDefined(m)
    ensures Get(EventRecord(o, m, lineNo, ts, srcIp, dstIp), x) ==
      if x == "_all_concat" then Some(VJson(JStr(AllConcat(o, Flatten(m, "")))))
      else if x in CanonicalKeys then Get(CanonicalRecord(o, m, lineNo, ts, srcIp, dstIp), x)
      else LiftOpt(Get(Flatten(m, ""), x))
  {
    var flat := Flatten(m, "");
    var base := CanonicalRecord(o, m, lineNo, ts, srcIp, dstIp);
    FilledGet(base, AsValues(flat), VJson(JStr(AllConcat(o, flat))), x);
    AsValuesGet(flat, x);
    if x in CanonicalKeys {
      var i :| 0 <= i < |CanonicalKeys| && CanonicalKeys[i] == x;
      assert base[i].0 == x;
    } else {
      assert !HasKey(base, x);
    }
  }

  /** A key of the literal reads, in the finished record, the value the literal gives it. */
  lemma EventRecordCanonical(o: Oracles, m: Dict<Json>, lineNo: nat, ts: int, srcIp: Json, dstIp: Json, i: nat)
    requires SuccessPathDefined(m) && i < |CanonicalKeys|
    ensures Get(EventRecord(o, m, lineNo, ts, srcIp, dstIp), CanonicalKeys[i])
      == Some(CanonicalRecord(o, m, lineNo, ts, srcIp, dstIp)[i].1)
  {
    var flat := Flatten(m, "");
    var base := CanonicalRecord(o, m, lineNo, ts, srcIp, dstIp);
    assert CanonicalKeys[i] != "_all_concat";
    assert base[i].0 == CanonicalKeys[i];
    FilledGet(base, AsValues(flat), VJson(JStr(AllConcat(o, flat))), CanonicalKeys[i]);
    CanonicalGet(o, m, lineNo, ts, srcIp, dstIp, i);
  }

  lemma EventRecordIps(o: Oracles, m: Dict<Json>, lineNo: nat, ts: int, srcIp: Json, dstIp: Json)
    requires SuccessPathDefined(m)
    ensures Get(EventRecord(o, m, lineNo, ts, srcIp, dstIp), "source.ip") == Some(VJson(srcIp))
    ensures Get(EventRecord(o, m, lineNo, ts, srcIp, dstIp), "destination.ip") == Some(VJson(dstIp))
  {
    var base := CanonicalRecord(o, m, lineNo, ts, srcIp, dstIp);
    assert CanonicalKeys[7] == "source.ip" && base[7].1 == VJson(srcIp);
    assert CanonicalKeys[8] == "destination.ip" && base[8].1 == VJson(dstIp);
    EventRecordCanonical(o, m, lineNo, ts, srcIp, dstIp, 7);
    EventRecordCanonical(o, m, lineNo, ts, srcIp, dstIp, 8);
  }

  /**
   * An address is warned about only when it is truthy and not an address: each bad one
   * adds exactly one warning naming the line, and the record holds `None` in its place.
   */
  lemma IpValidation(o: Oracles, obj: Json, lineNo: nat)
    requires NormalizeDefined(o, obj) && Accepted(o, obj)
    ensures var src := GetOrNull(Sub(obj.members, "source"), "ip");
            var dst := GetOrNull(Sub(obj.members, "destination"), "ip");
            var r := Normalize(o, obj, lineNo);
            && r.warnings == (if BadIp(o, src) then [IpWarning(lineNo, "source.ip")] else [])
                             + (if BadIp(o, dst) then [IpWarning(lineNo, "destination.ip")] else [])
            && Get(r.record, "source.ip") == Some(VJson(if BadIp(o, src) then JNull else src))
            && Get(r.record, "destination.ip") == Some(VJson(if BadIp(o, dst) then JNull else dst))
  {
    var m := obj.members;
    var ts := ParseEcsTimestamp(o, GetOrNull(m, "@timestamp")).value;
    var src := GetOrNull(Sub(m, "source"), "ip");
    var dst := GetOrNull(Sub(m, "destination"), "ip");
    EventRecordIps(o, m, lineNo, ts, if BadIp(o, src) then JNull else src, if BadIp(o, dst) then JNull else dst);
  }

  /** An accepted record's `id` is the line number. */
  lemma AcceptedId(o: Oracles, obj: Json, lineNo: nat)
    requires NormalizeDefined(o, obj) && Accepted(o, obj)
    ensures Get(Normalize(o, obj, lineNo).record, "id") == Some(VJson(JInt(lineNo)))
  {
    var m := obj.members;
    var ts := ParseEcsTimestamp(o, GetOrNull(m, "@timestamp")).value;
    var src := GetOrNull(Sub(m, "source"), "ip");
    var dst := GetOrNull(Sub(m, "destination"), "ip");
    var src' := if BadIp(o, src) then JNull else src;
    var dst' := if BadIp(o, dst) then JNull else dst;
    assert Normalize(o, obj, lineNo).record == EventRecord(o, m, lineNo, ts, src', dst');
    EventRecordGet(o, m, lineNo, ts, src', dst', "id");
    assert CanonicalKeys[0] == "id";
    CanonicalGet(o, m, lineNo, ts, src', dst', 0);
  }

  /** Every warning of an accepted document names its line and one of the two address fields. */
  lemma AcceptedWarnings(o: Oracles, obj: Json, lineNo: nat)
    requires NormalizeDefined(o, obj) && Accepted(o, obj)
    ensures forall w | w in Normalize(o, obj, lineNo).warnings ::
      w == IpWarning(lineNo, "source.ip") || w == IpWarning(lineNo, "destination.ip")
  {
    IpValidation(o, obj, lineNo);
  }

  /**
   * An accepted record has the line number as `id`, holds every flattened key, keeps the
   * literal's value for every canonical key, takes every other flattened key's value from
   * the flattening, and its `_all_concat` is the space-join of `str(x)` over the non-`None`
   * flattened values in flattening order.
   */
  lemma AcceptedRecord(o: Oracles, obj: Json, lineNo: nat)
    requires NormalizeDefined(o, obj) && Accepted(o, obj)
    ensures var r := Normalize(o, obj, lineNo).record;
            var flat := Flatten(obj.members, "");
            && Get(r, "id") == Some(VJson(JInt(lineNo)))
            && Get(r, "structured") == Some(VJson(obj))
            && (forall k :: HasKey(flat, k) ==> HasKey(r, k))
            && (forall k | k !in CanonicalKeys && k != "_all_concat" :: Get(r, k) == LiftOpt(Get(flat, k)))
            && Get(r, "_all_concat") == Some(VJson(JStr(Text.JoinSpace(Rendered(o, flat)))))
  {
    var m := obj.members;
    var ts := ParseEcsTimestamp(o, GetOrNull(m, "@timestamp")).value;
    var src := GetOrNull(Sub(m, "source"), "ip");
    var dst := GetOrNull(Sub(m, "destination"), "ip");
    var src' := if BadIp(o, src) then JNull else src;
    var dst' := if BadIp(o, dst) then JNull else dst;
    var r := Normalize(o, obj, lineNo).record;
    assert r == EventRecord(o, m, lineNo, ts, src', dst');
    var flat := Flatten(m, "");
    EventRecordGet(o, m, lineNo, ts, src', dst', "id");
    EventRecordGet(o, m, lineNo, ts, src', dst', "structured");
    assert CanonicalKeys[0] == "id" && CanonicalKeys[16] == "structured";
    CanonicalGet(o, m, lineNo, ts, src', dst', 0);
    CanonicalGet(o, m, lineNo, ts, src', dst', 16);
    EventRecordGet(o, m, lineNo, ts, src', dst', "_all_concat");
    forall k | HasKey(flat, k) ensures HasKey(r, k) {
      EventRecordGet(o, m, lineNo, ts, src', dst', k);
      if k in CanonicalKeys {
        var i :| 0 <= i < |CanonicalKeys| && CanonicalKeys[i] == k;
        CanonicalGet(o, m, lineNo, ts, src', dst', i);
      }
    }
    forall k | k !in CanonicalKeys && k != "_all_concat" ensures Get(r, k) == LiftOpt(Get(flat, k)) {
      EventRecordGet(o, m, lineNo, ts, src', dst', k);
    }
  }
}
