// The desk report's own schema, the final gate on it, and how large a sanitized report can get.
module DeskReport {
  import opened Prelude
  import opened Reals
  import opened Decimal
  import opened IsoTime
  import opened Sanitizer

  // --- size ------------------------------------------------------------------------------------

  /** Characters of a rendered value, strings counted without escapes. */
  ghost function Size(v: Json): nat
    decreases v, 1, 0
  {
    match v
    case Null => 4
    case Bool(_) => 5
    case Int(n) => IntSize(n)
    case Float(_) => 24
    case NonFinite => 9
    case Str(s) => |s| + 2
    case Arr(items) => 2 + ItemsSize(v, |items|)
    case Obj(fields) => 2 + FieldsSize(v, fields.Keys)
  }

  function IntSize(n: int): nat {
    1 + |Digits(if n < 0 then -n else n)|
  }

  ghost function ItemsSize(v: Json, n: nat): nat
    requires v.Arr? && n <= |v.items|
    decreases v, 0, n
  {
    if n == 0 then 0 else ItemsSize(v, n - 1) + Size(v.items[n - 1]) + 2
  }

  ghost function FieldsSize(v: Json, keys: set<string>): nat
    requires v.Obj? && keys <= v.fields.Keys
    decreases v, 0, |keys|
  {
    if keys == {} then 0
    else
      var k :| k in keys;
      |k| + 6 + Size(v.fields[k]) + FieldsSize(v, keys - {k})
  }

  function Max(a: nat, b: nat): nat {
    if a < b then b else a
  }

  function Longest(words: seq<string>): nat {
    if words == [] then 0 else Max(Longest(Init(words)), |Last(words)|)
  }

  /** What the schema alone allows, whatever the input. */
  ghost function Bound(schema: Schema): nat
    decreases schema, 1, 0
  {
    match schema
    case Code => 83
    case Compound => 162
    case Flag => 5
    case Number(low, high) => Max(4, Max(IntSize(low), IntSize(high)))
    case Stamp => 44
    case Enum(allowed) => Max(12, Longest(allowed) + 2)
    case Pattern(_) => 161
    case ListOf(item, limit) => 2 + limit * (Bound(item) + 2)
    case Object(checks) => 2 + Max(94, FieldsBound(schema, checks.Keys))
  }

  ghost function FieldsBound(schema: Schema, keys: set<string>): nat
    requires schema.Object? && keys <= schema.checks.Keys
    decreases schema, 0, |keys|
  {
    if keys == {} then 0
    else
      var k :| k in keys;
      |k| + 6 + Bound(schema.checks[k]) + FieldsBound(schema, keys - {k})
  }

  lemma {:induction false} FieldsSizeRemove(v: Json, keys: set<string>, k: string)
    requires v.Obj? && keys <= v.fields.Keys && k in keys
    ensures FieldsSize(v, keys) == |k| + 6 + Size(v.fields[k]) + FieldsSize(v, keys - {k})
    decreases |keys|
  {
    hide Size;
    var first :| first in keys
      && FieldsSize(v, keys) == |first| + 6 + Size(v.fields[first]) + FieldsSize(v, keys - {first});
    if first != k {
      FieldsSizeRemove(v, keys - {first}, k);
      FieldsSizeRemove(v, keys - {k}, first);
      assert (keys - {first}) - {k} == (keys - {k}) - {first};
    }
  }

  lemma {:induction false} FieldsBoundRemove(schema: Schema, keys: set<string>, k: string)
    requires schema.Object? && keys <= schema.checks.Keys && k in keys
    ensures FieldsBound(schema, keys) == |k| + 6 + Bound(schema.checks[k]) + FieldsBound(schema, keys - {k})
    decreases |keys|
  {
    hide Bound;
    var first :| first in keys
      && FieldsBound(schema, keys) == |first| + 6 + Bound(schema.checks[first]) + FieldsBound(schema, keys - {first});
    if first != k {
      FieldsBoundRemove(schema, keys - {first}, k);
      FieldsBoundRemove(schema, keys - {k}, first);
      assert (keys - {first}) - {k} == (keys - {k}) - {first};
    }
  }

  lemma {:induction false} DigitsMonotone(a: nat, b: nat)
    requires a <= b
    ensures |Digits(a)| <= |Digits(b)|
  {
    if a >= 10 { DigitsMonotone(a / 10, b / 10); }
  }

  lemma IntBounded(n: int, low: int, high: int)
    requires low <= n <= high
    ensures IntSize(n) <= Max(IntSize(low), IntSize(high))
  {
    if n < 0 { DigitsMonotone(-n, -low); } else { DigitsMonotone(n, high); }
  }

  lemma {:induction false} WordBounded(words: seq<string>, s: string)
    requires s in words
    ensures |s| <= Longest(words)
  {
    assert words == Init(words) + [Last(words)];
    if s in Init(words) { WordBounded(Init(words), s); }
  }

  lemma AcceptedBounded(regex: Regex, s: string)
    requires Accepts(regex, s)
    ensures |s| <= 159
  {
    var t := Chomp(s);
    if regex.JobId? {
      var i, k, j :| 0 <= i < k < j < |t| && JobIdAt(t, i, k, j);
      assert |t[..i]| <= 8 && |t[i + 1..k]| <= 100 && |t[k + 1..j]| <= 7 && |t[j + 1..]| <= 40;
    }
  }

  lemma CodeBounded(v: Json)
    ensures Size(CodeOf(v)) <= 83
  {
  }

  ghost predicate SizeOk(read: Reader, schema: Schema, v: Json) {
    var out := Project(read, schema, v);
    out.Some? ==> Size(out.value) <= Bound(schema)
  }

  /** The size of a sanitized value is bounded by its schema alone. */
  lemma {:induction false} SizeBounded(read: Reader, schema: Schema, v: Json)
    ensures SizeOk(read, schema, v)
    decreases schema
  {
    hide SizeOk;
    match schema {
      case ListOf(item, limit) =>
        if v.Arr? {
          forall i | 0 <= i < Min(limit, |v.items|) ensures SizeOk(read, item, v.items[i]) {
            SizeBounded(read, item, v.items[i]);
          }
        }
        ListBounded(read, item, limit, v);
      case Object(checks) =>
        if v.Obj? {
          forall key | key in checks && key in v.fields ensures SizeOk(read, checks[key], v.fields[key]) {
            SizeBounded(read, checks[key], v.fields[key]);
          }
        }
        ObjectBounded(read, checks, v);
      case _ => LeafBounded(read, schema, v);
    }
  }

  lemma LeafBounded(read: Reader, schema: Schema, v: Json)
    requires !schema.ListOf? && !schema.Object?
    ensures SizeOk(read, schema, v)
  {
    hide StampOf, CodeOf, IsCompound, Accepts;
    match schema {
      case Code => CodeBounded(v);
      case Compound => if v.Str? && IsCompound(v.s) { CompoundBounded(v.s); }
      case Number(low, high) => NumberBounded(low, high, v);
      case Stamp => StampBounded(read, v);
      case Enum(allowed) => if v.Str? && v.s in allowed { WordBounded(allowed, v.s); }
      case Pattern(regex) => if v.Str? && Accepts(regex, v.s) { AcceptedBounded(regex, v.s); }
      case _ =>
    }
  }

  lemma CompoundBounded(s: string)
    requires IsCompound(s)
    ensures |s| <= 160
  {
  }

  lemma NumberBounded(low: int, high: int, v: Json)
    ensures NumberOf(low, high, v).Some? ==> Size(NumberOf(low, high, v).value) <= Bound(Number(low, high))
  {
    hide IntSize;
    if v.Int? && low <= v.n <= high { IntBounded(v.n, low, high); }
    if v.Float? && low as real <= v.r <= high as real {
      TruncateStays(v.r, low, high);
      IntBounded(Truncate(v.r), low, high);
    }
  }

  lemma StampBounded(read: Reader, v: Json)
    ensures Size(StampOf(read, v)) <= 44
  {
    hide Print;
    if v.Str? && |v.s| <= 40 && read(Zulu(v.s)).Some? { PrintLength(read(Zulu(v.s)).value); }
  }

  lemma ListShape(v: Json, item: Schema, limit: nat)
    requires v.Arr?
    ensures Size(v) == 2 + ItemsSize(v, |v.items|) && Bound(ListOf(item, limit)) == 2 + limit * (Bound(item) + 2)
    ensures v.items == [] ==> Size(v) == 2
  {
  }

  lemma ListBounded(read: Reader, item: Schema, limit: nat, v: Json)
    requires v.Arr? ==> forall i :: 0 <= i < Min(limit, |v.items|) ==> SizeOk(read, item, v.items[i])
    ensures SizeOk(read, ListOf(item, limit), v)
  {
    hide Size, Bound, ItemsSize;
    var out := Project(read, ListOf(item, limit), v);
    if out.Some? {
      var items := out.value.items;
      ListShape(out.value, item, limit);
      forall i | 0 <= i < |items| ensures Size(items[i]) <= Bound(item) {
        assert SizeOk(read, item, v.items[i]) && Project(read, item, v.items[i]) == Some(items[i]);
      }
      ItemsBounded(out.value, |items|, Bound(item));
      TimesMore(|items|, limit, Bound(item) + 2);
    }
  }

  lemma ObjectBounded(read: Reader, checks: map<string, Schema>, v: Json)
    requires v.Obj? ==> forall key :: key in checks && key in v.fields ==> SizeOk(read, checks[key], v.fields[key])
    ensures SizeOk(read, Object(checks), v)
  {
    var out := Project(read, Object(checks), v);
    if v.Obj? && ErrorOnly(v.fields) {
      ErrorBounded(v.fields["error"]);
    } else if v.Obj? && out.Some? {
      var fields := out.value.fields;
      forall key | key in fields ensures key in checks && Size(fields[key]) <= Bound(checks[key]) {
        assert SizeOk(read, checks[key], v.fields[key])
               && Project(read, checks[key], v.fields[key]) == Some(fields[key]);
      }
      FieldsBounded(out.value, Object(checks), fields.Keys, checks.Keys);
    }
  }

  lemma ErrorBounded(v: Json)
    ensures Size(Obj(map["error" := CodeOf(v)])) <= 96
  {
    CodeBounded(v);
    var out := Obj(map["error" := CodeOf(v)]);
    FieldsSizeRemove(out, {"error"}, "error");
    assert out.fields.Keys == {"error"} && {"error"} - {"error"} == {};
    assert FieldsSize(out, {}) == 0 && |"error"| == 5;
  }

  lemma {:induction false} ItemsBounded(v: Json, n: nat, bound: nat)
    requires v.Arr? && n <= |v.items| && forall i :: 0 <= i < |v.items| ==> Size(v.items[i]) <= bound
    ensures ItemsSize(v, n) <= n * (bound + 2)
  {
    hide Size;
    if n > 0 {
      ItemsBounded(v, n - 1, bound);
      Times(n, bound + 2);
    }
  }

  lemma TimesMore(n: nat, m: nat, b: nat)
    requires n <= m
    ensures n * b <= m * b
  {
  }

  lemma {:induction false} FieldsBounded(v: Json, schema: Schema, keys: set<string>, all: set<string>)
    requires v.Obj? && schema.Object? && keys <= v.fields.Keys && keys <= all <= schema.checks.Keys
    requires forall key :: key in keys ==> Size(v.fields[key]) <= Bound(schema.checks[key])
    ensures FieldsSize(v, keys) <= FieldsBound(schema, all)
    decreases |all|
  {
    hide Size, Bound;
    if all != {} {
      var k :| k in all;
      FieldsBoundRemove(schema, all, k);
      FieldsBounded(v, schema, keys - {k}, all - {k});
      if k in keys { FieldsSizeRemove(v, keys, k); } else { assert keys - {k} == keys; }
    }
  }

  lemma Times(n: nat, b: nat)
    requires n > 0
    ensures n * b == (n - 1) * b + b
  {
  }

  // --- the report ------------------------------------------------------------------------------

  const SCHEMA := "desk-diagnostics/1"
  const COUNT := Number(0, 10_000_000)
  const SECONDS := Number(-86_400, 10 * 365 * 86_400)
  const DAY := Number(0, 86_400)

  const DESK: Schema := Object(map[
    "health" := Enum(["healthy", "starting", "recovering", "needs_operator", "unrecognized"]),
    "activity" := Code, "reasons" := ListOf(Compound, 20), "ready" := Flag, "paused" := Flag,
    "pause_category" := Code, "book_status" := Code, "completed_cycles" := COUNT,
    "pending_jobs" := COUNT, "recent_failures" := COUNT, "last_completed_at" := Stamp,
    "unreviewed_settlements" := COUNT])

  const JOB: Schema := Object(map[
    "job_id" := Pattern(JobId), "desk" := Enum(["chatgpt", "claude"]),
    "state" := Enum(["queued", "claimed", "running", "retry", "publishing", "completed", "failed", "unrecognized"]),
    "error_category" := Code, "created_at" := Stamp, "updated_at" := Stamp, "lease_active" := Flag])

  const RETRY_AFTER: Schema := Object(map["present" := Flag, "valid" := Flag, "seconds" := DAY])

  const PROBE_FIELDS: map<string, Schema> := map[
    "outcome" := Code, "target" := Code, "request_sent" := Flag, "cached" := Flag,
    "cached_age_seconds" := DAY, "cooldown_remaining_seconds" := DAY,
    "http_status" := Number(100, 599), "latency_ms" := Number(0, 600_000), "retry_after" := RETRY_AFTER]

  const PROBE: Schema := Object(PROBE_FIELDS["previous" := Object(PROBE_FIELDS)])

  const WORKER: Schema := Object(map[
    "last_tick" := Stamp, "last_tick_age_seconds" := SECONDS, "monitor_fresh" := Flag, "error" := Code])

  const SERVICE: Schema := Object(map[
    "research_mode" := Code, "alert_mode" := Code, "account_mode" := Code, "live_enabled" := Flag,
    "round_id" := Pattern(RoundId), "round_started" := Flag, "started_at" := Stamp, "worker" := WORKER])

  const PROGRESSIVE_BOARD: Schema := Object(map[
    "state" := Code, "pages_seen" := COUNT, "completed_passes" := COUNT, "cached_markets" := COUNT,
    "sample_markets" := COUNT, "continuation_pending" := Flag, "snapshot_as_of" := Stamp,
    "snapshot_age_seconds" := SECONDS, "scan_lease" := Object(map["active" := Flag, "seconds_remaining" := DAY])])

  const WHOLE_BOARD_INDEX: Schema := Object(map[
    "state" := Code, "scan_in_progress" := Flag, "as_of" := Stamp, "age_seconds" := SECONDS,
    "ttl_seconds" := COUNT, "events_scanned" := COUNT, "pages" := COUNT, "markets" := COUNT, "complete" := Flag])

  const DIAGNOSTIC: Schema := Object(map["read_only" := Flag, "failed_sections" := ListOf(Code, 10)])
  const DESKS: Schema := Object(map["chatgpt" := DESK, "claude" := DESK])
  const READINESS: Schema := Object(map["ready" := Flag, "blockers" := ListOf(Compound, 50),
                                        "note" := Enum(["cached launch checks; nothing was refreshed"])])
  const JOBS: Schema := Object(map["limit_per_desk" := COUNT, "recent" := ListOf(JOB, 20)])
  const BOARD: Schema := Object(map["progressive_board" := PROGRESSIVE_BOARD, "whole_board_index" := WHOLE_BOARD_INDEX])

  const REPORT: Schema := Object(map[
    "schema" := Enum([SCHEMA]), "generated_at" := Stamp,
    "verdict" := Enum(["healthy", "attention", "diagnostic_incomplete"]),
    "attention" := ListOf(Compound, 40), "diagnostic" := DIAGNOSTIC, "service" := SERVICE, "desks" := DESKS,
    "readiness" := READINESS, "jobs" := JOBS, "board" := BOARD, "market_probe" := PROBE])

  function Get(fields: map<string, Json>, key: string): Option<Json> {
    if key in fields then Some(fields[key]) else None
  }

  /** What sanitizing a payload comes to. */
  datatype Outcome = Report(report: Json) | InvalidResponse | Raised

  /** The projection and the gate. */
  function Sanitize(read: Reader, payload: Json): Outcome {
    match Project(read, REPORT, payload)
    case None => Raised
    case Some(report) =>
      if !report.Obj? then InvalidResponse
      else
        var schema, verdict := Get(report.fields, "schema"), Get(report.fields, "verdict");
        if schema != Some(Str(SCHEMA)) || verdict in {None, Some(Null), Some(Str(REDACTED))} then InvalidResponse
        else Report(report)
  }

  lemma DeskIsWellFormed()
    ensures ErrorsAreCodes(DESK) && ErrorsAreCodes(JOB)
  {
  }

  lemma ProbeIsWellFormed()
    ensures ErrorsAreCodes(PROBE)
  {
    assert ErrorsAreCodes(RETRY_AFTER);
    hide RETRY_AFTER;
    assert ErrorsAreCodes(Object(PROBE_FIELDS));
    hide PROBE_FIELDS;
    ProbeHasNoError();
  }

  lemma ProbeHasNoError()
    ensures "error" !in PROBE_FIELDS
  {
  }

  lemma ServiceIsWellFormed()
    ensures ErrorsAreCodes(SERVICE) && ErrorsAreCodes(DIAGNOSTIC) && ErrorsAreCodes(READINESS)
  {
    assert ErrorsAreCodes(WORKER);
  }

  lemma ProgressiveBoardIsWellFormed()
    ensures ErrorsAreCodes(PROGRESSIVE_BOARD)
  {
    assert ErrorsAreCodes(Object(map["active" := Flag, "seconds_remaining" := DAY]));
  }

  lemma BoardIsWellFormed()
    ensures ErrorsAreCodes(BOARD)
  {
    ProgressiveBoardIsWellFormed();
    assert ErrorsAreCodes(WHOLE_BOARD_INDEX);
    hide PROGRESSIVE_BOARD, WHOLE_BOARD_INDEX;
  }

  lemma DesksAreWellFormed()
    ensures ErrorsAreCodes(DESKS) && ErrorsAreCodes(JOBS)
  {
    DeskIsWellFormed();
    hide DESK, JOB;
    assert ErrorsAreCodes(ListOf(JOB, 20));
  }

  lemma NoErrorSection()
    ensures "error" !in REPORT.checks
  {
    hide DESKS, JOBS, PROBE, SERVICE, BOARD, DIAGNOSTIC, READINESS;
  }

  lemma ReportIsWellFormed()
    ensures ErrorsAreCodes(REPORT)
  {
    hide DESKS, JOBS, PROBE, SERVICE, BOARD, DIAGNOSTIC, READINESS;
    NoErrorSection();
    DesksAreWellFormed();
    ProbeIsWellFormed();
    ServiceIsWellFormed();
    BoardIsWellFormed();
  }

  /**
   * Sanitizing raises exactly on a payload with a too large integer in a number field it reaches. A report that passes
   * the gate has a size that does not depend on the payload; sanitizing it again gives the same report exactly when no
   * timestamp of the payload shows two fractions, and then it holds only known keys, codes, words and timestamps.
   */
  lemma SanitizedReport(read: Reader, payload: Json)
    requires ReadsBack(read)
    ensures Sanitize(read, payload).Raised? <==> Reaches(REPORT, payload, TooLarge)
    ensures match Sanitize(read, payload)
      case Report(report) =>
        && Size(report) <= Bound(REPORT)
        && (Sanitize(read, report) == Report(report) <==> StampsFit(read, REPORT, payload))
        && (StampsFit(read, REPORT, payload) ==> Conforms(read, REPORT, report))
      case _ => true
  {
    hide WellFormed, Project, Bound, Size, StampsFit, Conforms, ReadsBack, REPORT;
    ReportIsWellFormed();
    CodesAreWellFormed(read, REPORT);
    SizeBounded(read, REPORT, payload);
    Idempotent(read, REPORT, payload);
    ImageConforms(read, REPORT, payload);
    RaisesExactly(read, REPORT, payload);
  }
}
