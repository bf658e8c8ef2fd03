// What sanitizing lets through, said character by character.
module Redaction {
  import opened Prelude
  import opened Reals
  import opened Text
  import opened Decimal
  import opened IsoTime
  import opened Sanitizer
  import opened DeskReport

  // --- texts without runs that look like secrets -----------------------------------------------

  /** Of the eight characters from i on, one is no decimal digit. */
  ghost predicate BreaksDigits(s: string, i: nat)
    requires i + 8 <= |s|
  {
    exists j :: i <= j < i + 8 && !('0' <= s[j] <= '9')
  }

  /** Of the sixteen characters from i on, one is no lower-case hexadecimal digit. */
  ghost predicate BreaksHex(s: string, i: nat)
    requires i + 16 <= |s|
  {
    exists j :: i <= j < i + 16 && !('0' <= s[j] <= '9') && !('a' <= s[j] <= 'f')
  }

  ghost predicate Clean(s: string) {
    && (forall i :: 0 <= i <= |s| - 8 ==> BreaksDigits(s, i))
    && (forall i :: 0 <= i <= |s| - 16 ==> BreaksHex(s, i))
  }

  /** Two to eighty lower-case letters, digits and underscores, a letter first. */
  ghost predicate Word(t: string) {
    2 <= |t| <= 80 && 'a' <= t[0] <= 'z'
    && forall c :: c in t ==> 'a' <= c <= 'z' || '0' <= c <= '9' || c == '_'
  }

  /** The text with a final line break, or without. */
  ghost predicate Ends(s: string, t: string) {
    s == t || s == t + "\n"
  }

  /** Such a word, with or without a final line break, and without such runs. */
  ghost predicate CodeText(s: string) {
    Clean(s) && exists t :: Ends(s, t) && Word(t)
  }

  lemma CodeTexts(s: string)
    ensures IsCode(s) <==> CodeText(s)
  {
    CleanTexts(s);
    Chomped(s);
    Words(Chomp(s));
    forall t | Word(t) ensures t != [] && Last(t) != '\n' { Words(t); }
    hide Secretish, Clean, Word, Chomp;
    assert Word(Chomp(s)) ==> s == Chomp(s) || s == Chomp(s) + "\n";
  }

  lemma Words(t: string)
    ensures Word(t)
            <==> 2 <= |t| <= 80 && IsLower(t[0])
                 && (forall i :: 1 <= i < |t| ==> IsLower(t[i]) || IsDigit(t[i]) || t[i] == '_')
    ensures Word(t) ==> t != [] && Last(t) != '\n'
  {
    assert forall i :: 0 <= i < |t| ==> t[i] in t;
    if Word(t) { assert Last(t) in t; }
    if t != [] && IsLower(t[0]) && (forall i :: 1 <= i < |t| ==> IsLower(t[i]) || IsDigit(t[i]) || t[i] == '_') {
      forall c | c in t ensures 'a' <= c <= 'z' || '0' <= c <= '9' || c == '_' {
        var i :| 0 <= i < |t| && t[i] == c;
      }
    }
  }

  lemma CleanTexts(s: string)
    ensures Clean(s) <==> !Secretish(s)
  {
    forall i | 0 <= i <= |s| - 8 ensures BreaksDigits(s, i) <==> !DigitRun(s, i, 8) {
    }
    forall i | 0 <= i <= |s| - 16 ensures BreaksHex(s, i) <==> !HexRun(s, i, 16) {
    }
  }

  /** A text in a code field stays exactly when it is such a word, and is redacted otherwise. */
  lemma CodesStay(s: string)
    ensures CodeOf(Str(s)) == if CodeText(s) then Str(s) else Str("[redacted]")
  {
    CodeTexts(s);
    hide IsCode, CodeText;
  }

  /** A text in a compound field stays exactly when it is one such word, or two with a colon between them. */
  lemma CompoundsStay(read: Reader, s: string)
    ensures Project(read, Compound, Str(s))
            == Some(Str(if |s| <= 160 && (CodeText(s) || exists a, b :: s == a + ":" + b && CodeText(a) && CodeText(b))
                        then s else "[redacted]"))
  {
    hide IsCode, CodeText, Split;
    Compounds(s);
  }

  lemma Compounds(s: string)
    ensures IsCompound(s)
            <==> |s| <= 160 && (CodeText(s) || exists a, b :: s == a + ":" + b && CodeText(a) && CodeText(b))
  {
    hide IsCompound, CodeText;
    if CodeText(s) { OneCode(s); }
    if a, b :| s == a + ":" + b && CodeText(a) && CodeText(b) { TwoCodes(a, b); }
    if IsCompound(s) { CompoundParts(s); }
  }

  lemma OneCode(s: string)
    requires CodeText(s)
    ensures IsCompound(s) <==> |s| <= 160
  {
    CodeTexts(s);
    NoColon(s);
    SplitPlain(s, ':');
    hide IsCode, CodeText, Split;
  }

  lemma TwoCodes(a: string, b: string)
    requires CodeText(a) && CodeText(b)
    ensures IsCompound(a + ":" + b) <==> |a + ":" + b| <= 160
  {
    CodeTexts(a);
    CodeTexts(b);
    NoColon(a);
    NoColon(b);
    hide IsCode, CodeText, Split;
    SplitHead(a, b, ':');
    SplitPlain(b, ':');
  }

  lemma CompoundParts(s: string)
    requires IsCompound(s)
    ensures |s| <= 160 && (CodeText(s) || exists a, b :: s == a + ":" + b && CodeText(a) && CodeText(b))
  {
    hide IsCode, CodeText, Split;
    var parts, i := Split(s, ':'), IndexOf(s, ':');
    SplitAtColon(s);
    forall k | 0 <= k < |parts| ensures CodeText(parts[k]) { CodeTexts(parts[k]); }
    if i < |s| {
      assert s == s[..i] + ":" + s[i + 1..];
      assert |parts| >= 2 by { SplitLonger(s); }
      assert CodeText(parts[0]) && CodeText(parts[1]);
      assert parts[0] == s[..i] && parts[1] == s[i + 1..];
    } else {
      assert CodeText(parts[0]);
    }
  }

  lemma SplitAtColon(s: string)
    ensures var i := IndexOf(s, ':');
            if i == |s| then Split(s, ':') == [s]
            else Split(s, ':')[0] == s[..i] && (|Split(s, ':')| <= 2 ==> Split(s, ':') == [s[..i], s[i + 1..]])
  {
    var i := IndexOf(s, ':');
    if i < |s| {
      var rest := s[i + 1..];
      var k := IndexOf(rest, ':');
      if k < |rest| { assert Split(rest, ':') == [rest[..k]] + Split(rest[k + 1..], ':'); }
    }
  }

  lemma SplitLonger(s: string)
    requires IndexOf(s, ':') < |s|
    ensures |Split(s, ':')| >= 2
  {
  }

  lemma NoColon(t: string)
    requires CodeText(t)
    ensures ':' !in t
  {
    hide Clean;
  }

  // --- ids -------------------------------------------------------------------------------------

  /** One to `most` letters, digits, underscores and dashes. */
  ghost predicate Name(s: string, most: nat) {
    1 <= |s| <= most
    && forall c :: c in s ==> 'a' <= c <= 'z' || 'A' <= c <= 'Z' || '0' <= c <= '9' || c == '_' || c == '-'
  }

  lemma Names(s: string, most: nat)
    ensures WordRun(s, most) <==> Name(s, most)
  {
    assert forall i :: 0 <= i < |s| ==> s[i] in s;
    if WordRun(s, most) {
      forall c | c in s ensures IsWord(c) { var i :| 0 <= i < |s| && s[i] == c; }
    }
  }

  /** A job id: kind, round, desk and a run of letters and digits, joined by dashes. */
  ghost predicate IsJob(t: string, kind: string, round: string, desk: string, run: string) {
    && t == kind + "-" + round + "-" + desk + "-" + run
    && (kind == "session" || kind == "research") && Name(round, 100)
    && (desk == "chatgpt" || desk == "claude") && Name(run, 40) && '_' !in run && '-' !in run
  }

  lemma Jobs(t: string)
    ensures IsJobId(t) <==> exists kind, round, desk, run :: IsJob(t, kind, round, desk, run)
  {
    hide JobIdAt, IsJob;
    if i, k, j :| 0 <= i < k < j < |t| && JobIdAt(t, i, k, j) {
      JobIsJoined(t, i, k, j);
    }
    if kind, round, desk, run :| IsJob(t, kind, round, desk, run) {
      JobIsFound(t, kind, round, desk, run);
    }
  }

  lemma JobIsJoined(t: string, i: nat, k: nat, j: nat)
    requires i < k < j < |t| && JobIdAt(t, i, k, j)
    ensures IsJob(t, t[..i], t[i + 1..k], t[k + 1..j], t[j + 1..])
  {
    hide Name, WordRun;
    Names(t[i + 1..k], 100);
    Names(t[j + 1..], 40);
    JobPieces(t, i, k, j);
    assert t[..i] in ["session", "research"] <==> t[..i] == "session" || t[..i] == "research";
    assert t[k + 1..j] in ["chatgpt", "claude"] <==> t[k + 1..j] == "chatgpt" || t[k + 1..j] == "claude";
  }

  lemma JobPieces(t: string, i: nat, k: nat, j: nat)
    requires i < k < j < |t| && t[i] == '-' && t[k] == '-' && t[j] == '-'
    ensures t == t[..i] + "-" + t[i + 1..k] + "-" + t[k + 1..j] + "-" + t[j + 1..]
  {
  }

  lemma JobIsFound(t: string, kind: string, round: string, desk: string, run: string)
    requires IsJob(t, kind, round, desk, run)
    ensures IsJobId(t)
  {
    Names(round, 100);
    Names(run, 40);
    NamesNotEmpty(run);
    NamesNotEmpty(round);
    JobParts(kind, round, desk, run);
    hide Name, WordRun;
    var i, k := |kind|, |kind| + 1 + |round|;
    var j := k + 1 + |desk|;
    assert JobIdAt(t, i, k, j);
  }

  lemma NamesNotEmpty(s: string)
    ensures forall most :: Name(s, most) ==> s != []
  {
  }

  lemma JobParts(kind: string, round: string, desk: string, run: string)
    ensures var t := kind + "-" + round + "-" + desk + "-" + run;
            var i, k := |kind|, |kind| + 1 + |round|;
            var j := k + 1 + |desk|;
      && |t| == j + 1 + |run| && t[i] == '-' && t[k] == '-' && t[j] == '-'
      && t[..i] == kind && t[i + 1..k] == round && t[k + 1..j] == desk && t[j + 1..] == run
  {
  }

  lemma Chomped(s: string)
    ensures Ends(s, Chomp(s))
    ensures forall t :: Ends(s, t) && (t == [] || Last(t) != '\n') ==> t == Chomp(s)
  {
    if s != [] && Last(s) == '\n' { assert s == Init(s) + "\n"; }
  }

  lemma NoBreaks(t: string)
    ensures forall most :: Name(t, most) ==> Last(t) != '\n'
    ensures IsJobId(t) ==> Last(t) != '\n'
  {
    forall most | Name(t, most) ensures Last(t) != '\n' { assert Last(t) in t; }
    if i, k, j :| 0 <= i < k < j < |t| && JobIdAt(t, i, k, j) {
      var run := t[j + 1..];
      assert Last(t) == Last(run) && IsWord(Last(run));
    }
  }

  /** A text in an id field stays exactly when it is a job id, or a name of at most a hundred characters. */
  lemma IdsStay(read: Reader, s: string)
    ensures Project(read, Pattern(JobId), Str(s))
            == Some(Str(if exists t, kind, round, desk, run :: Ends(s, t) && IsJob(t, kind, round, desk, run)
                        then s else "[redacted]"))
    ensures Project(read, Pattern(RoundId), Str(s))
            == Some(Str(if exists t :: Ends(s, t) && Name(t, 100) then s else "[redacted]"))
  {
    hide Project, IsJob, Name;
    JobsStay(read, s);
    RoundsStay(read, s);
  }

  lemma JobsStay(read: Reader, s: string)
    ensures Project(read, Pattern(JobId), Str(s))
            == Some(Str(if exists t, kind, round, desk, run :: Ends(s, t) && IsJob(t, kind, round, desk, run)
                        then s else "[redacted]"))
  {
    hide IsJobId, IsJob, Chomp;
    Chomped(s);
    Jobs(Chomp(s));
    if t, kind, round, desk, run :| Ends(s, t) && IsJob(t, kind, round, desk, run) {
      Jobs(t);
      NoBreaks(t);
    }
  }

  lemma RoundsStay(read: Reader, s: string)
    ensures Project(read, Pattern(RoundId), Str(s))
            == Some(Str(if exists t :: Ends(s, t) && Name(t, 100) then s else "[redacted]"))
  {
    hide Name, WordRun, Chomp;
    Chomped(s);
    Names(Chomp(s), 100);
    if t :| Ends(s, t) && Name(t, 100) {
      NamesNotEmpty(t);
      NoBreaks(t);
    }
  }

  // --- the other checks ------------------------------------------------------------------------

  /**
   * A whole number in range stays; a fractional one loses its fraction when it is in range before and after; a boolean
   * is no number, and a flag is nothing else.
   */
  lemma NumbersStay(read: Reader, low: int, high: int, n: int, r: real, k: int, b: bool)
    requires -FLOAT_LIMIT < low <= high < FLOAT_LIMIT
    requires if r >= 0.0 then k as real <= r < k as real + 1.0 else k as real - 1.0 < r <= k as real
    requires -FLOAT_LIMIT < n < FLOAT_LIMIT
    ensures Project(read, Number(low, high), Int(n)) == Some(if low <= n <= high then Int(n) else Null)
    ensures Project(read, Number(low, high), Float(r))
            == Some(if low as real <= r <= high as real then Int(k) else Null)
    ensures Project(read, Number(low, high), Bool(b)) == Project(read, Number(low, high), NonFinite) == Some(Null)
    ensures Project(read, Flag, Bool(b)) == Some(Bool(b)) && Project(read, Flag, Int(n)) == Some(Null)
  {
    hide NumberOf, FLOAT_LIMIT;
    IntegerStays(low, high, n);
    FractionGoes(low, high, r, k);
    NoNumbers(low, high, b);
  }

  lemma IntegerStays(low: int, high: int, n: int)
    requires -FLOAT_LIMIT < n < FLOAT_LIMIT
    ensures NumberOf(low, high, Int(n)) == Some(if low <= n <= high then Int(n) else Null)
  {
    hide FLOAT_LIMIT;
  }

  lemma FractionGoes(low: int, high: int, r: real, k: int)
    requires -FLOAT_LIMIT < low <= high < FLOAT_LIMIT
    requires if r >= 0.0 then k as real <= r < k as real + 1.0 else k as real - 1.0 < r <= k as real
    ensures NumberOf(low, high, Float(r)) == Some(if low as real <= r <= high as real then Int(k) else Null)
  {
    hide FLOAT_LIMIT, Truncate;
    SameWhole(r, k);
    if low as real <= r <= high as real { TruncateStays(r, low, high); }
  }

  lemma SameWhole(r: real, k: int)
    requires if r >= 0.0 then k as real <= r < k as real + 1.0 else k as real - 1.0 < r <= k as real
    ensures Truncate(r) == k
  {
    hide FLOAT_LIMIT;
    if r >= 0.0 { assert r.Floor == k; } else { assert (-r).Floor == -k; }
  }

  lemma NoNumbers(low: int, high: int, b: bool)
    ensures NumberOf(low, high, Bool(b)) == NumberOf(low, high, NonFinite) == Some(Null)
  {
  }

  /** A listed word stays and so does null, any other text is redacted; of a list only its first items are kept. */
  lemma WordsAndLists(read: Reader, words: seq<string>, s: string, item: Schema, limit: nat, items: seq<Json>, i: nat)
    ensures Project(read, Enum(words), Str(s)) == Some(if s in words then Str(s) else Str("[redacted]"))
    ensures Project(read, Enum(words), Null) == Some(Null)
    ensures var out := Project(read, ListOf(item, limit), Arr(items));
            out.Some? ==>
              && out.value.Arr? && |out.value.items| == (if |items| < limit then |items| else limit)
              && (i < |out.value.items| ==> Project(read, item, items[i]) == Some(out.value.items[i]))
    ensures Project(read, ListOf(item, limit), Obj(map[])) == Project(read, ListOf(item, limit), Null) == Some(Arr([]))
  {
  }

  /** Of an object the known fields are kept, each as its check gives it; a lone "error" is read as a code instead. */
  lemma KnownFields(read: Reader, checks: map<string, Schema>, fields: map<string, Json>, key: string)
    ensures fields.Keys == {"error"} ==>
              Project(read, Object(checks), Obj(fields)) == Some(Obj(map["error" := CodeOf(fields["error"])]))
    ensures fields.Keys != {"error"} && Project(read, Object(checks), Obj(fields)).Some? ==>
              var out := Project(read, Object(checks), Obj(fields)).value;
              out.Obj? && (key in out.fields <==> key in checks && key in fields)
              && (key in out.fields ==> Project(read, checks[key], fields[key]) == Some(out.fields[key]))
    ensures Project(read, Object(checks), Null) == Project(read, Object(checks), Arr([])) == Some(Null)
  {
  }

  /** Which payloads pass the gate, said of the payload. */
  lemma GateIs(read: Reader, payload: Json)
    ensures Sanitize(read, payload).Report?
            <==> !Reaches(REPORT, payload, TooLarge) && payload.Obj?
                 && Get(payload.fields, "schema") == Some(Str("desk-diagnostics/1"))
                 && (exists verdict :: Get(payload.fields, "verdict") == Some(Str(verdict))
                       && verdict in {"healthy", "attention", "diagnostic_incomplete"})
  {
    RaisesExactly(read, REPORT, payload);
    GateKeys();
    hide REPORT, Reaches;
    var out := Project(read, REPORT, payload);
    if payload.Obj? && out.Some? {
      if ErrorOnly(payload.fields) {
        assert "schema" !in payload.fields;
      } else {
        GateField(read, payload, "schema");
        GateField(read, payload, "verdict");
      }
    }
  }

  lemma GateKeys()
    ensures REPORT.Object? && "schema" in REPORT.checks && "verdict" in REPORT.checks
    ensures REPORT.checks["schema"] == Enum(["desk-diagnostics/1"])
    ensures REPORT.checks["verdict"] == Enum(["healthy", "attention", "diagnostic_incomplete"])
  {
    hide DESKS, JOBS, PROBE, SERVICE, BOARD, DIAGNOSTIC, READINESS;
  }

  lemma GateField(read: Reader, payload: Json, key: string)
    requires REPORT.Object? && key in REPORT.checks && payload.Obj? && !ErrorOnly(payload.fields)
    requires Project(read, REPORT, payload).Some?
    ensures Project(read, REPORT, payload).value.Obj?
    ensures var fields := Project(read, REPORT, payload).value.fields;
            Get(fields, key)
            == if key in payload.fields then Project(read, REPORT.checks[key], payload.fields[key]) else None
  {
    hide REPORT;
  }

  // --- the whole report ------------------------------------------------------------------------

  /** The texts other than the redaction mark that a check lets stand. */
  ghost predicate Vetted(check: Schema, s: string) {
    match check
    case Code => CodeText(s)
    case Compound => Clean(s) && (CodeText(s) || exists a, b :: s == a + ":" + b && CodeText(a) && CodeText(b))
    case Stamp => exists t: Time :: s == Print(t)
    case Enum(allowed) => s in allowed
    case Pattern(JobId) => exists t, kind, round, desk, run :: Ends(s, t) && IsJob(t, kind, round, desk, run)
    case Pattern(RoundId) => exists t :: Ends(s, t) && Name(t, 100)
    case _ => false
  }

  ghost predicate TextVetted(check: Schema, v: Json) {
    !v.Arr? && !v.Obj? && (v.Str? ==> v.s == "[redacted]" || Vetted(check, v.s))
  }

  /** Every text in the value is the redaction mark or vetted for its place. */
  ghost predicate AllVetted(schema: Schema, v: Json)
    decreases schema
  {
    match schema
    case ListOf(item, _) => v.Arr? && forall i :: 0 <= i < |v.items| ==> AllVetted(item, v.items[i])
    case Object(checks) =>
      v.Null?
      || (v.Obj? && ErrorOnly(v.fields) && TextVetted(Code, v.fields["error"]))
      || (v.Obj? && forall key :: key in v.fields ==> key in checks && AllVetted(checks[key], v.fields[key]))
    case _ => TextVetted(schema, v)
  }

  lemma CleanAround(a: string, b: string)
    requires Clean(a) && Clean(b)
    ensures Clean(a + ":" + b)
  {
    var s := a + ":" + b;
    forall i | 0 <= i <= |s| - 8 ensures BreaksDigits(s, i) {
      if i + 8 <= |a| {
        assert BreaksDigits(a, i);
        var j :| i <= j < i + 8 && !('0' <= a[j] <= '9');
        assert s[j] == a[j];
      } else if i > |a| {
        assert BreaksDigits(b, i - |a| - 1);
        var j :| i - |a| - 1 <= j < i - |a| + 7 && !('0' <= b[j] <= '9');
        assert s[j + |a| + 1] == b[j];
      } else {
        assert s[|a|] == ':';
      }
    }
    forall i | 0 <= i <= |s| - 16 ensures BreaksHex(s, i) {
      if i + 16 <= |a| {
        assert BreaksHex(a, i);
        var j :| i <= j < i + 16 && !('0' <= a[j] <= '9') && !('a' <= a[j] <= 'f');
        assert s[j] == a[j];
      } else if i > |a| {
        assert BreaksHex(b, i - |a| - 1);
        var j :| i - |a| - 1 <= j < i - |a| + 15 && !('0' <= b[j] <= '9') && !('a' <= b[j] <= 'f');
        assert s[j + |a| + 1] == b[j];
      } else {
        assert s[|a|] == ':';
      }
    }
  }

  lemma LeafVetted(read: Reader, schema: Schema, v: Json)
    requires !schema.ListOf? && !schema.Object?
    ensures Project(read, schema, v).Some? ==> AllVetted(schema, Project(read, schema, v).value)
  {
    hide CodeText, Clean, Ends, IsJob, Name, IsCode, IsCompound, Accepts, Print;
    if v.Str? {
      match schema {
        case Code => CodesStay(v.s);
        case Compound =>
          CompoundsStay(read, v.s);
          CompoundsClean(v.s);
        case Pattern(_) => IdsStay(read, v.s);
        case Stamp =>
          if StampOf(read, v).Str? { assert StampOf(read, v).s == Print(read(Zulu(v.s)).value); }
        case _ =>
      }
    }
  }

  lemma CompoundsClean(s: string)
    ensures CodeText(s) || (exists a, b :: s == a + ":" + b && CodeText(a) && CodeText(b)) ==> Clean(s)
  {
    hide Clean, Word;
    if a, b :| s == a + ":" + b && CodeText(a) && CodeText(b) { CleanAround(a, b); }
  }

  /** No free text gets through, whatever the schema and the reader of timestamps. */
  lemma {:induction false} ProjectionIsVetted(read: Reader, schema: Schema, v: Json)
    ensures Project(read, schema, v).Some? ==> AllVetted(schema, Project(read, schema, v).value)
    decreases schema
  {
    hide TextVetted, CodeOf;
    var out := Project(read, schema, v);
    match schema {
      case ListOf(item, limit) =>
        if v.Arr? && out.Some? {
          forall i | 0 <= i < |out.value.items| ensures AllVetted(item, out.value.items[i]) {
            ProjectionIsVetted(read, item, v.items[i]);
            assert Project(read, item, v.items[i]) == Some(out.value.items[i]);
          }
        }
      case Object(checks) =>
        if v.Obj? && ErrorOnly(v.fields) {
          LeafVetted(read, Code, v.fields["error"]);
          ErrorSection(checks, CodeOf(v.fields["error"]));
        } else if v.Obj? && out.Some? {
          forall key | key in out.value.fields
            ensures key in checks && AllVetted(checks[key], out.value.fields[key])
          {
            ProjectionIsVetted(read, checks[key], v.fields[key]);
            assert Project(read, checks[key], v.fields[key]) == Some(out.value.fields[key]);
          }
        }
      case _ => LeafVetted(read, schema, v);
    }
  }

  lemma ErrorSection(checks: map<string, Schema>, e: Json)
    requires AllVetted(Code, e)
    ensures AllVetted(Object(checks), Obj(map["error" := e]))
  {
    hide TextVetted;
    var v := Obj(map["error" := e]);
    assert ErrorOnly(v.fields) && v.fields["error"] == e;
  }

  /**
   * Whatever the payload: each text of a sanitized report is the redaction mark, a word of its field's list, a printed
   * time, an id of the documented form, or made of codes; and none made of codes shows eight digits or sixteen
   * hexadecimal digits in a row.
   */
  lemma ReportIsVetted(read: Reader, payload: Json)
    ensures Sanitize(read, payload).Report? ==> AllVetted(REPORT, Sanitize(read, payload).report)
    ensures forall s :: Vetted(Code, s) || Vetted(Compound, s) ==> Clean(s)
  {
    hide REPORT, AllVetted, Project;
    ProjectionIsVetted(read, REPORT, payload);
  }
}
