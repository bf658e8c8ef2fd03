// The report sanitizer: schemas of small checks, projected onto arbitrary JSON.
module Sanitizer {
  import opened Prelude
  import opened Reals
  import opened Text
  import opened Decimal
  import opened IsoTime

  // --- JSON ------------------------------------------------------------------------------------

  /** JSON after parsing; non-finite numbers are the ones `float` can still produce. */
  datatype Json =
    | Null
    | Bool(b: bool)
    | Int(n: int)
    | Float(r: real)
    | NonFinite
    | Str(s: string)
    | Arr(items: seq<Json>)
    | Obj(fields: map<string, Json>)

  // --- schemas ---------------------------------------------------------------------------------

  datatype Regex = JobId | RoundId

  datatype Schema =
    | Code
    | Compound
    | Flag
    | Number(low: int, high: int)
    | Stamp
    | Enum(allowed: seq<string>)
    | Pattern(regex: Regex)
    | ListOf(item: Schema, limit: nat)
    | Object(checks: map<string, Schema>)

  const REDACTED := "[redacted]"

  predicate IsLower(c: char) { 'a' <= c <= 'z' }

  predicate IsWord(c: char) { IsLower(c) || 'A' <= c <= 'Z' || IsDigit(c) || c == '_' || c == '-' }

  predicate IsHex(c: char) { IsDigit(c) || 'a' <= c <= 'f' }

  /** The end of a pattern also matches in front of a final line break. */
  function Chomp(s: string): string {
    if s != [] && Last(s) == '\n' then Init(s) else s
  }

  predicate HexRun(s: string, i: nat, n: nat)
    requires i + n <= |s|
  {
    forall j :: i <= j < i + n ==> IsHex(s[j])
  }

  predicate DigitRun(s: string, i: nat, n: nat)
    requires i + n <= |s|
  {
    forall j :: i <= j < i + n ==> IsDigit(s[j])
  }

  /** A run that looks like a secret: sixteen hexadecimal digits, or eight decimal ones. */
  predicate Secretish(s: string) {
    (exists i :: 0 <= i <= |s| - 16 && HexRun(s, i, 16)) || (exists i :: 0 <= i <= |s| - 8 && DigitRun(s, i, 8))
  }

  predicate IsCode(s: string) {
    var t := Chomp(s);
    2 <= |t| <= 80 && IsLower(t[0]) && (forall i :: 1 <= i < |t| ==> IsLower(t[i]) || IsDigit(t[i]) || t[i] == '_')
    && !Secretish(s)
  }

  predicate IsCompound(s: string) {
    |s| <= 160 && |Split(s, ':')| <= 2 && forall i :: 0 <= i < |Split(s, ':')| ==> IsCode(Split(s, ':')[i])
  }

  predicate WordRun(s: string, most: nat) {
    1 <= |s| <= most && forall i :: 0 <= i < |s| ==> IsWord(s[i])
  }

  predicate IsJobId(t: string) {
    exists i, k, j :: 0 <= i < k < j < |t| && JobIdAt(t, i, k, j)
  }

  /** Session kind, round, desk and a run of letters and digits, with a dash at each of the three positions. */
  predicate JobIdAt(t: string, i: nat, k: nat, j: nat)
    requires i < k < j < |t|
  {
    && t[i] == '-' && t[k] == '-' && t[j] == '-'
    && t[..i] in ["session", "research"] && WordRun(t[i + 1..k], 100) && t[k + 1..j] in ["chatgpt", "claude"]
    && WordRun(t[j + 1..], 40) && '_' !in t[j + 1..] && '-' !in t[j + 1..]
  }

  predicate Accepts(regex: Regex, s: string) {
    match regex
    case JobId => IsJobId(Chomp(s))
    case RoundId => WordRun(Chomp(s), 100)
  }

  // --- timestamps ------------------------------------------------------------------------------

  /** `fromisoformat`; None when the text does not parse or carries no offset. */
  type Reader = string -> Option<Time>

  /** What is read prints as a text that reads the same. */
  ghost predicate ReadsBack(read: Reader) {
    forall s :: read(s).Some? ==> read(Print(read(s).value)) == read(s)
  }

  /** The letter that stands for UTC, replaced by an offset. */
  function Zulu(s: string): string {
    if s == [] then [] else (if s[0] == 'Z' then "+00:00" else [s[0]]) + Zulu(s[1..])
  }

  lemma {:induction false} ZuluKeeps(s: string)
    requires 'Z' !in s
    ensures Zulu(s) == s
  {
    if s != [] {
      ZuluKeeps(s[1..]);
      assert s == [s[0]] + s[1..];
    }
  }

  /** Every "Z" becomes "+00:00" and all else stays. */
  lemma {:induction false} ZuluIs(a: string, b: string)
    ensures Zulu(a + b) == Zulu(a) + Zulu(b) && Zulu("Z") == "+00:00"
    ensures forall c: char :: c != 'Z' ==> Zulu([c]) == [c]
  {
    assert ("Z")[1..] == "";
    forall c: char | c != 'Z' ensures Zulu([c]) == [c] {
      assert [c][1..] == [];
    }
    if a == [] {
      assert a + b == b;
    } else {
      ZuluIs(a[1..], b);
      assert (a + b)[1..] == a[1..] + b;
    }
  }

  // --- the projection --------------------------------------------------------------------------

  function CodeOf(v: Json): Json {
    match v
    case Null => Null
    case Str(s) => if IsCode(s) then v else Str(REDACTED)
    case _ => Str(REDACTED)
  }

  /** None is the OverflowError of an integer too large for a float; a float past that limit is infinite. */
  function NumberOf(low: int, high: int, v: Json): Option<Json> {
    match v
    case Int(n) => if Overflows(n) then None else Some(if low <= n <= high then v else Null)
    case Float(r) =>
      Some(if low as real <= r <= high as real && !Overflows(Truncate(r)) then Int(Truncate(r)) else Null)
    case _ => Some(Null)
  }

  function StampOf(read: Reader, v: Json): Json {
    if !v.Str? || |v.s| > 40 then Null
    else match read(Zulu(v.s))
      case None => Null
      case Some(t) => Str(Print(t))
  }

  /** A section that the service could not build. */
  predicate ErrorOnly(fields: map<string, Json>) {
    fields.Keys == {"error"}
  }

  function Min(a: nat, b: nat): nat {
    if a <= b then a else b
  }

  /** None when some check raises. */
  function Project(read: Reader, schema: Schema, v: Json): Option<Json>
    decreases schema
  {
    match schema
    case Code => Some(CodeOf(v))
    case Compound => Some(if v.Str? && IsCompound(v.s) then v else Str(REDACTED))
    case Flag => Some(if v.Bool? then v else Null)
    case Number(low, high) => NumberOf(low, high, v)
    case Stamp => Some(StampOf(read, v))
    case Enum(allowed) => Some(if v.Null? || (v.Str? && v.s in allowed) then v else Str(REDACTED))
    case Pattern(regex) => Some(if v.Str? && Accepts(regex, v.s) then v else Str(REDACTED))
    case ListOf(item, limit) =>
      if !v.Arr? then Some(Arr([]))
      else
        var n := Min(limit, |v.items|);
        if exists i :: 0 <= i < n && Project(read, item, v.items[i]).None? then None
        else Some(Arr(seq(n, i requires 0 <= i < n => Project(read, item, v.items[i]).value)))
    case Object(checks) =>
      if !v.Obj? then Some(Null)
      else if ErrorOnly(v.fields) then Some(Obj(map["error" := CodeOf(v.fields["error"])]))
      else if
        exists key :: key in checks && key in v.fields && Project(read, checks[key], v.fields[key]).None?
      then None
      else Some(Obj(map key | key in checks && key in v.fields :: Project(read, checks[key], v.fields[key]).value))
  }

  // --- what the projection reaches -------------------------------------------------------------

  /** Somewhere among the fields that the projection reaches, a check meets a value in the given way. */
  ghost predicate Reaches(schema: Schema, v: Json, meets: (Schema, Json) -> bool)
    decreases schema
  {
    match schema
    case ListOf(item, limit) => v.Arr? && exists i :: 0 <= i < Min(limit, |v.items|) && Reaches(item, v.items[i], meets)
    case Object(checks) =>
      v.Obj? && !ErrorOnly(v.fields)
      && exists key :: key in checks && key in v.fields && Reaches(checks[key], v.fields[key], meets)
    case _ => meets(schema, v)
  }

  /** A number field holds an integer that no float can hold. */
  predicate TooLarge(check: Schema, v: Json) {
    check.Number? && v.Int? && Overflows(v.n)
  }

  /** The projection raises exactly when a number field it reaches holds an integer of at least 2^1024 - 2^970. */
  lemma {:induction false} RaisesExactly(read: Reader, schema: Schema, v: Json)
    ensures Project(read, schema, v).None? <==> Reaches(schema, v, TooLarge)
    decreases schema
  {
    match schema {
      case ListOf(item, limit) =>
        if v.Arr? {
          forall i | 0 <= i < Min(limit, |v.items|)
            ensures Project(read, item, v.items[i]).None? <==> Reaches(item, v.items[i], TooLarge)
          {
            RaisesExactly(read, item, v.items[i]);
          }
        }
      case Object(checks) =>
        if v.Obj? {
          forall key | key in checks && key in v.fields
            ensures Project(read, checks[key], v.fields[key]).None? <==> Reaches(checks[key], v.fields[key], TooLarge)
          {
            RaisesExactly(read, checks[key], v.fields[key]);
          }
        }
      case _ =>
    }
  }

  /** Such an integer in any number field, whatever the field's range. */
  lemma LargeIntegerRaises(read: Reader, low: int, high: int)
    ensures Project(read, Object(map["n" := Number(low, high)]), Obj(map["n" := Int(FLOAT_LIMIT)])) == None
  {
    hide FLOAT_LIMIT;
    var v := Obj(map["n" := Int(FLOAT_LIMIT)]);
    assert "n" != "error" && "n" in v.fields;
    assert Project(read, Number(low, high), v.fields["n"]) == NumberOf(low, high, Int(FLOAT_LIMIT)) == None;
  }

  // --- sanitized values, said without the projection -------------------------------------------

  predicate CodeConforms(v: Json) {
    v.Null? || (v.Str? && (v.s == REDACTED || IsCode(v.s)))
  }

  /** The text is a timestamp as it is printed, and short enough to be read. */
  predicate StampConforms(read: Reader, s: string) {
    |s| <= 40 && read(Zulu(s)).Some? && Print(read(Zulu(s)).value) == s
  }

  /** A value the schema lets stand: every string is a known word, a code, a timestamp or the redaction mark. */
  ghost predicate Conforms(read: Reader, schema: Schema, v: Json)
    decreases schema
  {
    match schema
    case Code => CodeConforms(v)
    case Compound => v.Str? && (v.s == REDACTED || IsCompound(v.s))
    case Flag => v.Null? || v.Bool?
    case Number(low, high) => v.Null? || (v.Int? && low <= v.n <= high && !Overflows(v.n))
    case Stamp => v.Null? || (v.Str? && StampConforms(read, v.s))
    case Enum(allowed) => v.Null? || (v.Str? && (v.s in allowed || v.s == REDACTED))
    case Pattern(regex) => v.Str? && (v.s == REDACTED || Accepts(regex, v.s))
    case ListOf(item, limit) =>
      v.Arr? && |v.items| <= limit && forall i :: 0 <= i < |v.items| ==> Conforms(read, item, v.items[i])
    case Object(checks) =>
      v.Null?
      || (v.Obj? && if ErrorOnly(v.fields) then CodeConforms(v.fields["error"])
                    else forall key :: key in v.fields ==> key in checks && Conforms(read, checks[key], v.fields[key]))
  }

  // --- the fixed points of the projection are the conforming values ----------------------------

  ghost predicate Fixed(read: Reader, schema: Schema, v: Json) {
    Project(read, schema, v) == Some(v)
  }

  /** Projecting changes nothing exactly when the value conforms. */
  lemma {:induction false} FixedPoints(read: Reader, schema: Schema, v: Json)
    ensures Fixed(read, schema, v) <==> Conforms(read, schema, v)
    decreases schema
  {
    match schema {
      case ListOf(item, limit) =>
        if v.Arr? {
          forall i | 0 <= i < |v.items| ensures Fixed(read, item, v.items[i]) <==> Conforms(read, item, v.items[i]) {
            FixedPoints(read, item, v.items[i]);
          }
          FixedItems(read, item, limit, v);
        }
      case Object(checks) =>
        if v.Obj? && !ErrorOnly(v.fields) {
          forall key | key in checks && key in v.fields
            ensures Fixed(read, checks[key], v.fields[key]) <==> Conforms(read, checks[key], v.fields[key])
          {
            FixedPoints(read, checks[key], v.fields[key]);
          }
          FixedFields(read, checks, v);
        } else if v.Obj? {
          assert v.fields == map["error" := v.fields["error"]];
        }
      case _ =>
    }
  }

  lemma FixedItems(read: Reader, item: Schema, limit: nat, v: Json)
    requires v.Arr?
    ensures Fixed(read, ListOf(item, limit), v)
            <==> |v.items| <= limit && forall i :: 0 <= i < |v.items| ==> Fixed(read, item, v.items[i])
  {
    var out := Project(read, ListOf(item, limit), v);
    if |v.items| <= limit && forall i :: 0 <= i < |v.items| ==> Fixed(read, item, v.items[i]) {
      assert forall i :: 0 <= i < |v.items| ==> Project(read, item, v.items[i]).Some?;
      assert out.Some? && out.value.items == v.items;
    }
    if out == Some(v) {
      forall i | 0 <= i < |v.items| ensures Fixed(read, item, v.items[i]) {
        assert Project(read, item, v.items[i]) == Some(out.value.items[i]);
      }
    }
  }

  lemma FixedFields(read: Reader, checks: map<string, Schema>, v: Json)
    requires v.Obj? && !ErrorOnly(v.fields)
    ensures Fixed(read, Object(checks), v)
            <==> forall key :: key in v.fields ==> key in checks && Fixed(read, checks[key], v.fields[key])
  {
    var out := Project(read, Object(checks), v);
    if forall key :: key in v.fields ==> key in checks && Fixed(read, checks[key], v.fields[key]) {
      assert forall key :: key in checks && key in v.fields ==> Fixed(read, checks[key], v.fields[key]);
      assert out.Some? && out.value.fields.Keys == v.fields.Keys;
      assert out.value.fields == v.fields;
    }
    if out == Some(v) {
      forall key | key in v.fields ensures key in checks && Fixed(read, checks[key], v.fields[key]) {
        assert key in out.value.fields && Project(read, checks[key], v.fields[key]) == Some(out.value.fields[key]);
      }
    }
  }

  // --- idempotence -----------------------------------------------------------------------------

  /**
   * A timestamp field holds a text of at most 40 characters whose time shows a fraction of a second and so does its
   * offset.
   */
  predicate Outgrows(read: Reader, check: Schema, v: Json) {
    check.Stamp? && v.Str? && |v.s| <= 40 && read(Zulu(v.s)).Some? && TwoFractions(read(Zulu(v.s)).value)
  }

  function Outgrowing(read: Reader): (Schema, Json) -> bool {
    (check, v) => Outgrows(read, check, v)
  }

  ghost predicate StampsFit(read: Reader, schema: Schema, v: Json) {
    !Reaches(schema, v, Outgrowing(read))
  }

  // --- fields named "error" --------------------------------------------------------------------

  /** Whatever the check lets through reads as a code, as the special case for a lone "error" field reads it. */
  ghost predicate ReturnsCodes(read: Reader, schema: Schema) {
    forall v :: var out := Project(read, schema, v); out.Some? && StampsFit(read, schema, v) ==> CodeConforms(out.value)
  }

  /** In every object that can be reached, a field named "error" gives only codes. */
  ghost predicate WellFormed(read: Reader, schema: Schema)
    decreases schema
  {
    match schema
    case ListOf(item, limit) => limit > 0 ==> WellFormed(read, item)
    case Object(checks) =>
      && ("error" in checks ==> ReturnsCodes(read, checks["error"]))
      && forall key :: key in checks && key != "error" ==> WellFormed(read, checks[key])
    case _ => true
  }

  /** The fields named "error" are checked by `code`, in every object of the schema. */
  ghost predicate ErrorsAreCodes(schema: Schema) {
    match schema
    case ListOf(item, _) => ErrorsAreCodes(item)
    case Object(checks) =>
      ("error" in checks ==> checks["error"].Code?) && forall key :: key in checks ==> ErrorsAreCodes(checks[key])
    case _ => true
  }

  lemma {:induction false} CodesAreWellFormed(read: Reader, schema: Schema)
    requires ErrorsAreCodes(schema)
    ensures WellFormed(read, schema)
    decreases schema
  {
    match schema {
      case ListOf(item, _) => CodesAreWellFormed(read, item);
      case Object(checks) =>
        forall key | key in checks ensures WellFormed(read, checks[key]) { CodesAreWellFormed(read, checks[key]); }
      case _ =>
    }
  }

  /** A list of words gives only codes exactly when its words are codes. */
  lemma EnumReturnsCodes(read: Reader, allowed: seq<string>)
    ensures ReturnsCodes(read, Enum(allowed)) <==> forall w :: w in allowed ==> w == REDACTED || IsCode(w)
  {
    if ReturnsCodes(read, Enum(allowed)) {
      forall w | w in allowed ensures w == REDACTED || IsCode(w) {
        assert Project(read, Enum(allowed), Str(w)) == Some(Str(w));
      }
    }
  }

  lemma OnlyLeavesReturnCodes(read: Reader, schema: Schema)
    requires ReturnsCodes(read, schema)
    ensures !schema.ListOf? && !schema.Object? && WellFormed(read, schema)
  {
    assert schema.ListOf? ==> Project(read, schema, Null) == Some(Arr([])) && StampsFit(read, schema, Null);
    assert schema.Object?
           ==> Project(read, schema, Obj(map[])) == Some(Obj(map[])) && StampsFit(read, schema, Obj(map[]));
  }

  /** A printed timestamp is never a code. */
  lemma StampIsNoCode(t: Time)
    requires TwoFractions(t)
    ensures !CodeConforms(Str(Print(t)))
  {
    PrintLength(t);
    PrintStarts(t);
    hide Print, TwoFractions, Secretish;
    assert Chomp(Print(t))[0] == Print(t)[0];
  }

  /** What a leaf gives is a code only if its timestamps fit. */
  lemma MisfitIsNoCode(read: Reader, schema: Schema, v: Json)
    requires !schema.ListOf? && !schema.Object? && !StampsFit(read, schema, v)
    ensures Project(read, schema, v).Some? && !CodeConforms(Project(read, schema, v).value)
  {
    hide Print, TwoFractions;
    assert Outgrows(read, schema, v);
    StampIsNoCode(read(Zulu(v.s)).value);
  }

  lemma PrintedConforms(read: Reader, s: string)
    requires ReadsBack(read)
    ensures read(s).Some? ==> (StampConforms(read, Print(read(s).value)) <==> !TwoFractions(read(s).value))
  {
    hide Print, TwoFractions;
    if read(s).None? { return; }
    var t := read(s).value;
    PrintLength(t);
    NoZulu(t);
    ZuluKeeps(Print(t));
  }

  /** A printed timestamp is read again exactly when it does not show two fractions. */
  lemma StampImage(read: Reader, v: Json)
    requires ReadsBack(read)
    ensures Conforms(read, Stamp, StampOf(read, v)) <==> !Outgrows(read, Stamp, v)
  {
    hide Print, TwoFractions, Zulu, StampConforms;
    if v.Str? && |v.s| <= 40 && read(Zulu(v.s)).Some? { PrintedConforms(read, Zulu(v.s)); }
  }

  ghost predicate ImageOk(read: Reader, schema: Schema, v: Json) {
    var out := Project(read, schema, v);
    out.Some? ==> (Conforms(read, schema, out.value) <==> StampsFit(read, schema, v))
  }

  /** What the projection returns conforms exactly when its timestamps fit. */
  lemma {:induction false} ImageConforms(read: Reader, schema: Schema, v: Json)
    requires WellFormed(read, schema) && ReadsBack(read)
    ensures ImageOk(read, schema, v)
    decreases schema
  {
    hide ImageOk, Project, Conforms, StampsFit, ReadsBack;
    match schema {
      case ListOf(item, limit) =>
        if v.Arr? {
          forall i | 0 <= i < Min(limit, |v.items|) ensures ImageOk(read, item, v.items[i]) {
            ImageConforms(read, item, v.items[i]);
          }
          ImageItems(read, item, limit, v);
        } else {
          ImageElse(read, schema, v);
        }
      case Object(checks) =>
        if v.Obj? && !ErrorOnly(v.fields) {
          forall key | key in checks && key in v.fields ensures ImageOk(read, checks[key], v.fields[key]) {
            if key == "error" { OnlyLeavesReturnCodes(read, checks[key]); }
            ImageConforms(read, checks[key], v.fields[key]);
          }
          ImageFields(read, checks, v);
        } else {
          ImageElse(read, schema, v);
        }
      case _ => ImageLeaf(read, schema, v);
    }
  }

  lemma ImageElse(read: Reader, schema: Schema, v: Json)
    requires (schema.ListOf? && !v.Arr?) || (schema.Object? && (!v.Obj? || ErrorOnly(v.fields)))
    ensures ImageOk(read, schema, v)
  {
  }

  lemma ImageLeaf(read: Reader, schema: Schema, v: Json)
    requires !schema.ListOf? && !schema.Object? && ReadsBack(read)
    ensures ImageOk(read, schema, v)
  {
    hide IsCode, IsCompound, Accepts;
    match schema {
      case Number(low, high) => if v.Float? && low as real <= v.r <= high as real { TruncateStays(v.r, low, high); }
      case Stamp => StampImage(read, v);
      case _ =>
    }
  }

  lemma ImageItems(read: Reader, item: Schema, limit: nat, v: Json)
    requires v.Arr? && forall i :: 0 <= i < Min(limit, |v.items|) ==> ImageOk(read, item, v.items[i])
    ensures ImageOk(read, ListOf(item, limit), v)
  {
    var out := Project(read, ListOf(item, limit), v);
    if out.Some? {
      forall i | 0 <= i < |out.value.items|
        ensures Conforms(read, item, out.value.items[i]) <==> StampsFit(read, item, v.items[i])
      {
        assert ImageOk(read, item, v.items[i]) && Project(read, item, v.items[i]) == Some(out.value.items[i]);
      }
    }
  }

  lemma ImageFields(read: Reader, checks: map<string, Schema>, v: Json)
    requires v.Obj? && !ErrorOnly(v.fields) && WellFormed(read, Object(checks))
    requires forall key :: key in checks && key in v.fields ==> ImageOk(read, checks[key], v.fields[key])
    ensures ImageOk(read, Object(checks), v)
  {
    var out := Project(read, Object(checks), v);
    if out.Some? {
      var fields := out.value.fields;
      assert forall key :: key in fields <==> key in checks && key in v.fields;
      forall key | key in fields
        ensures Conforms(read, checks[key], fields[key]) <==> StampsFit(read, checks[key], v.fields[key])
      {
        assert ImageOk(read, checks[key], v.fields[key])
               && Project(read, checks[key], v.fields[key]) == Some(fields[key]);
      }
      if ErrorOnly(fields) {
        assert "error" in fields && Some(fields["error"]) == Project(read, checks["error"], v.fields["error"]);
        assert forall key :: key in checks && key in v.fields ==> key in fields;
        OnlyLeavesReturnCodes(read, checks["error"]);
        if !StampsFit(read, checks["error"], v.fields["error"]) {
          MisfitIsNoCode(read, checks["error"], v.fields["error"]);
        }
      }
    }
  }

  /**
   * Sanitizing raises exactly on a too large integer; otherwise sanitizing twice is sanitizing once exactly when no
   * timestamp field that it reaches reads as a time with a fraction of a second and a fraction in its offset.
   */
  lemma Idempotent(read: Reader, schema: Schema, v: Json)
    requires WellFormed(read, schema) && ReadsBack(read)
    ensures match Project(read, schema, v)
      case None => Reaches(schema, v, TooLarge)
      case Some(out) =>
        && !Reaches(schema, v, TooLarge)
        && (Project(read, schema, out) == Some(out) <==> StampsFit(read, schema, v))
  {
    hide WellFormed, Conforms, StampsFit, ReadsBack;
    RaisesExactly(read, schema, v);
    ImageConforms(read, schema, v);
    if Project(read, schema, v).Some? { FixedPoints(read, schema, Project(read, schema, v).value); }
  }

  /** Reading calendar dates is such a reader. */
  lemma ReadTimeReadsBack()
    ensures ReadsBack(ReadTime)
  {
    forall s | ReadTime(s).Some? ensures ReadTime(Print(ReadTime(s).value)) == ReadTime(s) {
      ReadIsReadable(s);
      TimeReadsBack(ReadTime(s).value);
    }
  }

  /**
   * Idempotence does fail: a fraction of a second is printed with six digits, and the second pass drops the timestamp.
   */
  lemma LongStampIsLost()
    ensures Project(ReadTime, Stamp, Str(SHORT)) == Some(Str(LONG)) && Project(ReadTime, Stamp, Str(LONG)) == Some(Null)
  {
    ShortReadsLong();
    LostPrints();
    hide ReadTime, Print;
    ZuluKeeps(SHORT);
  }

  /** A boolean as "error" field is not stable: the first pass leaves it alone in its object, the second redacts it. */
  lemma FlagAsErrorIsUnstable(read: Reader)
    ensures var schema := Object(map["error" := Flag]);
            var v := Obj(map["error" := Bool(true), "other" := Null]);
            Project(read, schema, v) == Some(Obj(map["error" := Bool(true)]))
            && Project(read, schema, Obj(map["error" := Bool(true)])) == Some(Obj(map["error" := Str(REDACTED)]))
  {
    var v := map["error" := Bool(true), "other" := Null];
    assert "other" in v && "other" != "error";
    assert Project(read, Object(map["error" := Flag]), Obj(v)).value.fields == map["error" := Bool(true)];
    assert ErrorOnly(map["error" := Bool(true)]);
  }

  // --- which schemas are stable ----------------------------------------------------------------

  /** Unless it raises or a timestamp outgrows its field, sanitizing the value twice is sanitizing it once. */
  ghost predicate StableOn(read: Reader, schema: Schema, v: Json) {
    var out := Project(read, schema, v);
    out.Some? && StampsFit(read, schema, v) ==> Fixed(read, schema, out.value)
  }

  lemma {:induction false} LongestKey(keys: set<string>) returns (n: nat)
    ensures forall k :: k in keys ==> |k| <= n
    decreases |keys|
  {
    n := 0;
    if keys != {} {
      var k :| k in keys;
      n := LongestKey(keys - {k});
      assert forall x :: x in keys ==> x == k || x in keys - {k};
      n := if n < |k| then |k| else n;
    }
  }

  lemma NewKey(keys: set<string>) returns (k: string)
    ensures k !in keys && k != "error"
  {
    var n := LongestKey(keys + {"error"});
    k := seq(n + 1, _ => 'x');
    assert |k| == n + 1;
    assert "error" in keys + {"error"};
    assert k in keys ==> k in keys + {"error"};
  }

  lemma CodeOfFixes(v: Json)
    ensures CodeOf(v) == v <==> CodeConforms(v)
  {
  }

  /** Beside a field that the schema does not know, a field "error" loses its company in the first pass. */
  lemma BadErrorIsUnstable(read: Reader, checks: map<string, Schema>, x: Json) returns (v: Json)
    requires "error" in checks && StampsFit(read, checks["error"], x)
    requires Project(read, checks["error"], x).Some? && !CodeConforms(Project(read, checks["error"], x).value)
    ensures !StableOn(read, Object(checks), v)
  {
    var other := NewKey(checks.Keys);
    var y := Project(read, checks["error"], x).value;
    v := Obj(map["error" := x, other := Null]);
    LosesCompany(read, checks, x, other);
    CodeOfFixes(y);
    hide Project, StampsFit;
    LoneError(read, checks, y);
    assert map["error" := CodeOf(y)]["error"] != map["error" := y]["error"];
  }

  lemma LosesCompany(read: Reader, checks: map<string, Schema>, x: Json, other: string)
    requires "error" in checks && other !in checks && other != "error" && Project(read, checks["error"], x).Some?
    ensures var v := Obj(map["error" := x, other := Null]);
            && Project(read, Object(checks), v) == Some(Obj(map["error" := Project(read, checks["error"], x).value]))
            && (StampsFit(read, Object(checks), v) <==> StampsFit(read, checks["error"], x))
  {
    var v := Obj(map["error" := x, other := Null]);
    assert other in v.fields && !ErrorOnly(v.fields);
    assert forall key :: key in checks && key in v.fields <==> key == "error";
    assert v.fields["error"] == x;
    var out := Project(read, Object(checks), v);
    assert out.Some? && out.value.fields == map["error" := Project(read, checks["error"], x).value];
  }

  lemma LoneError(read: Reader, checks: map<string, Schema>, y: Json)
    ensures Project(read, Object(checks), Obj(map["error" := y])) == Some(Obj(map["error" := CodeOf(y)]))
  {
    assert ErrorOnly(map["error" := y]);
  }

  /** An object with one known field, which is not "error". */
  lemma SingleField(read: Reader, checks: map<string, Schema>, key: string, x: Json)
    requires key in checks && key != "error"
    ensures var out := Project(read, checks[key], x);
            Project(read, Object(checks), Obj(map[key := x]))
            == if out.None? then None else Some(Obj(map[key := out.value]))
    ensures StampsFit(read, Object(checks), Obj(map[key := x])) <==> StampsFit(read, checks[key], x)
  {
    var v := Obj(map[key := x]);
    assert key in v.fields && !ErrorOnly(v.fields) && v.fields[key] == x;
    assert forall k :: k in checks && k in v.fields <==> k == key;
    var out := Project(read, Object(checks), v);
    if out.Some? { assert out.value.fields == map[key := Project(read, checks[key], x).value]; }
  }

  lemma BadFieldIsUnstable(read: Reader, checks: map<string, Schema>, key: string, w: Json) returns (v: Json)
    requires key in checks && key != "error" && !StableOn(read, checks[key], w)
    ensures !StableOn(read, Object(checks), v)
  {
    hide Project, StampsFit;
    v := Obj(map[key := w]);
    var o := Project(read, checks[key], w).value;
    SingleField(read, checks, key, w);
    SingleField(read, checks, key, o);
    assert map[key := o][key] == o;
  }

  /** A list with one item. */
  lemma SingleItem(read: Reader, item: Schema, limit: nat, x: Json)
    requires limit > 0
    ensures var out := Project(read, item, x);
            Project(read, ListOf(item, limit), Arr([x])) == if out.None? then None else Some(Arr([out.value]))
    ensures StampsFit(read, ListOf(item, limit), Arr([x])) <==> StampsFit(read, item, x)
  {
    var v := Arr([x]);
    assert v.items[0] == x && |v.items| == 1;
    var out := Project(read, ListOf(item, limit), v);
    if out.Some? { assert out.value.items == [Project(read, item, x).value]; }
  }

  lemma BadItemIsUnstable(read: Reader, item: Schema, limit: nat, w: Json) returns (v: Json)
    requires limit > 0 && !StableOn(read, item, w)
    ensures !StableOn(read, ListOf(item, limit), v)
  {
    hide Project, StampsFit;
    v := Arr([w]);
    var o := Project(read, item, w).value;
    SingleItem(read, item, limit, w);
    SingleItem(read, item, limit, o);
    assert [o][0] == o;
  }

  lemma {:induction false} UnstableExample(read: Reader, schema: Schema) returns (v: Json)
    requires !WellFormed(read, schema)
    ensures !StableOn(read, schema, v)
    decreases schema
  {
    hide StableOn;
    match schema {
      case ListOf(item, limit) =>
        var w := UnstableExample(read, item);
        v := BadItemIsUnstable(read, item, limit, w);
      case Object(checks) =>
        if "error" in checks && !ReturnsCodes(read, checks["error"]) {
          var x :| Project(read, checks["error"], x).Some? && StampsFit(read, checks["error"], x)
                   && !CodeConforms(Project(read, checks["error"], x).value);
          v := BadErrorIsUnstable(read, checks, x);
        } else {
          var key :| key in checks && key != "error" && !WellFormed(read, checks[key]);
          var w := UnstableExample(read, checks[key]);
          v := BadFieldIsUnstable(read, checks, key, w);
        }
    }
  }

  /** A schema is stable on every JSON value exactly when its fields named "error" give only codes. */
  lemma StableExactly(read: Reader, schema: Schema)
    requires ReadsBack(read)
    ensures WellFormed(read, schema) <==> forall v :: StableOn(read, schema, v)
  {
    if WellFormed(read, schema) {
      forall v ensures StableOn(read, schema, v) {
        Idempotent(read, schema, v);
      }
    } else {
      var v := UnstableExample(read, schema);
    }
  }
}
