/**
 * The request-validation layer: a schema maps each field to an `optional`
 * flag, an optional field-level message and a chain of sanitizers and
 * validators, which run in order over the request's fields (path, query,
 * body and cookies, taken together as one map from field name to text;
 * headers are not part of it).
 * Every chain runs to its end and every failure is recorded; the
 * `validationError` middleware then answers 400 with the FIRST error of each
 * failed field, or lets the request through with the sanitized fields.
 */
module Validation {
  import opened Wrappers
  import opened Text
  import opened UserModel
  import opened Store

  type Fields = map<string, string>

  /** The store lookups a custom validator performs before it throws. */
  datatype Custom =
    /** `User.exists({ email: value })` throws when the email is taken. */
    | RejectTakenEmail(thrown: string)
    /** `User.exists({ email: value })` throws when no user has the email. */
    | RejectUnknownEmail(thrown: string)
    /** `User.findOne({ email: req.body.email })`, then bcrypt `compare(value, user.password)`; throws when there is no such user or no match. */
    | RejectWrongPassword(thrown: string)
    /** `User.exists({ username: value })` throws when the username is taken. */
    | RejectTakenUsername(thrown: string)

  datatype Check =
    | NotEmpty
    /** `isLength({ max })` and `isLength({ min })`, on the length `ValidatorLength` measures. */
    | MaxLength(max: nat)
    | MinLength(min: nat)
    | IsEmail
    | IsJwt
    | IsMongoId
    | MatchesPassword
    | IsString
    | IsIn(options: seq<string>)
    | IsInt(least: int, most: Option<int>)
    | CustomCheck(custom: Custom)

  /** One step of a chain: the `trim` sanitizer, or a validator with its own `errorMessage`, if any. */
  datatype Rule = TrimStep | Validate(check: Check, message: Option<string>)

  datatype FieldSchema = FieldSchema(field: string, optional: bool, message: Option<string>, rules: seq<Rule>)

  type Schema = seq<FieldSchema>

  /**
   * What the validators consult beyond the request: the two store queries the
   * custom validators issue, the `validator.js` predicates whose internals are
   * not part of this model, and bcrypt's `compare(plain, hash)`.
   */
  datatype Env = Env(
    /** `User.findOne({ email })`. */
    userByEmail: string -> Option<User>,
    /** `User.exists({ username })`. */
    usernameTaken: string -> bool,
    isEmail: string -> bool,
    isJwt: string -> bool,
    isMongoId: string -> bool,
    compare: (string, string) -> bool)

  /** `User.exists({ email })`: some user has the email. */
  predicate Registered(env: Env, email: string) {
    env.userByEmail(email).Some?
  }

  /** The validators' view of a store: its queries answered from the snapshot. */
  function StoreEnv(s: Snapshot, isEmail: string -> bool, isJwt: string -> bool, isMongoId: string -> bool,
                    compare: (string, string) -> bool): (env: Env)
    ensures forall e :: env.userByEmail(e) == FindUserByEmail(s, e)
    ensures forall e :: Registered(env, e) <==> EmailTaken(s, e)
    ensures forall u :: env.usernameTaken(u) <==> UsernameTaken(s, u)
    ensures env.isEmail == isEmail && env.isJwt == isJwt && env.isMongoId == isMongoId && env.compare == compare
  {
    Env(e => FindUserByEmail(s, e), u => UsernameTaken(s, u), isEmail, isJwt, isMongoId, compare)
  }

  const DefaultMessage: string := "Invalid value"

  /** The text of a field: an absent field reads as the empty string, as validators see `undefined`. */
  function Get(fields: Fields, name: string): string {
    if name in fields then fields[name] else ""
  }

  /** `isInt({ min, max })`: an optional sign and decimal digits (leading zeros allowed) denoting a number in range. */
  predicate IntInRange(v: string, min: int, max: Option<int>) {
    IntegerText(v).Some? && IntegerText(v).value >= min && (max.None? || IntegerText(v).value <= max.value)
  }

  /** Whether a standard validator accepts `v`. */
  predicate Accepts(env: Env, c: Check, v: string)
    requires !c.CustomCheck?
  {
    match c
    case NotEmpty => v != ""
    case MaxLength(max) => ValidatorLength(v) <= max
    case MinLength(min) => ValidatorLength(v) >= min
    case IsEmail => env.isEmail(v)
    case IsJwt => env.isJwt(v)
    case IsMongoId => env.isMongoId(v)
    case MatchesPassword => MatchesPasswordPattern(v)
    case IsString => true
    case IsIn(options) => v in options
    case IsInt(min, max) => IntInRange(v, min, max)
  }

  /** The message a custom validator throws, or `None` when its promise resolves (whatever it resolves to). */
  function Thrown(env: Env, fields: Fields, c: Custom, v: string): Option<string> {
    match c
    case RejectTakenEmail(m) => if Registered(env, v) then Some(m) else None
    case RejectUnknownEmail(m) => if !Registered(env, v) then Some(m) else None
    case RejectWrongPassword(m) =>
      var user := env.userByEmail(Get(fields, "email"));
      if user.None? || !env.compare(v, user.value.password) then Some(m) else None
    case RejectTakenUsername(m) => if env.usernameTaken(v) then Some(m) else None
  }

  /**
   * The error one validator records, if it fails. A standard validator's
   * message is its own, else the field's, else `Invalid value`; a custom
   * validator that throws reports its own message, else the thrown one (the
   * field-level message is not consulted).
   */
  function RuleError(env: Env, fields: Fields, c: Check, own: Option<string>, fieldMessage: Option<string>, v: string): Option<string> {
    if c.CustomCheck? then
      match Thrown(env, fields, c.custom, v)
      case None => None
      case Some(t) => Some(if own.Some? then own.value else if t != "" then t else DefaultMessage)
    else if Accepts(env, c, v) then None
    else Some(own.GetOr(fieldMessage.GetOr(DefaultMessage)))
  }

  /**
   * A standard validator records nothing when it accepts the value, and
   * otherwise its own message, else the field's, else `Invalid value`.
   */
  lemma StandardError(env: Env, fields: Fields, c: Check, own: Option<string>, fieldMessage: Option<string>, v: string)
    requires !c.CustomCheck?
    ensures Errs(RuleError(env, fields, c, own, fieldMessage, v))
      == if Accepts(env, c, v) then [] else [own.GetOr(fieldMessage.GetOr(DefaultMessage))]
  {
  }

  /**
   * A custom validator without a message of its own records nothing when its
   * promise resolves, and otherwise the thrown message (or `Invalid value`
   * for an empty one), whatever the field's message is.
   */
  lemma CustomError(env: Env, fields: Fields, c: Custom, fieldMessage: Option<string>, v: string)
    ensures Errs(RuleError(env, fields, CustomCheck(c), None, fieldMessage, v))
      == match Thrown(env, fields, c, v)
         case None => []
         case Some(t) => [if t != "" then t else DefaultMessage]
  {
  }

  /** The sanitized value and the recorded errors of one chain. */
  datatype ChainResult = ChainResult(value: string, errors: seq<string>)

  /** A chain, run in order: `trim` rewrites the value the later steps see; no step stops the chain. */
  function RunRules(env: Env, fields: Fields, fieldMessage: Option<string>, rules: seq<Rule>, v: string): ChainResult {
    RunFrom(env, fields, fieldMessage, rules, 0, v)
  }

  /** The chain from step `i` on. */
  function RunFrom(env: Env, fields: Fields, fieldMessage: Option<string>, rules: seq<Rule>, i: nat, v: string): ChainResult
    requires i <= |rules|
    decreases |rules| - i
  {
    if i == |rules| then ChainResult(v, [])
    else match rules[i]
      case TrimStep => RunFrom(env, fields, fieldMessage, rules, i + 1, Trim(v))
      case Validate(c, own) =>
        var rest := RunFrom(env, fields, fieldMessage, rules, i + 1, v);
        ChainResult(rest.value, Errs(RuleError(env, fields, c, own, fieldMessage, v)) + rest.errors)
  }

  /** The errors a failed validator contributes: its message, or nothing. */
  function Errs(e: Option<string>): seq<string> {
    if e.Some? then [e.value] else []
  }

  /**
   * A chain leaves the trimmed input when it has a `trim` step (trimming
   * twice is trimming once) and the input otherwise, and records at most one
   * error per step.
   */
  lemma {:induction false} RunFromValue(env: Env, fields: Fields, fieldMessage: Option<string>, rules: seq<Rule>, i: nat, v: string)
    requires i <= |rules|
    ensures RunFrom(env, fields, fieldMessage, rules, i, v).value == if TrimStep in rules[i..] then Trim(v) else v
    ensures |RunFrom(env, fields, fieldMessage, rules, i, v).errors| <= |rules| - i
    decreases |rules| - i
  {
    if i < |rules| {
      assert rules[i..] == [rules[i]] + rules[i + 1..];
      match rules[i]
      case TrimStep =>
        RunFromValue(env, fields, fieldMessage, rules, i + 1, Trim(v));
        TrimIdempotent(v);
      case Validate(_, _) =>
        RunFromValue(env, fields, fieldMessage, rules, i + 1, v);
    }
  }

  /** One validator step records its error in front of the rest of the chain's. */
  lemma StepValidate(env: Env, fields: Fields, fm: Option<string>, rules: seq<Rule>, i: nat, v: string)
    requires i < |rules| && rules[i].Validate?
    ensures RunFrom(env, fields, fm, rules, i, v).errors
      == Errs(RuleError(env, fields, rules[i].check, rules[i].message, fm, v)) + RunFrom(env, fields, fm, rules, i + 1, v).errors
  {
  }

  /** A `trim` step hands the trimmed value to the rest of the chain. */
  lemma StepTrim(env: Env, fields: Fields, fm: Option<string>, rules: seq<Rule>, i: nat, v: string)
    requires i < |rules| && rules[i].TrimStep?
    ensures RunFrom(env, fields, fm, rules, i, v) == RunFrom(env, fields, fm, rules, i + 1, Trim(v))
  {
  }

  /** Past its last step a chain records nothing more. */
  lemma StepEnd(env: Env, fields: Fields, fm: Option<string>, rules: seq<Rule>, v: string)
    ensures RunFrom(env, fields, fm, rules, |rules|, v).errors == []
  {
  }

  /**
   * The errors of the last validators of a chain, from step `i` on, one
   * optional message per validator.
   */
  lemma Tail1(env: Env, fields: Fields, fm: Option<string>, rules: seq<Rule>, i: nat, v: string)
    requires i + 1 == |rules| && rules[i].Validate?
    ensures RunFrom(env, fields, fm, rules, i, v).errors == Errs(RuleError(env, fields, rules[i].check, rules[i].message, fm, v))
  {
    StepValidate(env, fields, fm, rules, i, v);
    StepEnd(env, fields, fm, rules, v);
    var last := Errs(RuleError(env, fields, rules[i].check, rules[i].message, fm, v));
    assert last + [] == last;
  }

  lemma Tail2(env: Env, fields: Fields, fm: Option<string>, rules: seq<Rule>, i: nat, v: string)
    requires i + 2 == |rules| && rules[i].Validate? && rules[i + 1].Validate?
    ensures RunFrom(env, fields, fm, rules, i, v).errors ==
      Errs(RuleError(env, fields, rules[i].check, rules[i].message, fm, v))
      + Errs(RuleError(env, fields, rules[i + 1].check, rules[i + 1].message, fm, v))
  {
    StepValidate(env, fields, fm, rules, i, v);
    Tail1(env, fields, fm, rules, i + 1, v);
  }

  lemma Tail3(env: Env, fields: Fields, fm: Option<string>, rules: seq<Rule>, i: nat, v: string)
    requires i + 3 == |rules| && rules[i].Validate? && rules[i + 1].Validate? && rules[i + 2].Validate?
    ensures RunFrom(env, fields, fm, rules, i, v).errors ==
      Errs(RuleError(env, fields, rules[i].check, rules[i].message, fm, v))
      + (Errs(RuleError(env, fields, rules[i + 1].check, rules[i + 1].message, fm, v))
      + Errs(RuleError(env, fields, rules[i + 2].check, rules[i + 2].message, fm, v)))
  {
    StepValidate(env, fields, fm, rules, i, v);
    Tail2(env, fields, fm, rules, i + 1, v);
  }

  lemma Tail4(env: Env, fields: Fields, fm: Option<string>, rules: seq<Rule>, i: nat, v: string)
    requires i + 4 == |rules| && rules[i].Validate? && rules[i + 1].Validate? && rules[i + 2].Validate? && rules[i + 3].Validate?
    ensures RunFrom(env, fields, fm, rules, i, v).errors ==
      Errs(RuleError(env, fields, rules[i].check, rules[i].message, fm, v))
      + (Errs(RuleError(env, fields, rules[i + 1].check, rules[i + 1].message, fm, v))
      + (Errs(RuleError(env, fields, rules[i + 2].check, rules[i + 2].message, fm, v))
      + Errs(RuleError(env, fields, rules[i + 3].check, rules[i + 3].message, fm, v))))
  {
    StepValidate(env, fields, fm, rules, i, v);
    Tail3(env, fields, fm, rules, i + 1, v);
  }

  /**
   * The errors of short chains: with no sanitizer, or with `trim` first so
   * that every validator sees the trimmed value.
   */
  lemma Checks1(env: Env, fields: Fields, fm: Option<string>, rules: seq<Rule>, v: string)
    requires |rules| == 1 && rules[0].Validate?
    ensures RunRules(env, fields, fm, rules, v).errors ==
      Errs(RuleError(env, fields, rules[0].check, rules[0].message, fm, v))
  {
    Tail1(env, fields, fm, rules, 0, v);
  }

  lemma Checks2(env: Env, fields: Fields, fm: Option<string>, rules: seq<Rule>, v: string)
    requires |rules| == 2 && rules[0].Validate? && rules[1].Validate?
    ensures RunRules(env, fields, fm, rules, v).errors ==
      Errs(RuleError(env, fields, rules[0].check, rules[0].message, fm, v))
      + Errs(RuleError(env, fields, rules[1].check, rules[1].message, fm, v))
  {
    Tail2(env, fields, fm, rules, 0, v);
  }

  lemma Checks3(env: Env, fields: Fields, fm: Option<string>, rules: seq<Rule>, v: string)
    requires |rules| == 3 && rules[0].Validate? && rules[1].Validate? && rules[2].Validate?
    ensures RunRules(env, fields, fm, rules, v).errors ==
      Errs(RuleError(env, fields, rules[0].check, rules[0].message, fm, v))
      + (Errs(RuleError(env, fields, rules[1].check, rules[1].message, fm, v))
      + Errs(RuleError(env, fields, rules[2].check, rules[2].message, fm, v)))
  {
    Tail3(env, fields, fm, rules, 0, v);
  }

  lemma Checks4(env: Env, fields: Fields, fm: Option<string>, rules: seq<Rule>, v: string)
    requires |rules| == 4 && rules[0].Validate? && rules[1].Validate? && rules[2].Validate? && rules[3].Validate?
    ensures RunRules(env, fields, fm, rules, v).errors ==
      Errs(RuleError(env, fields, rules[0].check, rules[0].message, fm, v))
      + (Errs(RuleError(env, fields, rules[1].check, rules[1].message, fm, v))
      + (Errs(RuleError(env, fields, rules[2].check, rules[2].message, fm, v))
      + Errs(RuleError(env, fields, rules[3].check, rules[3].message, fm, v))))
  {
    Tail4(env, fields, fm, rules, 0, v);
  }

  lemma TrimChecks1(env: Env, fields: Fields, fm: Option<string>, rules: seq<Rule>, v: string)
    requires |rules| == 2 && rules[0] == TrimStep && rules[1].Validate?
    ensures RunRules(env, fields, fm, rules, v).errors ==
      Errs(RuleError(env, fields, rules[1].check, rules[1].message, fm, Trim(v)))
  {
    StepTrim(env, fields, fm, rules, 0, v);
    Tail1(env, fields, fm, rules, 1, Trim(v));
  }

  lemma TrimChecks2(env: Env, fields: Fields, fm: Option<string>, rules: seq<Rule>, v: string)
    requires |rules| == 3 && rules[0] == TrimStep && rules[1].Validate? && rules[2].Validate?
    ensures RunRules(env, fields, fm, rules, v).errors ==
      Errs(RuleError(env, fields, rules[1].check, rules[1].message, fm, Trim(v)))
      + Errs(RuleError(env, fields, rules[2].check, rules[2].message, fm, Trim(v)))
  {
    StepTrim(env, fields, fm, rules, 0, v);
    Tail2(env, fields, fm, rules, 1, Trim(v));
  }

  lemma TrimChecks3(env: Env, fields: Fields, fm: Option<string>, rules: seq<Rule>, v: string)
    requires |rules| == 4 && rules[0] == TrimStep && rules[1].Validate? && rules[2].Validate? && rules[3].Validate?
    ensures RunRules(env, fields, fm, rules, v).errors ==
      Errs(RuleError(env, fields, rules[1].check, rules[1].message, fm, Trim(v)))
      + (Errs(RuleError(env, fields, rules[2].check, rules[2].message, fm, Trim(v)))
      + Errs(RuleError(env, fields, rules[3].check, rules[3].message, fm, Trim(v))))
  {
    StepTrim(env, fields, fm, rules, 0, v);
    Tail3(env, fields, fm, rules, 1, Trim(v));
  }

  lemma TrimChecks4(env: Env, fields: Fields, fm: Option<string>, rules: seq<Rule>, v: string)
    requires |rules| == 5 && rules[0] == TrimStep && rules[1].Validate? && rules[2].Validate? && rules[3].Validate? && rules[4].Validate?
    ensures RunRules(env, fields, fm, rules, v).errors ==
      Errs(RuleError(env, fields, rules[1].check, rules[1].message, fm, Trim(v)))
      + (Errs(RuleError(env, fields, rules[2].check, rules[2].message, fm, Trim(v)))
      + (Errs(RuleError(env, fields, rules[3].check, rules[3].message, fm, Trim(v)))
      + Errs(RuleError(env, fields, rules[4].check, rules[4].message, fm, Trim(v)))))
  {
    StepTrim(env, fields, fm, rules, 0, v);
    Tail4(env, fields, fm, rules, 1, Trim(v));
  }

  /** A list of optional messages is empty exactly when every part is. */
  lemma NoMessages(failed: bool, m: string, rest: seq<string>)
    ensures (if failed then [m] else []) + rest == [] <==> !failed && rest == []
  {
    if failed {
      assert ((if failed then [m] else []) + rest)[0] == m;
    } else {
      assert (if failed then [m] else []) + rest == rest;
    }
  }

  /** The errors recorded for `name`: none when it is absent. */
  function ErrorsOf(errors: Errors, name: string): seq<string> {
    if name in errors then errors[name] else []
  }

  /** A schema's result records `name` exactly when it has errors for it. */
  lemma ErrorsOfEmpty(env: Env, fields: Fields, schema: Schema, name: string)
    ensures var r := RunSchema(env, fields, schema).errors;
      ErrorsOf(r, name) == [] <==> name !in r
  {
  }

  /**
   * Where a field's chain stands in a schema.
   *
   * A field's errors in a schema are its chain's errors, run on the value as
   * the request carried it; an optional field that is absent has none.
   */
  lemma FieldAt(env: Env, fields: Fields, schema: Schema, i: nat, e: seq<string>)
    requires i < |schema| && DistinctFields(schema)
    requires RunRules(env, FieldsBefore(env, fields, schema, i), schema[i].message, schema[i].rules, Get(fields, schema[i].field)).errors == e
    ensures ErrorsOf(RunSchema(env, fields, schema).errors, schema[i].field)
      == if schema[i].optional && schema[i].field !in fields then [] else e
  {
    FieldInSchema(env, fields, schema, i);
  }

  lemma FieldInSchema(env: Env, fields: Fields, schema: Schema, i: nat)
    requires i < |schema| && DistinctFields(schema)
    ensures var f := schema[i];
      var before := FieldsBefore(env, fields, schema, i);
      var r := RunSchema(env, fields, schema).errors;
      var own := if f.optional && f.field !in fields then []
        else RunRules(env, before, f.message, f.rules, Get(fields, f.field)).errors;
      && (f.field in before <==> f.field in fields)
      && Get(before, f.field) == Get(fields, f.field)
      && (f.field in r <==> own != []) && (own != [] ==> r[f.field] == own)
  {
    SchemaErrorsOf(env, fields, schema, i);
    var name := schema[i].field;
    assert FieldsBefore(env, fields, schema, i).Keys == fields.Keys;
    if name in fields {
      FieldsBeforeKeep(env, fields, schema, i, name);
    }
  }

  /** The sanitizer's write-back: the chain's value replaces a present field; an absent field stays absent. */
  function WriteBack(fields: Fields, name: string, value: string): (r: Fields)
    ensures r.Keys == fields.Keys
    ensures forall k :: k in fields && k != name ==> r[k] == fields[k]
    ensures name in fields ==> r[name] == value
  {
    if name in fields then fields[name := value] else fields
  }

  datatype FieldResult = FieldResult(fields: Fields, errors: seq<string>)

  /** One field: an `optional` field that is absent is skipped entirely. */
  function RunField(env: Env, fields: Fields, f: FieldSchema): (r: FieldResult)
    ensures r.fields.Keys == fields.Keys
    ensures forall k :: k in fields && k != f.field ==> r.fields[k] == fields[k]
    ensures f.optional && f.field !in fields ==> r == FieldResult(fields, [])
  {
    if f.optional && f.field !in fields then FieldResult(fields, [])
    else
      var c := RunRules(env, fields, f.message, f.rules, Get(fields, f.field));
      FieldResult(WriteBack(fields, f.field, c.value), c.errors)
  }

  /** The recorded errors of a field, first first; a field with none is absent. */
  type Errors = map<string, seq<string>>

  function Record(errors: Errors, name: string, msgs: seq<string>): (r: Errors)
    requires forall k :: k in errors ==> errors[k] != []
    ensures forall k :: k in r ==> r[k] != []
    ensures forall k :: k != name ==> (k in r <==> k in errors) && (k in r ==> r[k] == errors[k])
    ensures name in r <==> msgs != [] || name in errors
    ensures name in r ==> r[name] == msgs + (if name in errors then errors[name] else [])
  {
    if msgs == [] then errors
    else errors[name := msgs + (if name in errors then errors[name] else [])]
  }

  datatype SchemaResult = SchemaResult(fields: Fields, errors: Errors)

  /** The chains of a schema, in schema order, each seeing the fields the earlier chains sanitized. */
  function RunSchema(env: Env, fields: Fields, schema: Schema): (r: SchemaResult)
    ensures forall k :: k in r.errors ==> r.errors[k] != []
    ensures r.errors.Keys <= FieldNames(schema)
    ensures r.fields.Keys == fields.Keys
    decreases |schema|
  {
    if schema == [] then SchemaResult(fields, map[])
    else
      var first := RunField(env, fields, schema[0]);
      var rest := RunSchema(env, first.fields, schema[1..]);
      SchemaResult(rest.fields, Record(rest.errors, schema[0].field, first.errors))
  }

  /** The field names a schema validates. */
  function FieldNames(schema: Schema): set<string> {
    if schema == [] then {} else {schema[0].field} + FieldNames(schema[1..])
  }

  /** No field name occurs twice (the schema is an object literal). */
  predicate DistinctFields(schema: Schema) {
    forall i, j :: 0 <= i < j < |schema| ==> schema[i].field != schema[j].field
  }

  /** The fields the chains before position `i` leave. */
  function FieldsBefore(env: Env, fields: Fields, schema: Schema, i: nat): Fields
    requires i <= |schema|
  {
    RunSchema(env, fields, schema[..i]).fields
  }

  /**
   * A field's recorded errors are exactly those of its own chain, run on the
   * fields the earlier chains left.
   */
  lemma {:induction false} SchemaErrorsOf(env: Env, fields: Fields, schema: Schema, i: nat)
    requires i < |schema| && DistinctFields(schema)
    ensures var r := RunSchema(env, fields, schema).errors;
      var own := RunField(env, FieldsBefore(env, fields, schema, i), schema[i]).errors;
      (schema[i].field in r <==> own != []) && (own != [] ==> r[schema[i].field] == own)
    decreases i
  {
    if i == 0 {
      FirstFieldErrors(env, fields, schema);
    } else {
      var first := RunField(env, fields, schema[0]);
      var tail := schema[1..];
      assert DistinctFields(tail);
      SchemaErrorsOf(env, first.fields, tail, i - 1);
      assert tail[i - 1] == schema[i];
      FieldsBeforeShift(env, fields, schema, i);
    }
  }

  /** The first field's recorded errors are those of its chain on the request's fields. */
  lemma FirstFieldErrors(env: Env, fields: Fields, schema: Schema)
    requires 0 < |schema| && DistinctFields(schema)
    ensures var r := RunSchema(env, fields, schema).errors;
      var own := RunField(env, fields, schema[0]).errors;
      (schema[0].field in r <==> own != []) && (own != [] ==> r[schema[0].field] == own)
      && FieldsBefore(env, fields, schema, 0) == fields
  {
    assert schema[..0] == [];
    NameAbsentAfter(env, RunField(env, fields, schema[0]).fields, schema[1..], schema[0].field);
  }

  /** The fields before position `i` are those the tail's chains before `i - 1` leave, starting from the first chain's. */
  lemma FieldsBeforeShift(env: Env, fields: Fields, schema: Schema, i: nat)
    requires 0 < i <= |schema|
    ensures FieldsBefore(env, fields, schema, i) == FieldsBefore(env, RunField(env, fields, schema[0]).fields, schema[1..], i - 1)
  {
    var pre := schema[..i];
    assert pre[0] == schema[0];
    assert pre[1..] == schema[1..][..i - 1];
  }

  /** A field name no chain of the schema validates gets no errors. */
  lemma {:induction false} NameAbsentAfter(env: Env, fields: Fields, schema: Schema, name: string)
    requires forall k :: 0 <= k < |schema| ==> schema[k].field != name
    ensures name !in RunSchema(env, fields, schema).errors
    decreases |schema|
  {
    if schema != [] {
      NameAbsentAfter(env, RunField(env, fields, schema[0]).fields, schema[1..], name);
    }
  }

  /** The chains before position `i` only rewrite their own fields. */
  lemma {:induction false} FieldsBeforeKeep(env: Env, fields: Fields, schema: Schema, i: nat, name: string)
    requires i <= |schema| && name in fields
    requires forall k :: 0 <= k < i ==> schema[k].field != name
    ensures name in FieldsBefore(env, fields, schema, i) && FieldsBefore(env, fields, schema, i)[name] == fields[name]
    decreases i
  {
    if i > 0 {
      var first := RunField(env, fields, schema[0]);
      FieldsBeforeKeep(env, first.fields, schema[1..], i - 1, name);
      assert schema[..i][1..] == schema[1..][..i - 1];
    }
  }

  /** The chain in front of a field, when it is the schema's first, is run on the request as sent. */
  lemma FieldsAfterFirst(env: Env, fields: Fields, schema: Schema)
    requires |schema| >= 1
    ensures FieldsBefore(env, fields, schema, 1) == RunField(env, fields, schema[0]).fields
  {
    var one := schema[..1];
    var first := RunField(env, fields, schema[0]);
    assert one[0] == schema[0] && one[1..] == [];
    assert RunSchema(env, fields, one).fields == RunSchema(env, first.fields, one[1..]).fields;
  }

  lemma {:induction false} FieldNamesMember(schema: Schema, name: string)
    ensures name in FieldNames(schema) <==> exists i :: 0 <= i < |schema| && schema[i].field == name
    decreases |schema|
  {
    if schema != [] {
      FieldNamesMember(schema[1..], name);
      if name in FieldNames(schema[1..]) {
        var i :| 0 <= i < |schema[1..]| && schema[1..][i].field == name;
        assert schema[i + 1].field == name;
      }
      if exists i :: 0 <= i < |schema| && schema[i].field == name {
        var i :| 0 <= i < |schema| && schema[i].field == name;
        if i > 0 {
          assert schema[1..][i - 1].field == name;
        }
      }
    }
  }

  /** Only the schema's own fields get errors. */
  lemma ErrorsFromFields(env: Env, fields: Fields, schema: Schema, name: string)
    requires name in RunSchema(env, fields, schema).errors
    ensures exists i :: 0 <= i < |schema| && schema[i].field == name
  {
    FieldNamesMember(schema, name);
  }

  /** When every other field of a two-field schema passes, only `name` is recorded. */
  lemma OnlyErrorsFor(env: Env, fields: Fields, schema: Schema, name: string)
    requires |schema| == 2 && name in RunSchema(env, fields, schema).errors
    requires schema[0].field == name || schema[0].field !in RunSchema(env, fields, schema).errors
    requires schema[1].field == name || schema[1].field !in RunSchema(env, fields, schema).errors
    ensures RunSchema(env, fields, schema).errors.Keys == {name}
  {
    var r := RunSchema(env, fields, schema).errors;
    forall k | k in r ensures k == name {
      ErrorsFromFields(env, fields, schema, k);
    }
  }

  /** A schema passes exactly when none of its fields has errors. */
  lemma NoneRecorded(env: Env, fields: Fields, schema: Schema)
    ensures var r := RunSchema(env, fields, schema).errors;
      r == map[] <==> forall i :: 0 <= i < |schema| ==> schema[i].field !in r
  {
    var r := RunSchema(env, fields, schema).errors;
    if forall i :: 0 <= i < |schema| ==> schema[i].field !in r {
      forall name | name in r ensures false {
        FieldNamesMember(schema, name);
      }
      assert r.Keys == {};
    }
  }

  lemma NoneRecorded2(env: Env, fields: Fields, schema: Schema)
    requires |schema| == 2
    ensures var r := RunSchema(env, fields, schema).errors;
      r == map[] <==> schema[0].field !in r && schema[1].field !in r
  {
    NoneRecorded(env, fields, schema);
    var r := RunSchema(env, fields, schema).errors;
    if schema[0].field !in r && schema[1].field !in r {
      forall i | 0 <= i < |schema| ensures schema[i].field !in r {
        assert i == 0 || i == 1;
      }
    }
  }

  lemma NoneRecorded3(env: Env, fields: Fields, schema: Schema)
    requires |schema| == 3
    ensures var r := RunSchema(env, fields, schema).errors;
      r == map[] <==> schema[0].field !in r && schema[1].field !in r && schema[2].field !in r
  {
    NoneRecorded(env, fields, schema);
    var r := RunSchema(env, fields, schema).errors;
    if schema[0].field !in r && schema[1].field !in r && schema[2].field !in r {
      forall i | 0 <= i < |schema| ensures schema[i].field !in r {
        assert i == 0 || i == 1 || i == 2;
      }
    }
  }

  lemma NoneRecorded5(env: Env, fields: Fields, schema: Schema)
    requires |schema| == 5
    ensures var r := RunSchema(env, fields, schema).errors;
      r == map[] <==>
        schema[0].field !in r && schema[1].field !in r && schema[2].field !in r && schema[3].field !in r && schema[4].field !in r
  {
    NoneRecorded(env, fields, schema);
    var r := RunSchema(env, fields, schema).errors;
    if schema[0].field !in r && schema[1].field !in r && schema[2].field !in r && schema[3].field !in r && schema[4].field !in r {
      forall i | 0 <= i < |schema| ensures schema[i].field !in r {
        assert i == 0 || i == 1 || i == 2 || i == 3 || i == 4;
      }
    }
  }

  /** A first chain that starts with `trim` leaves its field trimmed for the chains after it. */
  lemma FirstFieldTrimmed(env: Env, fields: Fields, schema: Schema)
    requires |schema| >= 1 && |schema[0].rules| >= 1 && schema[0].rules[0] == TrimStep
    ensures Get(FieldsBefore(env, fields, schema, 1), schema[0].field) == Trim(Get(fields, schema[0].field))
  {
    var f := schema[0];
    FieldsAfterFirst(env, fields, schema);
    RunFromValue(env, fields, f.message, f.rules, 0, Get(fields, f.field));
    assert f.rules[0..][0] == TrimStep;
    assert Trim("") == "";
  }

  /** `errors.mapped()`: the first error of each failed field. */
  function Mapped(errors: Errors): (m: map<string, string>)
    requires forall k :: k in errors ==> errors[k] != []
    ensures m.Keys == errors.Keys
    ensures forall k :: k in m ==> m[k] == errors[k][0]
  {
    map k | k in errors :: errors[k][0]
  }

  lemma MappedSingle(errors: Errors, name: string, m: string)
    requires forall k :: k in errors ==> errors[k] != []
    requires errors.Keys == {name} && errors[name][0] == m
    ensures Mapped(errors) == map[name := m]
  {
  }

  /** What `validationError` decides: the request goes on with the sanitized fields, or a 400 with the mapped errors. */
  datatype Verdict = Pass(fields: Fields) | Reject(errors: map<string, string>)

  function Decide(env: Env, fields: Fields, schemas: seq<Schema>): (v: Verdict)
    ensures v.Pass? <==> RunAll(env, fields, schemas).errors == map[]
    ensures v.Reject? ==> v.errors != map[]
  {
    var r := RunAll(env, fields, schemas);
    if r.errors == map[] then Pass(r.fields)
    else
      var m := Mapped(r.errors);
      assert exists k :: k in r.errors;
      Reject(m)
  }

  /** Several schemas in one route, in route order (each `checkSchema` call adds its chains). */
  function RunAll(env: Env, fields: Fields, schemas: seq<Schema>): SchemaResult
    ensures forall k :: k in RunAll(env, fields, schemas).errors ==> RunAll(env, fields, schemas).errors[k] != []
  {
    RunSchema(env, fields, Flatten(schemas))
  }

  function Flatten(schemas: seq<Schema>): Schema {
    if schemas == [] then [] else schemas[0] + Flatten(schemas[1..])
  }
}
