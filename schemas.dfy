/**
 * The request schemas of the API, as data for the `Validation` interpreter,
 * and what each of them admits.
 *
 * Each field's chain is proved in three small steps: the rule steps give the
 * recorded errors as one optional message per validator, the validators'
 * outcomes are then spelled out, and a lemma places the field in any schema
 * that holds it, so that the schema-level statements stay cheap.
 */
module Schemas {
  import opened Wrappers
  import opened Text
  import opened UserModel
  import opened BlogModel
  import opened Store
  import opened Validation

  const InvalidCredentials: string := "User email or password is invalid."
  const PasswordMessage: string :=
    "Password must be at least 8 characters long and contain at least one uppercase letter, one lowercase letter, and one number."
  const EmailRequired: string := "Email is required."
  const EmailTooLong: string := "Email must be less than 50 characters."
  const EmailInvalid: string := "Invalid email address."
  const PasswordRequired: string := "Password is required."
  const RoleNotString: string := "Role must be a string."
  const RoleInvalid: string := "Role must be either admin, buyer, or seller."
  const UsernameTooLong: string := "Username must be less than 20 characters."
  const UsernameInUse: string := "This username is already in use."
  const EmailInUse: string := "This email is already in use."
  const FirstNameTooLong: string := "First name must be less than 20 characters."
  const LastNameTooLong: string := "Last name must be less than 20 characters."
  const TokenRequired: string := "Refresh token is required."
  const TokenInvalid: string := "Invalid refresh token."
  const LimitMessage: string := "Limit must be between 1 and 50."
  const OffsetMessage: string := "Offset must be positive integer."
  const TitleRequired: string := "Title is required."
  const TitleTooLong: string := "Title must be less than 180 characters."
  const ContentRequired: string := "Content is required."
  const StatusInvalid: string := "Status must be either draft or published."
  const SlugRequired: string := "Slug is required."

  // ---------------------------------------------------------------- fields

  const RegisterEmail: FieldSchema := FieldSchema("email", false, None, [
    TrimStep,
    Validate(NotEmpty, Some(EmailRequired)),
    Validate(MaxLength(50), Some(EmailTooLong)),
    Validate(IsEmail, Some(EmailInvalid)),
    Validate(CustomCheck(RejectTakenEmail(InvalidCredentials)), None)])

  const LoginEmail: FieldSchema := FieldSchema("email", false, None, [
    TrimStep,
    Validate(NotEmpty, Some(EmailRequired)),
    Validate(MaxLength(50), Some(EmailTooLong)),
    Validate(IsEmail, Some(EmailInvalid)),
    Validate(CustomCheck(RejectUnknownEmail(InvalidCredentials)), None)])

  const RegisterPassword: FieldSchema := FieldSchema("password", false, Some(PasswordMessage), [
    TrimStep,
    Validate(NotEmpty, Some(PasswordRequired)),
    Validate(MinLength(8), None),
    Validate(MatchesPassword, None)])

  const LoginPassword: FieldSchema := FieldSchema("password", false, Some(PasswordMessage), [
    TrimStep,
    Validate(NotEmpty, Some(PasswordRequired)),
    Validate(MinLength(8), None),
    Validate(MatchesPassword, None),
    Validate(CustomCheck(RejectWrongPassword(InvalidCredentials)), None)])

  const RoleField: FieldSchema := FieldSchema("role", true, None, [
    Validate(IsString, Some(RoleNotString)),
    Validate(IsIn(RoleNames), Some(RoleInvalid))])

  const UpdateUsername: FieldSchema := FieldSchema("username", true, None, [
    TrimStep,
    Validate(MaxLength(20), Some(UsernameTooLong)),
    Validate(CustomCheck(RejectTakenUsername(UsernameInUse)), None)])

  const UpdateEmail: FieldSchema := FieldSchema("email", true, None, [
    Validate(MaxLength(50), Some(EmailTooLong)),
    Validate(IsEmail, Some(EmailInvalid)),
    Validate(CustomCheck(RejectTakenEmail(EmailInUse)), None)])

  const UpdatePassword: FieldSchema := FieldSchema("password", true, Some(PasswordMessage), [
    Validate(MinLength(8), None),
    Validate(MatchesPassword, None)])

  const FirstNameField: FieldSchema := FieldSchema("first_name", true, None, [
    Validate(MaxLength(20), Some(FirstNameTooLong))])

  const LastNameField: FieldSchema := FieldSchema("last_name", true, None, [
    Validate(MaxLength(20), Some(LastNameTooLong))])

  const RefreshTokenField: FieldSchema := FieldSchema("refreshToken", false, None, [
    Validate(NotEmpty, Some(TokenRequired)),
    Validate(IsJwt, Some(TokenInvalid))])

  /** `idSchema(field)`: a required ObjectId, with messages naming the field. */
  function IdField(field: string): (f: FieldSchema)
    ensures f.field == field && !f.optional
  {
    FieldSchema(field, false, None, [
      Validate(NotEmpty, Some(field + " is required.")),
      Validate(IsMongoId, Some("Invalid " + field + "."))])
  }

  const LimitField: FieldSchema := FieldSchema("limit", true, None, [
    Validate(IsInt(1, Some(50)), Some(LimitMessage))])

  const OffsetField: FieldSchema := FieldSchema("offset", true, None, [
    Validate(IsInt(0, None), Some(OffsetMessage))])

  const CreateTitle: FieldSchema := FieldSchema("title", false, None, [
    TrimStep,
    Validate(NotEmpty, Some(TitleRequired)),
    Validate(MaxLength(MaxTitleLength), Some(TitleTooLong))])

  /** The content of a new blog or of a comment. */
  const ContentField: FieldSchema := FieldSchema("content", false, None, [
    TrimStep,
    Validate(NotEmpty, Some(ContentRequired))])

  /** The status of a new or updated blog: the message is the field's, the check has none. */
  const StatusField: FieldSchema := FieldSchema("status", true, Some(StatusInvalid), [
    Validate(IsIn(StatusNames), None)])

  const UpdateTitle: FieldSchema := FieldSchema("title", true, None, [
    Validate(MaxLength(MaxTitleLength), Some(TitleTooLong))])

  /** `content: {}`: a chain with no steps. */
  const UpdateContent: FieldSchema := FieldSchema("content", false, None, [])

  const SlugField: FieldSchema := FieldSchema("slug", false, None, [
    Validate(NotEmpty, Some(SlugRequired))])

  // --------------------------------------------------------------- schemas

  const RegisterSchema: Schema := [RegisterEmail, RegisterPassword, RoleField]
  const LoginSchema: Schema := [LoginEmail, LoginPassword]
  const UpdateUserSchema: Schema := [UpdateUsername, UpdateEmail, UpdatePassword, FirstNameField, LastNameField]
  const TokenSchema: Schema := [RefreshTokenField]
  const PaginationSchema: Schema := [LimitField, OffsetField]
  const CreateBlogSchema: Schema := [CreateTitle, ContentField, StatusField]
  const BlogSlugSchema: Schema := [SlugField]
  const UpdateBlogSchema: Schema := [UpdateTitle, UpdateContent, StatusField]
  const CommentSchema: Schema := [ContentField]

  function IdSchema(field: string): (s: Schema)
    ensures |s| == 1 && s[0] == IdField(field)
  {
    [IdField(field)]
  }

  // ------------------------------------------------------- chain outcomes
  //
  // Each `...Chain` lemma gives the errors a field's chain records, as one
  // list per validator in order (written right-nested, which is how the
  // chain builds it).

  /** `User.exists({ email })` as the register and update-user validators use it. */
  lemma TakenEmailThrows(env: Env, fields: Fields, m: string, fm: Option<string>, t: string)
    requires m != ""
    ensures Errs(RuleError(env, fields, CustomCheck(RejectTakenEmail(m)), None, fm, t)) == if Registered(env, t) then [m] else []
  {
    CustomError(env, fields, RejectTakenEmail(m), fm, t);
  }

  /** `User.exists({ email })` as the login validator uses it. */
  lemma UnknownEmailThrows(env: Env, fields: Fields, m: string, fm: Option<string>, t: string)
    requires m != ""
    ensures Errs(RuleError(env, fields, CustomCheck(RejectUnknownEmail(m)), None, fm, t)) == if Registered(env, t) then [] else [m]
  {
    CustomError(env, fields, RejectUnknownEmail(m), fm, t);
  }

  lemma RegisterEmailRules()
    ensures |RegisterEmail.rules| == 5
    ensures RegisterEmail.rules[0] == TrimStep
    ensures RegisterEmail.rules[1] == Validate(NotEmpty, Some(EmailRequired))
    ensures RegisterEmail.rules[2] == Validate(MaxLength(50), Some(EmailTooLong))
    ensures RegisterEmail.rules[3] == Validate(IsEmail, Some(EmailInvalid))
    ensures RegisterEmail.rules[4] == Validate(CustomCheck(RejectTakenEmail(InvalidCredentials)), None)
  {
  }

  lemma RegisterEmailChain(env: Env, fields: Fields, rules: seq<Rule>, v: string)
    requires |rules| == 5
    requires rules[0] == TrimStep
    requires rules[1] == Validate(NotEmpty, Some(EmailRequired))
    requires rules[2] == Validate(MaxLength(50), Some(EmailTooLong))
    requires rules[3] == Validate(IsEmail, Some(EmailInvalid))
    requires rules[4] == Validate(CustomCheck(RejectTakenEmail(InvalidCredentials)), None)
    ensures var t := Trim(v);
      RunRules(env, fields, None, rules, v).errors ==
        (if t == "" then [EmailRequired] else [])
        + ((if ValidatorLength(t) > 50 then [EmailTooLong] else [])
        + ((if !env.isEmail(t) then [EmailInvalid] else [])
        + (if Registered(env, t) then [InvalidCredentials] else [])))
  {
    var t := Trim(v);
    TrimChecks4(env, fields, None, rules, v);
    StandardError(env, fields, NotEmpty, Some(EmailRequired), None, t);
    StandardError(env, fields, MaxLength(50), Some(EmailTooLong), None, t);
    StandardError(env, fields, IsEmail, Some(EmailInvalid), None, t);
    TakenEmailThrows(env, fields, InvalidCredentials, None, t);
  }

  lemma LoginEmailRules()
    ensures |LoginEmail.rules| == 5
    ensures LoginEmail.rules[0] == TrimStep
    ensures LoginEmail.rules[1] == Validate(NotEmpty, Some(EmailRequired))
    ensures LoginEmail.rules[2] == Validate(MaxLength(50), Some(EmailTooLong))
    ensures LoginEmail.rules[3] == Validate(IsEmail, Some(EmailInvalid))
    ensures LoginEmail.rules[4] == Validate(CustomCheck(RejectUnknownEmail(InvalidCredentials)), None)
  {
  }

  lemma LoginEmailChain(env: Env, fields: Fields, rules: seq<Rule>, v: string)
    requires |rules| == 5
    requires rules[0] == TrimStep
    requires rules[1] == Validate(NotEmpty, Some(EmailRequired))
    requires rules[2] == Validate(MaxLength(50), Some(EmailTooLong))
    requires rules[3] == Validate(IsEmail, Some(EmailInvalid))
    requires rules[4] == Validate(CustomCheck(RejectUnknownEmail(InvalidCredentials)), None)
    ensures var t := Trim(v);
      RunRules(env, fields, None, rules, v).errors ==
        (if t == "" then [EmailRequired] else [])
        + ((if ValidatorLength(t) > 50 then [EmailTooLong] else [])
        + ((if !env.isEmail(t) then [EmailInvalid] else [])
        + (if !Registered(env, t) then [InvalidCredentials] else [])))
  {
    var t := Trim(v);
    TrimChecks4(env, fields, None, rules, v);
    StandardError(env, fields, NotEmpty, Some(EmailRequired), None, t);
    StandardError(env, fields, MaxLength(50), Some(EmailTooLong), None, t);
    StandardError(env, fields, IsEmail, Some(EmailInvalid), None, t);
    UnknownEmailThrows(env, fields, InvalidCredentials, None, t);
  }

  /** The user the login password is checked against, and whether bcrypt's compare accepts it. */
  predicate PasswordMatches(env: Env, email: string, password: string) {
    var user := env.userByEmail(email);
    user.Some? && env.compare(password, user.value.password)
  }

  /** The three password checks shared by register and login, on the trimmed text. */
  lemma PasswordChecks(env: Env, fields: Fields, t: string)
    ensures var fm := Some(PasswordMessage);
      && Errs(RuleError(env, fields, NotEmpty, Some(PasswordRequired), fm, t)) == (if t == "" then [PasswordRequired] else [])
      && Errs(RuleError(env, fields, MinLength(8), None, fm, t)) == (if ValidatorLength(t) < 8 then [PasswordMessage] else [])
      && Errs(RuleError(env, fields, MatchesPassword, None, fm, t)) == (if !MatchesPasswordPattern(t) then [PasswordMessage] else [])
  {
    var fm := Some(PasswordMessage);
    StandardError(env, fields, NotEmpty, Some(PasswordRequired), fm, t);
    StandardError(env, fields, MinLength(8), None, fm, t);
    StandardError(env, fields, MatchesPassword, None, fm, t);
  }

  lemma RegisterPasswordRules()
    ensures |RegisterPassword.rules| == 4
    ensures RegisterPassword.rules[0] == TrimStep
    ensures RegisterPassword.rules[1] == Validate(NotEmpty, Some(PasswordRequired))
    ensures RegisterPassword.rules[2] == Validate(MinLength(8), None)
    ensures RegisterPassword.rules[3] == Validate(MatchesPassword, None)
  {
  }

  lemma RegisterPasswordChain(env: Env, fields: Fields, rules: seq<Rule>, v: string)
    requires |rules| == 4
    requires rules[0] == TrimStep
    requires rules[1] == Validate(NotEmpty, Some(PasswordRequired))
    requires rules[2] == Validate(MinLength(8), None)
    requires rules[3] == Validate(MatchesPassword, None)
    ensures var t := Trim(v);
      RunRules(env, fields, Some(PasswordMessage), rules, v).errors ==
        (if t == "" then [PasswordRequired] else [])
        + ((if ValidatorLength(t) < 8 then [PasswordMessage] else [])
        + (if !MatchesPasswordPattern(t) then [PasswordMessage] else []))
  {
    var t := Trim(v);
    TrimChecks3(env, fields, Some(PasswordMessage), rules, v);
    PasswordChecks(env, fields, t);
  }

  lemma LoginPasswordRules()
    ensures |LoginPassword.rules| == 5
    ensures LoginPassword.rules[0] == TrimStep
    ensures LoginPassword.rules[1] == Validate(NotEmpty, Some(PasswordRequired))
    ensures LoginPassword.rules[2] == Validate(MinLength(8), None)
    ensures LoginPassword.rules[3] == Validate(MatchesPassword, None)
    ensures LoginPassword.rules[4] == Validate(CustomCheck(RejectWrongPassword(InvalidCredentials)), None)
  {
  }

  lemma LoginPasswordChain(env: Env, fields: Fields, rules: seq<Rule>, v: string)
    requires |rules| == 5
    requires rules[0] == TrimStep
    requires rules[1] == Validate(NotEmpty, Some(PasswordRequired))
    requires rules[2] == Validate(MinLength(8), None)
    requires rules[3] == Validate(MatchesPassword, None)
    requires rules[4] == Validate(CustomCheck(RejectWrongPassword(InvalidCredentials)), None)
    ensures var t := Trim(v);
      RunRules(env, fields, Some(PasswordMessage), rules, v).errors ==
        (if t == "" then [PasswordRequired] else [])
        + ((if ValidatorLength(t) < 8 then [PasswordMessage] else [])
        + ((if !MatchesPasswordPattern(t) then [PasswordMessage] else [])
        + (if !PasswordMatches(env, Get(fields, "email"), t) then [InvalidCredentials] else [])))
  {
    var t := Trim(v);
    TrimChecks4(env, fields, Some(PasswordMessage), rules, v);
    PasswordChecks(env, fields, t);
    WrongPasswordThrows(env, fields, InvalidCredentials, Some(PasswordMessage), t);
  }

  /** `User.findOne({ email: req.body.email })` and bcrypt's compare, as the login password validator uses them. */
  lemma WrongPasswordThrows(env: Env, fields: Fields, m: string, fm: Option<string>, t: string)
    requires m != ""
    ensures Errs(RuleError(env, fields, CustomCheck(RejectWrongPassword(m)), None, fm, t))
      == if PasswordMatches(env, Get(fields, "email"), t) then [] else [m]
  {
    CustomError(env, fields, RejectWrongPassword(m), fm, t);
  }

  /** The password a register or login request carries is well shaped once trimmed. */
  predicate PasswordShapeOk(p: string) {
    ValidatorLength(Trim(p)) >= 8 && MatchesPasswordPattern(Trim(p))
  }

  lemma RoleFieldRules()
    ensures |RoleField.rules| == 2
    ensures RoleField.rules[0] == Validate(IsString, Some(RoleNotString))
    ensures RoleField.rules[1] == Validate(IsIn(RoleNames), Some(RoleInvalid))
  {
  }

  lemma RoleChain(env: Env, fields: Fields, rules: seq<Rule>, v: string)
    requires |rules| == 2
    requires rules[0] == Validate(IsString, Some(RoleNotString))
    requires rules[1] == Validate(IsIn(RoleNames), Some(RoleInvalid))
    ensures RunRules(env, fields, None, rules, v).errors == if v in RoleNames then [] else [RoleInvalid]
  {
    Checks2(env, fields, None, rules, v);
    StandardError(env, fields, IsString, Some(RoleNotString), None, v);
    StandardError(env, fields, IsIn(RoleNames), Some(RoleInvalid), None, v);
  }

  lemma UpdateUsernameRules()
    ensures |UpdateUsername.rules| == 3
    ensures UpdateUsername.rules[0] == TrimStep
    ensures UpdateUsername.rules[1] == Validate(MaxLength(20), Some(UsernameTooLong))
    ensures UpdateUsername.rules[2] == Validate(CustomCheck(RejectTakenUsername(UsernameInUse)), None)
  {
  }

  lemma UsernameChain(env: Env, fields: Fields, rules: seq<Rule>, v: string)
    requires |rules| == 3
    requires rules[0] == TrimStep
    requires rules[1] == Validate(MaxLength(20), Some(UsernameTooLong))
    requires rules[2] == Validate(CustomCheck(RejectTakenUsername(UsernameInUse)), None)
    ensures var t := Trim(v);
      RunRules(env, fields, None, rules, v).errors ==
        (if ValidatorLength(t) > 20 then [UsernameTooLong] else []) + (if env.usernameTaken(t) then [UsernameInUse] else [])
  {
    var t := Trim(v);
    TrimChecks2(env, fields, None, rules, v);
    StandardError(env, fields, MaxLength(20), Some(UsernameTooLong), None, t);
    CustomError(env, fields, RejectTakenUsername(UsernameInUse), None, t);
  }

  lemma UpdateEmailRules()
    ensures |UpdateEmail.rules| == 3
    ensures UpdateEmail.rules[0] == Validate(MaxLength(50), Some(EmailTooLong))
    ensures UpdateEmail.rules[1] == Validate(IsEmail, Some(EmailInvalid))
    ensures UpdateEmail.rules[2] == Validate(CustomCheck(RejectTakenEmail(EmailInUse)), None)
  {
  }

  lemma UpdateEmailChain(env: Env, fields: Fields, rules: seq<Rule>, v: string)
    requires |rules| == 3
    requires rules[0] == Validate(MaxLength(50), Some(EmailTooLong))
    requires rules[1] == Validate(IsEmail, Some(EmailInvalid))
    requires rules[2] == Validate(CustomCheck(RejectTakenEmail(EmailInUse)), None)
    ensures RunRules(env, fields, None, rules, v).errors ==
      (if ValidatorLength(v) > 50 then [EmailTooLong] else [])
      + ((if !env.isEmail(v) then [EmailInvalid] else [])
      + (if Registered(env, v) then [EmailInUse] else []))
  {
    Checks3(env, fields, None, rules, v);
    StandardError(env, fields, MaxLength(50), Some(EmailTooLong), None, v);
    StandardError(env, fields, IsEmail, Some(EmailInvalid), None, v);
    TakenEmailThrows(env, fields, EmailInUse, None, v);
  }

  lemma UpdatePasswordRules()
    ensures |UpdatePassword.rules| == 2
    ensures UpdatePassword.rules[0] == Validate(MinLength(8), None)
    ensures UpdatePassword.rules[1] == Validate(MatchesPassword, None)
  {
  }

  lemma UpdatePasswordChain(env: Env, fields: Fields, rules: seq<Rule>, v: string)
    requires |rules| == 2
    requires rules[0] == Validate(MinLength(8), None)
    requires rules[1] == Validate(MatchesPassword, None)
    ensures RunRules(env, fields, Some(PasswordMessage), rules, v).errors ==
      (if ValidatorLength(v) < 8 then [PasswordMessage] else []) + (if !MatchesPasswordPattern(v) then [PasswordMessage] else [])
  {
    Checks2(env, fields, Some(PasswordMessage), rules, v);
    PasswordChecks(env, fields, v);
  }

  /** A chain of one standard validator records its message exactly when it rejects. */
  lemma SingleChain(env: Env, fields: Fields, f: FieldSchema, v: string)
    requires |f.rules| == 1 && f.rules[0].Validate? && !f.rules[0].check.CustomCheck?
    ensures RunRules(env, fields, f.message, f.rules, v).errors ==
      if Accepts(env, f.rules[0].check, v) then [] else [f.rules[0].message.GetOr(f.message.GetOr(DefaultMessage))]
  {
    Checks1(env, fields, f.message, f.rules, v);
    StandardError(env, fields, f.rules[0].check, f.rules[0].message, f.message, v);
  }

  lemma TwoChecksChain(env: Env, fields: Fields, f: FieldSchema, v: string)
    requires |f.rules| == 2 && f.rules[0].Validate? && f.rules[1].Validate?
    requires !f.rules[0].check.CustomCheck? && !f.rules[1].check.CustomCheck?
    ensures RunRules(env, fields, f.message, f.rules, v).errors ==
      (if Accepts(env, f.rules[0].check, v) then [] else [f.rules[0].message.GetOr(f.message.GetOr(DefaultMessage))])
      + (if Accepts(env, f.rules[1].check, v) then [] else [f.rules[1].message.GetOr(f.message.GetOr(DefaultMessage))])
  {
    Checks2(env, fields, f.message, f.rules, v);
    StandardError(env, fields, f.rules[0].check, f.rules[0].message, f.message, v);
    StandardError(env, fields, f.rules[1].check, f.rules[1].message, f.message, v);
  }

  lemma CreateTitleRules()
    ensures |CreateTitle.rules| == 3
    ensures CreateTitle.rules[0] == TrimStep
    ensures CreateTitle.rules[1] == Validate(NotEmpty, Some(TitleRequired))
    ensures CreateTitle.rules[2] == Validate(MaxLength(MaxTitleLength), Some(TitleTooLong))
  {
  }

  lemma CreateTitleChain(env: Env, fields: Fields, rules: seq<Rule>, v: string)
    requires |rules| == 3
    requires rules[0] == TrimStep
    requires rules[1] == Validate(NotEmpty, Some(TitleRequired))
    requires rules[2] == Validate(MaxLength(MaxTitleLength), Some(TitleTooLong))
    ensures var t := Trim(v);
      RunRules(env, fields, None, rules, v).errors ==
        (if t == "" then [TitleRequired] else []) + (if ValidatorLength(t) > MaxTitleLength then [TitleTooLong] else [])
  {
    var t := Trim(v);
    TrimChecks2(env, fields, None, rules, v);
    StandardError(env, fields, NotEmpty, Some(TitleRequired), None, t);
    StandardError(env, fields, MaxLength(MaxTitleLength), Some(TitleTooLong), None, t);
  }

  lemma ContentFieldRules()
    ensures |ContentField.rules| == 2
    ensures ContentField.rules[0] == TrimStep
    ensures ContentField.rules[1] == Validate(NotEmpty, Some(ContentRequired))
  {
  }

  lemma ContentChain(env: Env, fields: Fields, rules: seq<Rule>, v: string)
    requires |rules| == 2
    requires rules[0] == TrimStep
    requires rules[1] == Validate(NotEmpty, Some(ContentRequired))
    ensures RunRules(env, fields, None, rules, v).errors == if Trim(v) == "" then [ContentRequired] else []
  {
    var t := Trim(v);
    TrimChecks1(env, fields, None, rules, v);
    StandardError(env, fields, NotEmpty, Some(ContentRequired), None, t);
  }

  // ----------------------------------------------------- fields in schemas
  //
  // Each `...At` lemma places a field in any schema that holds it: the errors
  // recorded under its name are its chain's, on the value the request
  // carried, and none when an optional field is absent.

  lemma RegisterEmailAt(env: Env, fields: Fields, schema: Schema, i: nat)
    requires i < |schema| && DistinctFields(schema) && schema[i] == RegisterEmail
    ensures var t := Trim(Get(fields, "email"));
      ErrorsOf(RunSchema(env, fields, schema).errors, "email") ==
        (if t == "" then [EmailRequired] else [])
        + ((if ValidatorLength(t) > 50 then [EmailTooLong] else [])
        + ((if !env.isEmail(t) then [EmailInvalid] else [])
        + (if Registered(env, t) then [InvalidCredentials] else [])))
  {
    var before := FieldsBefore(env, fields, schema, i);
    RegisterEmailRules();
    RegisterEmailChain(env, before, RegisterEmail.rules, Get(fields, "email"));
    FieldAt(env, fields, schema, i, RunRules(env, before, None, RegisterEmail.rules, Get(fields, "email")).errors);
  }

  lemma LoginEmailAt(env: Env, fields: Fields, schema: Schema, i: nat)
    requires i < |schema| && DistinctFields(schema) && schema[i] == LoginEmail
    ensures var t := Trim(Get(fields, "email"));
      ErrorsOf(RunSchema(env, fields, schema).errors, "email") ==
        (if t == "" then [EmailRequired] else [])
        + ((if ValidatorLength(t) > 50 then [EmailTooLong] else [])
        + ((if !env.isEmail(t) then [EmailInvalid] else [])
        + (if !Registered(env, t) then [InvalidCredentials] else [])))
  {
    var before := FieldsBefore(env, fields, schema, i);
    LoginEmailRules();
    LoginEmailChain(env, before, LoginEmail.rules, Get(fields, "email"));
    FieldAt(env, fields, schema, i, RunRules(env, before, None, LoginEmail.rules, Get(fields, "email")).errors);
  }

  lemma RegisterPasswordAt(env: Env, fields: Fields, schema: Schema, i: nat)
    requires i < |schema| && DistinctFields(schema) && schema[i] == RegisterPassword
    ensures var t := Trim(Get(fields, "password"));
      ErrorsOf(RunSchema(env, fields, schema).errors, "password") ==
        (if t == "" then [PasswordRequired] else [])
        + ((if ValidatorLength(t) < 8 then [PasswordMessage] else [])
        + (if !MatchesPasswordPattern(t) then [PasswordMessage] else []))
  {
    var before := FieldsBefore(env, fields, schema, i);
    RegisterPasswordRules();
    RegisterPasswordChain(env, before, RegisterPassword.rules, Get(fields, "password"));
    FieldAt(env, fields, schema, i, RunRules(env, before, Some(PasswordMessage), RegisterPassword.rules, Get(fields, "password")).errors);
  }

  /** The login password is compared with the user found under the email as the earlier chains left it. */
  lemma LoginPasswordAt(env: Env, fields: Fields, schema: Schema, i: nat)
    requires i < |schema| && DistinctFields(schema) && schema[i] == LoginPassword
    ensures var t := Trim(Get(fields, "password"));
      var email := Get(FieldsBefore(env, fields, schema, i), "email");
      ErrorsOf(RunSchema(env, fields, schema).errors, "password") ==
        (if t == "" then [PasswordRequired] else [])
        + ((if ValidatorLength(t) < 8 then [PasswordMessage] else [])
        + ((if !MatchesPasswordPattern(t) then [PasswordMessage] else [])
        + (if !PasswordMatches(env, email, t) then [InvalidCredentials] else [])))
  {
    var before := FieldsBefore(env, fields, schema, i);
    LoginPasswordRules();
    LoginPasswordChain(env, before, LoginPassword.rules, Get(fields, "password"));
    FieldAt(env, fields, schema, i, RunRules(env, before, Some(PasswordMessage), LoginPassword.rules, Get(fields, "password")).errors);
  }

  /** Every present value is a string here, so only membership can fail. */
  lemma RoleAt(env: Env, fields: Fields, schema: Schema, i: nat)
    requires i < |schema| && DistinctFields(schema) && schema[i] == RoleField
    ensures ErrorsOf(RunSchema(env, fields, schema).errors, "role") ==
      if "role" in fields && Get(fields, "role") !in RoleNames then [RoleInvalid] else []
  {
    var before := FieldsBefore(env, fields, schema, i);
    RoleFieldRules();
    RoleChain(env, before, RoleField.rules, Get(fields, "role"));
    FieldAt(env, fields, schema, i, RunRules(env, before, None, RoleField.rules, Get(fields, "role")).errors);
  }

  /** A sent role passes when it is one of the role names. */
  lemma RoleClear(env: Env, fields: Fields, schema: Schema, i: nat)
    requires i < |schema| && DistinctFields(schema) && schema[i] == RoleField
    ensures "role" !in RunSchema(env, fields, schema).errors <==> ("role" in fields ==> Get(fields, "role") in RoleNames)
  {
    RoleAt(env, fields, schema, i);
    ErrorsOfEmpty(env, fields, schema, "role");
  }

  lemma UsernameAt(env: Env, fields: Fields, schema: Schema, i: nat)
    requires i < |schema| && DistinctFields(schema) && schema[i] == UpdateUsername
    ensures var t := Trim(Get(fields, "username"));
      ErrorsOf(RunSchema(env, fields, schema).errors, "username") ==
        if "username" !in fields then []
        else (if ValidatorLength(t) > 20 then [UsernameTooLong] else []) + (if env.usernameTaken(t) then [UsernameInUse] else [])
  {
    var before := FieldsBefore(env, fields, schema, i);
    UpdateUsernameRules();
    UsernameChain(env, before, UpdateUsername.rules, Get(fields, "username"));
    FieldAt(env, fields, schema, i, RunRules(env, before, None, UpdateUsername.rules, Get(fields, "username")).errors);
  }

  lemma UpdateEmailAt(env: Env, fields: Fields, schema: Schema, i: nat)
    requires i < |schema| && DistinctFields(schema) && schema[i] == UpdateEmail
    ensures var v := Get(fields, "email");
      ErrorsOf(RunSchema(env, fields, schema).errors, "email") ==
        if "email" !in fields then []
        else ((if ValidatorLength(v) > 50 then [EmailTooLong] else [])
          + ((if !env.isEmail(v) then [EmailInvalid] else [])
          + (if Registered(env, v) then [EmailInUse] else [])))
  {
    var before := FieldsBefore(env, fields, schema, i);
    UpdateEmailRules();
    UpdateEmailChain(env, before, UpdateEmail.rules, Get(fields, "email"));
    FieldAt(env, fields, schema, i, RunRules(env, before, None, UpdateEmail.rules, Get(fields, "email")).errors);
  }

  lemma UpdatePasswordAt(env: Env, fields: Fields, schema: Schema, i: nat)
    requires i < |schema| && DistinctFields(schema) && schema[i] == UpdatePassword
    ensures var v := Get(fields, "password");
      ErrorsOf(RunSchema(env, fields, schema).errors, "password") ==
        if "password" !in fields then []
        else (if ValidatorLength(v) < 8 then [PasswordMessage] else []) + (if !MatchesPasswordPattern(v) then [PasswordMessage] else [])
  {
    var before := FieldsBefore(env, fields, schema, i);
    UpdatePasswordRules();
    UpdatePasswordChain(env, before, UpdatePassword.rules, Get(fields, "password"));
    FieldAt(env, fields, schema, i, RunRules(env, before, Some(PasswordMessage), UpdatePassword.rules, Get(fields, "password")).errors);
  }

  /**
   * A field whose chain is one standard validator (names, pagination, the
   * blog status and the update title, the slug): its message exactly when
   * the field is checked and the validator rejects it.
   */
  lemma SingleAt(env: Env, fields: Fields, schema: Schema, i: nat)
    requires i < |schema| && DistinctFields(schema)
    requires |schema[i].rules| == 1 && schema[i].rules[0].Validate? && !schema[i].rules[0].check.CustomCheck?
    ensures var f := schema[i];
      ErrorsOf(RunSchema(env, fields, schema).errors, f.field) ==
        if (f.optional && f.field !in fields) || Accepts(env, f.rules[0].check, Get(fields, f.field)) then []
        else [f.rules[0].message.GetOr(f.message.GetOr(DefaultMessage))]
  {
    var f := schema[i];
    var before := FieldsBefore(env, fields, schema, i);
    SingleChain(env, before, f, Get(fields, f.field));
    FieldAt(env, fields, schema, i, RunRules(env, before, f.message, f.rules, Get(fields, f.field)).errors);
  }

  /** A required field checked by two standard validators (the refresh token, an id). */
  lemma TwoChecksAt(env: Env, fields: Fields, schema: Schema, i: nat)
    requires i < |schema| && DistinctFields(schema) && !schema[i].optional
    requires |schema[i].rules| == 2 && schema[i].rules[0].Validate? && schema[i].rules[1].Validate?
    requires !schema[i].rules[0].check.CustomCheck? && !schema[i].rules[1].check.CustomCheck?
    ensures var f := schema[i];
      var v := Get(fields, f.field);
      ErrorsOf(RunSchema(env, fields, schema).errors, f.field) ==
        (if Accepts(env, f.rules[0].check, v) then [] else [f.rules[0].message.GetOr(f.message.GetOr(DefaultMessage))])
        + (if Accepts(env, f.rules[1].check, v) then [] else [f.rules[1].message.GetOr(f.message.GetOr(DefaultMessage))])
  {
    var f := schema[i];
    var before := FieldsBefore(env, fields, schema, i);
    TwoChecksChain(env, before, f, Get(fields, f.field));
    FieldAt(env, fields, schema, i, RunRules(env, before, f.message, f.rules, Get(fields, f.field)).errors);
  }

  lemma CreateTitleAt(env: Env, fields: Fields, schema: Schema, i: nat)
    requires i < |schema| && DistinctFields(schema) && schema[i] == CreateTitle
    ensures var t := Trim(Get(fields, "title"));
      ErrorsOf(RunSchema(env, fields, schema).errors, "title") ==
        (if t == "" then [TitleRequired] else []) + (if ValidatorLength(t) > MaxTitleLength then [TitleTooLong] else [])
  {
    var before := FieldsBefore(env, fields, schema, i);
    CreateTitleRules();
    CreateTitleChain(env, before, CreateTitle.rules, Get(fields, "title"));
    FieldAt(env, fields, schema, i, RunRules(env, before, None, CreateTitle.rules, Get(fields, "title")).errors);
  }

  lemma ContentAt(env: Env, fields: Fields, schema: Schema, i: nat)
    requires i < |schema| && DistinctFields(schema) && schema[i] == ContentField
    ensures ErrorsOf(RunSchema(env, fields, schema).errors, "content") ==
      if Trim(Get(fields, "content")) == "" then [ContentRequired] else []
  {
    var before := FieldsBefore(env, fields, schema, i);
    ContentFieldRules();
    ContentChain(env, before, ContentField.rules, Get(fields, "content"));
    FieldAt(env, fields, schema, i, RunRules(env, before, None, ContentField.rules, Get(fields, "content")).errors);
  }

  /** `content: {}` checks nothing. */
  lemma UpdateContentAt(env: Env, fields: Fields, schema: Schema, i: nat)
    requires i < |schema| && DistinctFields(schema) && schema[i] == UpdateContent
    ensures ErrorsOf(RunSchema(env, fields, schema).errors, "content") == []
  {
    var before := FieldsBefore(env, fields, schema, i);
    StepEnd(env, before, None, UpdateContent.rules, Get(fields, "content"));
    FieldAt(env, fields, schema, i, RunRules(env, before, None, UpdateContent.rules, Get(fields, "content")).errors);
  }

  // ----------------------------------------------------- what each admits

  /** The trimmed email a register or login request carries is well shaped. */
  predicate EmailShapeOk(env: Env, e: string) {
    e != "" && ValidatorLength(e) <= 50 && env.isEmail(e)
  }

  lemma RegisterShape()
    ensures |RegisterSchema| == 3 && DistinctFields(RegisterSchema)
    ensures RegisterSchema[0] == RegisterEmail && RegisterSchema[1] == RegisterPassword && RegisterSchema[2] == RoleField
  {
  }

  /** The register email records nothing exactly when it is well shaped and not registered yet. */
  lemma RegisterEmailClear(env: Env, fields: Fields, schema: Schema, i: nat)
    requires i < |schema| && DistinctFields(schema) && schema[i] == RegisterEmail
    ensures var e := Trim(Get(fields, "email"));
      "email" !in RunSchema(env, fields, schema).errors <==> EmailShapeOk(env, e) && !Registered(env, e)
  {
    var e := Trim(Get(fields, "email"));
    RegisterEmailAt(env, fields, schema, i);
    ErrorsOfEmpty(env, fields, schema, "email");
    var last := if Registered(env, e) then [InvalidCredentials] else [];
    NoMessages(!env.isEmail(e), EmailInvalid, last);
    NoMessages(ValidatorLength(e) > 50, EmailTooLong, (if !env.isEmail(e) then [EmailInvalid] else []) + last);
    NoMessages(e == "", EmailRequired, (if ValidatorLength(e) > 50 then [EmailTooLong] else []) + ((if !env.isEmail(e) then [EmailInvalid] else []) + last));
  }

  /** The register password records nothing exactly when its trimmed text is well shaped. */
  lemma RegisterPasswordClear(env: Env, fields: Fields, schema: Schema, i: nat)
    requires i < |schema| && DistinctFields(schema) && schema[i] == RegisterPassword
    ensures "password" !in RunSchema(env, fields, schema).errors <==> PasswordShapeOk(Get(fields, "password"))
  {
    var p := Trim(Get(fields, "password"));
    RegisterPasswordAt(env, fields, schema, i);
    ErrorsOfEmpty(env, fields, schema, "password");
    var last := if !MatchesPasswordPattern(p) then [PasswordMessage] else [];
    NoMessages(ValidatorLength(p) < 8, PasswordMessage, last);
    NoMessages(p == "", PasswordRequired, (if ValidatorLength(p) < 8 then [PasswordMessage] else []) + last);
  }

  /**
   * `POST /auth/register` passes validation exactly when the trimmed email is
   * well shaped and not registered yet, the trimmed password is long enough
   * and matches the pattern, and a role, if sent, is one of the three.
   */
  lemma RegisterAccepted(env: Env, fields: Fields)
    ensures var e := Trim(Get(fields, "email"));
      RunSchema(env, fields, RegisterSchema).errors == map[] <==>
        && EmailShapeOk(env, e) && !Registered(env, e)
        && PasswordShapeOk(Get(fields, "password"))
        && ("role" in fields ==> Get(fields, "role") in RoleNames)
  {
    RegisterShape();
    RegisterLikeAccepted(env, fields, RegisterSchema);
  }

  lemma RegisterLikeAccepted(env: Env, fields: Fields, schema: Schema)
    requires |schema| == 3 && DistinctFields(schema)
    requires schema[0] == RegisterEmail && schema[1] == RegisterPassword && schema[2] == RoleField
    ensures var e := Trim(Get(fields, "email"));
      RunSchema(env, fields, schema).errors == map[] <==>
        && EmailShapeOk(env, e) && !Registered(env, e)
        && PasswordShapeOk(Get(fields, "password"))
        && ("role" in fields ==> Get(fields, "role") in RoleNames)
  {
    var r := RunSchema(env, fields, schema).errors;
    RegisterEmailClear(env, fields, schema, 0);
    RegisterPasswordClear(env, fields, schema, 1);
    RoleClear(env, fields, schema, 2);
    NoneRecorded3(env, fields, schema);
  }

  lemma LoginShape()
    ensures |LoginSchema| == 2 && DistinctFields(LoginSchema)
    ensures LoginSchema[0] == LoginEmail && LoginSchema[1] == LoginPassword
  {
  }

  /** The login email records nothing exactly when it is well shaped and registered. */
  lemma LoginEmailClear(env: Env, fields: Fields, schema: Schema, i: nat)
    requires i < |schema| && DistinctFields(schema) && schema[i] == LoginEmail
    ensures var e := Trim(Get(fields, "email"));
      "email" !in RunSchema(env, fields, schema).errors <==> EmailShapeOk(env, e) && Registered(env, e)
  {
    var e := Trim(Get(fields, "email"));
    LoginEmailAt(env, fields, schema, i);
    ErrorsOfEmpty(env, fields, schema, "email");
    var last := if !Registered(env, e) then [InvalidCredentials] else [];
    NoMessages(!env.isEmail(e), EmailInvalid, last);
    NoMessages(ValidatorLength(e) > 50, EmailTooLong, (if !env.isEmail(e) then [EmailInvalid] else []) + last);
    NoMessages(e == "", EmailRequired, (if ValidatorLength(e) > 50 then [EmailTooLong] else []) + ((if !env.isEmail(e) then [EmailInvalid] else []) + last));
  }

  /**
   * `POST /auth/login` passes validation exactly when the trimmed email is
   * well shaped and the trimmed password is well shaped and matches the hash
   * stored for that email.
   */
  lemma LoginAccepted(env: Env, fields: Fields)
    ensures var e := Trim(Get(fields, "email"));
      var p := Get(fields, "password");
      RunSchema(env, fields, LoginSchema).errors == map[] <==>
        EmailShapeOk(env, e) && PasswordShapeOk(p) && PasswordMatches(env, e, Trim(p))
  {
    LoginShape();
    LoginLikeAccepted(env, fields, LoginSchema);
  }

  lemma LoginLikeAccepted(env: Env, fields: Fields, schema: Schema)
    requires |schema| == 2 && DistinctFields(schema) && schema[0] == LoginEmail && schema[1] == LoginPassword
    ensures var e := Trim(Get(fields, "email"));
      var p := Get(fields, "password");
      RunSchema(env, fields, schema).errors == map[] <==>
        EmailShapeOk(env, e) && PasswordShapeOk(p) && PasswordMatches(env, e, Trim(p))
  {
    var r := RunSchema(env, fields, schema).errors;
    var e := Trim(Get(fields, "email"));
    var p := Get(fields, "password");
    LoginEmailClear(env, fields, schema, 0);
    PasswordAfterLoginEmail(env, fields, schema);
    NoneRecorded2(env, fields, schema);
  }

  /** In a schema whose first chain trims the email, the password is checked against the trimmed email. */
  lemma PasswordAfterEmailAt(env: Env, fields: Fields, schema: Schema)
    requires |schema| == 2 && DistinctFields(schema) && schema[0].field == "email" && schema[0].rules != []
    requires schema[0].rules[0] == TrimStep && schema[1] == LoginPassword
    ensures var t := Trim(Get(fields, "password"));
      ErrorsOf(RunSchema(env, fields, schema).errors, "password") ==
        (if t == "" then [PasswordRequired] else [])
        + ((if ValidatorLength(t) < 8 then [PasswordMessage] else [])
        + ((if !MatchesPasswordPattern(t) then [PasswordMessage] else [])
        + (if !PasswordMatches(env, Trim(Get(fields, "email")), t) then [InvalidCredentials] else [])))
  {
    FirstFieldTrimmed(env, fields, schema);
    LoginPasswordAt(env, fields, schema, 1);
  }

  /** ... and it records nothing exactly when it is well shaped and matches the hash stored for that email. */
  lemma PasswordAfterLoginEmail(env: Env, fields: Fields, schema: Schema)
    requires |schema| == 2 && DistinctFields(schema) && schema[0].field == "email" && schema[0].rules != []
    requires schema[0].rules[0] == TrimStep && schema[1] == LoginPassword
    ensures var p := Get(fields, "password");
      "password" !in RunSchema(env, fields, schema).errors <==>
        PasswordShapeOk(p) && PasswordMatches(env, Trim(Get(fields, "email")), Trim(p))
  {
    var p := Trim(Get(fields, "password"));
    PasswordAfterEmailAt(env, fields, schema);
    ErrorsOfEmpty(env, fields, schema, "password");
    var last := if !PasswordMatches(env, Trim(Get(fields, "email")), p) then [InvalidCredentials] else [];
    NoMessages(!MatchesPasswordPattern(p), PasswordMessage, last);
    NoMessages(ValidatorLength(p) < 8, PasswordMessage, (if !MatchesPasswordPattern(p) then [PasswordMessage] else []) + last);
    NoMessages(p == "", PasswordRequired,
      (if ValidatorLength(p) < 8 then [PasswordMessage] else []) + ((if !MatchesPasswordPattern(p) then [PasswordMessage] else []) + last));
  }

  // ------------------------------------- login: a registered email shows

  /**
   * A login with a well-shaped email and password that do not match: the 400
   * response names the email field exactly when no user has that email, so
   * it tells whether an address is registered, although both fields carry
   * the same deliberately vague message.
   */
  lemma LoginTellsAccountsApart(env: Env, fields: Fields)
    requires var e := Trim(Get(fields, "email"));
      var p := Get(fields, "password");
      EmailShapeOk(env, e) && PasswordShapeOk(p) && !PasswordMatches(env, e, Trim(p))
    ensures var r := RunSchema(env, fields, LoginSchema).errors;
      && ("email" in Mapped(r) <==> !Registered(env, Trim(Get(fields, "email"))))
      && "password" in Mapped(r) && Mapped(r)["password"] == InvalidCredentials
  {
    LoginShape();
    LoginEmailAt(env, fields, LoginSchema, 0);
    PasswordAfterEmailAt(env, fields, LoginSchema);
    ErrorsOfEmpty(env, fields, LoginSchema, "email");
    ErrorsOfEmpty(env, fields, LoginSchema, "password");
  }

  /** The login email without the lookup: the password check alone decides whether the credentials are known. */
  const UniformLoginEmail: FieldSchema := FieldSchema("email", false, None, [
    TrimStep,
    Validate(NotEmpty, Some(EmailRequired)),
    Validate(MaxLength(50), Some(EmailTooLong)),
    Validate(IsEmail, Some(EmailInvalid))])

  const UniformLoginSchema: Schema := [UniformLoginEmail, LoginPassword]

  lemma UniformLoginShape()
    ensures |UniformLoginSchema| == 2 && DistinctFields(UniformLoginSchema)
    ensures UniformLoginSchema[0] == UniformLoginEmail && UniformLoginSchema[1] == LoginPassword
  {
  }

  lemma UniformLoginEmailRules()
    ensures |UniformLoginEmail.rules| == 4
    ensures UniformLoginEmail.rules[0] == TrimStep
    ensures UniformLoginEmail.rules[1] == Validate(NotEmpty, Some(EmailRequired))
    ensures UniformLoginEmail.rules[2] == Validate(MaxLength(50), Some(EmailTooLong))
    ensures UniformLoginEmail.rules[3] == Validate(IsEmail, Some(EmailInvalid))
  {
  }

  lemma UniformLoginEmailChain(env: Env, fields: Fields, rules: seq<Rule>, v: string)
    requires |rules| == 4
    requires rules[0] == TrimStep
    requires rules[1] == Validate(NotEmpty, Some(EmailRequired))
    requires rules[2] == Validate(MaxLength(50), Some(EmailTooLong))
    requires rules[3] == Validate(IsEmail, Some(EmailInvalid))
    ensures var t := Trim(v);
      RunRules(env, fields, None, rules, v).errors ==
        (if t == "" then [EmailRequired] else [])
        + ((if ValidatorLength(t) > 50 then [EmailTooLong] else [])
        + (if !env.isEmail(t) then [EmailInvalid] else []))
  {
    var t := Trim(v);
    TrimChecks3(env, fields, None, rules, v);
    StandardError(env, fields, NotEmpty, Some(EmailRequired), None, t);
    StandardError(env, fields, MaxLength(50), Some(EmailTooLong), None, t);
    StandardError(env, fields, IsEmail, Some(EmailInvalid), None, t);
  }

  /** The uniform login email records nothing exactly when it is well shaped. */
  lemma UniformLoginEmailClear(env: Env, fields: Fields, schema: Schema, i: nat)
    requires i < |schema| && DistinctFields(schema) && schema[i] == UniformLoginEmail
    ensures "email" !in RunSchema(env, fields, schema).errors <==> EmailShapeOk(env, Trim(Get(fields, "email")))
  {
    var e := Trim(Get(fields, "email"));
    var before := FieldsBefore(env, fields, schema, i);
    UniformLoginEmailRules();
    UniformLoginEmailChain(env, before, UniformLoginEmail.rules, Get(fields, "email"));
    FieldAt(env, fields, schema, i, RunRules(env, before, None, UniformLoginEmail.rules, Get(fields, "email")).errors);
    ErrorsOfEmpty(env, fields, schema, "email");
    var last := if !env.isEmail(e) then [EmailInvalid] else [];
    NoMessages(ValidatorLength(e) > 50, EmailTooLong, last);
    NoMessages(e == "", EmailRequired, (if ValidatorLength(e) > 50 then [EmailTooLong] else []) + last);
  }

  /** Without the lookup, the same requests pass as with it. */
  lemma UniformLoginAccepted(env: Env, fields: Fields)
    ensures var e := Trim(Get(fields, "email"));
      var p := Get(fields, "password");
      RunSchema(env, fields, UniformLoginSchema).errors == map[] <==>
        EmailShapeOk(env, e) && PasswordShapeOk(p) && PasswordMatches(env, e, Trim(p))
  {
    UniformLoginShape();
    UniformLikeAccepted(env, fields, UniformLoginSchema);
  }

  lemma UniformLikeAccepted(env: Env, fields: Fields, schema: Schema)
    requires |schema| == 2 && DistinctFields(schema) && schema[0] == UniformLoginEmail && schema[1] == LoginPassword
    ensures var e := Trim(Get(fields, "email"));
      var p := Get(fields, "password");
      RunSchema(env, fields, schema).errors == map[] <==>
        EmailShapeOk(env, e) && PasswordShapeOk(p) && PasswordMatches(env, e, Trim(p))
  {
    var r := RunSchema(env, fields, schema).errors;
    UniformLoginEmailClear(env, fields, schema, 0);
    PasswordAfterLoginEmail(env, fields, schema);
    NoneRecorded2(env, fields, schema);
  }

  /**
   * ... and a well-shaped email with a password that does not match gets
   * the same response whether or not the email is registered.
   */
  lemma UniformLoginHidesAccounts(env: Env, fields: Fields)
    requires var e := Trim(Get(fields, "email"));
      var p := Get(fields, "password");
      EmailShapeOk(env, e) && PasswordShapeOk(p) && !PasswordMatches(env, e, Trim(p))
    ensures Mapped(RunSchema(env, fields, UniformLoginSchema).errors) == map["password" := InvalidCredentials]
  {
    UniformLoginShape();
    UniformLikeHides(env, fields, UniformLoginSchema);
  }

  lemma UniformLikeHides(env: Env, fields: Fields, schema: Schema)
    requires |schema| == 2 && DistinctFields(schema) && schema[0] == UniformLoginEmail && schema[1] == LoginPassword
    requires var e := Trim(Get(fields, "email"));
      var p := Get(fields, "password");
      EmailShapeOk(env, e) && PasswordShapeOk(p) && !PasswordMatches(env, e, Trim(p))
    ensures Mapped(RunSchema(env, fields, schema).errors) == map["password" := InvalidCredentials]
  {
    var r := RunSchema(env, fields, schema).errors;
    UniformLikeErrors(env, fields, schema);
    OnlyErrorsFor(env, fields, schema, "password");
    MappedSingle(r, "password", InvalidCredentials);
  }

  lemma UniformLikeErrors(env: Env, fields: Fields, schema: Schema)
    requires |schema| == 2 && DistinctFields(schema) && schema[0] == UniformLoginEmail && schema[1] == LoginPassword
    requires var e := Trim(Get(fields, "email"));
      var p := Get(fields, "password");
      EmailShapeOk(env, e) && PasswordShapeOk(p) && !PasswordMatches(env, e, Trim(p))
    ensures var r := RunSchema(env, fields, schema).errors;
      "email" !in r && "password" in r && r["password"] == [InvalidCredentials]
  {
    UniformLoginEmailClear(env, fields, schema, 0);
    PasswordAfterEmailAt(env, fields, schema);
    ErrorsOfEmpty(env, fields, schema, "password");
  }

  // ------------------------------------------------------------ update user

  lemma UpdateUserShape()
    ensures |UpdateUserSchema| == 5 && DistinctFields(UpdateUserSchema)
    ensures UpdateUserSchema[0] == UpdateUsername && UpdateUserSchema[1] == UpdateEmail
    ensures UpdateUserSchema[2] == UpdatePassword && UpdateUserSchema[3] == FirstNameField
    ensures UpdateUserSchema[4] == LastNameField
  {
  }

  /** A sent username passes when, trimmed, it is short enough and nobody has it yet. */
  lemma UsernameClear(env: Env, fields: Fields, schema: Schema, i: nat)
    requires i < |schema| && DistinctFields(schema) && schema[i] == UpdateUsername
    ensures var t := Trim(Get(fields, "username"));
      "username" !in RunSchema(env, fields, schema).errors <==>
        ("username" in fields ==> ValidatorLength(t) <= 20 && !env.usernameTaken(t))
  {
    var t := Trim(Get(fields, "username"));
    UsernameAt(env, fields, schema, i);
    ErrorsOfEmpty(env, fields, schema, "username");
    NoMessages(ValidatorLength(t) > 20, UsernameTooLong, if env.usernameTaken(t) then [UsernameInUse] else []);
  }

  /** A sent email passes when, as sent, it is short enough, well formed and nobody has it yet. */
  lemma UpdateEmailClear(env: Env, fields: Fields, schema: Schema, i: nat)
    requires i < |schema| && DistinctFields(schema) && schema[i] == UpdateEmail
    ensures var v := Get(fields, "email");
      "email" !in RunSchema(env, fields, schema).errors <==>
        ("email" in fields ==> ValidatorLength(v) <= 50 && env.isEmail(v) && !Registered(env, v))
  {
    var v := Get(fields, "email");
    UpdateEmailAt(env, fields, schema, i);
    ErrorsOfEmpty(env, fields, schema, "email");
    var last := if Registered(env, v) then [EmailInUse] else [];
    NoMessages(!env.isEmail(v), EmailInvalid, last);
    NoMessages(ValidatorLength(v) > 50, EmailTooLong, (if !env.isEmail(v) then [EmailInvalid] else []) + last);
  }

  /** A sent password passes when, as sent, it is long enough and matches the pattern. */
  lemma UpdatePasswordClear(env: Env, fields: Fields, schema: Schema, i: nat)
    requires i < |schema| && DistinctFields(schema) && schema[i] == UpdatePassword
    ensures var v := Get(fields, "password");
      "password" !in RunSchema(env, fields, schema).errors <==>
        ("password" in fields ==> ValidatorLength(v) >= 8 && MatchesPasswordPattern(v))
  {
    var v := Get(fields, "password");
    UpdatePasswordAt(env, fields, schema, i);
    ErrorsOfEmpty(env, fields, schema, "password");
    NoMessages(ValidatorLength(v) < 8, PasswordMessage, if !MatchesPasswordPattern(v) then [PasswordMessage] else []);
  }

  /** A sent first name passes when `isLength` counts at most 20 characters in it. */
  lemma FirstNameClear(env: Env, fields: Fields, schema: Schema, i: nat)
    requires i < |schema| && DistinctFields(schema) && schema[i] == FirstNameField
    ensures "first_name" !in RunSchema(env, fields, schema).errors <==> ("first_name" in fields ==> ValidatorLength(Get(fields, "first_name")) <= 20)
  {
    SingleAt(env, fields, schema, i);
    ErrorsOfEmpty(env, fields, schema, "first_name");
  }

  /** A sent last name passes when `isLength` counts at most 20 characters in it. */
  lemma LastNameClear(env: Env, fields: Fields, schema: Schema, i: nat)
    requires i < |schema| && DistinctFields(schema) && schema[i] == LastNameField
    ensures "last_name" !in RunSchema(env, fields, schema).errors <==> ("last_name" in fields ==> ValidatorLength(Get(fields, "last_name")) <= 20)
  {
    SingleAt(env, fields, schema, i);
    ErrorsOfEmpty(env, fields, schema, "last_name");
  }

  /** What an update of the current user must satisfy, field by field; an absent field always does. */
  predicate UserUpdateOk(env: Env, fields: Fields) {
    var u := Trim(Get(fields, "username"));
    var e := Get(fields, "email");
    var p := Get(fields, "password");
    && ("username" in fields ==> ValidatorLength(u) <= 20 && !env.usernameTaken(u))
    && ("email" in fields ==> ValidatorLength(e) <= 50 && env.isEmail(e) && !Registered(env, e))
    && ("password" in fields ==> ValidatorLength(p) >= 8 && MatchesPasswordPattern(p))
    && ("first_name" in fields ==> ValidatorLength(Get(fields, "first_name")) <= 20)
    && ("last_name" in fields ==> ValidatorLength(Get(fields, "last_name")) <= 20)
  }

  /** `PUT /users/current` passes validation exactly when every sent field is acceptable. */
  lemma UpdateUserAccepted(env: Env, fields: Fields)
    ensures RunSchema(env, fields, UpdateUserSchema).errors == map[] <==> UserUpdateOk(env, fields)
  {
    UpdateUserShape();
    UpdateUserLikeAccepted(env, fields, UpdateUserSchema);
  }

  lemma UpdateUserLikeAccepted(env: Env, fields: Fields, schema: Schema)
    requires |schema| == 5 && DistinctFields(schema)
    requires schema[0] == UpdateUsername && schema[1] == UpdateEmail && schema[2] == UpdatePassword
    requires schema[3] == FirstNameField && schema[4] == LastNameField
    ensures RunSchema(env, fields, schema).errors == map[] <==> UserUpdateOk(env, fields)
  {
    var r := RunSchema(env, fields, schema).errors;
    UsernameClear(env, fields, schema, 0);
    UpdateEmailClear(env, fields, schema, 1);
    UpdatePasswordClear(env, fields, schema, 2);
    FirstNameClear(env, fields, schema, 3);
    LastNameClear(env, fields, schema, 4);
    NoneRecorded5(env, fields, schema);
  }

  /**
   * The email check asks whether ANY user has the address, so sending one's
   * own current email back is refused as in use.
   */
  lemma UpdateUserRefusesOwnEmail(s: Snapshot, isEmail: string -> bool, isJwt: string -> bool, isMongoId: string -> bool,
                                  compare: (string, string) -> bool, fields: Fields, me: User)
    requires me in s.users && "email" in fields && fields["email"] == me.email
    ensures RunSchema(StoreEnv(s, isEmail, isJwt, isMongoId, compare), fields, UpdateUserSchema).errors != map[]
  {
    var env := StoreEnv(s, isEmail, isJwt, isMongoId, compare);
    UpdateUserAccepted(env, fields);
    var k :| 0 <= k < |s.users| && s.users[k] == me;
    assert EmailTaken(s, me.email);
  }

  // ------------------------------------------------------- tokens and ids

  /** The refresh token and every id: required, then the format check. */
  lemma RequiredFormatClear(env: Env, fields: Fields, schema: Schema, i: nat)
    requires i < |schema| && DistinctFields(schema) && !schema[i].optional
    requires |schema[i].rules| == 2 && schema[i].rules[0].Validate? && schema[i].rules[0].check == NotEmpty
    requires schema[i].rules[1].Validate? && !schema[i].rules[1].check.CustomCheck?
    ensures var v := Get(fields, schema[i].field);
      schema[i].field !in RunSchema(env, fields, schema).errors <==> v != "" && Accepts(env, schema[i].rules[1].check, v)
  {
    var f := schema[i];
    var v := Get(fields, f.field);
    TwoChecksAt(env, fields, schema, i);
    ErrorsOfEmpty(env, fields, schema, f.field);
    NoMessages(v == "", f.rules[0].message.GetOr(f.message.GetOr(DefaultMessage)),
      if Accepts(env, f.rules[1].check, v) then [] else [f.rules[1].message.GetOr(f.message.GetOr(DefaultMessage))]);
  }

  /** `POST /auth/refresh-token` passes validation exactly when the token is present and JWT-shaped. */
  lemma TokenAccepted(env: Env, fields: Fields)
    ensures var v := Get(fields, "refreshToken");
      RunSchema(env, fields, TokenSchema).errors == map[] <==> v != "" && env.isJwt(v)
  {
    assert |TokenSchema| == 1 && DistinctFields(TokenSchema) && TokenSchema[0] == RefreshTokenField;
    RequiredFormatClear(env, fields, TokenSchema, 0);
    NoneRecorded(env, fields, TokenSchema);
  }

  /** `idSchema(field)` passes exactly when the id is present and an ObjectId. */
  lemma IdAccepted(env: Env, fields: Fields, field: string)
    ensures var v := Get(fields, field);
      RunSchema(env, fields, IdSchema(field)).errors == map[] <==> v != "" && env.isMongoId(v)
  {
    var schema := IdSchema(field);
    assert DistinctFields(schema);
    RequiredFormatClear(env, fields, schema, 0);
    NoneRecorded(env, fields, schema);
  }

  /** `idSchema('blogId')` reports "blogId is required." for a missing id and "Invalid blogId." for a malformed one. */
  lemma IdMessages(env: Env, fields: Fields, field: string)
    ensures var v := Get(fields, field);
      ErrorsOf(RunSchema(env, fields, IdSchema(field)).errors, field) ==
        (if v == "" then [field + " is required."] else []) + (if env.isMongoId(v) then [] else ["Invalid " + field + "."])
  {
    var schema := IdSchema(field);
    assert DistinctFields(schema);
    TwoChecksAt(env, fields, schema, 0);
  }

  // ------------------------------------------------------------ pagination

  /** A sent limit passes when it is an integer from 1 to 50. */
  lemma LimitClear(env: Env, fields: Fields, schema: Schema, i: nat)
    requires i < |schema| && DistinctFields(schema) && schema[i] == LimitField
    ensures "limit" !in RunSchema(env, fields, schema).errors <==> ("limit" in fields ==> IntInRange(Get(fields, "limit"), 1, Some(50)))
  {
    SingleAt(env, fields, schema, i);
    ErrorsOfEmpty(env, fields, schema, "limit");
  }

  /** A sent offset passes when it is a non-negative integer. */
  lemma OffsetClear(env: Env, fields: Fields, schema: Schema, i: nat)
    requires i < |schema| && DistinctFields(schema) && schema[i] == OffsetField
    ensures "offset" !in RunSchema(env, fields, schema).errors <==> ("offset" in fields ==> IntInRange(Get(fields, "offset"), 0, None))
  {
    SingleAt(env, fields, schema, i);
    ErrorsOfEmpty(env, fields, schema, "offset");
  }

  lemma PaginationShape()
    ensures |PaginationSchema| == 2 && DistinctFields(PaginationSchema)
    ensures PaginationSchema[0] == LimitField && PaginationSchema[1] == OffsetField
  {
  }

  /** The listing routes pass validation exactly when a sent limit and offset are integers in range. */
  lemma PaginationAccepted(env: Env, fields: Fields)
    ensures RunSchema(env, fields, PaginationSchema).errors == map[] <==>
      && ("limit" in fields ==> IntInRange(Get(fields, "limit"), 1, Some(50)))
      && ("offset" in fields ==> IntInRange(Get(fields, "offset"), 0, None))
  {
    var r := RunSchema(env, fields, PaginationSchema).errors;
    PaginationShape();
    LimitClear(env, fields, PaginationSchema, 0);
    OffsetClear(env, fields, PaginationSchema, 1);
    NoneRecorded2(env, fields, PaginationSchema);
  }

  // ------------------------------------------------------------------ blogs

  lemma CreateTitleClear(env: Env, fields: Fields, schema: Schema, i: nat)
    requires i < |schema| && DistinctFields(schema) && schema[i] == CreateTitle
    ensures var t := Trim(Get(fields, "title"));
      "title" !in RunSchema(env, fields, schema).errors <==> t != "" && ValidatorLength(t) <= MaxTitleLength
  {
    var t := Trim(Get(fields, "title"));
    CreateTitleAt(env, fields, schema, i);
    ErrorsOfEmpty(env, fields, schema, "title");
    NoMessages(t == "", TitleRequired, if ValidatorLength(t) > MaxTitleLength then [TitleTooLong] else []);
  }

  /**
   * The schema's `isLength` and the model's `maxLength` measure a title
   * differently, so a title the schema lets through can still fail the
   * save: a hundred U+1F600 characters are 200 UTF-16 units, and 180
   * letters with a trailing U+FE0F are 181.
   */
  lemma TitleMeasuresDisagree(f: BlogFields)
    requires f.title == Repeat('\U{1F600}', 100) || f.title == Repeat('a', 180) + "\U{FE0F}"
    ensures f.title != "" && ValidatorLength(f.title) <= MaxTitleLength
    ensures !BlogConforms(f)
  {
    if f.title == Repeat('\U{1F600}', 100) {
      AstralRunLengths('\U{1F600}', 100);
    } else {
      PlainLengths(Repeat('a', 180));
      LengthsAppend(Repeat('a', 180), "\U{FE0F}");
      assert ValidatorLength("\U{FE0F}") == 0 && Utf16Length("\U{FE0F}") == 1;
    }
  }

  lemma ContentClear(env: Env, fields: Fields, schema: Schema, i: nat)
    requires i < |schema| && DistinctFields(schema) && schema[i] == ContentField
    ensures "content" !in RunSchema(env, fields, schema).errors <==> Trim(Get(fields, "content")) != ""
  {
    ContentAt(env, fields, schema, i);
    ErrorsOfEmpty(env, fields, schema, "content");
  }

  /** A sent status passes when it is `draft` or `published`. */
  lemma StatusClear(env: Env, fields: Fields, schema: Schema, i: nat)
    requires i < |schema| && DistinctFields(schema) && schema[i] == StatusField
    ensures "status" !in RunSchema(env, fields, schema).errors <==> ("status" in fields ==> Get(fields, "status") in StatusNames)
  {
    SingleAt(env, fields, schema, i);
    ErrorsOfEmpty(env, fields, schema, "status");
  }

  /** A sent title of an update passes when `isLength` counts at most 180 characters in it (it is not trimmed). */
  lemma UpdateTitleClear(env: Env, fields: Fields, schema: Schema, i: nat)
    requires i < |schema| && DistinctFields(schema) && schema[i] == UpdateTitle
    ensures "title" !in RunSchema(env, fields, schema).errors <==> ("title" in fields ==> ValidatorLength(Get(fields, "title")) <= MaxTitleLength)
  {
    SingleAt(env, fields, schema, i);
    ErrorsOfEmpty(env, fields, schema, "title");
  }

  /** The slug must be present. */
  lemma SlugClear(env: Env, fields: Fields, schema: Schema, i: nat)
    requires i < |schema| && DistinctFields(schema) && schema[i] == SlugField
    ensures "slug" !in RunSchema(env, fields, schema).errors <==> Get(fields, "slug") != ""
  {
    SingleAt(env, fields, schema, i);
    ErrorsOfEmpty(env, fields, schema, "slug");
  }

  lemma CreateBlogShape()
    ensures |CreateBlogSchema| == 3 && DistinctFields(CreateBlogSchema)
    ensures CreateBlogSchema[0] == CreateTitle && CreateBlogSchema[1] == ContentField && CreateBlogSchema[2] == StatusField
  {
  }

  /**
   * `POST /blogs` passes validation exactly when the trimmed title is
   * non-empty and at most 180 characters, the trimmed content is non-empty
   * and a sent status is `draft` or `published`.
   */
  lemma CreateBlogAccepted(env: Env, fields: Fields)
    ensures var t := Trim(Get(fields, "title"));
      RunSchema(env, fields, CreateBlogSchema).errors == map[] <==>
        && t != "" && ValidatorLength(t) <= MaxTitleLength
        && Trim(Get(fields, "content")) != ""
        && ("status" in fields ==> Get(fields, "status") in StatusNames)
  {
    CreateBlogShape();
    CreateBlogLikeAccepted(env, fields, CreateBlogSchema);
  }

  lemma CreateBlogLikeAccepted(env: Env, fields: Fields, schema: Schema)
    requires |schema| == 3 && DistinctFields(schema)
    requires schema[0] == CreateTitle && schema[1] == ContentField && schema[2] == StatusField
    ensures var t := Trim(Get(fields, "title"));
      RunSchema(env, fields, schema).errors == map[] <==>
        && t != "" && ValidatorLength(t) <= MaxTitleLength
        && Trim(Get(fields, "content")) != ""
        && ("status" in fields ==> Get(fields, "status") in StatusNames)
  {
    var r := RunSchema(env, fields, schema).errors;
    CreateTitleClear(env, fields, schema, 0);
    ContentClear(env, fields, schema, 1);
    StatusClear(env, fields, schema, 2);
    NoneRecorded3(env, fields, schema);
  }

  lemma UpdateBlogShape()
    ensures |UpdateBlogSchema| == 3 && DistinctFields(UpdateBlogSchema)
    ensures UpdateBlogSchema[0] == UpdateTitle && UpdateBlogSchema[1] == UpdateContent && UpdateBlogSchema[2] == StatusField
  {
  }

  /** `PUT /blogs/:blogId` passes validation exactly when a sent title fits and a sent status is valid; content is unchecked. */
  lemma UpdateBlogAccepted(env: Env, fields: Fields)
    ensures RunSchema(env, fields, UpdateBlogSchema).errors == map[] <==>
      && ("title" in fields ==> ValidatorLength(Get(fields, "title")) <= MaxTitleLength)
      && ("status" in fields ==> Get(fields, "status") in StatusNames)
  {
    UpdateBlogShape();
    UpdateBlogLikeAccepted(env, fields, UpdateBlogSchema);
  }

  lemma UpdateBlogLikeAccepted(env: Env, fields: Fields, schema: Schema)
    requires |schema| == 3 && DistinctFields(schema)
    requires schema[0] == UpdateTitle && schema[1] == UpdateContent && schema[2] == StatusField
    ensures RunSchema(env, fields, schema).errors == map[] <==>
      && ("title" in fields ==> ValidatorLength(Get(fields, "title")) <= MaxTitleLength)
      && ("status" in fields ==> Get(fields, "status") in StatusNames)
  {
    var r := RunSchema(env, fields, schema).errors;
    UpdateTitleClear(env, fields, schema, 0);
    UpdateContentAt(env, fields, schema, 1);
    ErrorsOfEmpty(env, fields, schema, "content");
    StatusClear(env, fields, schema, 2);
    NoneRecorded3(env, fields, schema);
  }

  /** `GET /blogs/:slug` passes validation exactly when a slug is given. */
  lemma BlogSlugAccepted(env: Env, fields: Fields)
    ensures RunSchema(env, fields, BlogSlugSchema).errors == map[] <==> Get(fields, "slug") != ""
  {
    assert |BlogSlugSchema| == 1 && DistinctFields(BlogSlugSchema) && BlogSlugSchema[0] == SlugField;
    SlugClear(env, fields, BlogSlugSchema, 0);
    NoneRecorded(env, fields, BlogSlugSchema);
  }

  /** A comment passes validation exactly when its trimmed content is non-empty. */
  lemma CommentAccepted(env: Env, fields: Fields)
    ensures RunSchema(env, fields, CommentSchema).errors == map[] <==> Trim(Get(fields, "content")) != ""
  {
    assert |CommentSchema| == 1 && DistinctFields(CommentSchema) && CommentSchema[0] == ContentField;
    ContentClear(env, fields, CommentSchema, 0);
    NoneRecorded(env, fields, CommentSchema);
  }
}
