/** The validation engine: rule trees whose results are arrays of a size fixed by the tree. */
module Validation {
  import opened Wrappers

  datatype ValidationError = ValidationError(field: string, message: string)

  /** A rule over values of type V. A leaf checks one condition; its check already reads the member
      that the leaf is about. */
  datatype Rule<!V> =
    | Leaf(check: V -> bool, message: string)
    | TrueRule
    | And(left: Rule<V>, right: Rule<V>)
    | Bound(field: string, rule: Rule<V>)
  {
    /** The compile-time capacity of the rule's result. */
    function Capacity(): nat {
      match this
      case Leaf(_, _) => 1
      case TrueRule => 0
      case And(l, r) => l.Capacity() + r.Capacity()
      case Bound(_, r) => r.Capacity()
    }

    /** The leaves from left to right, each with the field of its outermost binding. */
    function Leaves(field: Option<string>): seq<(string, V -> bool, string)> {
      match this
      case Leaf(check, message) => [(if field.Some? then field.value else "", check, message)]
      case TrueRule => []
      case And(l, r) => l.Leaves(field) + r.Leaves(field)
      case Bound(name, r) => r.Leaves(if field.Some? then field else Some(name))
    }
  }

  /** The errors of the leaves that fail, in order. */
  function Failing<V>(leaves: seq<(string, V -> bool, string)>, value: V): seq<ValidationError> {
    if leaves == [] then []
    else (if leaves[0].1(value) then [] else [ValidationError(leaves[0].0, leaves[0].2)]) + Failing(leaves[1..], value)
  }

  /** A fixed array of errors and how many of its slots are used. */
  class ValidationResult {
    const errors: array<ValidationError>
    var count: nat

    ghost predicate Valid()
      reads this
    {
      count <= errors.Length
    }

    ghost function Errors(): seq<ValidationError>
      requires Valid()
      reads this, errors
    {
      errors[..count]
    }

    constructor (maxErrors: nat)
      ensures Valid() && Errors() == [] && errors.Length == maxErrors && fresh(errors)
    {
      errors := new ValidationError[maxErrors](_ => ValidationError("", ""));
      count := 0;
    }

    predicate Ok()
      reads this
    {
      count == 0
    }

    /** An error beyond the capacity is ignored. */
    method AddError(error: ValidationError)
      requires Valid()
      modifies this`count, errors
      ensures Valid()
      ensures Errors() == if old(count) < errors.Length then old(Errors()) + [error] else old(Errors())
    {
      if count < errors.Length {
        errors[count] := error;
        count := count + 1;
      }
    }
  }

  /** WriteAppliedRuleErrors: appends one result to another; with room for all, none is lost. */
  method WriteAppliedRuleErrors(final: ValidationResult, applied: ValidationResult)
    requires final.Valid() && applied.Valid() && final != applied && final.errors != applied.errors
    requires final.count + applied.count <= final.errors.Length
    modifies final`count, final.errors
    ensures final.Valid() && final.Errors() == old(final.Errors()) + applied.Errors()
  {
    for i := 0 to applied.count
      invariant final.Valid() && final.count == old(final.count) + i
      invariant final.Errors() == old(final.Errors()) + applied.errors[..i]
    {
      final.AddError(applied.errors[i]);
    }
  }

  /** What applying the rule reports: And concatenates, Bound overwrites every field. */
  function Reported<V>(rule: Rule<V>, value: V): seq<ValidationError> {
    match rule
    case Leaf(check, message) => if check(value) then [] else [ValidationError("", message)]
    case TrueRule => []
    case And(l, r) => Reported(l, value) + Reported(r, value)
    case Bound(field, r) => Renamed(Reported(r, value), field)
  }

  function Renamed(errors: seq<ValidationError>, field: string): seq<ValidationError> {
    seq(|errors|, i requires 0 <= i < |errors| => errors[i].(field := field))
  }

  /** The fixed capacity is always enough. */
  lemma {:induction false} CapacitySuffices<V>(rule: Rule<V>, value: V)
    ensures |Reported(rule, value)| <= rule.Capacity()
    decreases rule
  {
    match rule
    case And(l, r) => CapacitySuffices(l, value); CapacitySuffices(r, value);
    case Bound(_, r) => CapacitySuffices(r, value);
    case _ =>
  }

  /** A fresh result with room for both, and the errors of both in it. */
  method Combine(left: ValidationResult, right: ValidationResult) returns (result: ValidationResult)
    requires left.Valid() && right.Valid()
    ensures result.Valid() && fresh(result) && fresh(result.errors)
    ensures result.errors.Length == left.errors.Length + right.errors.Length
    ensures result.Errors() == left.Errors() + right.Errors()
  {
    result := new ValidationResult(left.errors.Length + right.errors.Length);
    WriteAppliedRuleErrors(result, left);
    WriteAppliedRuleErrors(result, right);
  }

  /** The loop of a field binding, over the errors that the inner rule left in the result. */
  method RenameFields(result: ValidationResult, field: string)
    requires result.Valid()
    modifies result.errors
    ensures result.Valid() && result.Errors() == Renamed(old(result.Errors()), field)
  {
    for i := 0 to result.count
      invariant result.Valid()
      invariant result.errors[..i] == Renamed(old(result.Errors()), field)[..i]
      invariant result.errors[i..result.count] == old(result.Errors())[i..]
    {
      assert result.errors[i] == old(result.Errors())[i];
      result.errors[i] := result.errors[i].(field := field);
    }
  }

  /** Applying a rule to a value: the result object holds what the rule reports, in an array of
      exactly the rule's capacity. */
  method Apply<V>(rule: Rule<V>, value: V) returns (result: ValidationResult)
    ensures result.Valid() && fresh(result) && fresh(result.errors)
    ensures result.errors.Length == rule.Capacity()
    ensures result.Errors() == Reported(rule, value)
    decreases rule
  {
    match rule
    case Leaf(check, message) =>
      result := new ValidationResult(1);
      if !check(value) {
        result.AddError(ValidationError("", message));
      }
    case TrueRule =>
      result := new ValidationResult(0);
    case And(left, right) =>
      var leftResult := Apply(left, value);
      var rightResult := Apply(right, value);
      result := Combine(leftResult, rightResult);
    case Bound(field, inner) =>
      result := Apply(inner, value);
      RenameFields(result, field);
  }

  lemma {:induction false} FailingConcat<V>(a: seq<(string, V -> bool, string)>, b: seq<(string, V -> bool, string)>, value: V)
    ensures Failing(a + b, value) == Failing(a, value) + Failing(b, value)
    decreases |a|
  {
    if a == [] {
      assert a + b == b;
    } else {
      assert (a + b)[1..] == a[1..] + b;
      FailingConcat(a[1..], b, value);
    }
  }

  lemma {:induction false} ReportedLeaves<V>(rule: Rule<V>, value: V, field: string)
    ensures Failing(rule.Leaves(Some(field)), value) == Renamed(Reported(rule, value), field)
    decreases rule
  {
    match rule
    case Leaf(check, message) =>
      assert rule.Leaves(Some(field))[1..] == [];
    case TrueRule =>
    case And(l, r) =>
      ReportedLeaves(l, value, field);
      ReportedLeaves(r, value, field);
      FailingConcat(l.Leaves(Some(field)), r.Leaves(Some(field)), value);
    case Bound(name, r) =>
      ReportedLeaves(r, value, field);
  }

  /** The errors are exactly the failing leaves, from left to right, under the name of the
      outermost field binding around each. */
  lemma {:induction false} ErrorsAreTheFailingLeaves<V>(rule: Rule<V>, value: V)
    ensures Reported(rule, value) == Failing(rule.Leaves(None), value)
    decreases rule
  {
    match rule
    case Leaf(check, message) =>
      assert rule.Leaves(None)[1..] == [];
    case TrueRule =>
    case And(l, r) =>
      ErrorsAreTheFailingLeaves(l, value);
      ErrorsAreTheFailingLeaves(r, value);
      FailingConcat(l.Leaves(None), r.Leaves(None), value);
    case Bound(name, r) =>
      ReportedLeaves(r, value, name);
  }

  /** A value passes exactly when every leaf does. */
  lemma {:induction false} OkExactlyWhenAllPass<V>(rule: Rule<V>, value: V)
    ensures Reported(rule, value) == [] <==> forall leaf :: leaf in rule.Leaves(None) ==> leaf.1(value)
  {
    ErrorsAreTheFailingLeaves(rule, value);
    NothingFails(rule.Leaves(None), value);
  }

  lemma {:induction false} NothingFails<V>(leaves: seq<(string, V -> bool, string)>, value: V)
    ensures Failing(leaves, value) == [] <==> forall leaf :: leaf in leaves ==> leaf.1(value)
    decreases |leaves|
  {
    if leaves != [] {
      NothingFails(leaves[1..], value);
      assert leaves == [leaves[0]] + leaves[1..];
    }
  }

  /** SessionParams, as far as its validator looks at it. Zero is the clock's epoch. */
  datatype SessionParams = SessionParams(token: string, expiresAt: int, createdAt: int)

  const MIN_TOKEN_LENGTH: nat := 32
  const SESSION_MAX_ERRORS: nat := 5

  function TokenRule(): Rule<SessionParams> {
    Bound("token", And(Leaf((p: SessionParams) => p.token != "", "Must not be empty"),
                       Leaf((p: SessionParams) => |p.token| >= MIN_TOKEN_LENGTH, "Is too short")))
  }

  function ExpiresAtRule(): Rule<SessionParams> {
    Bound("expires_at", Leaf((p: SessionParams) => p.expiresAt != 0, "Has to be set to a concrete time point"))
  }

  function CreatedAtRule(expiresAt: int): Rule<SessionParams> {
    Bound("created_at", And(Leaf((p: SessionParams) => p.createdAt != 0, "Has to be set to a concrete time point"),
                            Leaf((p: SessionParams) => p.createdAt <= expiresAt, "Must be less than or equal to the threshold")))
  }

  function SessionRules(expiresAt: int): Rule<SessionParams> {
    And(And(TokenRule(), ExpiresAtRule()), CreatedAtRule(expiresAt))
  }

  /** One error if something is wrong. */
  function Problem(wrong: bool, field: string, message: string): seq<ValidationError> {
    if wrong then [ValidationError(field, message)] else []
  }

  /** The errors of a session, spelled out. */
  function SessionErrors(p: SessionParams): seq<ValidationError> {
    Problem(p.token == "", "token", "Must not be empty")
    + Problem(|p.token| < 32, "token", "Is too short")
    + Problem(p.expiresAt == 0, "expires_at", "Has to be set to a concrete time point")
    + Problem(p.createdAt == 0, "created_at", "Has to be set to a concrete time point")
    + Problem(p.createdAt > p.expiresAt, "created_at", "Must be less than or equal to the threshold")
  }

  lemma BoundLeaf<V>(field: string, check: V -> bool, message: string, value: V)
    ensures Reported(Bound(field, Leaf(check, message)), value) == Problem(!check(value), field, message)
  {
    assert Reported(Leaf(check, message), value) == Problem(!check(value), "", message);
  }

  lemma BoundAnd<V>(field: string, l: Rule<V>, r: Rule<V>, value: V)
    ensures Reported(Bound(field, And(l, r)), value) == Reported(Bound(field, l), value) + Reported(Bound(field, r), value)
  {
  }

  lemma TokenErrors(p: SessionParams)
    ensures Reported(TokenRule(), p) == Problem(p.token == "", "token", "Must not be empty") + Problem(|p.token| < 32, "token", "Is too short")
  {
    BoundAnd("token", TokenRule().rule.left, TokenRule().rule.right, p);
    BoundLeaf("token", TokenRule().rule.left.check, "Must not be empty", p);
    BoundLeaf("token", TokenRule().rule.right.check, "Is too short", p);
  }

  lemma SessionErrorsExactly(p: SessionParams)
    ensures Reported(SessionRules(p.expiresAt), p) == SessionErrors(p)
  {
    TokenErrors(p);
    var expires, created := ExpiresAtRule(), CreatedAtRule(p.expiresAt);
    BoundLeaf("expires_at", expires.rule.check, "Has to be set to a concrete time point", p);
    BoundAnd("created_at", created.rule.left, created.rule.right, p);
    BoundLeaf("created_at", created.rule.left.check, "Has to be set to a concrete time point", p);
    BoundLeaf("created_at", created.rule.right.check, "Must be less than or equal to the threshold", p);
  }

  method ValidateSession(params: SessionParams) returns (result: ValidationResult)
    ensures result.Valid() && result.errors.Length == SESSION_MAX_ERRORS
    ensures result.Ok() <==> |params.token| >= MIN_TOKEN_LENGTH && params.expiresAt != 0 && params.createdAt != 0
                             && params.createdAt <= params.expiresAt
    ensures result.Errors() == SessionErrors(params)
  {
    SessionErrorsExactly(params);
    result := Apply(SessionRules(params.expiresAt), params);
  }

  /** UserParams, as far as its validator looks at it. */
  datatype UserParams = UserParams(login: string, passwordHash: string, publicKey: string, createdAt: int)

  const MIN_LOGIN_LENGTH: nat := 3
  const MAX_LOGIN_LENGTH: nat := 32
  const USER_MAX_ERRORS: nat := 6

  function LoginRule(): Rule<UserParams> {
    Bound("login", And(And(Leaf((p: UserParams) => p.login != "", "Must not be empty"),
                           Leaf((p: UserParams) => |p.login| >= MIN_LOGIN_LENGTH, "Is too short")),
                       Leaf((p: UserParams) => |p.login| <= MAX_LOGIN_LENGTH, "Is too long")))
  }

  function PasswordHashRule(): Rule<UserParams> {
    Bound("password_hash", Leaf((p: UserParams) => p.passwordHash != "", "Must not be empty"))
  }

  function PublicKeyRule(): Rule<UserParams> {
    Bound("public_key", Leaf((p: UserParams) => p.publicKey != "", "Must not be empty"))
  }

  function UserCreatedAtRule(): Rule<UserParams> {
    Bound("created_at", Leaf((p: UserParams) => p.createdAt != 0, "Has to be set to a concrete time point"))
  }

  function UserRules(): Rule<UserParams> {
    And(And(And(LoginRule(), PasswordHashRule()), PublicKeyRule()), UserCreatedAtRule())
  }

  /** The errors of a user, spelled out. */
  function UserErrors(p: UserParams): seq<ValidationError> {
    Problem(p.login == "", "login", "Must not be empty")
    + Problem(|p.login| < 3, "login", "Is too short")
    + Problem(|p.login| > 32, "login", "Is too long")
    + Problem(p.passwordHash == "", "password_hash", "Must not be empty")
    + Problem(p.publicKey == "", "public_key", "Must not be empty")
    + Problem(p.createdAt == 0, "created_at", "Has to be set to a concrete time point")
  }

  lemma UserErrorsExactly(p: UserParams)
    ensures Reported(UserRules(), p) == UserErrors(p)
  {
    LoginErrors(p);
    BoundLeaf("password_hash", PasswordHashRule().rule.check, "Must not be empty", p);
    BoundLeaf("public_key", PublicKeyRule().rule.check, "Must not be empty", p);
    BoundLeaf("created_at", UserCreatedAtRule().rule.check, "Has to be set to a concrete time point", p);
  }

  lemma LoginErrors(p: UserParams)
    ensures Reported(LoginRule(), p) == Problem(p.login == "", "login", "Must not be empty") + Problem(|p.login| < 3, "login", "Is too short")
                                        + Problem(|p.login| > 32, "login", "Is too long")
  {
    var lengths, long := LoginRule().rule.left, LoginRule().rule.right;
    BoundAnd("login", lengths, long, p);
    BoundAnd("login", lengths.left, lengths.right, p);
    BoundLeaf("login", lengths.left.check, "Must not be empty", p);
    BoundLeaf("login", lengths.right.check, "Is too short", p);
    BoundLeaf("login", long.check, "Is too long", p);
  }

  method ValidateUser(params: UserParams) returns (result: ValidationResult)
    ensures result.Valid() && result.errors.Length == USER_MAX_ERRORS
    ensures result.Ok() <==> MIN_LOGIN_LENGTH <= |params.login| <= MAX_LOGIN_LENGTH && params.passwordHash != ""
                             && params.publicKey != "" && params.createdAt != 0
    ensures result.Errors() == UserErrors(params)
  {
    UserErrorsExactly(params);
    result := Apply(UserRules(), params);
  }
}
