/** Bean Validation of a `User`: the three field constraints declared on the
    entity, each checked on its own, with every failure collected. */
module UserValidation {
  import opened Wrappers
  import opened Strings
  import opened UserEntity
  import EmailRule
  import PasswordRule

  /** `@NotBlank`: the value is non-null and `value.trim()` is non-empty. */
  predicate NotBlank(v: Option<string>) {
    v.Some? && |Trim(v.value)| > 0
  }

  /** `@Pattern(regexp = ...)`: a null value is valid; otherwise the whole
      value must match. */
  predicate PatternHolds(v: Option<string>, matches: string -> bool) {
    v.None? || matches(v.value)
  }

  /** The English text of the validator's default `@NotBlank` message; another
      locale would give another text. */
  const NotBlankMessage: string := "must not be blank"

  /** One constraint violation per annotated field. */
  datatype Violation = BlankName | InvalidEmail | InvalidPassword {

    function PropertyPath(): string {
      match this
      case BlankName => "name"
      case InvalidEmail => "email"
      case InvalidPassword => "password"
    }

    function Message(): string {
      match this
      case BlankName => NotBlankMessage
      case InvalidEmail => "Email invalido"
      case InvalidPassword => "Contrasena invalida"
    }
  }

  predicate NameOk(u: User) { NotBlank(u.name) }

  predicate EmailOk(u: User) { PatternHolds(u.email, EmailRule.EmailValid) }

  predicate PasswordOk(u: User) { PatternHolds(u.password, PasswordRule.PasswordPattern) }

  /** `validator.validate(user)`: the set of all violations, no short-circuit. */
  function Validate(u: User): (r: set<Violation>)
    ensures BlankName in r <==> !NameOk(u)
    ensures InvalidEmail in r <==> !EmailOk(u)
    ensures InvalidPassword in r <==> !PasswordOk(u)
    ensures r == {} <==> NameOk(u) && EmailOk(u) && PasswordOk(u)
  {
    (if NameOk(u) then {} else {BlankName})
    + (if EmailOk(u) then {} else {InvalidEmail})
    + (if PasswordOk(u) then {} else {InvalidPassword})
  }

  /** A name passes iff it is present and holds a character above U+0020,
      i.e. one that `String.trim` keeps. */
  lemma NameRule(name: Option<string>)
    ensures NotBlank(name) <==> name.Some? && HasVisibleChar(name.value)
  {
    if name.Some? {
      TrimNonEmptyIffVisible(name.value);
    }
  }

  /** A present email passes iff the pattern matches it; an absent one passes. */
  lemma EmailFieldRule(u: User)
    ensures EmailOk(u) <==> u.email.None? || EmailRule.EmailMatches(u.email.value)
  {
    if u.email.Some? {
      EmailRule.EmailValidIffMatches(u.email.value);
    }
  }

  /** A present password passes iff it is long enough, alphanumeric and mixes
      all three classes; an absent one passes. */
  lemma PasswordFieldRule(u: User)
    ensures PasswordOk(u) <==> u.password.None? || PasswordRule.PasswordValid(u.password.value)
  {
    if u.password.Some? {
      PasswordRule.PatternIffValid(u.password.value);
    }
  }

  /** Validation looks at nothing but the three annotated fields. */
  lemma ValidateReadsOnlyAnnotatedFields(a: User, b: User)
    requires a.name == b.name && a.email == b.email && a.password == b.password
    ensures Validate(a) == Validate(b)
  {
  }

  /** Changing one field changes at most that field's violation. */
  lemma FieldsIndependent(u: User, name: Option<string>, email: Option<string>, password: Option<string>)
    ensures Validate(u.(name := name)) - {BlankName} == Validate(u) - {BlankName}
    ensures Validate(u.(email := email)) - {InvalidEmail} == Validate(u) - {InvalidEmail}
    ensures Validate(u.(password := password)) - {InvalidPassword} == Validate(u) - {InvalidPassword}
  {
  }
}
