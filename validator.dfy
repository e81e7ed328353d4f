/** The form's `validate` function (src/Components/SignupForm.js:48-78), as
    written: an empty-field pass over every key, followed by structural checks
    behind the gate `if (!errors)`, which never opens because `errors` is an
    object. */
module Validator {
  import opened JsStrings
  import opened FormState

  /** The displayed error map: field key to message. */
  type Errors = map<Field, string>

  const EmptyFieldMessage: string := "Field cannot be empty"
  const EmailInvalidMessage: string := "Email address is invalid"
  const PasswordTooShortMessage: string := "Password must be 8 characters or more"
  const PasswordMismatchMessage: string := "Passwords must match"

  /** `typeof v === "string" && !v.trim()` */
  predicate IsBlankString(v: Value) {
    v.Str? && Trim(v.s) == []
  }

  /** The map the `forEach` over `keys` has built: every string-typed key
      whose trimmed value is empty gets the empty-field message. */
  function EmptyFieldErrors(u: User, keys: seq<Field>): Errors
    decreases |keys|
  {
    if keys == [] then map[]
    else
      var acc := EmptyFieldErrors(u, keys[..|keys| - 1]);
      var key := keys[|keys| - 1];
      if IsBlankString(Get(u, key)) then acc[key := EmptyFieldMessage] else acc
  }

  /** The map built over `keys` holds exactly the blank string fields among
      them, each with the empty-field message. */
  lemma {:induction false} EmptyFieldErrorsSpec(u: User, keys: seq<Field>)
    ensures forall f :: f in EmptyFieldErrors(u, keys) <==> f in keys && IsBlankString(Get(u, f))
    ensures forall f | f in EmptyFieldErrors(u, keys) :: EmptyFieldErrors(u, keys)[f] == EmptyFieldMessage
  {
    if keys != [] {
      var init := keys[..|keys| - 1];
      EmptyFieldErrorsSpec(u, init);
      assert keys == init + [keys[|keys| - 1]];
    }
  }

  /** ECMAScript ToBoolean of an object reference: every object, the empty
      one `{}` included, is truthy. */
  predicate ObjectIsTruthy(o: Errors) {
    true
  }

  /** `user.password.length < 8`. A non-string value has no `length`, and
      `undefined < 8` is false. */
  predicate PasswordTooShort(v: Value) {
    v.Str? && Utf16Length(v.s) < 8
  }

  /** The string the regular expression's `test` sees: ECMAScript ToString. */
  function ToJsString(v: Value): string {
    match v
    case Str(s) => s
    case Bool(b) => if b then "true" else "false"
  }

  /** The body of `if (!errors) { ... }`: email shape, password length and
      password confirmation, each adding its message to `errors`. */
  function StructuralChecks(u: User, errors: Errors): (r: Errors)
    ensures forall f | f != Email && f != Password && f != RePassword ::
      (f in r <==> f in errors) && (f in r ==> r[f] == errors[f])
    ensures !MatchesEmailPattern(ToJsString(u.email)) ==> Email in r && r[Email] == EmailInvalidMessage
    ensures PasswordTooShort(u.password) ==> Password in r && r[Password] == PasswordTooShortMessage
    ensures u.password != u.rePassword ==> RePassword in r && r[RePassword] == PasswordMismatchMessage
    ensures MatchesEmailPattern(ToJsString(u.email)) ==>
      (Email in r <==> Email in errors) && (Email in r ==> r[Email] == errors[Email])
    ensures !PasswordTooShort(u.password) ==>
      (Password in r <==> Password in errors) && (Password in r ==> r[Password] == errors[Password])
    ensures u.password == u.rePassword ==>
      (RePassword in r <==> RePassword in errors) && (RePassword in r ==> r[RePassword] == errors[RePassword])
    ensures (MatchesEmailPattern(ToJsString(u.email)) && !PasswordTooShort(u.password)
             && u.password == u.rePassword) ==> r == errors
  {
    var e1 := if !MatchesEmailPattern(ToJsString(u.email)) then errors[Email := EmailInvalidMessage] else errors;
    var e2 := if PasswordTooShort(u.password) then e1[Password := PasswordTooShortMessage] else e1;
    if u.password != u.rePassword then e2[RePassword := PasswordMismatchMessage] else e2
  }

  /** What `validate(u)` returns. */
  function Validation(u: User): Errors {
    var errors := EmptyFieldErrors(u, Fields);
    if !ObjectIsTruthy(errors) then StructuralChecks(u, errors) else errors
  }

  /** `validate(user)`. The record is a value, so the method cannot change it,
      and its result is a function of the record alone. */
  method Validate(u: User) returns (errors: Errors)
    ensures errors == Validation(u)
    ensures forall f :: f in errors <==> Get(u, f).Str? && AllWhitespace(Get(u, f).s)
    ensures forall f | f in errors :: errors[f] == EmptyFieldMessage
  {
    errors := map[];
    var i := 0;
    while i < |Fields|
      invariant 0 <= i <= |Fields|
      invariant errors == EmptyFieldErrors(u, Fields[..i])
    {
      var key := Fields[i];
      assert Fields[..i + 1][..i] == Fields[..i];
      var value := Get(u, key);
      if value.Str? && Trim(value.s) == [] {
        errors := errors[key := EmptyFieldMessage];
      }
      i := i + 1;
    }
    assert Fields[..i] == Fields;
    ValidationSpec(u);
    if !ObjectIsTruthy(errors) {
      errors := StructuralChecks(u, errors);
    }
  }

  /** A value is a blank string exactly when it is a string of white space
      only. */
  lemma IsBlankStringIff(v: Value)
    ensures IsBlankString(v) <==> v.Str? && AllWhitespace(v.s)
  {
    if v.Str? {
      TrimEmptyIff(v.s);
    }
  }

  /** The validator as written: a key is reported exactly when it holds a
      blank string, always with the empty-field message; nothing else is
      ever reported. */
  lemma ValidationBlankKeys(u: User)
    ensures forall f :: f in Validation(u) <==> IsBlankString(Get(u, f))
    ensures forall f | f in Validation(u) :: Validation(u)[f] == EmptyFieldMessage
  {
    EmptyFieldErrorsSpec(u, Fields);
    FieldsEnumerateKeys();
  }

  /** The same, with blankness spelled out: a string whose characters are all
      white space, the empty string included. */
  lemma ValidationSpec(u: User)
    ensures forall f :: f in Validation(u) <==> Get(u, f).Str? && AllWhitespace(Get(u, f).s)
    ensures forall f | f in Validation(u) :: Validation(u)[f] == EmptyFieldMessage
  {
    ValidationBlankKeys(u);
    forall f {
      IsBlankStringIff(Get(u, f));
    }
  }

  /** Only string-typed keys are ever reported; for a record of the declared
      shape that means one of the nine string fields and never
      `international`. */
  lemma ValidationKeys(u: User)
    ensures forall f | f in Validation(u) :: Get(u, f).Str?
    ensures WellTyped(u) ==> International !in Validation(u)
  {
    ValidationSpec(u);
  }

  /** The gate `!errors` is false for every map, so the structural checks are
      never reached and their messages never appear. */
  lemma StructuralChecksUnreachable(u: User)
    ensures Validation(u) == EmptyFieldErrors(u, Fields)
    ensures forall f | f in Validation(u) ::
      Validation(u)[f] != EmailInvalidMessage
      && Validation(u)[f] != PasswordTooShortMessage
      && Validation(u)[f] != PasswordMismatchMessage
  {
    ValidationSpec(u);
  }

  /** A record whose string fields are all non-blank passes, whatever its
      email, password length or confirmation. */
  lemma NoBlankFieldPasses(u: User)
    requires forall f | Get(u, f).Str? :: !AllWhitespace(Get(u, f).s)
    ensures Validation(u) == map[]
  {
    ValidationSpec(u);
  }

  /** The concrete case: `email = "not-an-email"`, a three-character password
      and a different confirmation. The structural checks would report all
      three, but `validate` returns `{}`. */
  lemma NotAnEmailPasses()
    ensures var u := User(Str("Ada"), Str("Lovelace"), Str("not-an-email"), Str("abc"), Str("xyz"),
                          Str("4"), Str("1"), Bool(false), Str("2020"), Str("2024"));
      && Validation(u) == map[]
      && StructuralChecks(u, map[]).Keys == {Email, Password, RePassword}
  {
    var u := User(Str("Ada"), Str("Lovelace"), Str("not-an-email"), Str("abc"), Str("xyz"),
                  Str("4"), Str("1"), Bool(false), Str("2020"), Str("2024"));
    forall f | Get(u, f).Str? ensures !AllWhitespace(Get(u, f).s) {
      assert !IsWhitespace(Get(u, f).s[0]);
    }
    NoBlankFieldPasses(u);
    EmailPatternExamples();
  }

  /** The initial record fails on each of its nine string fields. */
  lemma InitialUserFails()
    ensures forall f :: f in Validation(InitialUser) <==> f != International
  {
    ValidationSpec(InitialUser);
  }

  /** Two error maps with the same keys, all carrying the empty-field
      message, are equal. */
  lemma SameBlankKeys(a: Errors, b: Errors)
    requires forall f :: f in a <==> f in b
    requires forall f | f in a :: a[f] == EmptyFieldMessage
    requires forall f | f in b :: b[f] == EmptyFieldMessage
    ensures a == b
  {
  }

  /** Changing one field through a text input only changes that field's
      entry: set when the new text is blank, removed otherwise. */
  lemma ValidationAfterTextChange(u: User, e: Event)
    requires e.inputType != "checkbox"
    ensures Validation(ApplyChange(u, e)) ==
      if AllWhitespace(e.value) then Validation(u)[e.name := EmptyFieldMessage]
      else Validation(u) - {e.name}
  {
    var r := ApplyChange(u, e);
    var before, after := Validation(u), Validation(r);
    IsBlankStringIff(Str(e.value));
    var blank := IsBlankString(Str(e.value));
    var expected := if blank then before[e.name := EmptyFieldMessage] else before - {e.name};
    ValidationBlankKeys(u);
    ValidationBlankKeys(r);
    forall f ensures f in after <==> f in expected {
      if f == e.name {
        assert Get(r, f) == Str(e.value);
      } else {
        assert Get(r, f) == Get(u, f);
      }
    }
    SameBlankKeys(after, expected);
  }

  /** Ticking or unticking a checkbox never produces an entry for its key. */
  lemma ValidationAfterCheckboxChange(u: User, e: Event)
    requires e.inputType == "checkbox"
    ensures Validation(ApplyChange(u, e)) == Validation(u) - {e.name}
  {
    var r := ApplyChange(u, e);
    var before, after := Validation(u), Validation(r);
    ValidationBlankKeys(u);
    ValidationBlankKeys(r);
    forall f ensures f in after <==> f in before - {e.name} {
      if f != e.name {
        assert Get(r, f) == Get(u, f);
      }
    }
    SameBlankKeys(after, before - {e.name});
  }
}
