/** The signup form's `user` record and the `handleChange` update rule
    (src/Components/SignupForm.js:7-18, 39-45). */
module FormState {

  /** The record's keys, one constructor per key. */
  datatype Field =
    | FirstName | LastName | Email | Password | RePassword
    | Degree | DegreeLevel | International | StartYear | EndYear

  /** `Object.keys(user)`: the keys in the order the record literal lists them. */
  const Fields: seq<Field> :=
    [FirstName, LastName, Email, Password, RePassword,
     Degree, DegreeLevel, International, StartYear, EndYear]

  /** Every key appears in `Fields`, exactly once. */
  lemma FieldsEnumerateKeys()
    ensures |Fields| == 10
    ensures forall f: Field :: f in Fields
    ensures forall i, j | 0 <= i < j < |Fields| :: Fields[i] != Fields[j]
  {
    forall f: Field ensures f in Fields {
      match f
      case FirstName => assert Fields[0] == f;
      case LastName => assert Fields[1] == f;
      case Email => assert Fields[2] == f;
      case Password => assert Fields[3] == f;
      case RePassword => assert Fields[4] == f;
      case Degree => assert Fields[5] == f;
      case DegreeLevel => assert Fields[6] == f;
      case International => assert Fields[7] == f;
      case StartYear => assert Fields[8] == f;
      case EndYear => assert Fields[9] == f;
    }
  }

  /** A JavaScript value as it can sit in a field of the record: the text of
      an input or select, or the `checked` flag of a checkbox. */
  datatype Value = Str(s: string) | Bool(b: bool)

  /** The state record. Each field holds whatever `handleChange` last wrote
      there, so its JavaScript type is part of the value. */
  datatype User = User(
    firstName: Value,
    lastName: Value,
    email: Value,
    password: Value,
    rePassword: Value,
    degree: Value,
    degreeLevel: Value,
    international: Value,
    startYear: Value,
    endYear: Value)

  /** The initial state: nine empty strings and `international: false`. */
  const InitialUser: User := User(
    Str(""), Str(""), Str(""), Str(""), Str(""),
    Str(""), Str(""), Bool(false), Str(""), Str(""))

  /** `user[key]` */
  function Get(u: User, f: Field): Value {
    match f
    case FirstName => u.firstName
    case LastName => u.lastName
    case Email => u.email
    case Password => u.password
    case RePassword => u.rePassword
    case Degree => u.degree
    case DegreeLevel => u.degreeLevel
    case International => u.international
    case StartYear => u.startYear
    case EndYear => u.endYear
  }

  /** `{ ...u, [f]: v }`: a new record in which only `f` differs. */
  function Set(u: User, f: Field, v: Value): (r: User)
    ensures Get(r, f) == v
    ensures forall g | g != f :: Get(r, g) == Get(u, g)
  {
    match f
    case FirstName => u.(firstName := v)
    case LastName => u.(lastName := v)
    case Email => u.(email := v)
    case Password => u.(password := v)
    case RePassword => u.(rePassword := v)
    case Degree => u.(degree := v)
    case DegreeLevel => u.(degreeLevel := v)
    case International => u.(international := v)
    case StartYear => u.(startYear := v)
    case EndYear => u.(endYear := v)
  }

  /** The shape the record literal declares: `international` a boolean, the
      other nine fields strings. */
  predicate WellTyped(u: User) {
    forall f: Field :: if f == International then Get(u, f).Bool? else Get(u, f).Str?
  }

  lemma InitialUserWellTyped()
    ensures WellTyped(InitialUser)
    ensures forall f | f != International :: Get(InitialUser, f) == Str("")
    ensures Get(InitialUser, International) == Bool(false)
  {
  }

  /** The part of a change event's `event.target` that `handleChange` reads. */
  datatype Event = Event(name: Field, value: string, inputType: string, checked: bool)

  /** The value `handleChange` stores: `type === "checkbox" ? checked : value`. */
  function EventValue(e: Event): Value {
    if e.inputType == "checkbox" then Bool(e.checked) else Str(e.value)
  }

  /** The updater that `handleChange` passes to `setUser`. */
  function ApplyChange(u: User, e: Event): (r: User)
    ensures Get(r, e.name) == (if e.inputType == "checkbox" then Bool(e.checked) else Str(e.value))
    ensures forall g | g != e.name :: Get(r, g) == Get(u, g)
  {
    Set(u, e.name, EventValue(e))
  }

  /** Applying the same event twice gives the same record as applying it once. */
  lemma ApplyChangeIdempotent(u: User, e: Event)
    ensures ApplyChange(ApplyChange(u, e), e) == ApplyChange(u, e)
  {
  }

  /** Events on different keys commute. */
  lemma ApplyChangeCommutes(u: User, e1: Event, e2: Event)
    requires e1.name != e2.name
    ensures ApplyChange(ApplyChange(u, e1), e2) == ApplyChange(ApplyChange(u, e2), e1)
  {
  }

  /** The events the rendered form can send: the only checkbox is the one
      named `international`; every other input and select reports a string. */
  predicate FromFormInput(e: Event) {
    e.name == International <==> e.inputType == "checkbox"
  }

  /** Events from the form's own inputs keep the record's declared shape. */
  lemma ApplyChangeKeepsWellTyped(u: User, e: Event)
    requires WellTyped(u) && FromFormInput(e)
    ensures WellTyped(ApplyChange(u, e))
  {
  }

  /** The record after a series of change events, oldest first. */
  function ApplyChanges(u: User, events: seq<Event>): User
    decreases |events|
  {
    if events == [] then u
    else ApplyChange(ApplyChanges(u, events[..|events| - 1]), events[|events| - 1])
  }

  /** However many form events arrive, starting from the initial record, the
      record keeps its declared shape. */
  lemma {:induction false} ApplyChangesKeepsWellTyped(u: User, events: seq<Event>)
    requires WellTyped(u)
    requires forall k | 0 <= k < |events| :: FromFormInput(events[k])
    ensures WellTyped(ApplyChanges(u, events))
  {
    if events != [] {
      ApplyChangesKeepsWellTyped(u, events[..|events| - 1]);
      ApplyChangeKeepsWellTyped(ApplyChanges(u, events[..|events| - 1]), events[|events| - 1]);
    }
  }
}
