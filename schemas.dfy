/** The request schemas `UserInputRequest` and `FeedbackInputRequest`:
    every field is required and constrained by a numeric range, a set of
    literals or a minimum length; six fields are renamed on serialisation. */
module Schemas {
  import opened Wrappers

  /** A decoded JSON value in a request body. */
  datatype Value = Int(i: int) | Float(x: real) | Str(s: string)

  /** A request body: key to value. */
  type Payload = map<string, Value>

  /** The annotation and `Field(...)` arguments of one field. */
  datatype Constraint =
    | FloatRange(lo: real, hi: Option<real>)  // `float` with `ge=` and, optionally, `le=`
    | IntRange(min: int, max: int)            // `int` with `ge=` and `le=`
    | Literal(choices: set<string>)           // `Literal[...]`
    | MinLength(n: nat)                       // `str` with `min_length=`
    | AnyString                               // plain `str`

  /** A JSON number read as a `float`. */
  function AsReal(v: Value): Option<real>
  {
    match v
    case Int(i) => Some(i as real)
    case Float(x) => Some(x)
    case Str(_) => None
  }

  /** A JSON number read as an `int`: a float is accepted only with no fractional part. */
  function AsInt(v: Value): Option<int>
  {
    match v
    case Int(i) => Some(i)
    case Float(x) => if x.Floor as real == x then Some(x.Floor) else None
    case Str(_) => None
  }

  /** Whether the field's validator accepts `v`. */
  predicate Admits(c: Constraint, v: Value)
  {
    match c
    case FloatRange(ge, le) =>
      AsReal(v).Some? && ge <= AsReal(v).value && (le.None? || AsReal(v).value <= le.value)
    case IntRange(ge, le) => AsInt(v).Some? && ge <= AsInt(v).value <= le
    case Literal(choices) => v.Str? && v.s in choices
    case MinLength(n) => v.Str? && |v.s| >= n
    case AnyString => v.Str?
  }

  /** The value the model stores for an accepted input: numbers are converted
      to the declared type, strings are kept. */
  function Coerce(c: Constraint, v: Value): Value
  {
    match c
    case FloatRange(_, _) => if AsReal(v).Some? then Float(AsReal(v).value) else v
    case IntRange(_, _) => if AsInt(v).Some? then Int(AsInt(v).value) else v
    case _ => v
  }

  /** Conversion keeps an accepted value accepted, and converting twice changes nothing. */
  lemma CoerceAdmitted(c: Constraint, v: Value)
    requires Admits(c, v)
    ensures Admits(c, Coerce(c, v))
    ensures Coerce(c, Coerce(c, v)) == Coerce(c, v)
  {
    if c.IntRange? {
      var n := AsInt(v).value;
      assert (n as real).Floor == n;
    }
  }

  /** The fields of `UserInputRequest`, every one of them required (`...`). */
  datatype Field =
    | Age | Workclass | Fnlwgt | Education | EducationalNum | MaritalStatus | Occupation
    | Relationship | Race | Gender | CapitalGain | CapitalLoss | HoursPerWeek | NativeCountry

  /** The fields in declaration order. */
  const FieldOrder: seq<Field> := [
    Age, Workclass, Fnlwgt, Education, EducationalNum, MaritalStatus, Occupation,
    Relationship, Race, Gender, CapitalGain, CapitalLoss, HoursPerWeek, NativeCountry
  ]

  /** The list names every field. */
  lemma FieldOrderComplete()
    ensures forall f :: f in FieldOrder
  {
    forall f ensures f in FieldOrder {
      match f
      case Age => case Workclass => case Fnlwgt => case Education => case EducationalNum =>
      case MaritalStatus => case Occupation => case Relationship => case Race => case Gender =>
      case CapitalGain => case CapitalLoss => case HoursPerWeek => case NativeCountry =>
    }
  }

  /** The key a field is read from in a request body. */
  function Name(f: Field): string
  {
    match f
    case Age => "age"
    case Workclass => "workclass"
    case Fnlwgt => "fnlwgt"
    case Education => "education"
    case EducationalNum => "educational_num"
    case MaritalStatus => "marital_status"
    case Occupation => "occupation"
    case Relationship => "relationship"
    case Race => "race"
    case Gender => "gender"
    case CapitalGain => "capital_gain"
    case CapitalLoss => "capital_loss"
    case HoursPerWeek => "hours_per_week"
    case NativeCountry => "native_country"
  }

  /** The literals each `Literal[...]` field admits. */
  const WorkclassChoices: set<string> := {"Private", "Local-gov"}
  const EducationChoices: set<string> := {"HS-grad", "Some-college"}
  const MaritalStatusChoices: set<string> := {"Married-civ-spouse", "Divorced"}
  const OccupationChoices: set<string> := {"Exec-managerial", "Craft-repair"}
  const RelationshipChoices: set<string> := {"Husband", "Wife"}
  const RaceChoices: set<string> := {"Black", "White"}
  const GenderChoices: set<string> := {"Male", "Female"}

  /** The declared constraint of each field. */
  function Rule(f: Field): Constraint
  {
    match f
    case Age => FloatRange(0.0, Some(200.0))
    case Workclass => Literal(WorkclassChoices)
    case Fnlwgt => FloatRange(1.0, Some(10000000.0))
    case Education => Literal(EducationChoices)
    case EducationalNum => FloatRange(1.0, Some(16.0))
    case MaritalStatus => Literal(MaritalStatusChoices)
    case Occupation => Literal(OccupationChoices)
    case Relationship => Literal(RelationshipChoices)
    case Race => Literal(RaceChoices)
    case Gender => Literal(GenderChoices)
    case CapitalGain => FloatRange(0.0, None)
    case CapitalLoss => FloatRange(0.0, None)
    case HoursPerWeek => IntRange(0, 65)
    case NativeCountry => MinLength(2)
  }

  /** The field whose value is read from `key`, if any. */
  function FieldNamed(key: string): Option<Field>
  {
    if key == "age" then Some(Age)
    else if key == "workclass" then Some(Workclass)
    else if key == "fnlwgt" then Some(Fnlwgt)
    else if key == "education" then Some(Education)
    else if key == "educational_num" then Some(EducationalNum)
    else if key == "marital_status" then Some(MaritalStatus)
    else if key == "occupation" then Some(Occupation)
    else if key == "relationship" then Some(Relationship)
    else if key == "race" then Some(Race)
    else if key == "gender" then Some(Gender)
    else if key == "capital_gain" then Some(CapitalGain)
    else if key == "capital_loss" then Some(CapitalLoss)
    else if key == "hours_per_week" then Some(HoursPerWeek)
    else if key == "native_country" then Some(NativeCountry)
    else None
  }

  /** Every field is read from a key of its own. */
  lemma NameDecodes(f: Field)
    ensures FieldNamed(Name(f)) == Some(f)
  {
  }

  lemma NameInjective()
    ensures forall f, g :: Name(f) == Name(g) ==> f == g
  {
    forall f, g | Name(f) == Name(g) ensures f == g {
      NameDecodes(f);
      NameDecodes(g);
    }
  }

  /** The values a body supplies for the fields, looked up by name; other keys are ignored. */
  function Read(p: Payload): (b: map<Field, Value>)
    ensures forall f :: f in b <==> Name(f) in p
    ensures forall f :: f in b ==> b[f] == p[Name(f)]
  {
    FieldOrderComplete();
    map f | f in FieldOrder && Name(f) in p :: p[Name(f)]
  }

  /** The field is supplied and its validator accepts the value. */
  predicate Accepted(b: map<Field, Value>, f: Field)
  {
    f in b && Admits(Rule(f), b[f])
  }

  /** Every field is supplied and accepted, field by field. */
  predicate AllAccepted(b: map<Field, Value>)
  {
    && Accepted(b, Age) && Accepted(b, Workclass) && Accepted(b, Fnlwgt) && Accepted(b, Education)
    && Accepted(b, EducationalNum) && Accepted(b, MaritalStatus) && Accepted(b, Occupation)
    && Accepted(b, Relationship) && Accepted(b, Race) && Accepted(b, Gender)
    && Accepted(b, CapitalGain) && Accepted(b, CapitalLoss) && Accepted(b, HoursPerWeek)
    && Accepted(b, NativeCountry)
  }

  lemma AllAcceptedIff(b: map<Field, Value>)
    ensures AllAccepted(b) <==> forall f :: Accepted(b, f)
  {
    if AllAccepted(b) {
      forall f ensures Accepted(b, f) {
        match f
        case Age => case Workclass => case Fnlwgt => case Education => case EducationalNum =>
        case MaritalStatus => case Occupation => case Relationship => case Race => case Gender =>
        case CapitalGain => case CapitalLoss => case HoursPerWeek => case NativeCountry =>
      }
    }
  }

  /** A validated `UserInputRequest`. */
  datatype UserInputRequest = UserInputRequest(
    age: real, workclass: string, fnlwgt: real, education: string, educationalNum: real,
    maritalStatus: string, occupation: string, relationship: string, race: string,
    gender: string, capitalGain: real, capitalLoss: real, hoursPerWeek: int,
    nativeCountry: string)

  /** The value a record holds for a field. */
  function FieldValue(u: UserInputRequest, f: Field): Value
  {
    match f
    case Age => Float(u.age)
    case Workclass => Str(u.workclass)
    case Fnlwgt => Float(u.fnlwgt)
    case Education => Str(u.education)
    case EducationalNum => Float(u.educationalNum)
    case MaritalStatus => Str(u.maritalStatus)
    case Occupation => Str(u.occupation)
    case Relationship => Str(u.relationship)
    case Race => Str(u.race)
    case Gender => Str(u.gender)
    case CapitalGain => Float(u.capitalGain)
    case CapitalLoss => Float(u.capitalLoss)
    case HoursPerWeek => Int(u.hoursPerWeek)
    case NativeCountry => Str(u.nativeCountry)
  }

  /** A record is determined by the values of its fields. */
  lemma FieldValueInjective(u: UserInputRequest, v: UserInputRequest)
    requires forall f :: FieldValue(u, f) == FieldValue(v, f)
    ensures u == v
  {
    assert FieldValue(u, Age) == FieldValue(v, Age) && FieldValue(u, Workclass) == FieldValue(v, Workclass);
    assert FieldValue(u, Fnlwgt) == FieldValue(v, Fnlwgt) && FieldValue(u, Education) == FieldValue(v, Education);
    assert FieldValue(u, EducationalNum) == FieldValue(v, EducationalNum);
    assert FieldValue(u, MaritalStatus) == FieldValue(v, MaritalStatus);
    assert FieldValue(u, Occupation) == FieldValue(v, Occupation);
    assert FieldValue(u, Relationship) == FieldValue(v, Relationship);
    assert FieldValue(u, Race) == FieldValue(v, Race) && FieldValue(u, Gender) == FieldValue(v, Gender);
    assert FieldValue(u, CapitalGain) == FieldValue(v, CapitalGain);
    assert FieldValue(u, CapitalLoss) == FieldValue(v, CapitalLoss);
    assert FieldValue(u, HoursPerWeek) == FieldValue(v, HoursPerWeek);
    assert FieldValue(u, NativeCountry) == FieldValue(v, NativeCountry);
  }

  /** The numeric constraints, stated on the record directly. */
  predicate NumbersInRange(u: UserInputRequest)
  {
    && 0.0 <= u.age <= 200.0
    && 1.0 <= u.fnlwgt <= 10000000.0
    && 1.0 <= u.educationalNum <= 16.0
    && 0.0 <= u.capitalGain
    && 0.0 <= u.capitalLoss
    && 0 <= u.hoursPerWeek <= 65
  }

  /** The string constraints, stated on the record directly. */
  predicate TextsAllowed(u: UserInputRequest)
  {
    && u.workclass in WorkclassChoices
    && u.education in EducationChoices
    && u.maritalStatus in MaritalStatusChoices
    && u.occupation in OccupationChoices
    && u.relationship in RelationshipChoices
    && u.race in RaceChoices
    && u.gender in GenderChoices
    && |u.nativeCountry| >= 2
  }

  /** All field constraints of `UserInputRequest`. */
  predicate Valid(u: UserInputRequest)
  {
    NumbersInRange(u) && TextsAllowed(u)
  }

  /** A record satisfying the constraints satisfies every field's declared rule. */
  lemma ValidAdmitted(u: UserInputRequest)
    requires Valid(u)
    ensures forall f :: Admits(Rule(f), FieldValue(u, f))
  {
    forall f ensures Admits(Rule(f), FieldValue(u, f)) {
      match f
      case Age => case Workclass => case Fnlwgt => case Education => case EducationalNum =>
      case MaritalStatus => case Occupation => case Relationship => case Race => case Gender =>
      case CapitalGain => case CapitalLoss => case NativeCountry =>
      case HoursPerWeek =>
        assert (u.hoursPerWeek as real).Floor == u.hoursPerWeek;
    }
  }

  /** A record whose fields all satisfy their declared rules satisfies the
      numeric constraints ... */
  lemma AdmittedNumbers(u: UserInputRequest)
    requires forall f :: Admits(Rule(f), FieldValue(u, f))
    ensures NumbersInRange(u)
  {
    assert Admits(Rule(Age), FieldValue(u, Age)) && Admits(Rule(Fnlwgt), FieldValue(u, Fnlwgt));
    assert Admits(Rule(EducationalNum), FieldValue(u, EducationalNum));
    assert Admits(Rule(CapitalGain), FieldValue(u, CapitalGain));
    assert Admits(Rule(CapitalLoss), FieldValue(u, CapitalLoss));
    assert Admits(Rule(HoursPerWeek), FieldValue(u, HoursPerWeek));
  }

  /** ... and the string constraints. */
  lemma AdmittedTexts(u: UserInputRequest)
    requires forall f :: Admits(Rule(f), FieldValue(u, f))
    ensures TextsAllowed(u)
  {
    assert Admits(Rule(Workclass), FieldValue(u, Workclass));
    assert Admits(Rule(Education), FieldValue(u, Education));
    assert Admits(Rule(MaritalStatus), FieldValue(u, MaritalStatus));
    assert Admits(Rule(Occupation), FieldValue(u, Occupation));
    assert Admits(Rule(Relationship), FieldValue(u, Relationship));
    assert Admits(Rule(Race), FieldValue(u, Race)) && Admits(Rule(Gender), FieldValue(u, Gender));
    assert Admits(Rule(NativeCountry), FieldValue(u, NativeCountry));
  }

  /** A record's values already have their declared types: converting them changes nothing. */
  lemma FieldValuesTyped(u: UserInputRequest)
    ensures forall f :: Coerce(Rule(f), FieldValue(u, f)) == FieldValue(u, f)
  {
    forall f ensures Coerce(Rule(f), FieldValue(u, f)) == FieldValue(u, f) {
      match f
      case Age => case Workclass => case Fnlwgt => case Education => case EducationalNum =>
      case MaritalStatus => case Occupation => case Relationship => case Race => case Gender =>
      case CapitalGain => case CapitalLoss => case NativeCountry =>
      case HoursPerWeek =>
        assert (u.hoursPerWeek as real).Floor == u.hoursPerWeek;
    }
  }

  /** The number a `float` field holds. */
  function NumberOf(v: Value): real
    requires AsReal(v).Some?
  {
    AsReal(v).value
  }

  /** The number an `int` field holds. */
  function IntegerOf(v: Value): int
    requires AsInt(v).Some?
  {
    AsInt(v).value
  }

  /** The text a string field holds. */
  function TextOf(v: Value): string
    requires v.Str?
  {
    v.s
  }

  /** The record the accepted fields describe. */
  function Build(b: map<Field, Value>): UserInputRequest
    requires AllAccepted(b)
  {
    UserInputRequest(
      NumberOf(b[Age]), TextOf(b[Workclass]), NumberOf(b[Fnlwgt]), TextOf(b[Education]),
      NumberOf(b[EducationalNum]), TextOf(b[MaritalStatus]), TextOf(b[Occupation]),
      TextOf(b[Relationship]), TextOf(b[Race]), TextOf(b[Gender]), NumberOf(b[CapitalGain]),
      NumberOf(b[CapitalLoss]), IntegerOf(b[HoursPerWeek]), TextOf(b[NativeCountry]))
  }

  /** The built record holds every supplied value, converted to its field's type. */
  lemma BuildHolds(b: map<Field, Value>)
    requires AllAccepted(b)
    ensures forall f :: f in b && FieldValue(Build(b), f) == Coerce(Rule(f), b[f])
  {
    var u := Build(b);
    forall f ensures f in b && FieldValue(u, f) == Coerce(Rule(f), b[f]) {
      match f
      case Age => case Workclass => case Fnlwgt => case Education => case EducationalNum =>
      case MaritalStatus => case Occupation => case Relationship => case Race => case Gender =>
      case CapitalGain => case CapitalLoss => case HoursPerWeek => case NativeCountry =>
    }
  }

  /** A record built from accepted fields satisfies the numeric constraints ... */
  lemma BuildNumbers(b: map<Field, Value>)
    requires AllAccepted(b)
    ensures NumbersInRange(Build(b))
  {
  }

  /** ... and the string constraints. */
  lemma BuildTexts(b: map<Field, Value>)
    requires AllAccepted(b)
    ensures TextsAllowed(Build(b))
  {
  }

  /** Validation of the fields: the record, or the set of offending fields. */
  function Validate(b: map<Field, Value>): (r: Result<UserInputRequest, set<Field>>)
    ensures r.Success? <==> forall f :: Accepted(b, f)
    ensures r.Success? ==> forall f :: f in b && FieldValue(r.value, f) == Coerce(Rule(f), b[f])
    ensures r.Success? ==> Valid(r.value)
    ensures r.Failure? ==> r.error != {} && forall f :: f in r.error <==> !Accepted(b, f)
  {
    AllAcceptedIff(b);
    if AllAccepted(b) then
      BuildHolds(b);
      BuildNumbers(b);
      BuildTexts(b);
      Success(Build(b))
    else
      FieldOrderComplete();
      var errs := set f | f in FieldOrder && !Accepted(b, f);
      assert exists f :: !Accepted(b, f) && f in errs;
      Failure(errs)
  }

  /** The field's key is in the body and its validator accepts the value. */
  predicate FieldOk(p: Payload, f: Field)
  {
    Name(f) in p && Admits(Rule(f), p[Name(f)])
  }

  /** Validation of a request body: the record holding every field's value
      converted to its type, or the set of fields missing or rejected.
      Keys that name no field are ignored. */
  function ParseUser(p: Payload): (r: Result<UserInputRequest, set<Field>>)
    ensures r.Success? <==> forall f :: FieldOk(p, f)
    ensures r.Success? ==> forall f :: Name(f) in p && FieldValue(r.value, f) == Coerce(Rule(f), p[Name(f)])
    ensures r.Success? ==> Valid(r.value)
    ensures r.Failure? ==> r.error != {} && forall f :: f in r.error <==> !FieldOk(p, f)
  {
    var b := Read(p);
    assert forall f :: Accepted(b, f) <==> FieldOk(p, f);
    Validate(b)
  }

  /** A body holding the value of each listed field under the field's key. */
  function ByKey<V>(fields: seq<Field>, key: Field -> string, value: Field -> V): (m: map<string, V>)
    requires forall f, g :: key(f) == key(g) ==> f == g
    ensures forall f :: f in fields ==> key(f) in m && m[key(f)] == value(f)
    ensures forall k :: k in m ==> exists f :: f in fields && key(f) == k
  {
    if fields == [] then map[]
    else
      var init := fields[..|fields| - 1];
      var last := fields[|fields| - 1];
      assert forall f :: f in fields <==> f in init || f == last by {
        assert fields == init + [last];
      }
      ByKey(init, key, value)[key(last) := value(last)]
  }

  /** A record written back as a body under its field names. */
  function ToPayload(u: UserInputRequest): (p: Payload)
    ensures forall f :: Name(f) in p && p[Name(f)] == FieldValue(u, f)
    ensures forall k :: k in p ==> exists f :: Name(f) == k
  {
    NameInjective();
    FieldOrderComplete();
    ByKey(FieldOrder, Name, f => FieldValue(u, f))
  }

  /** A record's own body validates exactly when the record satisfies the
      constraints, and then gives the record back. */
  lemma ParseToPayload(u: UserInputRequest)
    ensures ParseUser(ToPayload(u)).Success? <==> Valid(u)
    ensures Valid(u) ==> ParseUser(ToPayload(u)) == Success(u)
  {
    var p := ToPayload(u);
    assert forall f :: FieldOk(p, f) <==> Admits(Rule(f), FieldValue(u, f));
    if Valid(u) {
      ValidAdmitted(u);
      FieldValuesTyped(u);
      FieldValueInjective(ParseUser(p).value, u);
    } else if ParseUser(p).Success? {
      AdmittedNumbers(u);
      AdmittedTexts(u);
    }
  }

  /** Validation looks only at the fields' keys. */
  lemma ParseIgnoresOtherKeys(p: Payload, q: Payload)
    requires forall f :: (Name(f) in p <==> Name(f) in q) && (Name(f) in p ==> p[Name(f)] == q[Name(f)])
    ensures ParseUser(p) == ParseUser(q)
  {
    assert Read(p) == Read(q);
  }

  /** The renamed fields: `serialization_alias` set. */
  const Renamed: set<Field> := {EducationalNum, MaritalStatus, CapitalGain, CapitalLoss, HoursPerWeek, NativeCountry}

  /** The key a field is written under by `model_dump(by_alias=True)`. */
  function Alias(f: Field): string
  {
    match f
    case EducationalNum => "educational-num"
    case MaritalStatus => "marital-status"
    case CapitalGain => "capital-gain"
    case CapitalLoss => "capital-loss"
    case HoursPerWeek => "hours-per-week"
    case NativeCountry => "native-country"
    case _ => Name(f)
  }

  /** Exactly the six declared fields are renamed. */
  lemma AliasRenames(f: Field)
    ensures Alias(f) != Name(f) <==> f in Renamed
  {
  }

  /** No input name contains a hyphen. */
  lemma NameHasNoHyphen(f: Field)
    ensures '-' !in Name(f)
  {
  }

  /** Every alias of a renamed field contains one. */
  lemma RenamedAliasHasHyphen(f: Field)
    requires f in Renamed
    ensures '-' in Alias(f)
  {
    match f
    case EducationalNum => assert Alias(f)[11] == '-';
    case MaritalStatus => assert Alias(f)[7] == '-';
    case CapitalGain => assert Alias(f)[7] == '-';
    case CapitalLoss => assert Alias(f)[7] == '-';
    case HoursPerWeek => assert Alias(f)[5] == '-';
    case NativeCountry => assert Alias(f)[6] == '-';
  }

  /** An alias is the input name of a field only when it is that field's own,
      unchanged name. */
  lemma NameNotAlias(f: Field, g: Field)
    requires Name(f) == Alias(g)
    ensures f == g && g !in Renamed
  {
    NameHasNoHyphen(f);
    if g in Renamed {
      RenamedAliasHasHyphen(g);
    } else {
      NameInjective();
    }
  }

  /** No two fields are written under the same key. */
  lemma AliasInjective()
    ensures forall f, g :: Alias(f) == Alias(g) ==> f == g
  {
    forall f, g | Alias(f) == Alias(g) ensures f == g {
      if f !in Renamed {
        NameNotAlias(f, g);
      } else if g !in Renamed {
        NameNotAlias(g, f);
      }
    }
  }

  /** `model_dump(by_alias=True)` of a user request: every field under its
      alias, so the input names of the renamed fields are absent. */
  function Dump(u: UserInputRequest): (d: Payload)
    ensures forall f :: Alias(f) in d && d[Alias(f)] == FieldValue(u, f)
    ensures forall f :: Name(f) in d <==> f !in Renamed
    ensures forall k :: k in d ==> exists f :: Alias(f) == k
  {
    AliasInjective();
    FieldOrderComplete();
    var d := ByKey(FieldOrder, Alias, f => FieldValue(u, f));
    forall f ensures Name(f) in d <==> f !in Renamed {
      AliasRenames(f);
      if Name(f) in d {
        var g :| g in FieldOrder && Alias(g) == Name(f);
        NameNotAlias(f, g);
      }
    }
    d
  }

  /** Aliases apply to output only: a dumped record does not validate again;
      the six renamed fields are reported missing, and for a valid record
      nothing else. */
  lemma DumpNotReparseable(u: UserInputRequest)
    ensures ParseUser(Dump(u)).Failure?
    ensures Renamed <= ParseUser(Dump(u)).error
    ensures Valid(u) ==> ParseUser(Dump(u)).error == Renamed
  {
    var d := Dump(u);
    assert !FieldOk(d, EducationalNum);
    if Valid(u) {
      ValidAdmitted(u);
      forall f | f !in Renamed ensures FieldOk(d, f) {
        AliasRenames(f);
      }
    }
  }

  /** A validated `FeedbackInputRequest`: the user fields plus the task and its true label. */
  datatype FeedbackInputRequest = FeedbackInputRequest(request: UserInputRequest, taskId: string, income: string)

  /** The labels `income` accepts. */
  const IncomeLabels: set<string> := {"<=50K", ">50K"}

  /** The outcome of validating a feedback body from its parts: the user
      fields' outcome and the values under `task_id` and `income`, if present.
      The errors name the failing user fields and the failing added keys. */
  function Feedback(user: Result<UserInputRequest, set<Field>>, taskId: Option<Value>, income: Option<Value>)
    : (r: Result<FeedbackInputRequest, (set<Field>, set<string>)>)
    ensures r.Success? <==>
      user.Success? && taskId.Some? && taskId.value.Str? && income.Some? && income.value.Str?
      && income.value.s in IncomeLabels
    ensures r.Success? ==>
      r.value == FeedbackInputRequest(user.value, taskId.value.s, income.value.s)
    ensures r.Failure? ==> r.error.0 == (if user.Failure? then user.error else {})
    ensures r.Failure? ==> ("task_id" in r.error.1 <==> !(taskId.Some? && taskId.value.Str?))
    ensures r.Failure? ==>
      ("income" in r.error.1 <==> !(income.Some? && income.value.Str? && income.value.s in IncomeLabels))
  {
    var taskOk := taskId.Some? && Admits(AnyString, taskId.value);
    var incomeOk := income.Some? && Admits(Literal(IncomeLabels), income.value);
    if user.Success? && taskOk && incomeOk then
      Success(FeedbackInputRequest(user.value, taskId.value.s, income.value.s))
    else
      var userErrs := if user.Failure? then user.error else {};
      Failure((userErrs, (if taskOk then {} else {"task_id"}) + (if incomeOk then {} else {"income"})))
  }

  /** The value under `key`, if the body has one. */
  function Lookup(p: Payload, key: string): Option<Value>
  {
    if key in p then Some(p[key]) else None
  }

  /** Validation of a feedback body: the user fields as for `UserInputRequest`,
      plus `task_id` and `income`. */
  function ParseFeedback(p: Payload): (r: Result<FeedbackInputRequest, (set<Field>, set<string>)>)
  {
    Feedback(ParseUser(p), Lookup(p, "task_id"), Lookup(p, "income"))
  }

  /** A feedback body validates exactly when its user fields do and it has a
      string `task_id` and an `income` label; the record extends the user record. */
  lemma ParseFeedbackSpec(p: Payload)
    ensures ParseFeedback(p).Success? <==>
      && ParseUser(p).Success?
      && "task_id" in p && p["task_id"].Str?
      && "income" in p && p["income"].Str? && p["income"].s in IncomeLabels
    ensures ParseFeedback(p).Success? ==> ParseFeedback(p).value.request == ParseUser(p).value
  {
  }
}
