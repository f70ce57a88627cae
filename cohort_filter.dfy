/** The cohort search criteria (Ruby class `CohortFilter`): one optional value per filter
    category, built from a cohort's test data with department scoping, or set key by key.
    The datatype `Criteria` is the value the oracle reads; the class is the mutable object. */
module CohortFilters {
  import opened Wrappers

  /** The advising departments that decide which filters are offered. */
  datatype Department = Admin | Asc | Coe | Physics | OtherDepartment(code: string)

  /** ASC and Physics advisors are not offered the COE-only filters. */
  predicate HidesCoeFilters(dept: Department) {
    dept == Asc || dept == Physics
  }

  /** COE and Physics advisors are not offered the ASC-only filters. */
  predicate HidesAscFilters(dept: Department) {
    dept == Coe || dept == Physics
  }

  /** A cohort's test data. A missing key is None; every list entry (`{ 'gpa_range' => label }`,
      `{ 'squad' => name }`, ...) is represented by the value under its key. */
  datatype TestData = TestData(
    gpaRanges: Option<seq<string>>,
    levels: Option<seq<string>>,
    units: Option<seq<string>>,
    majors: Option<seq<string>>,
    lastInitials: Option<string>,
    advisors: Option<seq<string>>,
    ethnicities: Option<seq<string>>,
    genders: Option<seq<string>>,
    minority: Option<bool>,
    preps: Option<seq<string>>,
    inactiveCoe: Option<bool>,
    probationCoe: Option<bool>,
    inactiveAsc: Option<bool>,
    intensiveAsc: Option<bool>,
    teams: Option<seq<string>>)

  /** Every filter value the search page reads, None standing for nil. The first fifteen are
      the accessors of the Ruby class; the last five are read by the page only. `ethnicity`
      holds what the lookup returned for each code. */
  datatype Criteria = Criteria(
    gpa: Option<seq<string>>,
    level: Option<seq<string>>,
    unitsCompleted: Option<seq<string>>,
    major: Option<seq<string>>,
    lastName: Option<string>,
    advisor: Option<seq<string>>,
    ethnicity: Option<seq<EthnicityName>>,
    gender: Option<seq<string>>,
    underrepresentedMinority: Option<bool>,
    prep: Option<seq<string>>,
    inactiveCoe: Option<bool>,
    probationCoe: Option<bool>,
    inactiveAsc: Option<bool>,
    intensiveAsc: Option<bool>,
    team: Option<seq<string>>,
    transferStudent: Option<bool>,
    expectedGradTerms: Option<seq<string>>,
    cohortOwnerAcademicPlans: Option<seq<string>>,
    coeEthnicity: Option<seq<string>>,
    coeGender: Option<seq<string>>)

  /** A freshly created filter object: nothing set. */
  const Unset := Criteria(None, None, None, None, None, None, None, None, None, None,
                          None, None, None, None, None, None, None, None, None, None)

  // ---------------------------------------------------------------------------------------
  // COE ethnicity codes

  /** The seventeen letters that are COE ethnicity codes with a label. */
  const EthnicityLetters: set<char> :=
    {'A', 'B', 'C', 'D', 'E', 'F', 'G', 'H', 'I', 'L', 'M', 'P', 'R', 'T', 'V', 'X', 'Y'}

  /** What `coe_ethnicity(code)` returns: the code's label; nil for nil, the empty code and
      the sentinel 'Z'; and for any other code the value of `logger.warn`, which is true. */
  datatype EthnicityName = Label(name: string) | NoLabel | Warned

  /** The table entry of a one-letter code. */
  function EthnicityLabel(code: Option<string>): Option<string> {
    if code.Some? && |code.value| == 1 then LetterEthnicity(code.value[0]) else None
  }

  /** The lookup logs a warning for a code that is present, non-empty, not the sentinel 'Z'
      and has no label. */
  predicate WarnsOnEthnicity(code: Option<string>) {
    EthnicityLabel(code).None? && code.Some? && code.value != "" && code.value != "Z"
  }

  /** `coe_ethnicity(code)`. Exactly the one-letter codes in `EthnicityLetters` have a label;
      nil, "" and "Z" give nil; every other code warns. */
  function TranslateCoeEthnicity(code: Option<string>): (r: EthnicityName)
    ensures r.Label? <==> code.Some? && |code.value| == 1 && code.value[0] in EthnicityLetters
    ensures r.NoLabel? <==> code.None? || code.value == "" || code.value == "Z"
    ensures r.Warned? <==> WarnsOnEthnicity(code)
  {
    var entry := EthnicityLabel(code);
    if entry.Some? then Label(entry.value)
    else if WarnsOnEthnicity(code) then Warned
    else NoLabel
  }

  function LetterEthnicity(letter: char): Option<string> {
    match letter
    case 'A' => Some("African-American / Black")
    case 'B' => Some("Japanese / Japanese-American")
    case 'C' => Some("American Indian / Alaska Native")
    case 'D' => Some("Other")
    case 'E' => Some("Mexican / Mexican-American / Chicano")
    case 'F' => Some("White / Caucasian")
    case 'G' => Some("Declined to state")
    case 'H' => Some("Chinese / Chinese-American")
    case 'I' => Some("Other Spanish-American / Latino")
    case 'L' => Some("Filipino / Filipino-American")
    case 'M' => Some("Pacific Islander")
    case 'P' => Some("Puerto Rican")
    case 'R' => Some("East Indian / Pakistani")
    case 'T' => Some("Thai / Other Asian")
    case 'V' => Some("Vietnamese")
    case 'X' => Some("Korean / Korean-American")
    case 'Y' => Some("Other Asian")
    case _ => None
  }

  /** The length and first character of a label identify its letter: a left inverse of
      the lookup table on its labels. */
  function EthnicityLetterOf(name: string): Option<char> {
    if |name| == 0 then None
    else
      match (|name|, name[0])
      case (24, 'A') => Some('A')
      case (28, 'J') => Some('B')
      case (31, 'A') => Some('C')
      case (5, 'O') => Some('D')
      case (36, 'M') => Some('E')
      case (17, 'W') => Some('F')
      case (17, 'D') => Some('G')
      case (26, 'C') => Some('H')
      case (31, 'O') => Some('I')
      case (28, 'F') => Some('L')
      case (16, 'P') => Some('M')
      case (12, 'P') => Some('P')
      case (23, 'E') => Some('R')
      case (18, 'T') => Some('T')
      case (10, 'V') => Some('V')
      case (24, 'K') => Some('X')
      case (11, 'O') => Some('Y')
      case _ => None
  }

  /** Every labelled letter is recovered from its label, so no two letters share a label. */
  lemma EthnicityRoundTrip(letter: char)
    requires letter in EthnicityLetters
    ensures EthnicityLetterOf(LetterEthnicity(letter).value) == Some(letter)
  {
    match letter
    case 'A' => case 'B' => case 'C' => case 'D' => case 'E' => case 'F' =>
    case 'G' => case 'H' => case 'I' => case 'L' => case 'M' => case 'P' =>
    case 'R' => case 'T' => case 'V' => case 'X' => case 'Y' =>
  }

  /** The seventeen codes have seventeen different labels. */
  lemma EthnicityLabelsDistinct(a: string, b: string)
    requires TranslateCoeEthnicity(Some(a)).Label? && TranslateCoeEthnicity(Some(b)).Label? && a != b
    ensures TranslateCoeEthnicity(Some(a)) != TranslateCoeEthnicity(Some(b))
  {
    EthnicityRoundTrip(a[0]);
    EthnicityRoundTrip(b[0]);
    assert a == [a[0]] && b == [b[0]];
  }

  /** `ethnicities.map { |e| coe_ethnicity e['ethnicity'] }`. */
  function TranslateAll(codes: seq<string>): (names: seq<EthnicityName>)
    ensures |names| == |codes|
    ensures forall i :: 0 <= i < |codes| ==> names[i] == TranslateCoeEthnicity(Some(codes[i]))
  {
    if codes == [] then [] else [TranslateCoeEthnicity(Some(codes[0]))] + TranslateAll(codes[1..])
  }

  /** The ethnicity category of the test data, translated when present. */
  function TranslateCodes(codes: Option<seq<string>>): (names: Option<seq<EthnicityName>>)
    ensures names.Some? <==> codes.Some?
  {
    if codes.Some? then Some(TranslateAll(codes.value)) else None
  }

  // ---------------------------------------------------------------------------------------
  // Criteria from test data

  /** `set_test_filters(test_data, dept)` applied to criteria `c`: the fifteen accessors are
      loaded from the test data, then the filters the department does not offer are cleared.
      The five fields the test data does not cover keep their values. */
  function TestFilters(c: Criteria, data: TestData, dept: Department): (r: Criteria)
    ensures r.gpa == data.gpaRanges && r.level == data.levels && r.unitsCompleted == data.units
    ensures r.major == data.majors && r.lastName == data.lastInitials
    ensures HidesCoeFilters(dept) ==>
      && r.advisor.None? && r.ethnicity.None? && r.gender.None? && r.underrepresentedMinority.None?
      && r.prep.None? && r.inactiveCoe.None? && r.probationCoe.None?
    ensures !HidesCoeFilters(dept) ==>
      && r.advisor == data.advisors && r.gender == data.genders
      && r.underrepresentedMinority == data.minority && r.prep == data.preps
      && r.inactiveCoe == data.inactiveCoe && r.probationCoe == data.probationCoe
      && (r.ethnicity.Some? <==> data.ethnicities.Some?)
    ensures !HidesCoeFilters(dept) && data.ethnicities.Some? ==>
      && |r.ethnicity.value| == |data.ethnicities.value|
      && forall i :: 0 <= i < |data.ethnicities.value| ==>
           r.ethnicity.value[i] == TranslateCoeEthnicity(Some(data.ethnicities.value[i]))
    ensures HidesAscFilters(dept) ==> r.inactiveAsc.None? && r.intensiveAsc.None? && r.team.None?
    ensures !HidesAscFilters(dept) ==>
      r.inactiveAsc == data.inactiveAsc && r.intensiveAsc == data.intensiveAsc && r.team == data.teams
    ensures && r.transferStudent == c.transferStudent && r.expectedGradTerms == c.expectedGradTerms
            && r.cohortOwnerAcademicPlans == c.cohortOwnerAcademicPlans
            && r.coeEthnicity == c.coeEthnicity && r.coeGender == c.coeGender
  {
    var loaded := LoadTestData(c, data);
    var withoutCoe := if HidesCoeFilters(dept) then WithoutCoeFilters(loaded) else loaded;
    if HidesAscFilters(dept) then WithoutAscFilters(withoutCoe) else withoutCoe
  }

  /** Every category of the test data copied in, the ethnicity codes as their labels. */
  function LoadTestData(c: Criteria, data: TestData): Criteria {
    Criteria(
      data.gpaRanges, data.levels, data.units, data.majors, data.lastInitials,
      data.advisors,
      TranslateCodes(data.ethnicities),
      data.genders, data.minority, data.preps, data.inactiveCoe, data.probationCoe,
      data.inactiveAsc, data.intensiveAsc, data.teams,
      c.transferStudent, c.expectedGradTerms, c.cohortOwnerAcademicPlans, c.coeEthnicity, c.coeGender)
  }

  function WithoutCoeFilters(c: Criteria): Criteria {
    c.(advisor := None, ethnicity := None, gender := None, underrepresentedMinority := None,
       prep := None, inactiveCoe := None, probationCoe := None)
  }

  function WithoutAscFilters(c: Criteria): Criteria {
    c.(inactiveAsc := None, intensiveAsc := None, team := None)
  }

  // ---------------------------------------------------------------------------------------
  // Fields by name

  /** The filter attributes, in the order `list_filters` reports them. */
  datatype Field =
    | Gpa | Level | UnitsCompleted | Major | LastName | Advisor | Ethnicity | Gender
    | UnderrepresentedMinority | Prep | InactiveCoe | ProbationCoe | InactiveAsc | IntensiveAsc
    | Team | TransferStudent | ExpectedGradTerms | CohortOwnerAcademicPlans | CoeEthnicity | CoeGender

  const AllFields: seq<Field> := [
    Gpa, Level, UnitsCompleted, Major, LastName, Advisor, Ethnicity, Gender,
    UnderrepresentedMinority, Prep, InactiveCoe, ProbationCoe, InactiveAsc, IntensiveAsc,
    Team, TransferStudent, ExpectedGradTerms, CohortOwnerAcademicPlans, CoeEthnicity, CoeGender]

  /** A filter value as Ruby holds it: nil, a Boolean, a string, a list of strings, or a list
      of ethnicity lookups. */
  datatype Value = Nil | Flag(b: bool) | Text(s: string) | Strings(items: seq<string>) | Labels(names: seq<EthnicityName>)

  predicate IsFlagField(f: Field) {
    f in {UnderrepresentedMinority, InactiveCoe, ProbationCoe, InactiveAsc, IntensiveAsc, TransferStudent}
  }

  /** The values an attribute can hold: nil, or a value of the attribute's kind. */
  predicate Fits(f: Field, v: Value) {
    if v.Nil? then true
    else if f == LastName then v.Text?
    else if f == Ethnicity then v.Labels?
    else if IsFlagField(f) then v.Flag?
    else v.Strings?
  }

  function OfStrings(o: Option<seq<string>>): Value { if o.Some? then Strings(o.value) else Nil }
  function OfFlag(o: Option<bool>): Value { if o.Some? then Flag(o.value) else Nil }
  function AsStrings(v: Value): Option<seq<string>> { if v.Strings? then Some(v.items) else None }
  function AsFlag(v: Value): Option<bool> { if v.Flag? then Some(v.b) else None }

  /** The attribute reader `criteria.<field>`. */
  function Get(c: Criteria, f: Field): (v: Value)
    ensures Fits(f, v)
  {
    match f
    case Gpa => OfStrings(c.gpa)
    case Level => OfStrings(c.level)
    case UnitsCompleted => OfStrings(c.unitsCompleted)
    case Major => OfStrings(c.major)
    case LastName => if c.lastName.Some? then Text(c.lastName.value) else Nil
    case Advisor => OfStrings(c.advisor)
    case Ethnicity => if c.ethnicity.Some? then Labels(c.ethnicity.value) else Nil
    case Gender => OfStrings(c.gender)
    case UnderrepresentedMinority => OfFlag(c.underrepresentedMinority)
    case Prep => OfStrings(c.prep)
    case InactiveCoe => OfFlag(c.inactiveCoe)
    case ProbationCoe => OfFlag(c.probationCoe)
    case InactiveAsc => OfFlag(c.inactiveAsc)
    case IntensiveAsc => OfFlag(c.intensiveAsc)
    case Team => OfStrings(c.team)
    case TransferStudent => OfFlag(c.transferStudent)
    case ExpectedGradTerms => OfStrings(c.expectedGradTerms)
    case CohortOwnerAcademicPlans => OfStrings(c.cohortOwnerAcademicPlans)
    case CoeEthnicity => OfStrings(c.coeEthnicity)
    case CoeGender => OfStrings(c.coeGender)
  }

  /** The attribute writer `criteria.<field> = v`: the one field is replaced, and reading
      it back gives `v`. */
  function Set(c: Criteria, f: Field, v: Value): (r: Criteria)
    requires Fits(f, v)
    ensures Get(r, f) == v
    ensures forall g :: g != f ==> Get(r, g) == Get(c, g)
  {
    match f
    case Gpa => c.(gpa := AsStrings(v))
    case Level => c.(level := AsStrings(v))
    case UnitsCompleted => c.(unitsCompleted := AsStrings(v))
    case Major => c.(major := AsStrings(v))
    case LastName => c.(lastName := if v.Text? then Some(v.s) else None)
    case Advisor => c.(advisor := AsStrings(v))
    case Ethnicity => c.(ethnicity := if v.Labels? then Some(v.names) else None)
    case Gender => c.(gender := AsStrings(v))
    case UnderrepresentedMinority => c.(underrepresentedMinority := AsFlag(v))
    case Prep => c.(prep := AsStrings(v))
    case InactiveCoe => c.(inactiveCoe := AsFlag(v))
    case ProbationCoe => c.(probationCoe := AsFlag(v))
    case InactiveAsc => c.(inactiveAsc := AsFlag(v))
    case IntensiveAsc => c.(intensiveAsc := AsFlag(v))
    case Team => c.(team := AsStrings(v))
    case TransferStudent => c.(transferStudent := AsFlag(v))
    case ExpectedGradTerms => c.(expectedGradTerms := AsStrings(v))
    case CohortOwnerAcademicPlans => c.(cohortOwnerAcademicPlans := AsStrings(v))
    case CoeEthnicity => c.(coeEthnicity := AsStrings(v))
    case CoeGender => c.(coeGender := AsStrings(v))
  }

  predicate AllFit(settings: seq<(Field, Value)>) {
    forall i :: 0 <= i < |settings| ==> Fits(settings[i].0, settings[i].1)
  }

  /** `set_custom_filters(hash)`: each pair assigned in turn. */
  function ApplySettings(c: Criteria, settings: seq<(Field, Value)>): Criteria
    requires AllFit(settings)
  {
    if settings == [] then c
    else
      var last := settings[|settings| - 1];
      Set(ApplySettings(c, settings[..|settings| - 1]), last.0, last.1)
  }

  /** The value the last pair for `f` assigns, if any pair names `f`. */
  function LastSetting(settings: seq<(Field, Value)>, f: Field): (v: Option<Value>)
    ensures v.None? <==> forall i :: 0 <= i < |settings| ==> settings[i].0 != f
  {
    if settings == [] then None
    else if settings[|settings| - 1].0 == f then Some(settings[|settings| - 1].1)
    else
      var init := settings[..|settings| - 1];
      assert forall i :: 0 <= i < |init| ==> init[i] == settings[i];
      LastSetting(init, f)
  }

  /** After `set_custom_filters`, an attribute named in the hash holds the value given for it
      (the last one, were it named twice) and every other attribute is unchanged. */
  lemma {:induction false} ApplySettingsGet(c: Criteria, settings: seq<(Field, Value)>, f: Field)
    requires AllFit(settings)
    ensures Get(ApplySettings(c, settings), f) ==
      if LastSetting(settings, f).Some? then LastSetting(settings, f).value else Get(c, f)
  {
    if settings != [] {
      var init := settings[..|settings| - 1];
      assert AllFit(init) by {
        forall i | 0 <= i < |init| ensures Fits(init[i].0, init[i].1) {
          assert init[i] == settings[i];
        }
      }
      ApplySettingsGet(c, init, f);
    }
  }

  // ---------------------------------------------------------------------------------------
  // list_filters

  /** `list_filters`: every attribute's value. */
  function FieldValues(c: Criteria): (values: seq<Value>)
    ensures |values| == |AllFields|
    ensures forall i :: 0 <= i < |AllFields| ==> values[i] == Get(c, AllFields[i])
  {
    seq(|AllFields|, i requires 0 <= i < |AllFields| => Get(c, AllFields[i]))
  }

  /** A non-nil scalar left by `flatten.compact`. */
  datatype Scalar = FlagScalar(b: bool) | TextScalar(s: string)

  /** `values.flatten.compact`: list elements spliced in, nils dropped. */
  function FlattenCompact(values: seq<Value>): seq<Scalar> {
    if values == [] then [] else Spliced(values[0]) + FlattenCompact(values[1..])
  }

  /** What one attribute value contributes to `flatten.compact`. */
  function Spliced(v: Value): seq<Scalar> {
    match v
    case Nil => []
    case Flag(b) => [FlagScalar(b)]
    case Text(s) => [TextScalar(s)]
    case Strings(items) => seq(|items|, i requires 0 <= i < |items| => TextScalar(items[i]))
    case Labels(names) => CompactNames(names)
  }

  function CompactNames(names: seq<EthnicityName>): seq<Scalar> {
    if names == [] then [] else Compacted(names[0]) + CompactNames(names[1..])
  }

  /** A label stays as a string, a warning's `true` as a Boolean, and nil is dropped. */
  function Compacted(name: EthnicityName): seq<Scalar> {
    match name
    case Label(s) => [TextScalar(s)]
    case Warned => [FlagScalar(true)]
    case NoLabel => []
  }

  /** `any?`: some element other than false. */
  predicate AnyTruthy(items: seq<Scalar>) {
    exists i :: 0 <= i < |items| && items[i] != FlagScalar(false)
  }

  /** `list_filters.flatten.compact.any?`: whether any criterion is left to search by. */
  predicate HasCriteria(c: Criteria) {
    AnyTruthy(FlattenCompact(FieldValues(c)))
  }

  /** Whether one attribute's value counts as a criterion: true, a string, a non-empty list,
      or an ethnicity list holding a label or a warning's `true`. */
  predicate Selects(v: Value) {
    match v
    case Nil => false
    case Flag(b) => b
    case Text(_) => true
    case Strings(items) => |items| > 0
    case Labels(names) => exists i :: 0 <= i < |names| && !names[i].NoLabel?
  }

  /** There are criteria left exactly when some attribute selects something: false, nil
      and empty lists count as nothing. */
  lemma HasCriteriaIff(c: Criteria)
    ensures HasCriteria(c) <==> exists f :: Selects(Get(c, f))
  {
    var values := FieldValues(c);
    AnyTruthyFlattenCompact(values);
    if exists f :: Selects(Get(c, f)) {
      var f :| Selects(Get(c, f));
      assert Selects(values[FieldIndex(f)]);
    }
  }

  /** The position of an attribute in `AllFields`. */
  function FieldIndex(f: Field): (i: nat)
    ensures i < |AllFields| && AllFields[i] == f
  {
    match f
    case Gpa => 0 case Level => 1 case UnitsCompleted => 2 case Major => 3 case LastName => 4
    case Advisor => 5 case Ethnicity => 6 case Gender => 7 case UnderrepresentedMinority => 8
    case Prep => 9 case InactiveCoe => 10 case ProbationCoe => 11 case InactiveAsc => 12
    case IntensiveAsc => 13 case Team => 14 case TransferStudent => 15 case ExpectedGradTerms => 16
    case CohortOwnerAcademicPlans => 17 case CoeEthnicity => 18 case CoeGender => 19
  }

  lemma {:induction false} AnyTruthyFlattenCompact(values: seq<Value>)
    ensures AnyTruthy(FlattenCompact(values)) <==> exists i :: 0 <= i < |values| && Selects(values[i])
  {
    if values != [] {
      AnyTruthyFlattenCompact(values[1..]);
      AnyTruthySpliced(values[0]);
      AnyTruthyAppend(Spliced(values[0]), FlattenCompact(values[1..]));
      assert forall i :: 1 <= i < |values| ==> values[i] == values[1..][i - 1];
    }
  }

  /** One attribute's contribution holds something truthy exactly when it selects. */
  lemma AnyTruthySpliced(v: Value)
    ensures AnyTruthy(Spliced(v)) <==> Selects(v)
  {
    match v
    case Nil =>
    case Flag(b) =>
      if b { assert Spliced(v)[0] == FlagScalar(true); }
    case Text(s) =>
      assert Spliced(v)[0] == TextScalar(s);
    case Strings(items) =>
      if |items| > 0 { assert Spliced(v)[0] == TextScalar(items[0]); }
    case Labels(names) =>
      AnyTruthyCompactNames(names);
  }

  lemma {:induction false} AnyTruthyCompactNames(names: seq<EthnicityName>)
    ensures AnyTruthy(CompactNames(names)) <==> exists i :: 0 <= i < |names| && !names[i].NoLabel?
  {
    if names != [] {
      AnyTruthyCompactNames(names[1..]);
      var head := Compacted(names[0]);
      assert AnyTruthy(head) <==> !names[0].NoLabel? by {
        if !names[0].NoLabel? { assert head[0] != FlagScalar(false); }
      }
      AnyTruthyAppend(head, CompactNames(names[1..]));
      assert forall i :: 1 <= i < |names| ==> names[i] == names[1..][i - 1];
    }
  }

  lemma AnyTruthyAppend(a: seq<Scalar>, b: seq<Scalar>)
    ensures AnyTruthy(a + b) <==> AnyTruthy(a) || AnyTruthy(b)
  {
    if AnyTruthy(a) {
      var i :| 0 <= i < |a| && a[i] != FlagScalar(false);
      assert (a + b)[i] == a[i];
    }
    if AnyTruthy(b) {
      var i :| 0 <= i < |b| && b[i] != FlagScalar(false);
      assert (a + b)[|a| + i] == b[i];
    }
    if AnyTruthy(a + b) {
      var i :| 0 <= i < |a + b| && (a + b)[i] != FlagScalar(false);
      if i < |a| {
        assert a[i] == (a + b)[i];
      } else {
        assert b[i - |a|] == (a + b)[i];
      }
    }
  }

  // ---------------------------------------------------------------------------------------
  // The filter object

  /** The Ruby filter object. Its attributes are held as the one record `criteria`; each
      attribute write replaces one component of it. */
  class CohortFilter {
    var criteria: Criteria

    /** `CohortFilter.new`: every attribute nil. */
    constructor ()
      ensures criteria == Unset
    {
      criteria := Unset;
    }

    /** `set_test_filters(test_data, dept)`: attribute by attribute, then the department's
        hidden filters reset to nil. */
    method SetTestFilters(data: TestData, dept: Department)
      modifies this
      ensures criteria == TestFilters(old(criteria), data, dept)
    {
      // Global
      criteria := criteria.(gpa := data.gpaRanges);
      criteria := criteria.(level := data.levels);
      criteria := criteria.(unitsCompleted := data.units);
      criteria := criteria.(major := data.majors);
      criteria := criteria.(lastName := data.lastInitials);
      // COE
      criteria := criteria.(advisor := data.advisors);
      criteria := criteria.(ethnicity := TranslateCodes(data.ethnicities));
      criteria := criteria.(gender := data.genders);
      criteria := criteria.(underrepresentedMinority := data.minority);
      criteria := criteria.(prep := data.preps);
      criteria := criteria.(inactiveCoe := data.inactiveCoe);
      criteria := criteria.(probationCoe := data.probationCoe);
      // ASC
      criteria := criteria.(inactiveAsc := data.inactiveAsc);
      criteria := criteria.(intensiveAsc := data.intensiveAsc);
      criteria := criteria.(team := data.teams);
      if HidesCoeFilters(dept) {
        criteria := criteria.(advisor := None, ethnicity := None, gender := None,
          underrepresentedMinority := None, prep := None, inactiveCoe := None, probationCoe := None);
      }
      if HidesAscFilters(dept) {
        criteria := criteria.(inactiveAsc := None, intensiveAsc := None, team := None);
      }
    }

    /** `set_custom_filters(hash)`: `public_send("#{key}=", value)` for each pair in turn. */
    method SetCustomFilters(settings: seq<(Field, Value)>)
      requires AllFit(settings)
      modifies this
      ensures criteria == ApplySettings(old(criteria), settings)
    {
      for i := 0 to |settings|
        invariant criteria == ApplySettings(old(criteria), settings[..i])
      {
        assert settings[..i + 1][..i] == settings[..i];
        criteria := Set(criteria, settings[i].0, settings[i].1);
      }
      assert settings[..|settings|] == settings;
    }

    /** `list_filters`: the attribute values in declaration order. */
    method ListFilters() returns (values: seq<Value>)
      ensures |values| == |AllFields|
      ensures forall i :: 0 <= i < |values| ==> values[i] == Get(criteria, AllFields[i])
    {
      values := FieldValues(criteria);
    }
  }
}
