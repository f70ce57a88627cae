/** The per-category matching lists of `expected_search_results`: for every filter category, the
    records of the population the category lets through, and the loops that collect one list
    per selected option. */
module SearchCategories {
  import opened Wrappers
  import opened Sequences
  import opened RubyStrings
  import opened RubyNumbers
  import opened Students
  import CohortFilters

  /** Why the oracle cannot produce a result: the Ruby code raises. */
  datatype SearchError =
    | UnrecognizedCoeGender(value: string)  // `fail` on a COE gender other than Male or Female
    | MissingLastNameBound                  // `nil.downcase`: the last-name range lacks a word
    | EmptySortableLastName(sid: string)    // `nil >= ...`: a record's sortable last name is empty

  /** `list && list.any?` for a list of strings: present and non-empty. */
  predicate Selected(options: Option<seq<string>>) {
    options.Some? && |options.value| > 0
  }

  /** Ruby truthiness of an optional flag. */
  predicate IsSet(flag: Option<bool>) {
    flag == Some(true)
  }

  /** `array[i]`: nil past the end. */
  function Part(parts: seq<string>, i: nat): (p: Option<string>)
    ensures p.Some? <==> i < |parts|
    ensures p.Some? ==> p.value == parts[i]
  {
    if i < |parts| then Some(parts[i]) else None
  }

  // ---------------------------------------------------------------------------------------
  // GPA

  /** The two ends of a GPA bucket: "Below ..." is 0 to 2.0; any other bucket loses its spaces
      and is split at '-'. A missing end is nil. */
  function GpaBounds(bucket: string): (bounds: (Option<string>, Option<string>))
    ensures Contains(bucket, "Below") ==> bounds == (Some("0"), Some("2.0"))
  {
    if Contains(bucket, "Below") then (Some("0"), Some("2.0"))
    else
      var parts := Split(Delete(bucket, ' '), "-");
      (Part(parts, 0), Part(parts, 1))
  }

  /** A record is in a GPA bucket when it has a non-zero GPA at least the low end and below
      the high end rounded to a tenth; a high end of "4.00" is inclusive. */
  predicate InGpaBucket(bucket: string, u: Student) {
    var (low, high) := GpaBounds(bucket);
    u.gpa.Some? && u.gpa.value != 0.0 && OptionalToF(low) <= u.gpa.value
    && if high == Some("4.00") then u.gpa.value <= RoundTenth(OptionalToF(high))
       else u.gpa.value < RoundTenth(OptionalToF(high))
  }

  /** The records of one GPA bucket. */
  function GpaBucketUsers(bucket: string, pop: seq<Student>): (users: seq<Student>)
    ensures forall u :: u in users <==> u in pop && InGpaBucket(bucket, u)
  {
    Select(pop, (u: Student) => InGpaBucket(bucket, u))
  }

  /** One matching list per selected GPA bucket. */
  function GpaLists(labels: seq<string>, pop: seq<Student>): (lists: seq<seq<Student>>)
    ensures |lists| == |labels|
    ensures forall i :: 0 <= i < |labels| ==> lists[i] == GpaBucketUsers(labels[i], pop)
  {
    seq(|labels|, i requires 0 <= i < |labels| => GpaBucketUsers(labels[i], pop))
  }

  /** A record passes the GPA category when no bucket is selected or it is in some bucket. */
  predicate InGpaCategory(gpa: Option<seq<string>>, u: Student) {
    !Selected(gpa) || exists i :: 0 <= i < |gpa.value| && InGpaBucket(gpa.value[i], u)
  }

  /** `matching_gpa_users`: the buckets one after another, or the whole population. */
  function GpaUsers(gpa: Option<seq<string>>, pop: seq<Student>): (users: seq<Student>)
    ensures forall u :: u in users <==> u in pop && InGpaCategory(gpa, u)
  {
    if Selected(gpa) then Flatten(GpaLists(gpa.value, pop)) else pop
  }

  /** The GPA loop: a list per bucket appended, then flattened. */
  method MatchingGpaUsers(gpa: Option<seq<string>>, pop: seq<Student>) returns (users: seq<Student>)
    ensures users == GpaUsers(gpa, pop)
  {
    if Selected(gpa) {
      var lists: seq<seq<Student>> := [];
      for i := 0 to |gpa.value|
        invariant |lists| == i
        invariant forall k :: 0 <= k < i ==> lists[k] == GpaBucketUsers(gpa.value[k], pop)
      {
        lists := lists + [GpaBucketUsers(gpa.value[i], pop)];
      }
      assert lists == GpaLists(gpa.value, pop);
      users := Flatten(lists);
    } else {
      users := pop;
    }
  }

  // ---------------------------------------------------------------------------------------
  // Level

  /** Some selected level bucket contains the record's level; a record without a level never
      matches. */
  predicate InLevels(levels: seq<string>, u: Student) {
    u.level.Some? && exists i :: 0 <= i < |levels| && Contains(levels[i], u.level.value)
  }

  predicate InLevelCategory(level: Option<seq<string>>, u: Student) {
    !Selected(level) || InLevels(level.value, u)
  }

  /** `matching_level_users`. */
  function LevelUsers(level: Option<seq<string>>, pop: seq<Student>): (users: seq<Student>)
    ensures forall u :: u in users <==> u in pop && InLevelCategory(level, u)
  {
    if Selected(level) then Select(pop, (u: Student) => InLevels(level.value, u)) else pop
  }

  // ---------------------------------------------------------------------------------------
  // Units

  /** `u[:units_completed].to_f`. */
  function UnitsValue(u: Student): real {
    if u.unitsCompleted.Some? then u.unitsCompleted.value else 0.0
  }

  /** A "+" bucket takes records with at least 120 units; any other bucket is split at " - "
      into a low end and a high end rounded to the nearest ten, missing units counting as 0. */
  predicate InUnitsBucket(bucket: string, u: Student) {
    if Contains(bucket, "+") then u.unitsCompleted.Some? && u.unitsCompleted.value >= 120.0
    else
      var range := Split(bucket, " - ");
      OptionalToF(Part(range, 0)) <= UnitsValue(u)
      && UnitsValue(u) < RoundTens(OptionalToF(Part(range, 1))) as real
  }

  function UnitsBucketUsers(bucket: string, pop: seq<Student>): (users: seq<Student>)
    ensures forall u :: u in users <==> u in pop && InUnitsBucket(bucket, u)
  {
    Select(pop, (u: Student) => InUnitsBucket(bucket, u))
  }

  function UnitsLists(labels: seq<string>, pop: seq<Student>): (lists: seq<seq<Student>>)
    ensures |lists| == |labels|
    ensures forall i :: 0 <= i < |labels| ==> lists[i] == UnitsBucketUsers(labels[i], pop)
  {
    seq(|labels|, i requires 0 <= i < |labels| => UnitsBucketUsers(labels[i], pop))
  }

  /** Units is tested for presence only: an empty selection lets no record through. */
  predicate InUnitsCategory(units: Option<seq<string>>, u: Student) {
    units.None? || exists i :: 0 <= i < |units.value| && InUnitsBucket(units.value[i], u)
  }

  /** `matching_units_users`. */
  function UnitsUsers(units: Option<seq<string>>, pop: seq<Student>): (users: seq<Student>)
    ensures forall u :: u in users <==> u in pop && InUnitsCategory(units, u)
  {
    if units.Some? then Flatten(UnitsLists(units.value, pop)) else pop
  }

  /** The units loop. */
  method MatchingUnitsUsers(units: Option<seq<string>>, pop: seq<Student>) returns (users: seq<Student>)
    ensures users == UnitsUsers(units, pop)
  {
    if units.Some? {
      var lists: seq<seq<Student>> := [];
      for i := 0 to |units.value|
        invariant |lists| == i
        invariant forall k :: 0 <= k < i ==> lists[k] == UnitsBucketUsers(units.value[k], pop)
      {
        lists := lists + [UnitsBucketUsers(units.value[i], pop)];
      }
      assert lists == UnitsLists(units.value, pop);
      users := Flatten(lists);
    } else {
      users := pop;
    }
  }

  // ---------------------------------------------------------------------------------------
  // Major, team and the single-shot categories

  /** The record's list shares an element with the selection (`(a & b).any?`). */
  predicate Shares(mine: seq<string>, chosen: seq<string>) {
    |Intersect(mine, chosen)| > 0
  }

  lemma SharesIff(mine: seq<string>, chosen: seq<string>)
    ensures Shares(mine, chosen) <==> exists x :: x in mine && x in chosen
  {
    var r := Intersect(mine, chosen);
    if exists x :: x in mine && x in chosen {
      var x :| x in mine && x in chosen;
      assert x in r;
    }
    if |r| > 0 {
      assert r[0] in r;
    }
  }

  predicate InMajorCategory(major: Option<seq<string>>, u: Student) {
    !Selected(major) || Shares(u.major, major.value)
  }

  /** `matching_major_users` after `uniq.flatten.compact`: the one selected list unwrapped, or
      the population without repeated records. */
  function MajorUsers(major: Option<seq<string>>, pop: seq<Student>): (users: seq<Student>)
    ensures forall u :: u in users <==> u in pop && InMajorCategory(major, u)
  {
    if Selected(major) then Select(pop, (u: Student) => Shares(u.major, major.value)) else Dedup(pop)
  }

  predicate InTransferCategory(transfer: Option<bool>, u: Student) {
    !IsSet(transfer) || u.transferStudent
  }

  function TransferUsers(transfer: Option<bool>, pop: seq<Student>): (users: seq<Student>)
    ensures forall u :: u in users <==> u in pop && InTransferCategory(transfer, u)
  {
    if IsSet(transfer) then Select(pop, (u: Student) => u.transferStudent) else pop
  }

  /** The record's optional value is one of the selected strings (`include?`). */
  predicate ValueIn(value: Option<string>, chosen: seq<string>) {
    value.Some? && value.value in chosen
  }

  predicate InGenderCategory(gender: Option<seq<string>>, u: Student) {
    !Selected(gender) || ValueIn(u.gender, gender.value)
  }

  function GenderUsers(gender: Option<seq<string>>, pop: seq<Student>): (users: seq<Student>)
    ensures forall u :: u in users <==> u in pop && InGenderCategory(gender, u)
  {
    if Selected(gender) then Select(pop, (u: Student) => ValueIn(u.gender, gender.value)) else pop
  }

  predicate InGradTermCategory(terms: Option<seq<string>>, u: Student) {
    !Selected(terms) || ValueIn(u.expectedGradTerm, terms.value)
  }

  function GradTermUsers(terms: Option<seq<string>>, pop: seq<Student>): (users: seq<Student>)
    ensures forall u :: u in users <==> u in pop && InGradTermCategory(terms, u)
  {
    if Selected(terms) then Select(pop, (u: Student) => ValueIn(u.expectedGradTerm, terms.value)) else pop
  }

  predicate InAdvisorCategory(advisor: Option<seq<string>>, u: Student) {
    !Selected(advisor) || ValueIn(u.advisor, advisor.value)
  }

  function AdvisorUsers(advisor: Option<seq<string>>, pop: seq<Student>): (users: seq<Student>)
    ensures forall u :: u in users <==> u in pop && InAdvisorCategory(advisor, u)
  {
    if Selected(advisor) then Select(pop, (u: Student) => ValueIn(u.advisor, advisor.value)) else pop
  }

  /** "My Students": an advisor entry of the acting advisor whose plan is selected, or any
      entry of the acting advisor when "*" is selected. */
  predicate AdvisedUnderPlans(plans: seq<string>, advisorSid: string, u: Student) {
    exists i :: 0 <= i < |u.advisors| && u.advisors[i].sid == advisorSid
      && (u.advisors[i].planCode in plans || "*" in plans)
  }

  predicate InPlanCategory(plans: Option<seq<string>>, advisorSid: string, u: Student) {
    !Selected(plans) || AdvisedUnderPlans(plans.value, advisorSid, u)
  }

  function PlanUsers(plans: Option<seq<string>>, advisorSid: string, pop: seq<Student>): (users: seq<Student>)
    ensures forall u :: u in users <==> u in pop && InPlanCategory(plans, advisorSid, u)
  {
    if Selected(plans) then Select(pop, (u: Student) => AdvisedUnderPlans(plans.value, advisorSid, u)) else pop
  }

  predicate InMinorityCategory(minority: Option<bool>, u: Student) {
    !IsSet(minority) || u.underrepresentedMinority
  }

  function MinorityUsers(minority: Option<bool>, pop: seq<Student>): (users: seq<Student>)
    ensures forall u :: u in users <==> u in pop && InMinorityCategory(minority, u)
  {
    if IsSet(minority) then Select(pop, (u: Student) => u.underrepresentedMinority) else pop
  }

  predicate InInactiveCoeCategory(inactive: Option<bool>, u: Student) {
    !IsSet(inactive) || u.inactiveCoe
  }

  function InactiveCoeUsers(inactive: Option<bool>, pop: seq<Student>): (users: seq<Student>)
    ensures forall u :: u in users <==> u in pop && InInactiveCoeCategory(inactive, u)
  {
    if IsSet(inactive) then Select(pop, (u: Student) => u.inactiveCoe) else pop
  }

  predicate InProbationCategory(probation: Option<bool>, u: Student) {
    !IsSet(probation) || u.probationCoe
  }

  function ProbationUsers(probation: Option<bool>, pop: seq<Student>): (users: seq<Student>)
    ensures forall u :: u in users <==> u in pop && InProbationCategory(probation, u)
  {
    if IsSet(probation) then Select(pop, (u: Student) => u.probationCoe) else pop
  }

  /** Inactive ASC is a rejection: records that are not active in ASC. */
  predicate InInactiveAscCategory(inactive: Option<bool>, u: Student) {
    !IsSet(inactive) || !u.activeAsc
  }

  function InactiveAscUsers(inactive: Option<bool>, pop: seq<Student>): (users: seq<Student>)
    ensures forall u :: u in users <==> u in pop && InInactiveAscCategory(inactive, u)
  {
    if IsSet(inactive) then Select(pop, (u: Student) => !u.activeAsc) else pop
  }

  predicate InIntensiveCategory(intensive: Option<bool>, u: Student) {
    !IsSet(intensive) || u.intensiveAsc
  }

  function IntensiveUsers(intensive: Option<bool>, pop: seq<Student>): (users: seq<Student>)
    ensures forall u :: u in users <==> u in pop && InIntensiveCategory(intensive, u)
  {
    if IsSet(intensive) then Select(pop, (u: Student) => u.intensiveAsc) else pop
  }

  predicate InTeamCategory(team: Option<seq<string>>, u: Student) {
    !Selected(team) || Shares(u.squadNames, team.value)
  }

  function TeamUsers(team: Option<seq<string>>, pop: seq<Student>): (users: seq<Student>)
    ensures forall u :: u in users <==> u in pop && InTeamCategory(team, u)
  {
    if Selected(team) then Select(pop, (u: Student) => Shares(u.squadNames, team.value)) else pop
  }

  // ---------------------------------------------------------------------------------------
  // Last name

  /** The last-name range test for one record. The record's initial (the first character of
      its sortable last name, as is) must be at least the first word of the range and at most
      the second, both downcased. Ruby evaluates the first word, then the initial, then the
      second word only when the first comparison holds; a missing word or initial raises. */
  function LastNameCheck(range: string, u: Student): (r: Result<bool, SearchError>)
    ensures r.Failure? <==>
      SplitWhitespace(range) == [] || u.lastNameSortable == []
      || (|SplitWhitespace(range)| == 1 && LessOrEqual(Downcase(SplitWhitespace(range)[0]), u.lastNameSortable[..1]))
    ensures r == Success(true) <==>
      |SplitWhitespace(range)| >= 2 && u.lastNameSortable != []
      && LessOrEqual(Downcase(SplitWhitespace(range)[0]), u.lastNameSortable[..1])
      && LessOrEqual(u.lastNameSortable[..1], Downcase(SplitWhitespace(range)[1]))
  {
    var words := SplitWhitespace(range);
    if |words| == 0 then Failure(MissingLastNameBound)
    else if |u.lastNameSortable| == 0 then Failure(EmptySortableLastName(u.sid))
    else
      var initial := u.lastNameSortable[..1];
      if !LessOrEqual(Downcase(words[0]), initial) then Success(false)
      else if |words| < 2 then Failure(MissingLastNameBound)
      else Success(LessOrEqual(initial, Downcase(words[1])))
  }

  /** `select` with the range test: the first record whose test raises aborts the search. */
  function LastNameSelect(range: string, pop: seq<Student>): (r: Result<seq<Student>, SearchError>)
    ensures r.Success? <==> forall u :: u in pop ==> LastNameCheck(range, u).Success?
    ensures r.Success? ==> forall u :: u in r.value <==> u in pop && LastNameCheck(range, u) == Success(true)
  {
    if pop == [] then Success([])
    else
      var keep :- LastNameCheck(range, pop[0]);
      var rest :- LastNameSelect(range, pop[1..]);
      assert forall u :: u in pop <==> u == pop[0] || u in pop[1..];
      Success((if keep then [pop[0]] else []) + rest)
  }

  predicate InLastNameCategory(lastName: Option<string>, u: Student) {
    lastName.None? || LastNameCheck(lastName.value, u) == Success(true)
  }

  /** `matching_last_name_users`. */
  function LastNameUsers(lastName: Option<string>, pop: seq<Student>): (r: Result<seq<Student>, SearchError>)
    ensures r.Success? ==> forall u :: u in r.value <==> u in pop && InLastNameCategory(lastName, u)
    ensures lastName.None? ==> r == Success(pop)
  {
    if lastName.Some? then LastNameSelect(lastName.value, pop) else Success(pop)
  }

  // ---------------------------------------------------------------------------------------
  // Ethnicity (COE)

  /** The record's ethnicity code translates to the selected label. */
  predicate HasEthnicity(name: string, u: Student) {
    CohortFilters.TranslateCoeEthnicity(u.coeEthnicity) == CohortFilters.Label(name)
  }

  function EthnicityUsers(name: string, pop: seq<Student>): (users: seq<Student>)
    ensures forall u :: u in users <==> u in pop && HasEthnicity(name, u)
  {
    Select(pop, (u: Student) => HasEthnicity(name, u))
  }

  function EthnicityLists(names: seq<string>, pop: seq<Student>): (lists: seq<seq<Student>>)
    ensures |lists| == |names|
    ensures forall i :: 0 <= i < |names| ==> lists[i] == EthnicityUsers(names[i], pop)
  {
    seq(|names|, i requires 0 <= i < |names| => EthnicityUsers(names[i], pop))
  }

  predicate InCoeEthnicityCategory(names: Option<seq<string>>, u: Student) {
    !Selected(names) || exists i :: 0 <= i < |names.value| && HasEthnicity(names.value[i], u)
  }

  /** `matching_coe_ethnicity_users`. */
  function CoeEthnicityUsers(names: Option<seq<string>>, pop: seq<Student>): (users: seq<Student>)
    ensures forall u :: u in users <==> u in pop && InCoeEthnicityCategory(names, u)
  {
    if Selected(names) then Flatten(EthnicityLists(names.value, pop)) else pop
  }

  /** The ethnicity loop. */
  method MatchingCoeEthnicityUsers(names: Option<seq<string>>, pop: seq<Student>) returns (users: seq<Student>)
    ensures users == CoeEthnicityUsers(names, pop)
  {
    if Selected(names) {
      var lists: seq<seq<Student>> := [];
      for i := 0 to |names.value|
        invariant |lists| == i
        invariant forall k :: 0 <= k < i ==> lists[k] == EthnicityUsers(names.value[k], pop)
      {
        lists := lists + [EthnicityUsers(names.value[i], pop)];
      }
      assert lists == EthnicityLists(names.value, pop);
      users := Flatten(lists);
    } else {
      users := pop;
    }
  }

  // ---------------------------------------------------------------------------------------
  // Gender (COE)

  /** "Male" selects the codes M and m, "Female" the codes F and f. */
  predicate MatchesCoeGender(value: string, u: Student) {
    (value == "Male" && ValueIn(u.coeGender, ["M", "m"]))
    || (value == "Female" && ValueIn(u.coeGender, ["F", "f"]))
  }

  predicate KnownCoeGender(value: string) {
    value == "Male" || value == "Female"
  }

  /** The records of one selected COE gender; any value but Male or Female raises. */
  function CoeGenderValueUsers(value: string, pop: seq<Student>): (r: Result<seq<Student>, SearchError>)
    ensures r.Failure? <==> !KnownCoeGender(value)
    ensures r.Failure? ==> r.error == UnrecognizedCoeGender(value)
    ensures r.Success? ==> forall u :: u in r.value <==> u in pop && MatchesCoeGender(value, u)
  {
    if value == "Male" then Success(Select(pop, (u: Student) => ValueIn(u.coeGender, ["M", "m"])))
    else if value == "Female" then Success(Select(pop, (u: Student) => ValueIn(u.coeGender, ["F", "f"])))
    else Failure(UnrecognizedCoeGender(value))
  }

  /** One list per selected value, in order, stopping at the first unrecognised value. */
  function CoeGenderLists(values: seq<string>, pop: seq<Student>): (r: Result<seq<seq<Student>>, SearchError>)
    ensures r.Success? <==> forall i :: 0 <= i < |values| ==> KnownCoeGender(values[i])
    ensures r.Success? ==>
      (|r.value| == |values|
       && forall i :: 0 <= i < |values| ==> r.value[i] == CoeGenderValueUsers(values[i], pop).value)
  {
    if values == [] then Success([])
    else
      var init := values[..|values| - 1];
      var lists :- CoeGenderLists(init, pop);
      var last :- CoeGenderValueUsers(values[|values| - 1], pop);
      assert forall i :: 0 <= i < |init| ==> init[i] == values[i];
      Success(lists + [last])
  }

  /** Once a prefix of the values fails, the whole list fails the same way. */
  lemma {:induction false} CoeGenderFailureStays(values: seq<string>, pop: seq<Student>, n: nat)
    requires n <= |values| && CoeGenderLists(values[..n], pop).Failure?
    ensures CoeGenderLists(values, pop) == CoeGenderLists(values[..n], pop)
    decreases |values| - n
  {
    if n < |values| {
      assert values[..n + 1][..n] == values[..n];
      CoeGenderFailureStays(values, pop, n + 1);
    } else {
      assert values[..n] == values;
    }
  }

  predicate InCoeGenderCategory(values: Option<seq<string>>, u: Student) {
    !Selected(values) || exists i :: 0 <= i < |values.value| && MatchesCoeGender(values.value[i], u)
  }

  /** `matching_coe_gender_users`. */
  function CoeGenderUsers(values: Option<seq<string>>, pop: seq<Student>): (r: Result<seq<Student>, SearchError>)
    ensures r.Failure? <==> Selected(values) && exists i :: 0 <= i < |values.value| && !KnownCoeGender(values.value[i])
    ensures r.Success? ==> forall u :: u in r.value <==> u in pop && InCoeGenderCategory(values, u)
  {
    if Selected(values) then
      var lists :- CoeGenderLists(values.value, pop);
      Success(Flatten(lists))
    else Success(pop)
  }

  /** The COE gender loop: it stops at the first unrecognised value. */
  method MatchingCoeGenderUsers(values: Option<seq<string>>, pop: seq<Student>)
    returns (r: Result<seq<Student>, SearchError>)
    ensures r == CoeGenderUsers(values, pop)
  {
    if !Selected(values) {
      return Success(pop);
    }
    var lists: seq<seq<Student>> := [];
    for i := 0 to |values.value|
      invariant CoeGenderLists(values.value[..i], pop) == Success(lists)
    {
      var value := values.value[i];
      var matching: seq<Student>;
      if value == "Male" {
        matching := Select(pop, (u: Student) => ValueIn(u.coeGender, ["M", "m"]));
      } else if value == "Female" {
        matching := Select(pop, (u: Student) => ValueIn(u.coeGender, ["F", "f"]));
      } else {
        assert values.value[..i + 1][..i] == values.value[..i];
        CoeGenderFailureStays(values.value, pop, i + 1);
        return Failure(UnrecognizedCoeGender(value));
      }
      assert values.value[..i + 1][..i] == values.value[..i];
      lists := lists + [matching];
    }
    assert values.value[..|values.value|] == values.value;
    r := Success(Flatten(lists));
  }

  // ---------------------------------------------------------------------------------------
  // PREP

  /** The four PREP statuses a selection can name. */
  datatype PrepStatus = Prep | PrepEligible | TPrep | TPrepEligible

  function PrepStatusOf(value: string): Option<PrepStatus> {
    if value == "PREP" then Some(Prep)
    else if value == "PREP eligible" then Some(PrepEligible)
    else if value == "T-PREP" then Some(TPrep)
    else if value == "T-PREP eligible" then Some(TPrepEligible)
    else None
  }

  predicate HasPrepStatus(status: PrepStatus, u: Student) {
    match status
    case Prep => u.prep
    case PrepEligible => u.prepEligible
    case TPrep => u.tPrep
    case TPrepEligible => u.tPrepEligible
  }

  function PrepStatusUsers(status: PrepStatus, pop: seq<Student>): (users: seq<Student>)
    ensures forall u :: u in users <==> u in pop && HasPrepStatus(status, u)
  {
    Select(pop, (u: Student) => HasPrepStatus(status, u))
  }

  /** The selection names a PREP status the record has; other values select nothing. */
  predicate MatchesPrep(value: string, u: Student) {
    PrepStatusOf(value).Some? && HasPrepStatus(PrepStatusOf(value).value, u)
  }

  /** The lists the PREP loop appends: one per recognised value, none for any other. */
  function PrepLists(values: seq<string>, pop: seq<Student>): (lists: seq<seq<Student>>)
    ensures forall u :: u in Flatten(lists) <==>
      u in pop && exists i :: 0 <= i < |values| && MatchesPrep(values[i], u)
  {
    if values == [] then []
    else
      var init := values[..|values| - 1];
      var value := values[|values| - 1];
      var last := if PrepStatusOf(value).Some? then [PrepStatusUsers(PrepStatusOf(value).value, pop)] else [];
      assert forall i :: 0 <= i < |init| ==> init[i] == values[i];
      FlattenAppend(PrepLists(init, pop), last);
      PrepLists(init, pop) + last
  }

  predicate InPrepCategory(values: Option<seq<string>>, u: Student) {
    !Selected(values) || exists i :: 0 <= i < |values.value| && MatchesPrep(values.value[i], u)
  }

  /** `matching_preps_users`. */
  function PrepUsers(values: Option<seq<string>>, pop: seq<Student>): (users: seq<Student>)
    ensures forall u :: u in users <==> u in pop && InPrepCategory(values, u)
  {
    if Selected(values) then Flatten(PrepLists(values.value, pop)) else pop
  }

  /** The PREP loop: each value is compared with the four statuses in turn. */
  method MatchingPrepUsers(values: Option<seq<string>>, pop: seq<Student>) returns (users: seq<Student>)
    ensures users == PrepUsers(values, pop)
  {
    if !Selected(values) {
      return pop;
    }
    var lists: seq<seq<Student>> := [];
    for i := 0 to |values.value|
      invariant lists == PrepLists(values.value[..i], pop)
    {
      var value := values.value[i];
      assert values.value[..i + 1][..i] == values.value[..i];
      if value == "PREP" {
        lists := lists + [PrepStatusUsers(Prep, pop)];
      }
      if value == "PREP eligible" {
        lists := lists + [PrepStatusUsers(PrepEligible, pop)];
      }
      if value == "T-PREP" {
        lists := lists + [PrepStatusUsers(TPrep, pop)];
      }
      if value == "T-PREP eligible" {
        lists := lists + [PrepStatusUsers(TPrepEligible, pop)];
      }
    }
    assert values.value[..|values.value|] == values.value;
    users := Flatten(lists);
  }
}
