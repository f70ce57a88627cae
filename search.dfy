/** `expected_search_results`: the records a cohort search should return, as the intersection
    of the nineteen per-category matching lists. */
module CohortSearch {
  import opened Wrappers
  import opened Sequences
  import opened Students
  import opened SearchCategories
  import CohortFilters

  type Criteria = CohortFilters.Criteria

  /** The nineteen categories, in the order their lists are intersected, in four groups. */
  predicate MatchesAcademics(c: Criteria, u: Student) {
    && InGpaCategory(c.gpa, u)
    && InLevelCategory(c.level, u)
    && InUnitsCategory(c.unitsCompleted, u)
    && InMajorCategory(c.major, u)
    && InTransferCategory(c.transferStudent, u)
  }

  predicate MatchesPerson(c: Criteria, u: Student, advisorSid: string) {
    && InGenderCategory(c.gender, u)
    && InGradTermCategory(c.expectedGradTerms, u)
    && InLastNameCategory(c.lastName, u)
    && InAdvisorCategory(c.advisor, u)
    && InPlanCategory(c.cohortOwnerAcademicPlans, advisorSid, u)
  }

  predicate MatchesCoe(c: Criteria, u: Student) {
    && InCoeEthnicityCategory(c.coeEthnicity, u)
    && InMinorityCategory(c.underrepresentedMinority, u)
    && InCoeGenderCategory(c.coeGender, u)
    && InPrepCategory(c.prep, u)
    && InInactiveCoeCategory(c.inactiveCoe, u)
  }

  predicate MatchesStatus(c: Criteria, u: Student) {
    && InProbationCategory(c.probationCoe, u)
    && InInactiveAscCategory(c.inactiveAsc, u)
    && InIntensiveCategory(c.intensiveAsc, u)
    && InTeamCategory(c.team, u)
  }

  /** A record passes every category of the criteria. */
  predicate MatchesAll(c: Criteria, u: Student, advisorSid: string) {
    MatchesAcademics(c, u) && MatchesPerson(c, u, advisorSid) && MatchesCoe(c, u) && MatchesStatus(c, u)
  }

  function AcademicLists(c: Criteria, pop: seq<Student>): seq<seq<Student>> {
    [GpaUsers(c.gpa, pop), LevelUsers(c.level, pop), UnitsUsers(c.unitsCompleted, pop),
     MajorUsers(c.major, pop), TransferUsers(c.transferStudent, pop)]
  }

  function PersonLists(c: Criteria, pop: seq<Student>, advisorSid: string, lastName: seq<Student>): seq<seq<Student>> {
    [GenderUsers(c.gender, pop), GradTermUsers(c.expectedGradTerms, pop), lastName,
     AdvisorUsers(c.advisor, pop), PlanUsers(c.cohortOwnerAcademicPlans, advisorSid, pop)]
  }

  function CoeLists(c: Criteria, pop: seq<Student>, coeGender: seq<Student>): seq<seq<Student>> {
    [CoeEthnicityUsers(c.coeEthnicity, pop), MinorityUsers(c.underrepresentedMinority, pop), coeGender,
     PrepUsers(c.prep, pop), InactiveCoeUsers(c.inactiveCoe, pop)]
  }

  function StatusLists(c: Criteria, pop: seq<Student>): seq<seq<Student>> {
    [ProbationUsers(c.probationCoe, pop), InactiveAscUsers(c.inactiveAsc, pop),
     IntensiveUsers(c.intensiveAsc, pop), TeamUsers(c.team, pop)]
  }

  /** `matches`: the nineteen lists in the order they are intersected, given the two that
      can fail already computed. */
  function Matches(c: Criteria, pop: seq<Student>, advisorSid: string,
                   lastName: seq<Student>, coeGender: seq<Student>): (ls: seq<seq<Student>>)
    ensures |ls| == 19
  {
    AcademicLists(c, pop) + PersonLists(c, pop, advisorSid, lastName) + CoeLists(c, pop, coeGender)
      + StatusLists(c, pop)
  }

  /** The expected results, or the error the Ruby code raises: the last-name list is built
      before the COE gender list, so its error comes first. */
  function SearchResults(c: Criteria, pop: seq<Student>, advisorSid: string): Result<seq<Student>, SearchError> {
    var lastName :- LastNameUsers(c.lastName, pop);
    var coeGender :- CoeGenderUsers(c.coeGender, pop);
    Success(InjectUnlessEmpty(Matches(c, pop, advisorSid, lastName, coeGender)))
  }

  lemma InAcademicLists(c: Criteria, pop: seq<Student>, u: Student)
    ensures InAll(u, AcademicLists(c, pop)) <==> u in pop && MatchesAcademics(c, u)
  {
    var ls := AcademicLists(c, pop);
    if InAll(u, ls) {
      assert u in ls[0] && u in ls[1] && u in ls[2] && u in ls[3] && u in ls[4];
    }
  }

  lemma InPersonLists(c: Criteria, pop: seq<Student>, advisorSid: string, lastName: seq<Student>, u: Student)
    requires forall v :: v in lastName <==> v in pop && InLastNameCategory(c.lastName, v)
    ensures InAll(u, PersonLists(c, pop, advisorSid, lastName)) <==> u in pop && MatchesPerson(c, u, advisorSid)
  {
    var ls := PersonLists(c, pop, advisorSid, lastName);
    if InAll(u, ls) {
      assert u in ls[0] && u in ls[1] && u in ls[2] && u in ls[3] && u in ls[4];
    }
  }

  lemma InCoeLists(c: Criteria, pop: seq<Student>, coeGender: seq<Student>, u: Student)
    requires forall v :: v in coeGender <==> v in pop && InCoeGenderCategory(c.coeGender, v)
    ensures InAll(u, CoeLists(c, pop, coeGender)) <==> u in pop && MatchesCoe(c, u)
  {
    var ls := CoeLists(c, pop, coeGender);
    if InAll(u, ls) {
      assert u in ls[0] && u in ls[1] && u in ls[2] && u in ls[3] && u in ls[4];
    }
  }

  lemma InStatusLists(c: Criteria, pop: seq<Student>, u: Student)
    ensures InAll(u, StatusLists(c, pop)) <==> u in pop && MatchesStatus(c, u)
  {
    var ls := StatusLists(c, pop);
    if InAll(u, ls) {
      assert u in ls[0] && u in ls[1] && u in ls[2] && u in ls[3];
    }
  }

  /** A record is in all nineteen lists exactly when it is in the population and passes every
      category. */
  lemma MatchesMembership(c: Criteria, pop: seq<Student>, advisorSid: string,
                          lastName: seq<Student>, coeGender: seq<Student>, u: Student)
    requires forall v :: v in lastName <==> v in pop && InLastNameCategory(c.lastName, v)
    requires forall v :: v in coeGender <==> v in pop && InCoeGenderCategory(c.coeGender, v)
    ensures InAll(u, Matches(c, pop, advisorSid, lastName, coeGender)) <==> u in pop && MatchesAll(c, u, advisorSid)
  {
    var a := AcademicLists(c, pop);
    var p := PersonLists(c, pop, advisorSid, lastName);
    var e := CoeLists(c, pop, coeGender);
    var t := StatusLists(c, pop);
    InAllAppend(u, a + p + e, t);
    InAllAppend(u, a + p, e);
    InAllAppend(u, a, p);
    InAcademicLists(c, pop, u);
    InPersonLists(c, pop, advisorSid, lastName, u);
    InCoeLists(c, pop, coeGender, u);
    InStatusLists(c, pop, u);
  }

  /** The search returns, in the order of the GPA list, each record of the population that
      passes every category, once; the empty-list short cut changes nothing. */
  lemma SearchResultsAre(c: Criteria, pop: seq<Student>, advisorSid: string)
    requires SearchResults(c, pop, advisorSid).Success?
    ensures SearchResults(c, pop, advisorSid).value
      == Dedup(Select(GpaUsers(c.gpa, pop), (u: Student) => MatchesAll(c, u, advisorSid)))
  {
    var lastName := LastNameUsers(c.lastName, pop).value;
    var coeGender := CoeGenderUsers(c.coeGender, pop).value;
    var ls := Matches(c, pop, advisorSid, lastName, coeGender);
    forall u | u in ls[0] ensures InAll(u, ls) <==> MatchesAll(c, u, advisorSid) {
      MatchesMembership(c, pop, advisorSid, lastName, coeGender, u);
    }
    InjectUnlessEmptyIs(ls, (u: Student) => MatchesAll(c, u, advisorSid));
  }

  /** Every returned record is in the population and passes every category, every such record
      is returned, and none is returned twice. */
  lemma SearchResultsMembership(c: Criteria, pop: seq<Student>, advisorSid: string)
    requires SearchResults(c, pop, advisorSid).Success?
    ensures forall u :: u in SearchResults(c, pop, advisorSid).value <==> u in pop && MatchesAll(c, u, advisorSid)
    ensures NoDuplicates(SearchResults(c, pop, advisorSid).value)
  {
    SearchResultsAre(c, pop, advisorSid);
  }

  /** The search fails exactly when the last-name range cannot be evaluated for some record
      or a selected COE gender is neither Male nor Female. */
  lemma SearchFailure(c: Criteria, pop: seq<Student>, advisorSid: string)
    ensures SearchResults(c, pop, advisorSid).Failure? <==>
      (c.lastName.Some? && exists u :: u in pop && LastNameCheck(c.lastName.value, u).Failure?)
      || (Selected(c.coeGender) && exists i :: 0 <= i < |c.coeGender.value| && !KnownCoeGender(c.coeGender.value[i]))
  {
  }

  /** With no criterion set, the search returns the population without repeats. */
  lemma UnsetCriteriaReturnPopulation(pop: seq<Student>, advisorSid: string)
    ensures SearchResults(CohortFilters.Unset, pop, advisorSid) == Success(Dedup(pop))
  {
    var c := CohortFilters.Unset;
    assert GpaUsers(c.gpa, pop) == pop;
    SearchResultsAre(c, pop, advisorSid);
    SelectAll(pop, (u: Student) => MatchesAll(c, u, advisorSid));
  }

  /** A units selection that is an empty list, rather than nil, empties the result. */
  lemma EmptyUnitsSelectionEmptiesResult(c: Criteria, pop: seq<Student>, advisorSid: string)
    requires c.unitsCompleted == Some([])
    requires SearchResults(c, pop, advisorSid).Success?
    ensures SearchResults(c, pop, advisorSid).value == []
  {
    SearchResultsAre(c, pop, advisorSid);
    SelectNone(GpaUsers(c.gpa, pop), (u: Student) => MatchesAll(c, u, advisorSid));
    assert Dedup<Student>([]) == [];
  }

  /** The oracle as the page runs it: the loop-built categories through their loops, the
      others directly, then the intersection. */
  method ExpectedSearchResults(c: Criteria, pop: seq<Student>, advisorSid: string)
    returns (r: Result<seq<Student>, SearchError>)
    ensures r == SearchResults(c, pop, advisorSid)
  {
    var gpa := MatchingGpaUsers(c.gpa, pop);
    var level := LevelUsers(c.level, pop);
    var units := MatchingUnitsUsers(c.unitsCompleted, pop);
    var major := MajorUsers(c.major, pop);
    var transfer := TransferUsers(c.transferStudent, pop);
    var gradTerm := GradTermUsers(c.expectedGradTerms, pop);
    var lastName :- LastNameUsers(c.lastName, pop);
    var gender := GenderUsers(c.gender, pop);
    var advisor := AdvisorUsers(c.advisor, pop);
    var plans := PlanUsers(c.cohortOwnerAcademicPlans, advisorSid, pop);
    var ethnicity := MatchingCoeEthnicityUsers(c.coeEthnicity, pop);
    var minority := MinorityUsers(c.underrepresentedMinority, pop);
    var coeGender :- MatchingCoeGenderUsers(c.coeGender, pop);
    var preps := MatchingPrepUsers(c.prep, pop);
    var inactiveCoe := InactiveCoeUsers(c.inactiveCoe, pop);
    var probation := ProbationUsers(c.probationCoe, pop);
    var inactiveAsc := InactiveAscUsers(c.inactiveAsc, pop);
    var intensive := IntensiveUsers(c.intensiveAsc, pop);
    var team := TeamUsers(c.team, pop);
    var academics := [gpa, level, units, major, transfer];
    var person := [gender, gradTerm, lastName, advisor, plans];
    var coe := [ethnicity, minority, coeGender, preps, inactiveCoe];
    var status := [probation, inactiveAsc, intensive, team];
    assert academics == AcademicLists(c, pop);
    assert person == PersonLists(c, pop, advisorSid, lastName);
    assert coe == CoeLists(c, pop, coeGender);
    var matches := academics + person + coe + status;
    if exists k :: 0 <= k < |matches| && matches[k] == [] {
      r := Success([]);
    } else {
      r := Success(Inject(matches));
    }
  }
}
