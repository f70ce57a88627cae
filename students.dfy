/** One record of the searchable population, with the fields the cohort oracle reads. */
module Students {
  import opened Wrappers

  /** One entry of a student's `advisors` list: the advisor's SIS id and the academic plan
      code of the relationship. */
  datatype AdvisorEntry = AdvisorEntry(sid: string, planCode: string)

  /** A student's searchable data. Optional fields are the ones a record may lack (Ruby nil);
      the Boolean flags hold the Ruby truthiness of the corresponding value. */
  datatype Student = Student(
    sid: string,
    firstNameSortable: string,
    lastNameSortable: string,
    gpa: Option<real>,
    level: Option<string>,
    unitsCompleted: Option<real>,
    major: seq<string>,
    transferStudent: bool,
    expectedGradTerm: Option<string>,
    gender: Option<string>,
    advisor: Option<string>,
    advisors: seq<AdvisorEntry>,
    coeEthnicity: Option<string>,
    underrepresentedMinority: bool,
    coeGender: Option<string>,
    prep: bool,
    prepEligible: bool,
    tPrep: bool,
    tPrepEligible: bool,
    inactiveCoe: bool,
    probationCoe: bool,
    activeAsc: bool,
    intensiveAsc: bool,
    squadNames: seq<string>)

  /** `users.map { |u| u[:sid] }`. */
  function Sids(users: seq<Student>): (r: seq<string>)
    ensures |r| == |users|
    ensures forall i :: 0 <= i < |users| ==> r[i] == users[i].sid
  {
    if users == [] then [] else [users[0].sid] + Sids(users[1..])
  }

}
