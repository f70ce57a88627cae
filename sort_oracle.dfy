/** `expected_sids_by_*`: the SID order the results list should show for each sort. Every key
    ends with the SID, so the order of the SIDs is fixed whatever arrangement `sort_by` picks
    among equal keys. */
module SortOrders {
  import opened Wrappers
  import opened Sequences
  import opened RubyStrings
  import opened Students
  import opened Sorting
  import SearchCategories

  /** A key function whose last element is the record's SID. */
  ghost predicate EndsWithSid(key: Student -> seq<Atom>) {
    forall u :: |key(u)| > 0 && key(u)[|key(u)| - 1] == Str(u.sid)
  }

  /** Two arrangements of the same records, keys ascending, list the same SIDs. */
  lemma ArrangementSidsUnique(a: seq<Student>, b: seq<Student>, key: Student -> seq<Atom>)
    requires EndsWithSid(key)
    requires multiset(a) == multiset(b) && Ascending(a, key) && Ascending(b, key)
    ensures Sids(a) == Sids(b)
  {
    ArrangementKeysUnique(a, b, key);
    forall i | 0 <= i < |a| ensures a[i].sid == b[i].sid {
      assert key(a[i]) == key(b[i]);
    }
  }

  /** Every arrangement of the records by a key ending with the SID lists the SIDs of any
      one of them. */
  lemma ArrangementsShareSids(users: seq<Student>, w: seq<Student>, key: Student -> seq<Atom>)
    requires EndsWithSid(key) && Arranges(w, users, key)
    ensures forall v :: Arranges(v, users, key) ==> Sids(v) == Sids(w)
  {
    forall v | Arranges(v, users, key) ensures Sids(v) == Sids(w) {
      ArrangementSidsUnique(v, w, key);
    }
  }

  /** `users.sort_by(&key).map { |u| u[:sid] }`: the SIDs of an arrangement of the records
      with ascending keys, and every such arrangement lists the same SIDs. */
  function SortedSids(users: seq<Student>, key: Student -> seq<Atom>): (r: seq<string>)
    requires EndsWithSid(key)
    ensures exists v :: Arranges(v, users, key) && Sids(v) == r
    ensures forall v :: Arranges(v, users, key) ==> Sids(v) == r
  {
    ArrangementsShareSids(users, SortBy(users, key), key);
    Sids(SortBy(users, key))
  }

  /** The tie-breaking key every sort but the first-name one ends with. */
  function NameKey(u: Student): seq<Atom> {
    [Str(Downcase(u.lastNameSortable)), Str(Downcase(u.firstNameSortable)), Str(u.sid)]
  }

  function FirstNameKey(u: Student): seq<Atom> {
    [Str(Downcase(u.firstNameSortable)), Str(Downcase(u.lastNameSortable)), Str(u.sid)]
  }

  /** `u[:gpa].to_f`: a missing GPA sorts as 0. */
  function GpaValue(u: Student): real {
    if u.gpa.Some? then u.gpa.value else 0.0
  }

  function GpaKey(u: Student): seq<Atom> {
    [Num(GpaValue(u))] + NameKey(u)
  }

  function UnitsKey(u: Student): seq<Atom> {
    [Num(SearchCategories.UnitsValue(u))] + NameKey(u)
  }

  /** `names.sort.first.gsub(' (AA)', '').gsub(/\W+/, '')`. */
  function TeamName(names: seq<string>): string
    requires |names| > 0
  {
    StripNonWord(RemoveAll(Least(names), " (AA)"))
  }

  /** The team sort's key for a record with teams (records without teams are keyed by name). */
  function TeamKey(u: Student): seq<Atom> {
    [Str(if u.squadNames == [] then "" else TeamName(u.squadNames))] + NameKey(u)
  }

  /** `major.sort.first.gsub(/\W/, '').downcase`. */
  function MajorName(majors: seq<string>): string
    requires |majors| > 0
  {
    Downcase(StripNonWord(Least(majors)))
  }

  /** The major sort's key; it is only used when every record has a major. */
  function MajorKey(u: Student): seq<Atom> {
    [Str(if u.major == [] then "" else MajorName(u.major))] + NameKey(u)
  }

  function ExpectedSidsByFirstName(users: seq<Student>): (r: seq<string>)
    ensures exists v :: Arranges(v, users, FirstNameKey) && Sids(v) == r
    ensures forall v :: Arranges(v, users, FirstNameKey) ==> Sids(v) == r
  {
    SortedSids(users, FirstNameKey)
  }

  function ExpectedSidsByLastName(users: seq<Student>): (r: seq<string>)
    ensures exists v :: Arranges(v, users, NameKey) && Sids(v) == r
    ensures forall v :: Arranges(v, users, NameKey) ==> Sids(v) == r
  {
    SortedSids(users, NameKey)
  }

  function ExpectedSidsByGpa(users: seq<Student>): (r: seq<string>)
    ensures exists v :: Arranges(v, users, GpaKey) && Sids(v) == r
    ensures forall v :: Arranges(v, users, GpaKey) ==> Sids(v) == r
  {
    SortedSids(users, GpaKey)
  }

  function ExpectedSidsByUnits(users: seq<Student>): (r: seq<string>)
    ensures exists v :: Arranges(v, users, UnitsKey) && Sids(v) == r
    ensures forall v :: Arranges(v, users, UnitsKey) ==> Sids(v) == r
  {
    SortedSids(users, UnitsKey)
  }

  /** Ruby raises on `nil.gsub` when a record has no major. */
  datatype SortError = MissingMajor

  /** The major sort fails when some record has no major; otherwise it is a reordering of the
      SIDs by the first major's normalised name. */
  function ExpectedSidsByMajor(users: seq<Student>): (r: Result<seq<string>, SortError>)
    ensures r.Failure? <==> exists u :: u in users && u.major == []
    ensures r.Success? ==> exists v :: Arranges(v, users, MajorKey) && Sids(v) == r.value
    ensures r.Success? ==> forall v :: Arranges(v, users, MajorKey) ==> Sids(v) == r.value
  {
    if exists u :: u in users && u.major == [] then Failure(MissingMajor)
    else Success(SortedSids(users, MajorKey))
  }

  predicate OnTeam(u: Student) {
    u.squadNames != []
  }

  predicate OffTeam(u: Student) {
    u.squadNames == []
  }

  /** One key for the whole team order: a 0 before the team key for records with teams, a 1
      before the name key for the others. */
  function TeamRankKey(u: Student): seq<Atom> {
    if OnTeam(u) then [Num(0.0)] + TeamKey(u) else [Num(1.0)] + NameKey(u)
  }

  /** The team order: records with teams by team name then name, then the others by name.
      It is an arrangement of the records by the combined key, and no record without teams
      precedes one with. */
  function TeamOrder(users: seq<Student>): (r: seq<Student>)
    ensures Arranges(r, users, TeamRankKey)
    ensures forall i, j :: 0 <= i < j < |r| && OnTeam(r[j]) ==> OnTeam(r[i])
  {
    PartitionSorted(users, OnTeam, OffTeam, TeamKey, NameKey, TeamRankKey, Num(0.0), Num(1.0));
    SortBy(Select(users, OnTeam), TeamKey) + SortBy(Select(users, OffTeam), NameKey)
  }

  /** The loop of `expected_sids_by_team`: players and non-players gathered in one pass, each
      group sorted, players first. */
  method ExpectedSidsByTeam(users: seq<Student>) returns (sids: seq<string>)
    ensures sids == Sids(TeamOrder(users))
  {
    var players: seq<Student> := [];
    var nonPlayers: seq<Student> := [];
    for i := 0 to |users|
      invariant players == Select(users[..i], OnTeam)
      invariant nonPlayers == Select(users[..i], OffTeam)
    {
      assert users[..i + 1] == users[..i] + [users[i]];
      SelectAppend(users[..i], [users[i]], OnTeam);
      SelectAppend(users[..i], [users[i]], OffTeam);
      SelectSingleton(users[i], OnTeam);
      SelectSingleton(users[i], OffTeam);
      if OnTeam(users[i]) {
        players := players + [users[i]];
      } else {
        nonPlayers := nonPlayers + [users[i]];
      }
    }
    assert users[..|users|] == users;
    sids := Sids(SortBy(players, TeamKey) + SortBy(nonPlayers, NameKey));
  }

  lemma TeamRankKeyEndsWithSid()
    ensures EndsWithSid(TeamRankKey)
  {
  }

  /** The team sort lists the SIDs of any arrangement of the records by the combined key. */
  lemma TeamOrderIsSort(users: seq<Student>)
    ensures forall v :: Arranges(v, users, TeamRankKey) ==> Sids(v) == Sids(TeamOrder(users))
  {
    TeamRankKeyEndsWithSid();
    ArrangementsShareSids(users, TeamOrder(users), TeamRankKey);
  }

  /** The levels of the level sort, in the order they are shown. */
  const Levels: seq<string> := ["Freshman", "Sophomore", "Junior", "Senior", "Graduate"]

  lemma LevelsDistinct()
    ensures forall i, j :: 0 <= i < j < |Levels| ==> Levels[i] != Levels[j]
  {
    assert Levels[0][0] == 'F' && Levels[1][0] == 'S' && Levels[2][0] == 'J';
    assert Levels[3][0] == 'S' && Levels[4][0] == 'G' && Levels[1][1] != Levels[3][1];
  }

  /** The position of a level in `Levels`, or `|Levels|` for any other level or none. */
  function LevelRank(level: Option<string>): (k: nat)
    ensures k <= |Levels|
    ensures k < |Levels| ==> level == Some(Levels[k])
    ensures forall j :: 0 <= j < k && j < |Levels| ==> level != Some(Levels[j])
  {
    if level == Some(Levels[0]) then 0
    else if level == Some(Levels[1]) then 1
    else if level == Some(Levels[2]) then 2
    else if level == Some(Levels[3]) then 3
    else if level == Some(Levels[4]) then 4
    else 5
  }

  lemma LevelRankMatches(level: Option<string>, k: nat)
    requires k < |Levels|
    ensures level == Some(Levels[k]) <==> LevelRank(level) == k
  {
    LevelsDistinct();
  }

  /** A level the level sort shows. */
  predicate ListedLevel(u: Student) {
    u.level.Some? && u.level.value in Levels
  }

  /** The position of a record's level in `Levels`. */
  function Rank(u: Student): nat {
    LevelRank(u.level)
  }

  lemma ListedLevelRank(u: Student)
    ensures ListedLevel(u) <==> Rank(u) < |Levels|
  {
    if ListedLevel(u) {
      var k :| 0 <= k < |Levels| && Levels[k] == u.level.value;
      LevelRankMatches(u.level, k);
    }
  }

  /** `users.select { |u| u[:level] == level }`. */
  function LevelMembers(users: seq<Student>, level: string): (r: seq<Student>)
    ensures forall u :: u in r <==> u in users && u.level == Some(level)
  {
    Select(users, (u: Student) => u.level == Some(level))
  }

  /** The first `n` level groups of `users`. */
  function LevelBuckets(users: seq<Student>, n: nat): (r: seq<seq<Student>>)
    requires n <= |Levels|
    ensures |r| == n && forall k :: 0 <= k < n ==> r[k] == LevelMembers(users, Levels[k])
  {
    seq(n, k requires 0 <= k < n => LevelMembers(users, Levels[k]))
  }

  /** Flattening the first `n` level groups is grouping by level position. */
  lemma {:induction false} LevelBucketsGrouped(users: seq<Student>, n: nat)
    requires n <= |Levels|
    ensures Flatten(LevelBuckets(users, n)) == Grouped(users, Rank, n)
  {
    if n > 0 {
      LevelBucketsGrouped(users, n - 1);
      assert LevelBuckets(users, n)[..n - 1] == LevelBuckets(users, n - 1);
      forall u | u in users ensures (u.level == Some(Levels[n - 1])) == (Rank(u) == n - 1) {
        LevelRankMatches(u.level, n - 1);
      }
      GroupAgree(users, Rank, n - 1, (u: Student) => u.level == Some(Levels[n - 1]));
    }
  }

  /** The level order: the records sorted by name, then grouped Freshman to Graduate. It holds
      exactly the records whose level is one of the five. */
  function LevelOrder(users: seq<Student>): (r: seq<Student>)
    ensures forall u :: u in r <==> u in users && ListedLevel(u)
  {
    var byName := SortBy(users, NameKey);
    LevelBucketsGrouped(byName, |Levels|);
    assert forall u :: u in byName <==> u in users by {
      forall u ensures u in byName <==> u in users {
        assert u in byName <==> u in multiset(byName);
      }
    }
    assert forall u :: ListedLevel(u) <==> Rank(u) < |Levels| by {
      forall u ensures ListedLevel(u) <==> Rank(u) < |Levels| {
        ListedLevelRank(u);
      }
    }
    Flatten(LevelBuckets(byName, |Levels|))
  }

  /** The loops of `expected_sids_by_level`: one group per level, appended in order. */
  method ExpectedSidsByLevel(users: seq<Student>) returns (sids: seq<string>)
    ensures sids == Sids(LevelOrder(users))
  {
    var byName := SortBy(users, NameKey);
    var buckets: seq<seq<Student>> := [];
    for k := 0 to |Levels|
      invariant |buckets| == k
      invariant forall j :: 0 <= j < k ==> buckets[j] == LevelMembers(byName, Levels[j])
    {
      buckets := buckets + [LevelMembers(byName, Levels[k])];
    }
    assert buckets == LevelBuckets(byName, |Levels|);
    sids := Sids(Flatten(buckets));
  }

  /** The key the level order ascends by: the level's position, then the name key. */
  function LevelKey(u: Student): seq<Atom> {
    [Num(Rank(u) as real)] + NameKey(u)
  }

  /** The level order is an arrangement, by the level key, of the records with one of the five
      levels. */
  lemma LevelOrderArranges(users: seq<Student>)
    ensures Arranges(LevelOrder(users), Select(users, ListedLevel), LevelKey)
  {
    var byName := SortBy(users, NameKey);
    LevelBucketsGrouped(byName, |Levels|);
    GroupedSorted(byName, Rank, |Levels|, NameKey, LevelKey);
    forall x ensures multiset(LevelOrder(users))[x] == multiset(Select(users, ListedLevel))[x] {
      GroupedCount(byName, Rank, |Levels|, x);
      SelectCount(users, ListedLevel, x);
      ListedLevelRank(x);
    }
    assert multiset(LevelOrder(users)) == multiset(Select(users, ListedLevel));
  }

  /** The level sort lists the SIDs of any arrangement, by the level key, of the records with
      one of the five levels. */
  lemma LevelOrderIsSort(users: seq<Student>)
    ensures forall v :: Arranges(v, Select(users, ListedLevel), LevelKey) ==> Sids(v) == Sids(LevelOrder(users))
  {
    LevelOrderArranges(users);
    LevelKeyEndsWithSid();
    ArrangementsShareSids(Select(users, ListedLevel), LevelOrder(users), LevelKey);
  }

  lemma LevelKeyEndsWithSid()
    ensures EndsWithSid(LevelKey)
  {
  }
}
