/** Ruby's `sort_by` with array keys: keys are compared element by element as `Array#<=>`
    does, and the result is an arrangement of the input whose keys ascend. Which arrangement
    the sort picks among records with equal keys is left open; the uniqueness lemma shows the
    key sequence does not depend on it. */
module Sorting {
  import opened RubyStrings
  import opened Sequences

  /** One element of a sort key: a Float (`to_f`) or a String. */
  datatype Atom = Num(x: real) | Str(s: string)

  /** `Float#<=>` between numbers, `String#<=>` between strings. The oracle's keys never
      compare a number with a string (Ruby would raise); numbers are put first so the order
      is total. */
  predicate AtomLess(a: Atom, b: Atom) {
    match (a, b)
    case (Num(x), Num(y)) => x < y
    case (Str(s), Str(t)) => Less(s, t)
    case (Num(_), Str(_)) => true
    case (Str(_), Num(_)) => false
  }

  lemma AtomLessIrreflexive(a: Atom)
    ensures !AtomLess(a, a)
  {
    if a.Str? {
      LessIrreflexive(a.s);
    }
  }

  lemma AtomLessTransitive(a: Atom, b: Atom, c: Atom)
    requires AtomLess(a, b) && AtomLess(b, c)
    ensures AtomLess(a, c)
  {
    if a.Str? && b.Str? && c.Str? {
      LessTransitive(a.s, b.s, c.s);
    }
  }

  lemma AtomLessTotal(a: Atom, b: Atom)
    ensures a == b || AtomLess(a, b) || AtomLess(b, a)
  {
    if a.Str? && b.Str? {
      LessTotal(a.s, b.s);
    }
  }

  /** `Array#<=>` as a strict order: the first differing element decides, and a proper prefix
      comes first. */
  predicate KeyLess(a: seq<Atom>, b: seq<Atom>) {
    if a == [] then b != []
    else if b == [] then false
    else if a[0] != b[0] then AtomLess(a[0], b[0])
    else KeyLess(a[1..], b[1..])
  }

  predicate KeyLe(a: seq<Atom>, b: seq<Atom>) {
    a == b || KeyLess(a, b)
  }

  lemma {:induction false} KeyLessIrreflexive(a: seq<Atom>)
    ensures !KeyLess(a, a)
  {
    if a != [] {
      KeyLessIrreflexive(a[1..]);
    }
  }

  lemma {:induction false} KeyLessTransitive(a: seq<Atom>, b: seq<Atom>, c: seq<Atom>)
    requires KeyLess(a, b) && KeyLess(b, c)
    ensures KeyLess(a, c)
  {
    if a != [] && b != [] && c != [] {
      if a[0] == b[0] && b[0] == c[0] {
        KeyLessTransitive(a[1..], b[1..], c[1..]);
      } else if a[0] != b[0] && b[0] != c[0] {
        AtomLessTransitive(a[0], b[0], c[0]);
        AtomLessIrreflexive(a[0]);
      }
    }
  }

  lemma {:induction false} KeyLessTotal(a: seq<Atom>, b: seq<Atom>)
    ensures a == b || KeyLess(a, b) || KeyLess(b, a)
  {
    if a != [] && b != [] {
      if a[0] == b[0] {
        KeyLessTotal(a[1..], b[1..]);
        if a[1..] == b[1..] {
          assert a == [a[0]] + a[1..] && b == [b[0]] + b[1..];
        }
      } else {
        AtomLessTotal(a[0], b[0]);
      }
    }
  }

  lemma KeyLeTransitive(a: seq<Atom>, b: seq<Atom>, c: seq<Atom>)
    requires KeyLe(a, b) && KeyLe(b, c)
    ensures KeyLe(a, c)
  {
    if KeyLess(a, b) && KeyLess(b, c) {
      KeyLessTransitive(a, b, c);
    }
  }

  lemma KeyLeAntisymmetric(a: seq<Atom>, b: seq<Atom>)
    requires KeyLe(a, b) && KeyLe(b, a)
    ensures a == b
  {
    if a != b {
      KeyLessTransitive(a, b, a);
      KeyLessIrreflexive(a);
    }
  }

  /** Keys with the same first element compare as their rests do. */
  lemma {:induction false} KeyLeCons(c: Atom, a: seq<Atom>, b: seq<Atom>)
    requires KeyLe(a, b)
    ensures KeyLe([c] + a, [c] + b)
  {
    assert ([c] + a)[1..] == a && ([c] + b)[1..] == b;
  }

  /** Keys whose first elements differ compare as those elements do. */
  lemma KeyLessHead(a: seq<Atom>, b: seq<Atom>)
    requires a != [] && b != [] && AtomLess(a[0], b[0])
    ensures KeyLess(a, b)
  {
    AtomLessIrreflexive(a[0]);
  }

  /** Every earlier element's key is at most every later element's key. */
  predicate Ascending<T>(s: seq<T>, key: T -> seq<Atom>) {
    forall i, j :: 0 <= i < j < |s| ==> KeyLe(key(s[i]), key(s[j]))
  }

  /** `v` is a result `sort_by(&key)` may return for `s`: the same elements, keys ascending. */
  predicate Arranges<T(==)>(v: seq<T>, s: seq<T>, key: T -> seq<Atom>) {
    multiset(v) == multiset(s) && Ascending(v, key)
  }

  lemma AscendingTail<T>(s: seq<T>, key: T -> seq<Atom>)
    requires Ascending(s, key) && s != []
    ensures Ascending(s[1..], key)
    ensures forall y :: y in s[1..] ==> KeyLe(key(s[0]), key(y))
  {
    forall y | y in s[1..] ensures KeyLe(key(s[0]), key(y)) {
      var k :| 0 <= k < |s[1..]| && s[1..][k] == y;
      assert s[k + 1] == y;
    }
  }

  /** An element whose key is at most every key of an ascending sequence can go in front. */
  lemma LeadAscending<T>(x: T, s: seq<T>, key: T -> seq<Atom>)
    requires Ascending(s, key)
    requires forall y :: y in s ==> KeyLe(key(x), key(y))
    ensures Ascending([x] + s, key)
  {
    forall i, j | 0 <= i < j < |[x] + s| ensures KeyLe(key(([x] + s)[i]), key(([x] + s)[j])) {
      assert ([x] + s)[j] == s[j - 1];
      if i > 0 {
        assert ([x] + s)[i] == s[i - 1];
      }
    }
  }

  /** Two ascending sequences, every key of the first at most every key of the second. */
  lemma AppendAscending<T>(a: seq<T>, b: seq<T>, key: T -> seq<Atom>)
    requires Ascending(a, key) && Ascending(b, key)
    requires forall x, y :: x in a && y in b ==> KeyLe(key(x), key(y))
    ensures Ascending(a + b, key)
  {
    forall i, j | 0 <= i < j < |a + b| ensures KeyLe(key((a + b)[i]), key((a + b)[j])) {
      if j < |a| {
        assert (a + b)[i] == a[i] && (a + b)[j] == a[j];
      } else if i < |a| {
        assert (a + b)[i] == a[i] && (a + b)[j] == b[j - |a|];
      } else {
        assert (a + b)[i] == b[i - |a|] && (a + b)[j] == b[j - |a|];
      }
    }
  }

  /** Keys that all put the same element in front of another ascending key still ascend. */
  lemma AscendingCons<T>(s: seq<T>, key: T -> seq<Atom>, key': T -> seq<Atom>, c: Atom)
    requires Ascending(s, key)
    requires forall x :: x in s ==> key'(x) == [c] + key(x)
    ensures Ascending(s, key')
  {
    forall i, j | 0 <= i < j < |s| ensures KeyLe(key'(s[i]), key'(s[j])) {
      KeyLeCons(c, key(s[i]), key(s[j]));
    }
  }

  /** `select` keeps a sequence ascending. */
  lemma {:induction false} SelectAscending<T(!new)>(s: seq<T>, p: T -> bool, key: T -> seq<Atom>)
    requires Ascending(s, key)
    ensures Ascending(Select(s, p), key)
  {
    if s != [] {
      AscendingTail(s, key);
      SelectAscending(s[1..], p, key);
      if p(s[0]) {
        LeadAscending(s[0], Select(s[1..], p), key);
      }
    }
  }

  /** `x`, whose key is at most the first key of ascending `s`, can go in front of it. */
  lemma InsertFront<T>(x: T, s: seq<T>, key: T -> seq<Atom>)
    requires Ascending(s, key) && s != [] && KeyLe(key(x), key(s[0]))
    ensures Ascending([x] + s, key)
  {
    AscendingTail(s, key);
    forall y | y in s ensures KeyLe(key(x), key(y)) {
      if y != s[0] {
        assert y in s[1..];
        KeyLeTransitive(key(x), key(s[0]), key(y));
      }
    }
    LeadAscending(x, s, key);
  }

  /** The first element of ascending `s` can go in front of `rest`, which holds the rest of `s`
      and an `x` whose key is above that first element's. */
  lemma InsertBehind<T>(x: T, s: seq<T>, rest: seq<T>, key: T -> seq<Atom>)
    requires Ascending(s, key) && s != [] && KeyLess(key(s[0]), key(x))
    requires Ascending(rest, key) && multiset(rest) == multiset(s[1..]) + multiset{x}
    ensures Ascending([s[0]] + rest, key)
  {
    AscendingTail(s, key);
    forall y | y in rest ensures KeyLe(key(s[0]), key(y)) {
      assert y in multiset(rest);
    }
    LeadAscending(s[0], rest, key);
  }

  /** Putting `x` into an ascending sequence at the first place whose key is not below its own. */
  function Insert<T(==)>(x: T, s: seq<T>, key: T -> seq<Atom>): (r: seq<T>)
    requires Ascending(s, key)
    ensures multiset(r) == multiset(s) + multiset{x}
    ensures Ascending(r, key)
  {
    if s == [] then [x]
    else if KeyLe(key(x), key(s[0])) then
      InsertFront(x, s, key);
      [x] + s
    else
      AscendingTail(s, key);
      KeyLessTotal(key(x), key(s[0]));
      var rest := Insert(x, s[1..], key);
      InsertBehind(x, s, rest, key);
      assert s == [s[0]] + s[1..];
      [s[0]] + rest
  }

  /** `s.sort_by(&key)`: an arrangement of `s` whose keys ascend. */
  function SortBy<T(==)>(s: seq<T>, key: T -> seq<Atom>): (r: seq<T>)
    ensures Arranges(r, s, key)
  {
    if s == [] then []
    else
      assert s == [s[0]] + s[1..];
      Insert(s[0], SortBy(s[1..], key), key)
  }

  /** Removing one element keeps a sequence ascending. */
  lemma AscendingRemove<T>(s: seq<T>, j: nat, key: T -> seq<Atom>)
    requires Ascending(s, key) && j < |s|
    ensures Ascending(s[..j] + s[j + 1..], key)
  {
    var r := s[..j] + s[j + 1..];
    forall a, b | 0 <= a < b < |r| ensures KeyLe(key(r[a]), key(r[b])) {
      var a' := if a < j then a else a + 1;
      var b' := if b < j then b else b + 1;
      assert r[a] == s[a'] && r[b] == s[b'];
    }
  }

  /** In an ascending sequence whose first and `j`-th keys agree, every key up to `j` agrees. */
  lemma FlatRun<T>(s: seq<T>, j: nat, key: T -> seq<Atom>)
    requires Ascending(s, key) && j < |s| && key(s[0]) == key(s[j])
    ensures forall k :: 0 <= k <= j ==> key(s[k]) == key(s[0])
  {
    forall k | 0 < k < j ensures key(s[k]) == key(s[0]) {
      KeyLeAntisymmetric(key(s[k]), key(s[0]));
    }
  }

  /** Taking the first element of `a` out of `b`, which holds the same elements, leaves the
      elements of the rest of `a`. */
  lemma RemoveMatching<T>(a: seq<T>, b: seq<T>, j: nat)
    requires multiset(a) == multiset(b) && a != [] && j < |b| && b[j] == a[0]
    ensures multiset(b[..j] + b[j + 1..]) == multiset(a[1..])
  {
    assert b == b[..j] + [b[j]] + b[j + 1..];
    assert a == [a[0]] + a[1..];
    assert multiset(b) == multiset(b[..j]) + multiset{a[0]} + multiset(b[j + 1..]);
    assert multiset(a) == multiset{a[0]} + multiset(a[1..]);
    assert multiset(b[..j] + b[j + 1..]) == multiset(b[..j]) + multiset(b[j + 1..]);
    assert multiset(a[1..]) == multiset(a) - multiset{a[0]};
  }

  /** Any two arrangements of the same elements with ascending keys have the same keys,
      position by position: the keys `sort_by` produces do not depend on how it breaks ties. */
  lemma {:induction false} ArrangementKeysUnique<T>(a: seq<T>, b: seq<T>, key: T -> seq<Atom>)
    requires multiset(a) == multiset(b)
    requires Ascending(a, key) && Ascending(b, key)
    ensures |a| == |b|
    ensures forall i :: 0 <= i < |a| ==> key(a[i]) == key(b[i])
    decreases |a|
  {
    assert |a| == |multiset(a)| == |multiset(b)| == |b|;
    if a != [] {
      assert a[0] in multiset(b) && b[0] in multiset(a);
      var j :| 0 <= j < |b| && b[j] == a[0];
      var i :| 0 <= i < |a| && a[i] == b[0];
      assert KeyLe(key(a[0]), key(a[i])) && KeyLe(key(b[0]), key(b[j]));
      KeyLeAntisymmetric(key(a[0]), key(b[0]));
      FlatRun(b, j, key);
      var rest := b[..j] + b[j + 1..];
      RemoveMatching(a, b, j);
      AscendingRemove(b, j, key);
      AscendingTail(a, key);
      ArrangementKeysUnique(a[1..], rest, key);
      forall k | 0 <= k < |a| ensures key(a[k]) == key(b[k]) {
        if 0 < k <= j {
          assert a[k] == a[1..][k - 1] && rest[k - 1] == b[k - 1];
        } else if k > j {
          assert a[k] == a[1..][k - 1] && rest[k - 1] == b[k];
        }
      }
    }
  }

  /** Every element of an arrangement of `s` is an element of `s`. */
  lemma ArrangedMembers<T(!new)>(v: seq<T>, s: seq<T>, p: T -> bool)
    requires multiset(v) == multiset(s)
    requires forall x :: x in s ==> p(x)
    ensures forall x :: x in v ==> p(x)
  {
    forall x | x in v ensures p(x) {
      assert x in multiset(v);
    }
  }

  /** `select` by a predicate and by its negation splits the elements between the two. */
  lemma SplitCount<T(!new)>(s: seq<T>, p: T -> bool, q: T -> bool)
    requires forall x :: q(x) == !p(x)
    ensures multiset(Select(s, p)) + multiset(Select(s, q)) == multiset(s)
  {
    forall x ensures (multiset(Select(s, p)) + multiset(Select(s, q)))[x] == multiset(s)[x] {
      SelectCount(s, p, x);
      SelectCount(s, q, x);
    }
  }

  /** The elements satisfying `p` sorted by `k1`, then the others sorted by `k2`: every
      element satisfying `p` comes first, and the whole is an arrangement of `s` by the key that
      puts `c1` before `k1` and `c2` before `k2`, when `c1` is below `c2`. */
  lemma PartitionSorted<T(!new)>(s: seq<T>, p: T -> bool, q: T -> bool,
                                 k1: T -> seq<Atom>, k2: T -> seq<Atom>, key: T -> seq<Atom>,
                                 c1: Atom, c2: Atom)
    requires forall x :: q(x) == !p(x)
    requires AtomLess(c1, c2)
    requires forall x :: p(x) ==> key(x) == [c1] + k1(x)
    requires forall x :: q(x) ==> key(x) == [c2] + k2(x)
    ensures Arranges(SortBy(Select(s, p), k1) + SortBy(Select(s, q), k2), s, key)
    ensures forall x :: x in SortBy(Select(s, p), k1) ==> p(x)
    ensures forall x :: x in SortBy(Select(s, q), k2) ==> q(x)
    ensures var r := SortBy(Select(s, p), k1) + SortBy(Select(s, q), k2);
      forall i, j :: 0 <= i < j < |r| && p(r[j]) ==> p(r[i])
  {
    var first := SortBy(Select(s, p), k1);
    var second := SortBy(Select(s, q), k2);
    SplitCount(s, p, q);
    ArrangedMembers(first, Select(s, p), p);
    ArrangedMembers(second, Select(s, q), q);
    AscendingCons(first, k1, key, c1);
    AscendingCons(second, k2, key, c2);
    forall x, y | x in first && y in second ensures KeyLe(key(x), key(y)) {
      KeyLessHead(key(x), key(y));
    }
    AppendAscending(first, second, key);
    LeadingGroup(first, second, p, q);
  }

  /** In `first + second`, where `first` holds only elements satisfying `p` and `second` none,
      no element failing `p` precedes one satisfying it. */
  lemma LeadingGroup<T>(first: seq<T>, second: seq<T>, p: T -> bool, q: T -> bool)
    requires forall x :: q(x) == !p(x)
    requires forall x :: x in first ==> p(x)
    requires forall x :: x in second ==> q(x)
    ensures forall i, j :: 0 <= i < j < |first + second| && p((first + second)[j]) ==> p((first + second)[i])
  {
    var r := first + second;
    forall i, j | 0 <= i < j < |r| && p(r[j]) ensures p(r[i]) {
      assert j < |first| && r[i] == first[i];
    }
  }

  /** The elements of `s` of rank `k`, in their order in `s`. */
  function Group<T(!new)>(s: seq<T>, rank: T -> nat, k: nat): seq<T> {
    Select(s, x => rank(x) == k)
  }

  /** The groups of rank 0 to `n - 1`, one after another. */
  function Grouped<T(!new)>(s: seq<T>, rank: T -> nat, n: nat): seq<T> {
    if n == 0 then [] else Grouped(s, rank, n - 1) + Group(s, rank, n - 1)
  }

  /** Selecting by a predicate that holds on the elements of rank `k` exactly is grouping. */
  lemma GroupAgree<T(!new)>(s: seq<T>, rank: T -> nat, k: nat, p: T -> bool)
    requires forall x :: x in s ==> p(x) == (rank(x) == k)
    ensures Select(s, p) == Group(s, rank, k)
  {
    SelectAgree(s, p, x => rank(x) == k);
  }

  lemma GroupCount<T(!new)>(s: seq<T>, rank: T -> nat, k: nat, x: T)
    ensures multiset(Group(s, rank, k))[x] == if rank(x) == k then multiset(s)[x] else 0
  {
    SelectCount(s, y => rank(y) == k, x);
  }

  /** Grouping keeps every element of rank below `n` as often as `s` has it. */
  lemma {:induction false} GroupedCount<T(!new)>(s: seq<T>, rank: T -> nat, n: nat, x: T)
    ensures multiset(Grouped(s, rank, n))[x] == if rank(x) < n then multiset(s)[x] else 0
  {
    if n > 0 {
      var k: nat := n - 1;
      GroupedCount(s, rank, k, x);
      GroupedCountStep(s, rank, k, x);
      assert k + 1 == n;
    }
  }

  /** The members of `Grouped(s, rank, n)` are those of `s` of rank below `n`. */
  lemma GroupedMembers<T(!new)>(s: seq<T>, rank: T -> nat, n: nat, x: T)
    ensures x in Grouped(s, rank, n) <==> x in s && rank(x) < n
  {
    GroupedCount(s, rank, n, x);
  }

  /** Adding the group of rank `k` adds the occurrences of rank `k`. */
  lemma GroupedCountStep<T(!new)>(s: seq<T>, rank: T -> nat, k: nat, x: T)
    requires multiset(Grouped(s, rank, k))[x] == if rank(x) < k then multiset(s)[x] else 0
    ensures multiset(Grouped(s, rank, k + 1))[x] == if rank(x) < k + 1 then multiset(s)[x] else 0
  {
    GroupCount(s, rank, k, x);
    CountAppend(Grouped(s, rank, k), Group(s, rank, k), x);
  }

  /** Grouping a sequence that ascends by `key` ascends by the rank followed by `key`. */
  lemma {:induction false} GroupedSorted<T(!new)>(s: seq<T>, rank: T -> nat, n: nat,
                                                 key: T -> seq<Atom>, key': T -> seq<Atom>)
    requires Ascending(s, key)
    requires forall x :: key'(x) == [Num(rank(x) as real)] + key(x)
    ensures Ascending(Grouped(s, rank, n), key')
  {
    if n > 0 {
      var init := Grouped(s, rank, n - 1);
      var group := Group(s, rank, n - 1);
      GroupedSorted(s, rank, n - 1, key, key');
      SelectAscending(s, x => rank(x) == n - 1, key);
      AscendingCons(group, key, key', Num((n - 1) as real));
      forall x, y | x in init && y in group ensures KeyLe(key'(x), key'(y)) {
        GroupedMembers(s, rank, n - 1, x);
        KeyLessHead(key'(x), key'(y));
      }
      AppendAscending(init, group, key');
    }
  }
}
