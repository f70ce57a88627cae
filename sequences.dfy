/** The Ruby Array operations the oracle is built from: `select`, one level of `flatten`,
    `uniq`, `&` and `inject(:'&')`, each with the membership facts the rest of the model uses. */
module Sequences {

  predicate NoDuplicates<T(==,!new)>(s: seq<T>) {
    forall i, j :: 0 <= i < j < |s| ==> s[i] != s[j]
  }

  /** `s.select { |x| p(x) }`: the elements of `s` satisfying `p`, in their order in `s`. */
  function Select<T(!new)>(s: seq<T>, p: T -> bool): (r: seq<T>)
    ensures |r| <= |s|
    ensures forall x :: x in r <==> x in s && p(x)
  {
    if s == [] then [] else (if p(s[0]) then [s[0]] else []) + Select(s[1..], p)
  }

  /** `ls.flatten` for an array of arrays: the lists one after another. */
  function Flatten<T(!new)>(ls: seq<seq<T>>): (r: seq<T>)
    ensures forall x :: x in r <==> exists i :: 0 <= i < |ls| && x in ls[i]
  {
    if ls == [] then []
    else
      assert forall i :: 0 <= i < |ls| - 1 ==> ls[..|ls| - 1][i] == ls[i];
      Flatten(ls[..|ls| - 1]) + ls[|ls| - 1]
  }

  /** `s.uniq`: the first occurrence of every element, in order. */
  function Dedup<T(==,!new)>(s: seq<T>): (r: seq<T>)
    ensures forall x :: x in r <==> x in s
    ensures NoDuplicates(r)
  {
    if s == [] then []
    else
      var d := Dedup(s[..|s| - 1]);
      assert s == s[..|s| - 1] + [s[|s| - 1]];
      if s[|s| - 1] in d then d else d + [s[|s| - 1]]
  }

  lemma {:induction false} FlattenAppend<T(!new)>(a: seq<seq<T>>, b: seq<seq<T>>)
    ensures Flatten(a + b) == Flatten(a) + Flatten(b)
  {
    if b == [] {
      assert a + b == a;
    } else {
      var init := b[..|b| - 1];
      FlattenAppend(a, init);
      assert (a + b)[..|a + b| - 1] == a + init;
      assert (a + b)[|a + b| - 1] == b[|b| - 1];
      calc {
        Flatten(a + b);
        Flatten(a + init) + b[|b| - 1];
        Flatten(a) + Flatten(init) + b[|b| - 1];
      }
    }
  }

  /** The elements of `s` that also occur in `l`, in their order in `s`. */
  function KeepIn<T(==,!new)>(s: seq<T>, l: seq<T>): (r: seq<T>)
    ensures forall x :: x in r <==> x in s && x in l
  {
    Select(s, x => x in l)
  }

  /** `a & b`: the elements of `a` that occur in `b`, duplicates removed, in `a`'s order. */
  function Intersect<T(==,!new)>(a: seq<T>, b: seq<T>): (r: seq<T>)
    ensures forall x :: x in r <==> x in a && x in b
    ensures NoDuplicates(r)
  {
    Dedup(KeepIn(a, b))
  }

  /** `ls.inject(:'&')`: the first list intersected with each of the others, left to right. */
  function Inject<T(==,!new)>(ls: seq<seq<T>>): (r: seq<T>)
    requires |ls| > 0
    ensures forall x :: x in r <==> InAll(x, ls)
  {
    if |ls| == 1 then ls[0]
    else Intersect(Inject(ls[..|ls| - 1]), ls[|ls| - 1])
  }

  predicate InAll<T(==,!new)>(x: T, ls: seq<seq<T>>) {
    forall k :: 0 <= k < |ls| ==> x in ls[k]
  }

  /** The elements of `s` that occur in every list of `ls`, in their order in `s`. */
  function KeepInAll<T(==,!new)>(s: seq<T>, ls: seq<seq<T>>): seq<T> {
    Select(s, x => InAll(x, ls))
  }

  lemma {:induction false} SelectAppend<T(!new)>(a: seq<T>, b: seq<T>, p: T -> bool)
    ensures Select(a + b, p) == Select(a, p) + Select(b, p)
  {
    if a != [] {
      assert (a + b)[0] == a[0];
      assert (a + b)[1..] == a[1..] + b;
      assert Select(a + b, p) == (if p(a[0]) then [a[0]] else []) + Select(a[1..] + b, p);
      SelectAppend(a[1..], b, p);
    } else {
      assert a + b == b;
    }
  }

  /** Two predicates that agree on the elements of `s` select the same subsequence. */
  lemma {:induction false} SelectAgree<T(!new)>(s: seq<T>, p: T -> bool, q: T -> bool)
    requires forall x :: x in s ==> p(x) == q(x)
    ensures Select(s, p) == Select(s, q)
  {
    if s != [] {
      SelectAgree(s[1..], p, q);
    }
  }

  /** Selecting twice is selecting once by the conjunction. */
  lemma {:induction false} SelectSelect<T(!new)>(s: seq<T>, p: T -> bool, q: T -> bool, pq: T -> bool)
    requires forall x :: pq(x) == (p(x) && q(x))
    ensures Select(Select(s, p), q) == Select(s, pq)
  {
    if s != [] {
      var rest := Select(s[1..], p);
      SelectSelect(s[1..], p, q, pq);
      if p(s[0]) {
        assert Select(s, p) == [s[0]] + rest;
        SelectAppend([s[0]], rest, q);
        assert Select([s[0]], q) == (if q(s[0]) then [s[0]] else []) + Select([s[0]][1..], q);
        assert [s[0]][1..] == [];
      } else {
        assert Select(s, p) == rest;
      }
    }
  }

  lemma {:induction false} SelectLast<T(!new)>(s: seq<T>, p: T -> bool)
    requires s != []
    ensures Select(s, p) == Select(s[..|s| - 1], p) + (if p(s[|s| - 1]) then [s[|s| - 1]] else [])
  {
    assert s == s[..|s| - 1] + [s[|s| - 1]];
    SelectAppend(s[..|s| - 1], [s[|s| - 1]], p);
  }

  lemma SelectSingleton<T(!new)>(y: T, p: T -> bool)
    ensures Select([y], p) == if p(y) then [y] else []
  {
    assert [y][1..] == [];
  }

  /** `uniq` of a list ending in `y`: `y` is appended unless it already occurred. */
  lemma DedupLast<T(!new)>(init: seq<T>, y: T)
    ensures Dedup(init + [y]) == if y in init then Dedup(init) else Dedup(init) + [y]
  {
    var s := init + [y];
    assert s[..|s| - 1] == init;
  }

  /** Removing duplicates and then selecting is selecting and then removing duplicates. */
  lemma {:induction false} SelectDedup<T(!new)>(s: seq<T>, p: T -> bool)
    ensures Select(Dedup(s), p) == Dedup(Select(s, p))
  {
    if s != [] {
      var init, y := s[..|s| - 1], s[|s| - 1];
      assert s == init + [y];
      SelectDedup(init, p);
      var d, sel := Dedup(init), Select(init, p);
      SelectLast(s, p);
      DedupLast(init, y);
      if y in init {
        SelectDedupKnown(sel, y, p);
      } else {
        SelectDedupFresh(init, d, sel, y, p);
      }
    }
  }

  lemma SelectDedupKnown<T(!new)>(sel: seq<T>, y: T, p: T -> bool)
    ensures Dedup(sel + (if p(y) then [y] else [])) == if p(y) && y !in sel then Dedup(sel) + [y] else Dedup(sel)
  {
    if p(y) {
      DedupLast(sel, y);
    } else {
      assert sel + [] == sel;
    }
  }

  lemma SelectDedupFresh<T(!new)>(init: seq<T>, d: seq<T>, sel: seq<T>, y: T, p: T -> bool)
    requires y !in init && sel == Select(init, p)
    requires Select(d, p) == Dedup(sel)
    ensures Select(d + [y], p) == Dedup(sel + (if p(y) then [y] else []))
  {
    SelectAppend(d, [y], p);
    SelectSingleton(y, p);
    SelectDedupKnown(sel, y, p);
  }

  /** A list without duplicates is its own `uniq`. */
  lemma {:induction false} DedupOfDistinct<T(!new)>(s: seq<T>)
    requires NoDuplicates(s)
    ensures Dedup(s) == s
  {
    if s != [] {
      var init := s[..|s| - 1];
      assert NoDuplicates(init);
      DedupOfDistinct(init);
      forall i | 0 <= i < |init|
        ensures init[i] != s[|s| - 1]
      {
        assert init[i] == s[i];
      }
      assert s == init + [s[|s| - 1]];
    }
  }

  /** The left fold of `&` keeps, in the first list's order, the distinct elements of the
      first list that occur in every other list. */
  lemma {:induction false} InjectIsKeepInAll<T(!new)>(ls: seq<seq<T>>)
    requires |ls| >= 2
    ensures Inject(ls) == Dedup(KeepInAll(ls[0], ls[1..]))
  {
    var n := |ls| - 1;
    if |ls| == 2 {
      assert ls[..1] == [ls[0]];
      SelectAgree(ls[0], x => x in ls[1], x => InAll(x, ls[1..]));
    } else {
      var front := ls[..n];
      InjectIsKeepInAll(front);
      assert front[0] == ls[0];
      var before := KeepInAll(ls[0], front[1..]);
      calc {
        Inject(ls);
        Intersect(Dedup(before), ls[n]);
        Dedup(Select(Dedup(before), x => x in ls[n]));
        { SelectDedup(before, x => x in ls[n]); }
        Dedup(Dedup(Select(before, x => x in ls[n])));
        { DedupOfDistinct(Dedup(Select(before, x => x in ls[n]))); }
        Dedup(Select(before, x => x in ls[n]));
        { assert forall x :: InAll(x, ls[1..]) == (InAll(x, front[1..]) && x in ls[n]) by {
            forall x ensures InAll(x, ls[1..]) == (InAll(x, front[1..]) && x in ls[n]) {
              assert forall k :: 0 <= k < n - 1 ==> front[1..][k] == ls[1..][k];
              assert ls[1..][n - 1] == ls[n];
            }
          }
          SelectSelect(ls[0], x => InAll(x, front[1..]), x => x in ls[n], x => InAll(x, ls[1..])); }
        Dedup(KeepInAll(ls[0], ls[1..]));
      }
    }
  }

  /** Two or more lists fold to a list without duplicates. */
  lemma InjectDistinct<T(!new)>(ls: seq<seq<T>>)
    requires |ls| >= 2
    ensures NoDuplicates(Inject(ls))
  {
    InjectIsKeepInAll(ls);
  }

  /** Selecting by a predicate every element satisfies keeps the whole list. */
  lemma {:induction false} SelectAll<T(!new)>(s: seq<T>, p: T -> bool)
    requires forall x :: x in s ==> p(x)
    ensures Select(s, p) == s
  {
    if s != [] {
      SelectAll(s[1..], p);
    }
  }

  /** `ls.any?(&:empty?) ? [] : ls.inject(:'&')`. */
  function InjectUnlessEmpty<T(==,!new)>(ls: seq<seq<T>>): (r: seq<T>)
    requires |ls| > 0
    ensures forall x :: x in r <==> InAll(x, ls)
  {
    if exists k :: 0 <= k < |ls| && ls[k] == [] then [] else Inject(ls)
  }

  /** Both forms of the intersection are the distinct elements of the first list, in order,
      that satisfy any predicate `p` telling, on the first list, which elements are in all. */
  lemma InjectUnlessEmptyIs<T(!new)>(ls: seq<seq<T>>, p: T -> bool)
    requires |ls| >= 2
    requires forall x :: x in ls[0] ==> (InAll(x, ls) <==> p(x))
    ensures InjectUnlessEmpty(ls) == Inject(ls) == Dedup(Select(ls[0], p))
  {
    InjectIsKeepInAll(ls);
    forall x | x in ls[0] ensures InAll(x, ls[1..]) == p(x) {
      assert InAll(x, ls) <==> x in ls[0] && InAll(x, ls[1..]) by {
        assert forall k :: 1 <= k < |ls| ==> ls[k] == ls[1..][k - 1];
      }
    }
    SelectAgree(ls[0], x => InAll(x, ls[1..]), p);
    if exists k :: 0 <= k < |ls| && ls[k] == [] {
      var k :| 0 <= k < |ls| && ls[k] == [];
      SelectNone(ls[0], p);
      assert Dedup<T>([]) == [];
    }
  }

  /** Selecting by a predicate no element satisfies gives the empty list. */
  lemma {:induction false} SelectNone<T(!new)>(s: seq<T>, p: T -> bool)
    requires forall x :: x in s ==> !p(x)
    ensures Select(s, p) == []
  {
    if s != [] {
      SelectNone(s[1..], p);
    }
  }

  /** If one of the lists is empty, so is the fold. */
  lemma InjectWithEmpty<T(!new)>(ls: seq<seq<T>>, k: nat)
    requires k < |ls| && ls[k] == []
    ensures Inject(ls) == []
  {
    if |ls| > 1 {
      InjectIsKeepInAll(ls);
      SelectNone(ls[0], x => InAll(x, ls[1..]));
    }
  }

  /** `select` keeps every copy of an element it keeps: the count of `x` is its count in `s`
      when `p(x)`, and none otherwise. */
  lemma {:induction false} SelectCount<T(!new)>(s: seq<T>, p: T -> bool, x: T)
    ensures multiset(Select(s, p))[x] == if p(x) then multiset(s)[x] else 0
  {
    if s != [] {
      SelectCount(s[1..], p, x);
      assert s == [s[0]] + s[1..];
    }
  }

  /** How often `x` occurs in `a + b`. */
  lemma CountAppend<T>(a: seq<T>, b: seq<T>, x: T)
    ensures multiset(a + b)[x] == multiset(a)[x] + multiset(b)[x]
  {
  }

  /** Being in every list of `a + b` is being in every list of `a` and of `b`. */
  lemma InAllAppend<T(!new)>(x: T, a: seq<seq<T>>, b: seq<seq<T>>)
    ensures InAll(x, a + b) <==> InAll(x, a) && InAll(x, b)
  {
    if InAll(x, a) && InAll(x, b) {
      forall k | 0 <= k < |a + b| ensures x in (a + b)[k] {
        if k < |a| {
          assert (a + b)[k] == a[k];
        } else {
          assert (a + b)[k] == b[k - |a|];
        }
      }
    }
    if InAll(x, a + b) {
      forall k | 0 <= k < |a| ensures x in a[k] {
        assert (a + b)[k] == a[k];
      }
      forall k | 0 <= k < |b| ensures x in b[k] {
        assert (a + b)[k + |a|] == b[k];
      }
    }
  }
}
