/** The Ruby String operations the oracle relies on, over Dafny strings (one `char` per
    character). Case mapping and the `\W` character class are the ASCII ones. */
module RubyStrings {

  predicate StartsWith(s: string, prefix: string) {
    |prefix| <= |s| && s[..|prefix|] == prefix
  }

  /** `s.include?(sub)`. */
  predicate Contains(s: string, sub: string)
    decreases |s|
  {
    StartsWith(s, sub) || (|s| > 0 && Contains(s[1..], sub))
  }

  /** A string in which the character `sub[m]` never occurs does not contain `sub`. */
  lemma {:induction false} NotContainsWithout(s: string, sub: string, m: nat)
    requires m < |sub|
    requires forall i :: 0 <= i < |s| ==> s[i] != sub[m]
    ensures !Contains(s, sub)
  {
    if |s| > 0 {
      NotContainsWithout(s[1..], sub, m);
      if |sub| <= |s| {
        assert s[..|sub|][m] == s[m];
      }
    }
  }

  /** `s.delete(c.to_s)`: every occurrence of `c` removed. */
  function Delete(s: string, c: char): (r: string)
    ensures forall i :: 0 <= i < |r| ==> r[i] != c
  {
    if s == [] then [] else (if s[0] == c then [] else [s[0]]) + Delete(s[1..], c)
  }

  lemma {:induction false} DeleteAppend(a: string, b: string, c: char)
    ensures Delete(a + b, c) == Delete(a, c) + Delete(b, c)
  {
    if a == [] {
      assert a + b == b;
    } else {
      assert (a + b)[0] == a[0] && (a + b)[1..] == a[1..] + b;
      DeleteAppend(a[1..], b, c);
    }
  }

  /** The character itself is deleted. */
  lemma DeleteItself(c: char)
    ensures Delete([c], c) == []
  {
    assert [c][1..] == [];
  }

  lemma {:induction false} DeleteAbsent(s: string, c: char)
    requires forall i :: 0 <= i < |s| ==> s[i] != c
    ensures Delete(s, c) == s
  {
    if s != [] {
      DeleteAbsent(s[1..], c);
    }
  }

  /** Every field between occurrences of `sep`, trailing empty fields included. */
  function Fields(s: string, sep: string): (r: seq<string>)
    requires |sep| > 0
    ensures |r| > 0
    decreases |s|
  {
    if StartsWith(s, sep) then [""] + Fields(s[|sep|..], sep)
    else if s == [] then [""]
    else
      var rest := Fields(s[1..], sep);
      [[s[0]] + rest[0]] + rest[1..]
  }

  function DropTrailingEmpty(fs: seq<string>): (r: seq<string>)
    ensures |r| <= |fs| && r == fs[..|r|]
    ensures r == [] || r[|r| - 1] != ""
  {
    if fs == [] then []
    else if fs[|fs| - 1] == "" then DropTrailingEmpty(fs[..|fs| - 1])
    else fs
  }

  /** `s.split(sep)` for a separator other than a single space: the fields between
      occurrences of `sep`, with trailing empty fields removed. */
  function Split(s: string, sep: string): seq<string>
    requires |sep| > 0
  {
    DropTrailingEmpty(Fields(s, sep))
  }

  /** The fields of a string that does not contain the separator: just the string itself. */
  lemma {:induction false} FieldsWithoutSeparator(s: string, sep: string)
    requires |sep| > 0 && !Contains(s, sep)
    ensures Fields(s, sep) == [s]
  {
    if s != [] {
      FieldsWithoutSeparator(s[1..], sep);
      assert [s[0]] + s[1..] == s;
    }
  }

  /** Splitting `a + sep + b` gives `a` followed by the fields of `b`, when some character
      `sep[m]` of the separator occurs neither in `a` nor earlier in the separator. */
  lemma FieldsAround(a: string, sep: string, b: string, m: nat)
    requires m < |sep|
    requires forall i :: 0 <= i < |a| ==> a[i] != sep[m]
    requires forall j :: 0 <= j < m ==> sep[j] != sep[m]
    ensures Fields(a + sep + b, sep) == [a] + Fields(b, sep)
  {
    var s := a + sep + b;
    forall i | 0 <= i < |a|
      ensures !StartsWith(s[i..], sep)
    {
      if i + m < |a| {
        assert s[i + m] == a[i + m];
      } else {
        assert s[i + m] == sep[i + m - |a|];
      }
      if |sep| <= |s[i..]| {
        assert s[i..][..|sep|][m] == s[i + m];
      }
    }
    FieldsAfterPlainPrefix(a, sep, b);
  }

  lemma {:induction false} FieldsAfterPlainPrefix(a: string, sep: string, b: string)
    requires |sep| > 0
    requires forall i :: 0 <= i < |a| ==> !StartsWith((a + sep + b)[i..], sep)
    ensures Fields(a + sep + b, sep) == [a] + Fields(b, sep)
  {
    var s := a + sep + b;
    if a == [] {
      assert s == sep + b;
      assert StartsWith(s, sep);
      assert s[|sep|..] == b;
    } else {
      assert s[0..] == s;
      assert !StartsWith(s, sep);
      assert s[1..] == a[1..] + sep + b;
      forall i | 0 <= i < |a[1..]|
        ensures !StartsWith((a[1..] + sep + b)[i..], sep)
      {
        assert (a[1..] + sep + b)[i..] == s[i + 1..];
      }
      FieldsAfterPlainPrefix(a[1..], sep, b);
      assert [a[0]] + a[1..] == a;
    }
  }

  /** Splitting `a + sep + b` where neither `a` nor `b` contains the character `sep[m]`
      (occurring only once in `sep`) and `b` is not empty gives exactly `[a, b]`. */
  lemma SplitPair(a: string, sep: string, b: string, m: nat)
    requires m < |sep| && b != []
    requires forall i :: 0 <= i < |a| ==> a[i] != sep[m]
    requires forall i :: 0 <= i < |b| ==> b[i] != sep[m]
    requires forall j :: 0 <= j < m ==> sep[j] != sep[m]
    ensures Split(a + sep + b, sep) == [a, b]
  {
    FieldsAround(a, sep, b, m);
    NotContainsWithout(b, sep, m);
    FieldsWithoutSeparator(b, sep);
  }

  predicate IsWhitespace(c: char) {
    c == ' ' || c == '\t' || c == '\n' || c == '\r' || c as int == 11 || c as int == 12
  }

  /** The leading run of non-whitespace characters. */
  function Word(s: string): (w: string)
    ensures |w| <= |s| && w == s[..|w|]
    ensures forall i :: 0 <= i < |w| ==> !IsWhitespace(w[i])
    ensures |w| < |s| ==> IsWhitespace(s[|w|])
  {
    if s == [] || IsWhitespace(s[0]) then [] else [s[0]] + Word(s[1..])
  }

  /** `s.split` with no argument: the maximal runs of non-whitespace, leading and trailing
      whitespace ignored. */
  function SplitWhitespace(s: string): (r: seq<string>)
    ensures forall k :: 0 <= k < |r| ==> r[k] != ""
    ensures forall k, i :: 0 <= k < |r| && 0 <= i < |r[k]| ==> !IsWhitespace(r[k][i])
    decreases |s|
  {
    if s == [] then []
    else if IsWhitespace(s[0]) then SplitWhitespace(s[1..])
    else
      var w := Word(s);
      [w] + SplitWhitespace(s[|w|..])
  }

  predicate NoWhitespace(w: string) {
    forall i :: 0 <= i < |w| ==> !IsWhitespace(w[i])
  }

  /** The leading word of `w + rest` is `w` when `rest` is empty or starts with whitespace. */
  lemma {:induction false} WordBefore(w: string, rest: string)
    requires NoWhitespace(w)
    requires rest == [] || IsWhitespace(rest[0])
    ensures Word(w + rest) == w
  {
    if w == [] {
      assert w + rest == rest;
    } else {
      assert (w + rest)[0] == w[0] && (w + rest)[1..] == w[1..] + rest;
      WordBefore(w[1..], rest);
    }
  }

  /** A single word splits into itself. */
  lemma SplitWhitespaceOne(a: string)
    requires a != [] && NoWhitespace(a)
    ensures SplitWhitespace(a) == [a]
  {
    WordBefore(a, []);
    assert a + [] == a;
  }

  /** Two words separated by one space split into those two words. */
  lemma SplitWhitespacePair(a: string, b: string)
    requires a != [] && NoWhitespace(a)
    requires b != [] && NoWhitespace(b)
    ensures SplitWhitespace(a + " " + b) == [a, b]
  {
    var s := a + " " + b;
    WordBefore(a, " " + b);
    assert s == a + (" " + b);
    assert s[|a|..] == " " + b;
    assert (" " + b)[1..] == b;
    SplitWhitespaceOne(b);
  }

  function DowncaseChar(c: char): char {
    if 'A' <= c <= 'Z' then (c as int + 32) as char else c
  }

  /** `s.downcase`, for the ASCII letters. */
  function Downcase(s: string): (r: string)
    ensures |r| == |s|
    ensures forall i :: 0 <= i < |s| ==> r[i] == DowncaseChar(s[i])
  {
    if s == [] then [] else [DowncaseChar(s[0])] + Downcase(s[1..])
  }

  predicate IsWordChar(c: char) {
    ('a' <= c <= 'z') || ('A' <= c <= 'Z') || ('0' <= c <= '9') || c == '_'
  }

  /** `s.gsub(/\W/, '')` (and `/\W+/`): only the word characters are kept, in order. */
  function StripNonWord(s: string): (r: string)
    ensures |r| <= |s|
    ensures forall i :: 0 <= i < |r| ==> IsWordChar(r[i])
  {
    if s == [] then [] else (if IsWordChar(s[0]) then [s[0]] else []) + StripNonWord(s[1..])
  }

  /** Stripping works piece by piece: what is kept of `a + b` is what is kept of `a` followed
      by what is kept of `b`. */
  lemma {:induction false} StripNonWordAppend(a: string, b: string)
    ensures StripNonWord(a + b) == StripNonWord(a) + StripNonWord(b)
  {
    if a == [] {
      assert a + b == b;
    } else {
      assert (a + b)[0] == a[0] && (a + b)[1..] == a[1..] + b;
      StripNonWordAppend(a[1..], b);
    }
  }

  /** A string of word characters only is left as it is. */
  lemma {:induction false} StripNonWordOfWord(s: string)
    requires forall i :: 0 <= i < |s| ==> IsWordChar(s[i])
    ensures StripNonWord(s) == s
  {
    if s != [] {
      StripNonWordOfWord(s[1..]);
    }
  }

  /** A string without word characters is stripped to nothing. */
  lemma {:induction false} StripNonWordOfNonWord(s: string)
    requires forall i :: 0 <= i < |s| ==> !IsWordChar(s[i])
    ensures StripNonWord(s) == ""
  {
    if s != [] {
      StripNonWordOfNonWord(s[1..]);
    }
  }

  /** `s.gsub(pat, '')` for a literal pattern: occurrences removed left to right, without
      rescanning what was removed around. */
  function RemoveAll(s: string, pat: string): (r: string)
    requires |pat| > 0
    ensures |r| <= |s|
    decreases |s|
  {
    if s == [] then []
    else if StartsWith(s, pat) then RemoveAll(s[|pat|..], pat)
    else [s[0]] + RemoveAll(s[1..], pat)
  }

  /** A string that does not contain the pattern is left as it is. */
  lemma {:induction false} RemoveAllAbsent(s: string, pat: string)
    requires |pat| > 0 && !Contains(s, pat)
    ensures RemoveAll(s, pat) == s
    decreases |s|
  {
    if s != [] {
      RemoveAllAbsent(s[1..], pat);
    }
  }

  /** A leading occurrence of the pattern is removed and the rest is treated alone. */
  lemma RemoveAllLeading(pat: string, s: string)
    requires |pat| > 0
    ensures RemoveAll(pat + s, pat) == RemoveAll(s, pat)
  {
    assert StartsWith(pat + s, pat) by {
      assert (pat + s)[..|pat|] == pat;
    }
    assert (pat + s)[|pat|..] == s;
  }

  /** A character that does not begin an occurrence of the pattern is kept, in front of the rest. */
  lemma RemoveAllKeeps(c: char, s: string, pat: string)
    requires |pat| > 0 && !StartsWith([c] + s, pat)
    ensures RemoveAll([c] + s, pat) == [c] + RemoveAll(s, pat)
  {
    assert ([c] + s)[1..] == s;
  }

  /** Ruby's `String#<=>` as a strict order: the first differing character decides,
      and a proper prefix comes first. */
  predicate Less(a: string, b: string) {
    if a == [] then b != []
    else if b == [] then false
    else if a[0] != b[0] then a[0] < b[0]
    else Less(a[1..], b[1..])
  }

  predicate LessOrEqual(a: string, b: string) {
    a == b || Less(a, b)
  }

  lemma {:induction false} LessIrreflexive(a: string)
    ensures !Less(a, a)
  {
    if a != [] {
      LessIrreflexive(a[1..]);
    }
  }

  lemma {:induction false} LessTransitive(a: string, b: string, c: string)
    requires Less(a, b) && Less(b, c)
    ensures Less(a, c)
  {
    if a != [] && b != [] && c != [] && a[0] == b[0] && b[0] == c[0] {
      LessTransitive(a[1..], b[1..], c[1..]);
    }
  }

  lemma {:induction false} LessTotal(a: string, b: string)
    ensures a == b || Less(a, b) || Less(b, a)
  {
    if a != [] && b != [] && a[0] == b[0] {
      LessTotal(a[1..], b[1..]);
      if a[1..] == b[1..] {
        assert a == [a[0]] + a[1..] && b == [b[0]] + b[1..];
      }
    }
  }

  lemma LessAsymmetric(a: string, b: string)
    requires Less(a, b)
    ensures !Less(b, a)
  {
    if Less(b, a) {
      LessTransitive(a, b, a);
      LessIrreflexive(a);
    }
  }

  /** `names.sort.first`: the least string of a non-empty list. */
  function Least(names: seq<string>): (r: string)
    requires |names| > 0
    ensures r in names
    ensures forall x :: x in names ==> LessOrEqual(r, x)
  {
    if |names| == 1 then names[0]
    else
      var m := Least(names[1..]);
      assert forall x :: x in names ==> x == names[0] || x in names[1..];
      LessTotal(names[0], m);
      if Less(names[0], m) then
        assert forall x :: x in names[1..] ==> LessOrEqual(names[0], x) by {
          forall x | x in names[1..] ensures LessOrEqual(names[0], x) {
            if x != m { LessTransitive(names[0], m, x); }
          }
        }
        names[0]
      else m
  }
}
