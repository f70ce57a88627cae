/** What the GPA and units bucket labels mean once parsed: a "lo - hi" label of two decimal
    numerals reads as its two ends, and the boundary values fall on the side the oracle puts
    them. */
module BucketLabels {
  import opened Wrappers
  import opened RubyStrings
  import opened RubyNumbers
  import opened Students
  import opened SearchCategories

  /** A decimal numeral such as "3.50" or "120": digits and points only. */
  predicate IsNumeral(s: string) {
    |s| > 0 && forall i :: 0 <= i < |s| ==> IsDigit(s[i]) || s[i] == '.'
  }

  /** The characters of a "lo - hi" label are those of the numerals, a space and a dash. */
  lemma RangeLabelChars(lo: string, hi: string)
    requires IsNumeral(lo) && IsNumeral(hi)
    ensures forall i :: 0 <= i < |lo + " - " + hi| ==>
      IsDigit((lo + " - " + hi)[i]) || (lo + " - " + hi)[i] in ". -"
  {
    var s := lo + " - " + hi;
    forall i | 0 <= i < |s| ensures IsDigit(s[i]) || s[i] in ". -" {
      if i < |lo| {
        assert s[i] == lo[i];
      } else if i < |lo| + 3 {
        assert s[i] == " - "[i - |lo|];
      } else {
        assert s[i] == hi[i - |lo| - 3];
      }
    }
  }

  /** A "lo - hi" GPA label reads as the ends `lo` and `hi`. */
  lemma GpaRangeBounds(lo: string, hi: string)
    requires IsNumeral(lo) && IsNumeral(hi)
    ensures GpaBounds(lo + " - " + hi) == (Some(lo), Some(hi))
  {
    var s := lo + " - " + hi;
    RangeLabelChars(lo, hi);
    NotContainsWithout(s, "Below", 0);
    DeleteAppend(lo + " - ", hi, ' ');
    DeleteAppend(lo, " - ", ' ');
    DeleteAbsent(lo, ' ');
    DeleteAbsent(hi, ' ');
    assert Delete(" - ", ' ') == "-";
    SplitPair(lo, "-", hi, 0);
  }

  /** A record is in the GPA bucket "lo - hi" exactly when its GPA is present and non-zero,
      at least `lo`, and below `hi` rounded to a tenth, or at most it when `hi` is "4.00". */
  lemma GpaRangeBucket(lo: string, hi: string, u: Student)
    requires IsNumeral(lo) && IsNumeral(hi)
    ensures InGpaBucket(lo + " - " + hi, u) <==>
      u.gpa.Some? && u.gpa.value != 0.0 && ToF(lo) <= u.gpa.value
      && if hi == "4.00" then u.gpa.value <= RoundTenth(ToF(hi)) else u.gpa.value < RoundTenth(ToF(hi))
  {
    GpaRangeBounds(lo, hi);
  }

  /** "Below 2.0" takes the present non-zero GPAs under 2.0; 2.0 itself is excluded. */
  lemma BelowTwoBucket(u: Student)
    ensures InGpaBucket("Below 2.0", u) <==>
      u.gpa.Some? && u.gpa.value != 0.0 && 0.0 <= u.gpa.value < 2.0
  {
    assert StartsWith("Below 2.0", "Below");
    ReadsZero();
    ReadsTwoPointZero();
    assert RoundTenth(2.0) == 2.0;
  }

  /** "2.00 - 2.99" takes 2.0 itself and stops below 3.0: its high end rounds up to 3.0. */
  lemma LowerMiddleBucket(u: Student)
    ensures InGpaBucket("2.00 - 2.99", u) <==>
      u.gpa.Some? && 2.0 <= u.gpa.value < 3.0
  {
    GpaRangeBucket("2.00", "2.99", u);
    assert "2.00" + " - " + "2.99" == "2.00 - 2.99";
    LowerMiddleEnds();
  }

  lemma LowerMiddleEnds()
    ensures ToF("2.00") == 2.0 && RoundTenth(ToF("2.99")) == 3.0
  {
    ReadsTwo();
    ReadsTwoNinetyNine();
    assert RoundTenth(2.99) == 3.0;
  }

  lemma ReadsZero() ensures ToF("0") == 0.0 { DigitsToF("0"); }
  lemma ReadsTwoPointZero() ensures ToF("2.0") == 2.0 { DecimalReads("2", "0", 2.0); }
  lemma ReadsTwo() ensures ToF("2.00") == 2.0 { ReadsHundredths('2', '0', '0', 200); }
  lemma ReadsTwoNinetyNine() ensures ToF("2.99") == 2.99 { ReadsHundredths('2', '9', '9', 299); }
  lemma ReadsThreeFifty() ensures ToF("3.50") == 3.5 { ReadsHundredths('3', '5', '0', 350); }
  lemma ReadsFour() ensures ToF("4.00") == 4.0 { ReadsHundredths('4', '0', '0', 400); }

  /** The numeral `w.ab` reads as `n` hundredths. */
  lemma ReadsHundredths(w: char, a: char, b: char, n: int)
    requires IsDigit(w) && IsDigit(a) && IsDigit(b)
    requires n == (w as int - '0' as int) * 100 + (a as int - '0' as int) * 10 + (b as int - '0' as int)
    ensures ToF([w, '.', a, b]) == n as real / 100.0
  {
    var f := [a, b];
    assert [w] + "." + f == [w, '.', a, b];
    assert f[..1] == [a] && [a][..0] == [];
    assert DigitsValue(f) == (a as int - '0' as int) * 10 + (b as int - '0' as int);
    assert [w][..0] == [];
    assert DigitsValue([w]) == w as int - '0' as int;
    DecimalReads([w], f, n as real / 100.0);
  }

  /** The numeral `w.f` reads as `v`. */
  lemma DecimalReads(w: string, f: string, v: real)
    requires AllDigits(w) && AllDigits(f) && |f| > 0
    requires DigitsValue(w) as real + Fraction(f) == v
    ensures ToF(w + "." + f) == v
  {
    DecimalToF(w, f);
  }

  /** The top bucket "3.50 - 4.00" is closed at both ends: a GPA of 4.0 is in it. */
  lemma TopBucket(u: Student)
    ensures InGpaBucket("3.50 - 4.00", u) <==>
      u.gpa.Some? && 3.5 <= u.gpa.value <= 4.0
  {
    GpaRangeBucket("3.50", "4.00", u);
    assert "3.50" + " - " + "4.00" == "3.50 - 4.00";
    TopEnds();
  }

  lemma TopEnds()
    ensures ToF("3.50") == 3.5 && RoundTenth(ToF("4.00")) == 4.0
  {
    ReadsThreeFifty();
    ReadsFour();
    assert RoundTenth(4.0) == 4.0;
  }

  /** Any units label containing "+" takes exactly the records with at least 120 units;
      119.99 is out, 120 is in. */
  lemma PlusUnitsBucket(bucket: string, u: Student)
    requires Contains(bucket, "+")
    ensures InUnitsBucket(bucket, u) <==> u.unitsCompleted.Some? && u.unitsCompleted.value >= 120.0
  {
  }

  /** A "lo - hi" units label reads as its two ends. */
  lemma UnitsRangeBounds(lo: string, hi: string)
    requires IsNumeral(lo) && IsNumeral(hi)
    ensures !Contains(lo + " - " + hi, "+")
    ensures Split(lo + " - " + hi, " - ") == [lo, hi]
  {
    RangeLabelChars(lo, hi);
    NotContainsWithout(lo + " - " + hi, "+", 0);
    SplitPair(lo, " - ", hi, 1);
  }

  /** A record is in the units bucket "lo - hi" exactly when its units (0 when missing) are at
      least `lo` and below `hi` rounded to the nearest ten. */
  lemma UnitsRangeBucket(lo: string, hi: string, u: Student)
    requires IsNumeral(lo) && IsNumeral(hi)
    ensures InUnitsBucket(lo + " - " + hi, u) <==>
      ToF(lo) <= UnitsValue(u) < RoundTens(ToF(hi)) as real
  {
    UnitsRangeBounds(lo, hi);
  }

  /** "60 - 89" runs from 60 up to but excluding 90, since 89 rounds to 90. */
  lemma SixtyToEightyNineBucket(u: Student)
    ensures InUnitsBucket("60 - 89", u) <==> 60.0 <= UnitsValue(u) < 90.0
  {
    UnitsRangeBucket("60", "89", u);
    assert "60" + " - " + "89" == "60 - 89";
    assert DigitsValue("60") == 60;
    assert DigitsValue("89") == 89;
    DigitsToF("60");
    DigitsToF("89");
    assert RoundTens(89.0) == 90;
  }

  /** A record without units counts as 0 units, so a bucket starting at 0 takes it. */
  lemma MissingUnitsCountAsZero(u: Student)
    requires u.unitsCompleted.None?
    ensures InUnitsBucket("0 - 29", u)
  {
    UnitsRangeBucket("0", "29", u);
    assert "0" + " - " + "29" == "0 - 29";
    assert DigitsValue("29") == 29;
    DigitsToF("0");
    DigitsToF("29");
    assert RoundTens(29.0) == 30;
  }
}
