/**
 * The pairwise compatibility score of the profile form (`computeScore` in
 * formFunctions.js). A field the stored profile lacks reads as the empty
 * string or the empty list, exactly as the source's `x || ''` and `x || []`.
 */
module Scoring {
  import opened Seqs
  import opened Text

  /** One saved profile, as built by the profile form and kept in the user list. */
  datatype User = User(
    id: int,
    email: string,
    phone: string,
    name: string,
    year: string,
    major: string,
    subjects: seq<string>,
    groupSize: string,
    comfortLevel: string,
    spacePrefs: seq<string>,
    maxDistance: real,
    availableTimes: seq<string>,
    traits: seq<string>,
    goal: string,
    iceBreaker: string,
    bio: string)

  /** `{ total, subjectsMatched, timesMatched }`; totals are exact multiples of one half. */
  datatype Score = Score(total: real, subjectsMatched: nat, timesMatched: nat)

  /** What JavaScript's `Number(...)` gives for the group-size field. */
  datatype JsNumber = Num(value: int) | NaN

  predicate IsDigit(c: char) {
    '0' <= c <= '9'
  }

  predicate AllDigits(s: string) {
    forall i :: 0 <= i < |s| ==> IsDigit(s[i])
  }

  function DigitsValue(s: string): nat
    requires AllDigits(s)
  {
    if s == [] then 0 else DigitsValue(s[..|s| - 1]) * 10 + (s[|s| - 1] as int - '0' as int)
  }

  /** `Number(s)`: blank text is 0, a decimal numeral its value, anything else NaN. */
  function ToNumber(s: string): JsNumber {
    var t := Trim(s);
    if t == [] then Num(0)
    else if AllDigits(t) then Num(DigitsValue(t))
    else NaN
  }

  /** `Number(size || 1)`: a missing or empty size counts as 1. */
  function GroupNumber(size: string): JsNumber {
    if size == "" then Num(1) else ToNumber(size)
  }

  /** The two sizes differ by at most one; never when either is not a number. */
  predicate WithinOne(a: JsNumber, b: JsNumber) {
    a.Num? && b.Num? && -1 <= a.value - b.value <= 1
  }

  /** Some entry of `ys` equals `x` ignoring case. */
  predicate OccursIgnoringCase(x: string, ys: seq<string>) {
    exists j :: 0 <= j < |ys| && EqualsIgnoringCase(x, ys[j])
  }

  /**
   * `xs.map(lower).filter(s => ys.map(lower).includes(s)).length`: the
   * entries of `xs` (duplicates included) that occur in `ys` ignoring case.
   */
  function MatchCount(xs: seq<string>, ys: seq<string>): (n: nat)
    ensures n <= |xs|
  {
    var lowerYs := LowerAll(ys);
    |Filter(x => x in lowerYs, LowerAll(xs))|
  }

  /** Appending one entry to `xs` adds one to the count exactly when it occurs in `ys`. */
  lemma MatchCountAppend(xs: seq<string>, x: string, ys: seq<string>)
    ensures MatchCount(xs + [x], ys) == MatchCount(xs, ys) + if OccursIgnoringCase(x, ys) then 1 else 0
  {
    var lowerYs := LowerAll(ys);
    var p := (s: string) => s in lowerYs;
    assert LowerAll(xs + [x]) == LowerAll(xs) + [Lower(x)];
    FilterAppend(p, LowerAll(xs), [Lower(x)]);
    assert [Lower(x)][1..] == [];
    assert Lower(x) in lowerYs <==> OccursIgnoringCase(x, ys) by {
      if Lower(x) in lowerYs {
        var j :| 0 <= j < |lowerYs| && lowerYs[j] == Lower(x);
        assert EqualsIgnoringCase(x, ys[j]);
      }
    }
  }

  /** An empty list matches nothing. */
  lemma MatchCountEmpty(ys: seq<string>)
    ensures MatchCount([], ys) == 0
  {
  }

  function ComfortBonus(a: string, b: string): real {
    if Lower(a) != "" && Lower(b) != "" && Lower(a) == Lower(b) then 2.0 else 0.0
  }

  /**
   * The compatibility score of `other` from `me`'s point of view: points for
   * shared subjects, times, study spaces and traits, for close group sizes,
   * equal comfort level, major and year, and for `other` having written a bio.
   */
  function ComputeScore(me: User, other: User): (s: Score)
    ensures s.subjectsMatched <= |me.subjects| && s.timesMatched <= |me.availableTimes|
    ensures s.total >= 5.0 * s.subjectsMatched as real + 4.0 * s.timesMatched as real
    ensures s.total <= 5.0 * s.subjectsMatched as real + 4.0 * s.timesMatched as real
                       + 1.5 * |me.spacePrefs| as real + |me.traits| as real + 10.0
  {
    var subjects := MatchCount(me.subjects, other.subjects);
    var times := MatchCount(me.availableTimes, other.availableTimes);
    var group := if WithinOne(GroupNumber(me.groupSize), GroupNumber(other.groupSize)) then 3.0 else 0.0;
    var comfort := ComfortBonus(me.comfortLevel, other.comfortLevel);
    var prefs := 1.5 * MatchCount(me.spacePrefs, other.spacePrefs) as real;
    var traits := 1.0 * MatchCount(me.traits, other.traits) as real;
    var major := if EqualsIgnoringCase(me.major, other.major) then 2.0 else 0.0;
    var year := if EqualsIgnoringCase(me.year, other.year) then 2.0 else 0.0;
    var bio := if |other.bio| > 20 then 1.0 else 0.0;
    Score(5.0 * subjects as real + 4.0 * times as real + group + comfort + prefs + traits + major + year + bio,
          subjects, times)
  }

  /** Each subject of `me` found among `other`'s subjects (ignoring case) adds 5, duplicates included. */
  lemma SubjectEntryBonus(me: User, other: User, x: string)
    ensures var before := ComputeScore(me, other);
            var after := ComputeScore(me.(subjects := me.subjects + [x]), other);
            var hit := OccursIgnoringCase(x, other.subjects);
            && after.subjectsMatched == before.subjectsMatched + (if hit then 1 else 0)
            && after.total == before.total + (if hit then 5.0 else 0.0)
            && after.timesMatched == before.timesMatched
  {
    MatchCountAppend(me.subjects, x, other.subjects);
  }

  /** Each available time of `me` found among `other`'s times (ignoring case) adds 4. */
  lemma TimeEntryBonus(me: User, other: User, x: string)
    ensures var before := ComputeScore(me, other);
            var after := ComputeScore(me.(availableTimes := me.availableTimes + [x]), other);
            var hit := OccursIgnoringCase(x, other.availableTimes);
            && after.timesMatched == before.timesMatched + (if hit then 1 else 0)
            && after.total == before.total + (if hit then 4.0 else 0.0)
            && after.subjectsMatched == before.subjectsMatched
  {
    MatchCountAppend(me.availableTimes, x, other.availableTimes);
  }

  /** Each study-space preference of `me` shared with `other` (ignoring case) adds 1.5. */
  lemma SpacePrefEntryBonus(me: User, other: User, x: string)
    ensures ComputeScore(me.(spacePrefs := me.spacePrefs + [x]), other).total
            == ComputeScore(me, other).total + if OccursIgnoringCase(x, other.spacePrefs) then 1.5 else 0.0
  {
    MatchCountAppend(me.spacePrefs, x, other.spacePrefs);
  }

  /** Each personality trait of `me` shared with `other` (ignoring case) adds 1. */
  lemma TraitEntryBonus(me: User, other: User, x: string)
    ensures ComputeScore(me.(traits := me.traits + [x]), other).total
            == ComputeScore(me, other).total + if OccursIgnoringCase(x, other.traits) then 1.0 else 0.0
  {
    MatchCountAppend(me.traits, x, other.traits);
  }

  /**
   * The group-size bonus of 3 is earned exactly when the two sizes, read with
   * `Number(size || 1)`, differ by at most 1: the score equals the score with
   * both sizes cleared (which always earns the bonus), less 3 when they do not.
   */
  lemma GroupSizeBonus(me: User, other: User)
    ensures ComputeScore(me, other).total
            == ComputeScore(me.(groupSize := ""), other.(groupSize := "")).total
               - (if WithinOne(GroupNumber(me.groupSize), GroupNumber(other.groupSize)) then 0.0 else 3.0)
  {
  }

  /** A one-digit size reads as its digit. */
  lemma OneDigitSize(c: char)
    requires IsDigit(c)
    ensures GroupNumber([c]) == Num(c as int - '0' as int)
  {
    TrimTrimmed([c]);
    assert AllDigits([c]);
    assert DigitsValue([c]) == c as int - '0' as int by {
      assert [c][..0] == "";
    }
    assert ToNumber([c]) == Num(c as int - '0' as int);
  }

  /** A missing size is 1, so it sits within one of size 2 but not of size 3; text that is no numeral never does. */
  lemma GroupSizeExamples()
    ensures GroupNumber("") == Num(1)
    ensures WithinOne(GroupNumber(""), GroupNumber("2"))
    ensures !WithinOne(GroupNumber(""), GroupNumber("3"))
    ensures !WithinOne(GroupNumber("4+"), GroupNumber("4+"))
  {
    OneDigitSize('2');
    OneDigitSize('3');
    assert GroupNumber("4+") == NaN by {
      TrimTrimmed("4+");
      assert !IsDigit("4+"[1]);
    }
  }

  /** The comfort bonus of 2 needs both levels non-empty and equal ignoring case. */
  lemma ComfortLevelBonus(me: User, other: User)
    ensures ComputeScore(me, other).total
            == ComputeScore(me.(comfortLevel := ""), other).total
               + if me.comfortLevel != "" && other.comfortLevel != ""
                    && EqualsIgnoringCase(me.comfortLevel, other.comfortLevel) then 2.0 else 0.0
  {
    assert Lower("") == "";
    assert |Lower(me.comfortLevel)| == |me.comfortLevel|;
    assert |Lower(other.comfortLevel)| == |other.comfortLevel|;
  }

  /**
   * Major and year each add 2 when equal ignoring case, which includes both
   * being empty: the score equals the score with both majors and years
   * cleared (both bonuses earned), less 2 for each that differs.
   */
  lemma MajorYearBonus(me: User, other: User)
    ensures ComputeScore(me, other).total
            == ComputeScore(me.(major := "", year := ""), other.(major := "", year := "")).total
               - (if EqualsIgnoringCase(me.major, other.major) then 0.0 else 2.0)
               - (if EqualsIgnoringCase(me.year, other.year) then 0.0 else 2.0)
  {
  }

  /** Only `other`'s bio matters: more than 20 characters add 1, and `me`'s bio is ignored. */
  lemma BioBonus(me: User, other: User, myBio: string)
    ensures ComputeScore(me, other).total
            == ComputeScore(me.(bio := myBio), other.(bio := "")).total
               + if |other.bio| > 20 then 1.0 else 0.0
  {
  }

  /** `k` half points. */
  function HalfPoints(k: nat): real {
    k as real / 2.0
  }

  /** Every total is a whole number of half points. */
  lemma TotalIsHalfPoints(me: User, other: User)
    ensures exists k: nat :: HalfPoints(k) == ComputeScore(me, other).total
  {
    var k: nat := 10 * MatchCount(me.subjects, other.subjects) + 8 * MatchCount(me.availableTimes, other.availableTimes)
      + (if WithinOne(GroupNumber(me.groupSize), GroupNumber(other.groupSize)) then 6 else 0)
      + (if ComfortBonus(me.comfortLevel, other.comfortLevel) == 2.0 then 4 else 0)
      + 3 * MatchCount(me.spacePrefs, other.spacePrefs) + 2 * MatchCount(me.traits, other.traits)
      + (if EqualsIgnoringCase(me.major, other.major) then 4 else 0)
      + (if EqualsIgnoringCase(me.year, other.year) then 4 else 0)
      + (if |other.bio| > 20 then 2 else 0);
    assert HalfPoints(k) == ComputeScore(me, other).total;
  }

  /** Two profiles identical but for the bio: the score is not symmetric. */
  lemma ScoreIsNotSymmetric()
    ensures var quiet := User(1, "a@x.edu", "", "", "", "", [], "", "", [], 0.0, [], [], "", "", "");
            var talker := quiet.(id := 2, email := "b@x.edu", bio := "I like to study late at night.");
            ComputeScore(quiet, talker).total == ComputeScore(talker, quiet).total + 1.0
  {
  }
}
