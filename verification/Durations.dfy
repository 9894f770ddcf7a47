/**
 * The two labels of a duration: digits for the eye and words for the ear.
 *
 * Both labels are texts here, written as the application writes them, and
 * `Shown` and `Spoken` read them back: they add up the counts of a label, each in
 * the unit that its first letter names. That reading does not look at how the
 * labels were made, so it says what a person is told. The digits name the whole
 * seconds below ten minutes, the whole minutes below ten hours, the whole hours
 * below ten days and the whole days from there; the words name the same quantity
 * without its seconds.
 */
module Durations {
  import opened Basics

  const MINUTE := 60
  const HOUR := 3600
  const DAY := 86400

  /* ---- the labels ---- */

  function WholeSeconds(seconds: real): nat {
    if seconds.Floor < 0 then 0 else seconds.Floor
  }

  function Decimal(n: nat): (s: string)
    ensures s != "" && forall i :: 0 <= i < |s| ==> '0' <= s[i] <= '9'
  {
    var last := [(n % 10) as char + '0'];
    if n < 10 then last else Decimal(n / 10) + last
  }

  function ElapsedLabel(seconds: real): string {
    DigitsLabel(WholeSeconds(seconds))
  }

  function DigitsLabel(total: nat): string {
    if total < 60 then Decimal(total) + "s"
    else
      var minutes := total / 60;
      if minutes < 10 then
        var rest := total % 60;
        if rest == 0 then Decimal(minutes) + "m" else Decimal(minutes) + "m " + Decimal(rest) + "s"
      else if minutes < 60 then Decimal(minutes) + "m"
      else
        var hours := minutes / 60;
        if hours < 24 then
          var rest := minutes % 60;
          if hours >= 10 || rest == 0 then Decimal(hours) + "h" else Decimal(hours) + "h " + Decimal(rest) + "m"
        else
          var days, rest := hours / 24, hours % 24;
          if days >= 10 || rest == 0 then Decimal(days) + "d" else Decimal(days) + "d " + Decimal(rest) + "h"
  }

  function Plurals(count: nat, unit: string): string {
    if count == 1 then unit else unit + "s"
  }

  function Plural(count: nat, unit: string): string {
    Decimal(count) + " " + Plurals(count, unit)
  }

  function CoarseElapsedLabel(seconds: real): string {
    SpokenLabel(WholeSeconds(seconds))
  }

  function SpokenLabel(total: nat): string {
    if total < 60 then "under a minute"
    else
      var minutes := total / 60;
      if minutes == 1 then "about a minute"
      else if minutes < 60 then "about " + Plural(minutes, "minute")
      else
        var hours, restMinutes := minutes / 60, minutes % 60;
        if hours < 24 then
          if hours >= 10 || restMinutes == 0 then
            if hours == 1 then "about an hour" else "about " + Plural(hours, "hour")
          else "about " + Plural(hours, "hour") + " " + Plural(restMinutes, "minute")
        else
          var days, restHours := hours / 24, hours % 24;
          if days >= 10 || restHours == 0 then
            if days == 1 then "about a day" else "about " + Plural(days, "day")
          else "about " + Plural(days, "day") + " " + Plural(restHours, "hour")
  }

  /* ---- what a label says ---- */

  function Value(digits: string): nat
    requires forall i :: 0 <= i < |digits| ==> '0' <= digits[i] <= '9'
    decreases |digits|
  {
    if digits == "" then 0
    else Value(digits[..|digits| - 1]) * 10 + (digits[|digits| - 1] - '0') as nat
  }

  /** A count of the unit a letter stands for, in seconds. */
  function Amount(count: nat, letter: char): nat {
    if letter == 'm' then MINUTE * count
    else if letter == 'h' then HOUR * count
    else if letter == 'd' then DAY * count
    else count
  }

  function WordEnd(s: string): (n: nat)
    ensures n <= |s| && (forall i :: 0 <= i < n ==> s[i] != ' ') && (n < |s| ==> s[n] == ' ')
  {
    if s == "" || s[0] == ' ' then 0 else 1 + WordEnd(s[1..])
  }

  /** A text starts with a count, `between` characters, and a unit. */
  predicate Counts(s: string, between: nat) {
    0 < Digits(s) && Digits(s) + between < |s|
  }

  function First(s: string, between: nat): nat
    requires Counts(s, between)
  {
    Amount(Value(s[..Digits(s)]), s[Digits(s) + between])
  }

  /** What follows the first count, after the blank behind its unit. */
  function Others(s: string, between: nat): (r: string)
    requires Counts(s, between)
    ensures |r| < |s|
  {
    var unit := s[Digits(s) + between..];
    if WordEnd(unit) == |unit| then "" else unit[WordEnd(unit) + 1..]
  }

  /** The sum of the counts of a label, each in the unit its first letter names. */
  function Sum(s: string, between: nat): nat
    decreases |s|
  {
    if Counts(s, between) then First(s, between) + Sum(Others(s, between), between) else 0
  }

  /** The seconds a label of digits names. */
  function Shown(text: string): nat {
    Sum(text, 0)
  }

  /** The seconds a spoken label names. */
  function Spoken(text: string): nat {
    if text == "about a minute" then MINUTE
    else if text == "about an hour" then HOUR
    else if text == "about a day" then DAY
    else if "about " <= text then Sum(text[6..], 1)
    else 0
  }

  lemma {:induction false} ValueOfDecimal(n: nat)
    ensures Value(Decimal(n)) == n
  {
    if n >= 10 {
      ValueOfDecimal(n / 10);
      var s := Decimal(n);
      assert s[..|s| - 1] == Decimal(n / 10);
    } else {
      assert Decimal(n)[..0] == "";
    }
  }

  lemma {:induction false} DigitsOf(s: string, rest: string)
    requires forall i :: 0 <= i < |s| ==> '0' <= s[i] <= '9'
    requires rest != "" && !('0' <= rest[0] <= '9')
    ensures Digits(s + rest) == |s|
  {
    if s == "" {
      assert s + rest == rest;
    } else {
      DigitsOf(s[1..], rest);
      assert (s + rest)[1..] == s[1..] + rest;
    }
  }

  lemma {:induction false} WordEndOf(word: string, rest: string)
    requires forall i :: 0 <= i < |word| ==> word[i] != ' '
    requires rest == "" || rest[0] == ' '
    ensures WordEnd(word + rest) == |word|
  {
    if word == "" {
      assert word + rest == rest;
    } else {
      WordEndOf(word[1..], rest);
      assert (word + rest)[1..] == word[1..] + rest;
    }
  }

  predicate Word(word: string) {
    word != "" && !('0' <= word[0] <= '9') && forall i :: 0 <= i < |word| ==> word[i] != ' '
  }

  /** `next` follows a word, after a blank unless it is empty. */
  function Behind(next: string): string {
    if next == "" then "" else " " + next
  }

  lemma AfterWord(word: string, next: string, after: string)
    requires Word(word) && after == word + Behind(next)
    ensures WordEnd(after) == |word| && after != "" && after[0] == word[0]
    ensures next == if |word| == |after| then "" else after[|word| + 1..]
  {
    WordEndOf(word, Behind(next));
  }

  lemma FirstCount(digits: string, gap: string, s: string, after: string)
    requires digits != "" && forall i :: 0 <= i < |digits| ==> '0' <= digits[i] <= '9'
    requires after != "" && s == digits + (gap + after) && (gap == "" || gap == " ")
    requires !('0' <= after[0] <= '9')
    ensures Digits(s) == |digits| && Counts(s, |gap|)
    ensures First(s, |gap|) == Amount(Value(digits), after[0])
  {
    DigitsOf(digits, gap + after);
    assert s[..|digits|] == digits;
    assert s[|digits| + |gap|] == after[0];
  }

  lemma OthersIs(s: string, between: nat, unit: string, word: nat, next: string)
    requires Counts(s, between) && unit == s[Digits(s) + between..] && word == WordEnd(unit)
    requires next == if word == |unit| then "" else unit[word + 1..]
    ensures Others(s, between) == next
  {
  }

  lemma DropTwo(a: string, b: string, c: string, s: string)
    requires s == a + (b + c)
    ensures s[|a| + |b|..] == c
  {
  }

  lemma SumIs(s: string, between: nat, amount: nat, unit: string, word: nat, next: string)
    requires Counts(s, between) && First(s, between) == amount
    requires unit == s[Digits(s) + between..] && word == WordEnd(unit)
    requires next == if word == |unit| then "" else unit[word + 1..]
    ensures Sum(s, between) == amount + Sum(next, between)
  {
    OthersIs(s, between, unit, word, next);
  }

  lemma CountRead(digits: string, gap: string, word: string, next: string, s: string, after: string)
    requires digits != "" && forall i :: 0 <= i < |digits| ==> '0' <= digits[i] <= '9'
    requires Word(word) && (gap == "" || gap == " ")
    requires after == word + Behind(next) && s == digits + (gap + after)
    ensures Digits(s) == |digits| && Counts(s, |gap|) && First(s, |gap|) == Amount(Value(digits), word[0])
    ensures s[|digits| + |gap|..] == after
  {
    assert after[0] == word[0];
    FirstCount(digits, gap, s, after);
    DropTwo(digits, gap, after, s);
  }

  /** One count and its unit, then the others. */
  lemma SumStep(digits: string, gap: string, word: string, next: string, s: string, after: string)
    requires digits != "" && forall i :: 0 <= i < |digits| ==> '0' <= digits[i] <= '9'
    requires Word(word) && (gap == "" || gap == " ")
    requires after == word + Behind(next) && s == digits + (gap + after)
    ensures Sum(s, |gap|) == Amount(Value(digits), word[0]) + Sum(next, |gap|)
  {
    AfterWord(word, next, after);
    CountRead(digits, gap, word, next, s, after);
    SumIs(s, |gap|, Amount(Value(digits), word[0]), after, |word|, next);
  }

  predicate OneUnit(unit: string) {
    |unit| == 1 && unit[0] in "smhd"
  }

  lemma UnitIsWord(unit: string)
    requires OneUnit(unit)
    ensures Word(unit)
  {
  }

  lemma CountStep(count: nat, unit: string, next: string, s: string)
    requires Word(unit) && s == Decimal(count) + ("" + (unit + Behind(next)))
    ensures Sum(s, 0) == Amount(count, unit[0]) + Sum(next, 0)
  {
    ValueOfDecimal(count);
    SumStep(Decimal(count), "", unit, next, s, unit + Behind(next));
  }

  lemma OneCount(count: nat, unit: string)
    requires OneUnit(unit)
    ensures Shown(Decimal(count) + unit) == Amount(count, unit[0])
  {
    UnitIsWord(unit);
    assert Decimal(count) + unit == Decimal(count) + ("" + (unit + ""));
    CountStep(count, unit, "", Decimal(count) + unit);
  }

  lemma Regroup(a: string, unit: string, next: string, s: string)
    requires OneUnit(unit) && next != "" && s == a + (unit + " ") + next
    ensures s == a + ("" + (unit + Behind(next)))
  {
  }

  lemma TwoCounts(count: nat, unit: string, rest: nat, small: string, next: string, s: string)
    requires OneUnit(unit) && OneUnit(small) && next == Decimal(rest) + small
    requires s == Decimal(count) + (unit + " ") + next
    ensures Shown(s) == Amount(count, unit[0]) + Amount(rest, small[0])
  {
    UnitIsWord(unit);
    OneCount(rest, small);
    Regroup(Decimal(count), unit, next, s);
    CountStep(count, unit, next, s);
  }

  /* ---- the quantity both labels name ---- */

  /** Whole seconds below ten minutes, whole minutes below ten hours, whole hours below ten days, whole
      days from there. */
  function Elapsed(total: nat): nat {
    if total < 10 * MINUTE then total
    else if total < 10 * HOUR then total - total % MINUTE
    else if total < 10 * DAY then total - total % HOUR
    else total - total % DAY
  }

  lemma Minutes(total: nat)
    ensures MINUTE * (total / 60) == total - total % MINUTE
  {
  }

  lemma Hours(total: nat)
    ensures total / 60 / 60 == total / HOUR
    ensures HOUR * (total / 60 / 60) == total - total % HOUR
    ensures HOUR * (total / 60 / 60) + MINUTE * (total / 60 % 60) == total - total % MINUTE
  {
  }

  lemma Days(total: nat)
    ensures total / 60 / 60 / 24 == total / DAY
    ensures DAY * (total / 60 / 60 / 24) == total - total % DAY
    ensures DAY * (total / 60 / 60 / 24) + HOUR * (total / 60 / 60 % 24) == total - total % HOUR
  {
  }

  lemma LabelOfMinutes(total: nat, shown: string -> nat, minutes: nat, rest: nat)
    requires 60 <= total < HOUR && minutes == total / 60 && rest == total % 60
    requires shown(Decimal(minutes) + "m") == MINUTE * minutes
    requires shown(Decimal(minutes) + "m " + Decimal(rest) + "s") == MINUTE * minutes + rest
    ensures shown(DigitsLabel(total)) == Elapsed(total)
  {
    Minutes(total);
  }

  lemma LabelOfHours(total: nat, shown: string -> nat, hours: nat, rest: nat)
    requires HOUR <= total < DAY && hours == total / 60 / 60 && rest == total / 60 % 60
    requires shown(Decimal(hours) + "h") == HOUR * hours
    requires shown(Decimal(hours) + "h " + Decimal(rest) + "m") == HOUR * hours + MINUTE * rest
    ensures shown(DigitsLabel(total)) == Elapsed(total)
  {
    Hours(total);
  }

  lemma LabelOfDays(total: nat, shown: string -> nat, days: nat, rest: nat)
    requires DAY <= total && days == total / 60 / 60 / 24 && rest == total / 60 / 60 % 24
    requires shown(Decimal(days) + "d") == DAY * days
    requires shown(Decimal(days) + "d " + Decimal(rest) + "h") == DAY * days + HOUR * rest
    ensures shown(DigitsLabel(total)) == Elapsed(total)
  {
    Days(total);
  }

  /** A label of two counts names their sum. */
  lemma ShownTwo(count: nat, unit: string, rest: nat, small: string, between: string)
    requires OneUnit(unit) && OneUnit(small) && between == unit + " "
    ensures Shown(Decimal(count) + between + Decimal(rest) + small) == Amount(count, unit[0]) + Amount(rest, small[0])
  {
    var s, next := Decimal(count) + between + Decimal(rest) + small, Decimal(rest) + small;
    assert s == Decimal(count) + (unit + " ") + next;
    TwoCounts(count, unit, rest, small, next, s);
  }

  lemma LabelBelowHour(total: nat)
    requires 60 <= total < HOUR
    ensures Shown(DigitsLabel(total)) == Elapsed(total)
  {
    var minutes, rest := total / 60, total % 60;
    assert Amount(minutes, "m"[0]) == MINUTE * minutes && Amount(rest, "s"[0]) == rest;
    OneCount(minutes, "m");
    ShownTwo(minutes, "m", rest, "s", "m ");
    LabelOfMinutes(total, Shown, minutes, rest);
  }

  lemma LabelBelowDay(total: nat)
    requires HOUR <= total < DAY
    ensures Shown(DigitsLabel(total)) == Elapsed(total)
  {
    OneCount(total / 60 / 60, "h");
    ShownTwo(total / 60 / 60, "h", total / 60 % 60, "m", "h ");
    LabelOfHours(total, Shown, total / 60 / 60, total / 60 % 60);
  }

  lemma LabelFromDay(total: nat)
    requires DAY <= total
    ensures Shown(DigitsLabel(total)) == Elapsed(total)
  {
    OneCount(total / 60 / 60 / 24, "d");
    ShownTwo(total / 60 / 60 / 24, "d", total / 60 / 60 % 24, "h", "d ");
    LabelOfDays(total, Shown, total / 60 / 60 / 24, total / 60 / 60 % 24);
  }

  /** The label of digits names this quantity. */
  lemma LabelShowsElapsed(seconds: real)
    ensures Shown(ElapsedLabel(seconds)) == Elapsed(WholeSeconds(seconds))
  {
    var total := WholeSeconds(seconds);
    if total < 60 {
      OneCount(total, "s");
    } else if total < HOUR {
      LabelBelowHour(total);
    } else if total < DAY {
      LabelBelowDay(total);
    } else {
      LabelFromDay(total);
    }
  }

  /** The quantity never exceeds the time and is less than a tenth of it short. */
  lemma ElapsedIsClose(total: nat)
    ensures Elapsed(total) <= total && (total > 0 ==> 10 * (total - Elapsed(total)) < total)
  {
  }

  lemma FloorsKeepOrder(a: nat, b: nat)
    ensures a <= b ==> a - a % MINUTE <= b - b % MINUTE && a - a % HOUR <= b - b % HOUR && a - a % DAY <= b - b % DAY
  {
    assert a <= b ==> a / MINUTE <= b / MINUTE && a / HOUR <= b / HOUR && a / DAY <= b / DAY;
  }

  /** The quantity never falls as time passes. */
  lemma ElapsedNeverFalls(total: nat, later: nat)
    requires total <= later
    ensures Elapsed(total) <= Elapsed(later)
  {
    FloorsKeepOrder(total, later);
    FloorsKeepOrder(10 * MINUTE, later);
    FloorsKeepOrder(10 * HOUR, later);
    FloorsKeepOrder(10 * DAY, later);
  }

  /* ---- the spoken label ---- */

  /** The quantity without its seconds. */
  function ElapsedMinutes(total: nat): nat {
    Elapsed(total) - Elapsed(total) % MINUTE
  }

  /** A counted unit, then the others. */
  lemma PluralSum(count: nat, unit: string, next: string)
    requires Word(unit)
    ensures Sum(Plural(count, unit) + Behind(next), 1) == Amount(count, unit[0]) + Sum(next, 1)
  {
    var word := Plurals(count, unit);
    var after := word + Behind(next);
    PluralIsWord(count, unit);
    Regrouped(Decimal(count), word, Behind(next));
    ValueOfDecimal(count);
    SumStep(Decimal(count), " ", word, next, Plural(count, unit) + Behind(next), after);
  }

  lemma Regrouped(digits: string, word: string, tail: string)
    ensures digits + " " + word + tail == digits + (" " + (word + tail))
  {
  }

  lemma PluralIsWord(count: nat, unit: string)
    requires Word(unit)
    ensures Word(Plurals(count, unit)) && Plurals(count, unit)[0] == unit[0]
  {
  }

  lemma SpokenSum(phrase: string, text: string)
    requires text == "about " + phrase && phrase != "" && '0' <= phrase[0] <= '9'
    ensures Spoken(text) == Sum(phrase, 1)
  {
    assert text[6] == phrase[0];
    assert text[6..] == phrase;
  }

  lemma SpokenOne(count: nat, unit: string)
    requires Word(unit)
    ensures Spoken("about " + Plural(count, unit)) == Amount(count, unit[0])
  {
    PluralSum(count, unit, "");
    assert Plural(count, unit) + "" == Plural(count, unit);
    assert Plural(count, unit)[0] == Decimal(count)[0];
    SpokenSum(Plural(count, unit), "about " + Plural(count, unit));
  }

  lemma TwoPlurals(first: string, second: string)
    requires second != ""
    ensures "about " + first + " " + second == "about " + (first + Behind(second))
  {
  }

  lemma PhraseSum(count: nat, unit: string, rest: nat, small: string)
    requires Word(unit) && Word(small)
    ensures Sum(Plural(count, unit) + Behind(Plural(rest, small)), 1) == Amount(count, unit[0]) + Amount(rest, small[0])
  {
    PluralSum(rest, small, "");
    assert Plural(rest, small) + "" == Plural(rest, small);
    PluralSum(count, unit, Plural(rest, small));
  }

  lemma SpokenTwo(count: nat, unit: string, rest: nat, small: string, text: string)
    requires Word(unit) && Word(small)
    requires text == "about " + Plural(count, unit) + " " + Plural(rest, small)
    ensures Spoken(text) == Amount(count, unit[0]) + Amount(rest, small[0])
  {
    PhraseSum(count, unit, rest, small);
    TwoPlurals(Plural(count, unit), Plural(rest, small));
    assert Plural(count, unit)[0] == Decimal(count)[0];
    SpokenSum(Plural(count, unit) + Behind(Plural(rest, small)), text);
  }

  lemma SpokenOfMinutes(total: nat, spoken: string -> nat, minutes: nat)
    requires 60 <= total < HOUR && minutes == total / 60
    requires minutes == 1 ==> spoken("about a minute") == MINUTE
    requires minutes != 1 ==> spoken("about " + Plural(minutes, "minute")) == MINUTE * minutes
    ensures spoken(SpokenLabel(total)) == ElapsedMinutes(total)
  {
    Minutes(total);
  }

  lemma SpokenOfHours(total: nat, spoken: string -> nat, hours: nat, rest: nat)
    requires HOUR <= total < DAY && hours == total / 60 / 60 && rest == total / 60 % 60
    requires hours == 1 && rest == 0 ==> spoken("about an hour") == HOUR
    requires hours != 1 && (hours >= 10 || rest == 0) ==> spoken("about " + Plural(hours, "hour")) == HOUR * hours
    requires hours < 10 && rest != 0 ==>
      spoken("about " + Plural(hours, "hour") + " " + Plural(rest, "minute")) == HOUR * hours + MINUTE * rest
    ensures spoken(SpokenLabel(total)) == ElapsedMinutes(total)
  {
    Hours(total);
  }

  lemma SpokenOfDays(total: nat, spoken: string -> nat, days: nat, rest: nat)
    requires DAY <= total && days == total / 60 / 60 / 24 && rest == total / 60 / 60 % 24
    requires days == 1 && rest == 0 ==> spoken("about a day") == DAY
    requires days != 1 && (days >= 10 || rest == 0) ==> spoken("about " + Plural(days, "day")) == DAY * days
    requires days < 10 && rest != 0 ==>
      spoken("about " + Plural(days, "day") + " " + Plural(rest, "hour")) == DAY * days + HOUR * rest
    ensures spoken(SpokenLabel(total)) == ElapsedMinutes(total)
  {
    Days(total);
  }

  lemma Articles()
    ensures Spoken("about a minute") == MINUTE
    ensures Spoken("about an hour") == HOUR
    ensures Spoken("about a day") == DAY
  {
    assert "about a minute"[6] == 'a' && "about a minute"[7] == ' ' && "about an hour"[7] == 'n'
      && "about a day"[8] == 'd';
  }

  lemma SpokenBelowHour(total: nat)
    requires 60 <= total < HOUR
    ensures Spoken(SpokenLabel(total)) == ElapsedMinutes(total)
  {
    if total / 60 == 1 {
      Articles();
    } else {
      SpokenOne(total / 60, "minute");
    }
    SpokenOfMinutes(total, Spoken, total / 60);
  }

  lemma SpokenBelowDay(total: nat)
    requires HOUR <= total < DAY
    ensures Spoken(SpokenLabel(total)) == ElapsedMinutes(total)
  {
    var hours, rest := total / 60 / 60, total / 60 % 60;
    if hours < 10 && rest != 0 {
      SpokenTwo(hours, "hour", rest, "minute", "about " + Plural(hours, "hour") + " " + Plural(rest, "minute"));
      SpokenOfHours(total, Spoken, hours, rest);
    } else if hours == 1 {
      Articles();
      SpokenOfHours(total, Spoken, hours, rest);
    } else {
      SpokenOne(hours, "hour");
      SpokenOfHours(total, Spoken, hours, rest);
    }
  }

  lemma SpokenFromDay(total: nat)
    requires DAY <= total
    ensures Spoken(SpokenLabel(total)) == ElapsedMinutes(total)
  {
    var days, rest := total / 60 / 60 / 24, total / 60 / 60 % 24;
    if days < 10 && rest != 0 {
      SpokenTwo(days, "day", rest, "hour", "about " + Plural(days, "day") + " " + Plural(rest, "hour"));
      SpokenOfDays(total, Spoken, days, rest);
    } else if days == 1 {
      Articles();
      SpokenOfDays(total, Spoken, days, rest);
    } else {
      SpokenOne(days, "day");
      SpokenOfDays(total, Spoken, days, rest);
    }
  }

  /** From one minute up the spoken label names what the digits show, without the seconds; below, it
      says so. */
  lemma LabelsAgree(seconds: real)
    ensures var total := WholeSeconds(seconds);
      if total < MINUTE then CoarseElapsedLabel(seconds) == "under a minute"
      else Spoken(CoarseElapsedLabel(seconds)) == Shown(ElapsedLabel(seconds)) - Shown(ElapsedLabel(seconds)) % MINUTE
  {
    var total := WholeSeconds(seconds);
    LabelShowsElapsed(seconds);
    if MINUTE <= total < HOUR {
      SpokenBelowHour(total);
    } else if HOUR <= total < DAY {
      SpokenBelowDay(total);
    } else if DAY <= total {
      SpokenFromDay(total);
    }
  }

  /* ---- the length of the label ---- */

  lemma {:induction false} DecimalLength(n: nat)
    ensures |Decimal(n)| <= 1 <==> n < 10
    ensures |Decimal(n)| <= 2 <==> n < 100
    ensures |Decimal(n)| <= 3 <==> n < 1000
    ensures |Decimal(n)| <= 4 <==> n < 10000
    ensures |Decimal(n)| <= 5 <==> n < 100000
  {
    if n >= 10 {
      DecimalLength(n / 10);
    }
  }

  /** The label of digits has at most six characters exactly below 100,000 days. */
  lemma SixCharactersExactly(seconds: real)
    ensures |ElapsedLabel(seconds)| <= 6 <==> WholeSeconds(seconds) < 100000 * DAY
  {
    var total := WholeSeconds(seconds);
    var minutes, hours, days := total / 60, total / 60 / 60, total / 60 / 60 / 24;
    Days(total);
    DecimalLength(total);
    DecimalLength(minutes);
    DecimalLength(hours);
    DecimalLength(days);
    DecimalLength(total % 60);
    DecimalLength(minutes % 60);
    DecimalLength(hours % 24);
  }

  /** From 100,000 days on the label has more. */
  lemma SevenCharacters()
    ensures |ElapsedLabel((100000 * DAY) as real)| > 6
  {
    SixCharactersExactly((100000 * DAY) as real);
  }
}
