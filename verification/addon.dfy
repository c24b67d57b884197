/** The two pure helpers of the Stremio add-on server: turning a stored
    duration such as "1:02:30" into minutes, and rewriting a compact
    upload date "20250131" as "2025-01-31". */
module Addon {
  import opened Text
  import opened Json
  import opened Wrappers

  // ---------------------------------------------------------------------
  // durationToMinutes
  // ---------------------------------------------------------------------

  /** A JavaScript number, computed exactly: a real or NaN. */
  datatype Number = Finite(value: real) | NaN

  /** `Number(part)` for one piece of a duration: a run of decimal digits
      (possibly empty, which JavaScript reads as 0) gives its value, and
      any other text gives NaN. */
  function PartNumber(part: string): Number {
    if AllDigits(part) then Finite(DigitsValue(part) as real) else NaN
  }

  function Plus(a: Number, b: Number): Number {
    if a.Finite? && b.Finite? then Finite(a.value + b.value) else NaN
  }

  function Scale(a: Number, k: real): Number {
    if a.Finite? then Finite(a.value * k) else NaN
  }

  /** `durationToMinutes(duration)`: 0 for a missing, empty or non-string
      argument; otherwise the colon-separated parts read as hours, minutes
      and seconds (3 parts), minutes and seconds (2 parts) or minutes
      (1 part), and 0 again for 4 or more parts. */
  function DurationToMinutes(duration: Value): (r: Number)
    ensures !Truthy(duration) || !duration.Str? ==> r == Finite(0.0)
    ensures r.Finite? ==> r.value >= 0.0
  {
    if !Truthy(duration) || !duration.Str? then Finite(0.0)
    else
      var parts := Split(duration.s, ':');
      if |parts| == 3 then
        Plus(Plus(Scale(PartNumber(parts[0]), 60.0), PartNumber(parts[1])), Scale(PartNumber(parts[2]), 1.0 / 60.0))
      else if |parts| == 2 then
        Plus(PartNumber(parts[0]), Scale(PartNumber(parts[1]), 1.0 / 60.0))
      else if |parts| == 1 then
        PartNumber(parts[0])
      else
        Finite(0.0)
  }

  lemma DigitsHaveNoColon(x: string)
    requires AllDigits(x)
    ensures ':' !in x
  {
  }

  /** "h:m:s" is h hours, m minutes and s seconds, in minutes. */
  lemma DurationHoursMinutesSeconds(h: string, m: string, s: string)
    requires AllDigits(h) && AllDigits(m) && AllDigits(s)
    ensures DurationToMinutes(Str(h + ":" + m + ":" + s))
         == Finite(DigitsValue(h) as real * 60.0 + DigitsValue(m) as real + DigitsValue(s) as real / 60.0)
  {
    var text := h + ":" + m + ":" + s;
    SplitThree(h, m, s);
    assert |text| == |h| + |m| + |s| + 2;
    DurationOfThreeParts(text, h, m, s);
    ThreePartsValue(h, m, s);
  }

  lemma DurationOfThreeParts(text: string, a: string, b: string, c: string)
    requires text != "" && Split(text, ':') == [a, b, c]
    ensures DurationToMinutes(Str(text))
         == Plus(Plus(Scale(PartNumber(a), 60.0), PartNumber(b)), Scale(PartNumber(c), 1.0 / 60.0))
  {
  }

  lemma ThreePartsValue(h: string, m: string, s: string)
    requires AllDigits(h) && AllDigits(m) && AllDigits(s)
    ensures Plus(Plus(Scale(PartNumber(h), 60.0), PartNumber(m)), Scale(PartNumber(s), 1.0 / 60.0))
         == Finite(DigitsValue(h) as real * 60.0 + DigitsValue(m) as real + DigitsValue(s) as real / 60.0)
  {
    var sv := DigitsValue(s) as real;
    assert sv * (1.0 / 60.0) == sv / 60.0;
  }

  lemma SplitThree(h: string, m: string, s: string)
    requires AllDigits(h) && AllDigits(m) && AllDigits(s)
    ensures Split(h + ":" + m + ":" + s, ':') == [h, m, s]
  {
    DigitsHaveNoColon(h);
    DigitsHaveNoColon(m);
    DigitsHaveNoColon(s);
    SplitNoSeparator(s, ':');
    SplitAtSeparator(m, s, ':');
    SplitAtSeparator(h, m + ":" + s, ':');
    assert h + ":" + m + ":" + s == h + [':'] + (m + [':'] + s);
  }

  /** "m:s" is m minutes and s seconds, in minutes. */
  lemma DurationMinutesSeconds(m: string, s: string)
    requires AllDigits(m) && AllDigits(s)
    ensures DurationToMinutes(Str(m + ":" + s))
         == Finite(DigitsValue(m) as real + DigitsValue(s) as real / 60.0)
  {
    DigitsHaveNoColon(m);
    DigitsHaveNoColon(s);
    SplitNoSeparator(s, ':');
    SplitAtSeparator(m, s, ':');
    var text := m + ":" + s;
    assert |text| == |m| + |s| + 1;
    DurationOfTwoParts(text, m, s);
    var sv := DigitsValue(s) as real;
    assert sv * (1.0 / 60.0) == sv / 60.0;
  }

  lemma DurationOfTwoParts(text: string, a: string, b: string)
    requires text != "" && Split(text, ':') == [a, b]
    ensures DurationToMinutes(Str(text)) == Plus(PartNumber(a), Scale(PartNumber(b), 1.0 / 60.0))
  {
  }

  /** A single non-empty run of digits is read as minutes. */
  lemma DurationMinutesOnly(m: string)
    requires AllDigits(m) && m != ""
    ensures DurationToMinutes(Str(m)) == Finite(DigitsValue(m) as real)
  {
    DigitsHaveNoColon(m);
    SplitNoSeparator(m, ':');
  }

  /** The final `return 0` is taken exactly for strings with three or more
      colons (four or more parts): splitting never yields zero parts. */
  lemma DurationManyParts(s: string)
    requires Occurrences(s, ':') >= 3
    ensures DurationToMinutes(Str(s)) == Finite(0.0)
  {
    SplitCount(s, ':');
  }

  /** With at most two colons, the result is NaN exactly when the string
      holds a character that is neither a digit nor a colon. */
  lemma {:induction false} DurationNaN(s: string)
    requires s != "" && Occurrences(s, ':') <= 2
    ensures DurationToMinutes(Str(s)).NaN? <==> exists i :: 0 <= i < |s| && !IsDigit(s[i]) && s[i] != ':'
  {
    var parts := Split(s, ':');
    SplitCount(s, ':');
    SplitDigits(s, ':');
    assert Truthy(Str(s));
    assert DurationToMinutes(Str(s)).NaN? <==> exists k :: 0 <= k < |parts| && !AllDigits(parts[k]);
  }

  /** Every part of a split is all digits exactly when every character of
      the string is a digit or the separator. */
  lemma {:induction false} SplitDigits(s: string, sep: char)
    requires !IsDigit(sep)
    ensures PartsAllDigits(Split(s, sep)) <==> DigitsOrSeparator(s, sep)
  {
    if s != [] {
      SplitDigits(s[1..], sep);
      var rest := Split(s[1..], sep);
      var parts := Split(s, sep);
      assert DigitsOrSeparator(s, sep) <==> (IsDigit(s[0]) || s[0] == sep) && DigitsOrSeparator(s[1..], sep) by {
        assert forall i :: 1 <= i < |s| ==> s[i] == s[1..][i - 1];
      }
      if s[0] == sep {
        assert parts == [""] + rest;
        PartsAllDigitsCons("", rest);
      } else {
        assert parts == [[s[0]] + rest[0]] + rest[1..];
        assert rest == [rest[0]] + rest[1..];
        PartsAllDigitsCons([s[0]] + rest[0], rest[1..]);
        PartsAllDigitsCons(rest[0], rest[1..]);
        AllDigitsConcat([s[0]], rest[0]);
        assert AllDigits([s[0]]) <==> IsDigit(s[0]) by { assert [s[0]][0] == s[0]; }
      }
    }
  }

  lemma AllDigitsConcat(a: string, b: string)
    ensures AllDigits(a + b) <==> AllDigits(a) && AllDigits(b)
  {
    if AllDigits(a + b) {
      assert forall i :: 0 <= i < |a| ==> a[i] == (a + b)[i];
      assert forall i :: 0 <= i < |b| ==> b[i] == (a + b)[|a| + i];
    }
  }

  lemma PartsAllDigitsCons(p: string, ps: seq<string>)
    ensures PartsAllDigits([p] + ps) <==> AllDigits(p) && PartsAllDigits(ps)
  {
    var all := [p] + ps;
    assert all[0] == p;
    assert forall k :: 0 <= k < |ps| ==> ps[k] == all[k + 1];
    if AllDigits(p) && PartsAllDigits(ps) {
      forall k | 0 <= k < |all| ensures AllDigits(all[k]) {
        if k > 0 { assert all[k] == ps[k - 1]; }
      }
    }
  }

  predicate PartsAllDigits(parts: seq<string>) {
    forall k :: 0 <= k < |parts| ==> AllDigits(parts[k])
  }

  predicate DigitsOrSeparator(s: string, sep: char) {
    forall i :: 0 <= i < |s| ==> IsDigit(s[i]) || s[i] == sep
  }

  /** The `runtime` label of a catalog entry: the minutes rounded down,
      followed by " min". */
  function RuntimeLabel(minutes: Number): string
    requires minutes.Finite? ==> minutes.value >= 0.0
  {
    (if minutes.NaN? then "NaN" else NatToString(minutes.value.Floor)) + " min"
  }

  /** The label's number is the whole number of minutes: reading it back
      gives the largest integer not above the duration. */
  lemma RuntimeLabelFloor(minutes: real)
    requires minutes >= 0.0
    ensures var shown := RuntimeLabel(Finite(minutes));
      && EndsWith(shown, " min")
      && AllDigits(shown[..|shown| - 4])
      && var k := DigitsValue(shown[..|shown| - 4]);
         k as real <= minutes < k as real + 1.0
  {
    var shown := RuntimeLabel(Finite(minutes));
    var digits := NatToString(minutes.Floor);
    assert shown[..|shown| - 4] == digits;
    NatToStringRoundTrip(minutes.Floor);
  }

  // ---------------------------------------------------------------------
  // formatDate
  // ---------------------------------------------------------------------

  /** Eight decimal digits start at index `k` of `s`: a match of
      `(\d{4})(\d{2})(\d{2})` there. */
  predicate RunAt(s: string, k: int) {
    0 <= k && k + 8 <= |s| && forall j :: k <= j < k + 8 ==> IsDigit(s[j])
  }

  /** `k` is where the regular expression matches first. */
  predicate LeftmostRun(s: string, k: int) {
    RunAt(s, k) && forall j :: 0 <= j < k ==> !RunAt(s, j)
  }

  /** The first index at or after `from` where an 8-digit run starts. */
  function FirstRun(s: string, from: nat): (r: Option<nat>)
    ensures r.Some? ==>
      && from <= r.value && RunAt(s, r.value)
      && forall j :: from <= j < r.value ==> !RunAt(s, j)
    ensures r.None? ==> forall j :: from <= j ==> !RunAt(s, j)
    decreases |s| - from
  {
    if from + 8 > |s| then None
    else if RunAt(s, from) then Some(from)
    else FirstRun(s, from + 1)
  }

  /** The match at `k` replaced by "$1-$2-$3". */
  function Dashed(s: string, k: nat): string
    requires k + 8 <= |s|
  {
    s[..k + 4] + "-" + s[k + 4..k + 6] + "-" + s[k + 6..]
  }

  /** `formatDate(date)`: undefined for a missing, empty or non-string date;
      otherwise the first 8-digit run rewritten as "dddd-dd-dd" and the rest
      of the string left as it is. */
  function FormatDate(date: Value): (r: Option<string>)
    ensures !Truthy(date) || !date.Str? ==> r == None
    ensures Truthy(date) && date.Str? ==> r.Some?
    ensures r.Some? && (forall k :: !RunAt(date.s, k)) ==> r.value == date.s
    ensures r.Some? ==> forall k :: LeftmostRun(date.s, k) ==>
      && |r.value| == |date.s| + 2
      && r.value[..k + 4] == date.s[..k + 4]
      && r.value[k + 4] == '-'
      && r.value[k + 5..k + 7] == date.s[k + 4..k + 6]
      && r.value[k + 7] == '-'
      && r.value[k + 8..] == date.s[k + 6..]
  {
    if !Truthy(date) || !date.Str? then None
    else
      match FirstRun(date.s, 0)
      case None => Some(date.s)
      case Some(k) => Some(Dashed(date.s, k))
  }

  /** Deleting the two inserted dashes gives back the original date string,
      so formatting loses nothing. */
  lemma FormatDateUndo(s: string, k: nat)
    requires LeftmostRun(s, k)
    ensures var t := FormatDate(Str(s)).value;
      t[..k + 4] + t[k + 5..k + 7] + t[k + 8..] == s
  {
    var t := FormatDate(Str(s)).value;
    assert t[..k + 4] + t[k + 5..k + 7] + t[k + 8..] == s[..k + 4] + s[k + 4..k + 6] + s[k + 6..];
    assert s == s[..k + 4] + s[k + 4..k + 6] + s[k + 6..];
  }

  /** A string changes under formatting exactly when it holds 8 digits in a row. */
  lemma FormatDateChanges(s: string)
    requires s != ""
    ensures FormatDate(Str(s)) != Some(s) <==> exists k :: RunAt(s, k)
  {
    if exists k :: RunAt(s, k) {
      var r := FirstRun(s, 0);
      assert r.Some?;
      var t := FormatDate(Str(s)).value;
      assert |t| == |s| + 2;
    }
  }

  /** The upload-date format written by the scraper becomes an ISO date. */
  lemma FormatDateExample()
    ensures FormatDate(Str("20250101")) == Some("2025-01-01")
  {
    var d := "20250101";
    assert RunAt(d, 0);
    assert FirstRun(d, 0) == Some(0);
    assert Dashed(d, 0) == "2025-01-01";
  }
}
