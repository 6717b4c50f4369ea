/**
 * The ISO-8601 duration codec of `src/utils/durationFormatter.js`: the
 * `PTnHnMnS` form with designators (days, weeks and years are not part of the
 * pattern the code matches).
 */
module Duration {
  import opened Optional
  import opened Text

  /** Length of the run of decimal digits that starts at `i` (`\d+`, greedy). */
  function DigitRun(s: string, i: nat): (k: nat)
    requires i <= |s|
    ensures i + k <= |s|
    ensures forall j :: i <= j < i + k ==> IsDigit(s[j])
    ensures i + k == |s| || !IsDigit(s[i + k])
    decreases |s| - i
  {
    if i < |s| && IsDigit(s[i]) then 1 + DigitRun(s, i + 1) else 0
  }

  /**
   * The optional group `(\d+X)?` tried at position `i`, with `parseInt(..) || 0`
   * applied to it: the number and the position after the designator, or `(0, i)`
   * when the group does not match there.
   */
  function Component(s: string, i: nat, designator: char): (r: (nat, nat))
    requires i <= |s|
    ensures i <= r.1 <= |s|
  {
    var k := DigitRun(s, i);
    if k > 0 && i + k < |s| && s[i + k] == designator then (DigitsValue(s[i..i + k]), i + k + 1)
    else (0, i)
  }

  /** The first index at or after `from` where "PT" occurs: where the unanchored match starts. */
  function FindPT(s: string, from: nat): (r: Option<nat>)
    ensures r.Some? ==> from <= r.value && OccursAt(s, "PT", r.value)
    ensures forall j :: from <= j && (r.None? || j < r.value) ==> !OccursAt(s, "PT", j)
    decreases |s| - from
  {
    if from + 2 > |s| then None
    else if s[from] == 'P' && s[from + 1] == 'T' then Some(from)
    else FindPT(s, from + 1)
  }

  datatype Components = Components(hours: nat, minutes: nat, seconds: nat)

  /** The three optional groups read one after the other, starting after the "PT" found at `p`. */
  function GroupsAt(s: string, p: nat): Components
    requires p + 2 <= |s|
  {
    var hours := Component(s, p + 2, 'H');
    var minutes := Component(s, hours.1, 'M');
    var seconds := Component(s, minutes.1, 'S');
    Components(hours.0, minutes.0, seconds.0)
  }

  /**
   * `iso.match(/PT(\d+H)?(\d+M)?(\d+S)?/)` followed by `parseInt(match[k]) || 0`
   * for each group: `None` when "PT" does not occur, otherwise the three numbers
   * (an absent group gives 0).
   */
  function MatchDuration(s: string): (r: Option<Components>)
    ensures r.None? <==> !Contains(s, "PT")
  {
    match FindPT(s, 0)
    case None => None
    case Some(p) => Some(GroupsAt(s, p))
  }

  function TotalSeconds(c: Components): nat {
    c.hours * 3600 + c.minutes * 60 + c.seconds
  }

  /** `parseDuration`: the number of seconds an ISO-8601 duration denotes; 0 for a missing, empty or unmatched one. */
  function ParseDuration(iso: Option<string>): (r: nat)
    ensures iso.None? || iso == Some("") ==> r == 0
    ensures iso.Some? && !Contains(iso.value, "PT") ==> r == 0
  {
    if iso.None? || iso.value == "" then 0
    else
      match MatchDuration(iso.value)
      case None => 0
      case Some(c) => TotalSeconds(c)
  }

  /** `formatDuration`: `h:mm:ss` when there are hours, `m:ss` otherwise; "0:00" for missing or unmatched input. */
  function FormatDuration(iso: Option<string>): (r: string)
    ensures iso.None? || iso == Some("") ==> r == "0:00"
  {
    if iso.None? || iso.value == "" then "0:00"
    else
      match MatchDuration(iso.value)
      case None => "0:00"
      case Some(c) => ClockText(c)
  }

  /** The `h:mm:ss` / `m:ss` rendering of matched components. */
  function ClockText(c: Components): string {
    if c.hours > 0 then NatToString(c.hours) + ":" + Pad2(c.minutes) + ":" + Pad2(c.seconds)
    else NatToString(c.minutes) + ":" + Pad2(c.seconds)
  }

  /** `parts.join(' ')`. */
  function Join(parts: seq<string>, sep: string): string {
    if |parts| == 0 then ""
    else if |parts| == 1 then parts[0]
    else parts[0] + sep + Join(parts[1..], sep)
  }

  /** The words of the long form: each non-zero component with its unit, and the seconds also when nothing else was printed. */
  function LongWords(c: Components): (w: seq<string>)
    ensures 1 <= |w| <= 3
  {
    (if c.hours > 0 then [NatToString(c.hours) + "h"] else [])
    + (if c.minutes > 0 then [NatToString(c.minutes) + "m"] else [])
    + (if c.seconds > 0 || (c.hours == 0 && c.minutes == 0) then [NatToString(c.seconds) + "s"] else [])
  }

  /** The value `formatDurationLong` computes. */
  function LongForm(iso: Option<string>): string {
    if iso.None? || iso.value == "" then "0s"
    else
      match MatchDuration(iso.value)
      case None => "0s"
      case Some(c) => Join(LongWords(c), " ")
  }

  /** `formatDurationLong`: collects the words in `parts` and joins them with spaces. */
  method FormatDurationLong(iso: Option<string>) returns (r: string)
    ensures r == LongForm(iso)
    ensures r == "0s" <==> ParseDuration(iso) == 0
  {
    if iso.None? || iso.value == "" {
      return "0s";
    }
    var found := MatchDuration(iso.value);
    if found.None? {
      return "0s";
    }
    var c := found.value;
    var parts: seq<string> := [];
    if c.hours > 0 { parts := parts + [NatToString(c.hours) + "h"]; }
    if c.minutes > 0 { parts := parts + [NatToString(c.minutes) + "m"]; }
    if c.seconds > 0 || |parts| == 0 { parts := parts + [NatToString(c.seconds) + "s"]; }
    assert parts == LongWords(c);
    r := Join(parts, " ");
    LongFormZeroIff(iso);
  }

  /** The long form reads "0s" exactly for the inputs that parse to zero seconds. */
  lemma LongFormZeroIff(iso: Option<string>)
    ensures LongForm(iso) == "0s" <==> ParseDuration(iso) == 0
  {
    if iso.Some? && iso.value != "" && MatchDuration(iso.value).Some? {
      var c := MatchDuration(iso.value).value;
      var w := LongWords(c);
      if c.hours == 0 && c.minutes == 0 && c.seconds == 0 {
        assert NatToString(0) == "0";
        assert NatToString(c.seconds) + "s" == "0s";
        assert w == [] + [] + ["0s"];
      } else {
        assert TotalSeconds(c) > 0;
        FirstWordNonZero(c);
        JoinHead(w, " ");
        assert Join(w, " ")[0] != '0';
      }
    }
  }

  lemma FirstWordNonZero(c: Components)
    requires c.hours > 0 || c.minutes > 0 || c.seconds > 0
    ensures |LongWords(c)[0]| > 0 && LongWords(c)[0][0] != '0'
  {
    var w := LongWords(c);
    if c.hours > 0 {
      assert w[0] == NatToString(c.hours) + "h";
    } else if c.minutes > 0 {
      assert w[0] == NatToString(c.minutes) + "m";
    } else {
      assert w[0] == NatToString(c.seconds) + "s";
    }
  }

  lemma JoinHead(w: seq<string>, sep: string)
    requires |w| >= 1 && |w[0]| > 0
    ensures |Join(w, sep)| > 0 && Join(w, sep)[0] == w[0][0]
  {
  }

  /** `${h}H` when there are hours, nothing otherwise. */
  function HoursPart(h: nat): string {
    if h > 0 then NatToString(h) + ['H'] else ""
  }

  /** `${m}M` when there are minutes, nothing otherwise. */
  function MinutesPart(m: nat): string {
    if m > 0 then NatToString(m) + ['M'] else ""
  }

  /** `${s}S` when there are seconds or nothing was printed before. */
  function SecondsPart(h: nat, m: nat, sec: nat): string {
    if sec > 0 || (h == 0 && m == 0) then NatToString(sec) + ['S'] else ""
  }

  /** The canonical text of a duration given by its components: the non-zero H and M components, then S when non-zero or alone. */
  function IsoText(h: nat, m: nat, sec: nat): string {
    "PT" + HoursPart(h) + MinutesPart(m) + SecondsPart(h, m, sec)
  }

  /** The text `secondsToISO` prints for `n` seconds. */
  function IsoOfSeconds(n: nat): string {
    IsoText(n / 3600, n % 3600 / 60, n % 60)
  }

  /** `secondsToISO`: appends the components to `duration` one by one. */
  method SecondsToISO(seconds: nat) returns (duration: string)
    ensures duration == IsoOfSeconds(seconds)
    ensures duration[..2] == "PT"
    ensures ParseDuration(Some(duration)) == seconds
    ensures seconds == 0 ==> duration == "PT0S"
  {
    var hours := seconds / 3600;
    var minutes := seconds % 3600 / 60;
    var secs := seconds % 60;
    duration := "PT";
    if hours > 0 { duration := duration + (NatToString(hours) + "H"); }
    assert duration == "PT" + HoursPart(hours);
    if minutes > 0 { duration := duration + (NatToString(minutes) + "M"); }
    assert duration == "PT" + HoursPart(hours) + MinutesPart(minutes);
    NothingPrintedIff(hours, minutes);
    if secs > 0 || duration == "PT" { duration := duration + (NatToString(secs) + "S"); }
    assert duration == IsoText(hours, minutes, secs);
    IsoOfSecondsFacts(seconds);
  }

  /** What the text printed for `n` seconds promises: the "PT" lead, the round trip, and "PT0S" for zero. */
  lemma IsoOfSecondsFacts(n: nat)
    ensures |IsoOfSeconds(n)| >= 2 && IsoOfSeconds(n)[..2] == "PT"
    ensures ParseDuration(Some(IsoOfSeconds(n))) == n
    ensures n == 0 ==> IsoOfSeconds(n) == "PT0S"
  {
    IsoTextStart(n / 3600, n % 3600 / 60, n % 60);
    RoundTrip(n);
    if n == 0 {
      ZeroIsoText();
      assert IsoOfSeconds(n) == IsoText(0, 0, 0);
    }
  }

  /** Only the empty hour and minute parts leave the text at "PT". */
  lemma NothingPrintedIff(h: nat, m: nat)
    ensures "PT" + HoursPart(h) + MinutesPart(m) == "PT" <==> h == 0 && m == 0
  {
    assert |"PT" + HoursPart(h) + MinutesPart(m)| == 2 + |HoursPart(h)| + |MinutesPart(m)|;
  }

  /** Zero seconds print as "PT0S". */
  lemma ZeroIsoText()
    ensures IsoText(0, 0, 0) == "PT0S"
  {
    assert NatToString(0) == "0";
  }

  /** The canonical text starts with the "PT" the pattern looks for. */
  lemma IsoTextStart(h: nat, m: nat, sec: nat)
    ensures |IsoText(h, m, sec)| >= 2 && IsoText(h, m, sec)[..2] == "PT"
    ensures FindPT(IsoText(h, m, sec), 0) == Some(0)
  {
    Regroup("PT", HoursPart(h), MinutesPart(m));
    Regroup("PT", HoursPart(h) + MinutesPart(m), SecondsPart(h, m, sec));
    StartsWithPT(HoursPart(h) + MinutesPart(m) + SecondsPart(h, m, sec));
  }

  /** A text that opens with "PT" is matched from its start. */
  lemma StartsWithPT(tail: string)
    ensures |"PT" + tail| >= 2 && ("PT" + tail)[..2] == "PT"
    ensures FindPT("PT" + tail, 0) == Some(0)
  {
    var s := "PT" + tail;
    assert s[0] == 'P' && s[1] == 'T';
  }

  /** Appending is associative; stated over plain variables so that no part is unfolded. */
  lemma Regroup(a: string, b: string, c: string)
    ensures a + b + c == a + (b + c)
  {
  }

  /**
   * `part` is what one group `(\d+X)?` with designator `d` spells for `x`:
   * nothing (then `x` is 0), or a run of digits denoting `x` followed by `d`.
   */
  predicate IsGroup(part: string, d: char, x: nat) {
    if part == [] then x == 0
    else |part| >= 2 && part[|part| - 1] == d
         && AllDigits(part[..|part| - 1]) && DigitsValue(part[..|part| - 1]) == x
  }

  /** A printed number followed by its designator, or nothing for 0, is a group. */
  lemma PrintedIsGroup(part: string, d: char, x: nat)
    requires part == NatToString(x) + [d] || (part == [] && x == 0)
    ensures IsGroup(part, d, x)
  {
    if part != [] {
      assert part[..|part| - 1] == NatToString(x);
      DigitsValueOfNatToString(x);
    }
  }

  /** The group at the position `|pre|` of `s` reads `part` when its designator is the one tried. */
  lemma ReadGroup(s: string, pre: string, part: string, d: char, x: nat, post: string, designator: char)
    requires !IsDigit(d) && IsGroup(part, d, x) && part != []
    requires s == pre + (part + post)
    ensures Component(s, |pre|, designator) == if d == designator then (x, |pre| + |part|) else (0, |pre|)
  {
    var k := |part| - 1;
    assert s[|pre|..|pre| + k] == part[..k];
    assert s[|pre| + k] == d;
    DigitRunIs(s, |pre|, k);
  }

  /** Nothing is read where the text ends. */
  lemma ReadAtEnd(s: string, designator: char)
    ensures Component(s, |s|, designator) == (0, |s|)
  {
    assert DigitRun(s, |s|) == 0;
  }

  lemma {:induction false} DigitRunIs(s: string, i: nat, k: nat)
    requires i + k <= |s|
    requires forall j :: i <= j < i + k ==> IsDigit(s[j])
    requires i + k == |s| || !IsDigit(s[i + k])
    ensures DigitRun(s, i) == k
    decreases k
  {
    if k > 0 {
      DigitRunIs(s, i + 1, k - 1);
    }
  }

  /**
   * With three groups `p`, `q`, `r` of distinct designators after `pre`, the
   * group tried at `|pre|` with the designator of `p` reads `p`: its number and
   * the position after it (an empty `p` reads 0 and does not move).
   */
  lemma Stage(s: string, pre: string, p: string, q: string, r: string, x: nat, y: nat, z: nat, dp: char, dq: char, dr: char)
    requires !IsDigit(dp) && !IsDigit(dq) && !IsDigit(dr) && dp != dq && dp != dr
    requires IsGroup(p, dp, x) && IsGroup(q, dq, y) && IsGroup(r, dr, z)
    requires s == pre + p + q + r
    ensures Component(s, |pre|, dp) == (x, |pre| + |p|)
  {
    if p != [] {
      assert s == pre + (p + (q + r));
      ReadGroup(s, pre, p, dp, x, q + r, dp);
    } else if q != [] {
      assert s == pre + (q + r);
      ReadGroup(s, pre, q, dq, y, r, dp);
    } else if r != [] {
      assert s == pre + (r + []);
      ReadGroup(s, pre, r, dr, z, [], dp);
    } else {
      assert s == pre;
      ReadAtEnd(s, dp);
    }
  }

  /** "PT" followed by an hours, a minutes and a seconds group matches as those three numbers. */
  lemma MatchOfGroups(a: string, b: string, c: string, h: nat, m: nat, sec: nat)
    requires IsGroup(a, 'H', h) && IsGroup(b, 'M', m) && IsGroup(c, 'S', sec)
    ensures MatchDuration("PT" + a + b + c) == Some(Components(h, m, sec))
  {
    var s := "PT" + a + b + c;
    PTLeads(s, a, b, c);
    HoursGroup(s, a, b, c, h, m, sec);
    MinutesGroup(s, a, b, c, h, m, sec);
    SecondsGroup(s, a, b, c, h, m, sec);
    MatchFromGroups(s, h, 2 + |a|, m, 2 + |a| + |b|, sec);
  }

  lemma PTLeads(s: string, a: string, b: string, c: string)
    requires s == "PT" + a + b + c
    ensures |s| >= 2 && FindPT(s, 0) == Some(0)
  {
    Regroup("PT", a, b);
    Regroup("PT", a + b, c);
    StartsWithPT(a + b + c);
  }

  lemma HoursGroup(s: string, a: string, b: string, c: string, h: nat, m: nat, sec: nat)
    requires IsGroup(a, 'H', h) && IsGroup(b, 'M', m) && IsGroup(c, 'S', sec)
    requires s == "PT" + a + b + c
    ensures Component(s, 2, 'H') == (h, 2 + |a|)
  {
    Stage(s, "PT", a, b, c, h, m, sec, 'H', 'M', 'S');
  }

  lemma MinutesGroup(s: string, a: string, b: string, c: string, h: nat, m: nat, sec: nat)
    requires IsGroup(b, 'M', m) && IsGroup(c, 'S', sec)
    requires s == "PT" + a + b + c
    ensures 2 + |a| + |b| <= |s| && Component(s, 2 + |a|, 'M') == (m, 2 + |a| + |b|)
  {
    var pre := "PT" + a;
    assert s == pre + b + c + [];
    Stage(s, pre, b, c, [], m, sec, 0, 'M', 'S', 'H');
  }

  lemma SecondsGroup(s: string, a: string, b: string, c: string, h: nat, m: nat, sec: nat)
    requires IsGroup(c, 'S', sec)
    requires s == "PT" + a + b + c
    ensures Component(s, 2 + |a| + |b|, 'S').0 == sec
  {
    var pre := "PT" + a + b;
    assert s == pre + c + [] + [];
    Stage(s, pre, c, [], [], sec, 0, 0, 'S', 'H', 'M');
  }

  /** When "PT" opens the text, the match holds what the three groups read after it. */
  lemma MatchFromGroups(s: string, h: nat, i: nat, m: nat, j: nat, sec: nat)
    requires |s| >= 2 && FindPT(s, 0) == Some(0)
    requires 2 <= i <= j <= |s|
    requires Component(s, 2, 'H') == (h, i) && Component(s, i, 'M') == (m, j) && Component(s, j, 'S').0 == sec
    ensures MatchDuration(s) == Some(Components(h, m, sec))
  {
    assert GroupsAt(s, 0) == Components(h, m, sec);
  }

  /** The canonical text parses back into its three components. */
  lemma MatchOfIsoText(h: nat, m: nat, sec: nat)
    ensures MatchDuration(IsoText(h, m, sec)) == Some(Components(h, m, sec))
  {
    PrintedIsGroup(HoursPart(h), 'H', h);
    PrintedIsGroup(MinutesPart(m), 'M', m);
    PrintedIsGroup(SecondsPart(h, m, sec), 'S', sec);
    MatchOfGroups(HoursPart(h), MinutesPart(m), SecondsPart(h, m, sec), h, m, sec);
  }

  lemma MatchOfIso(n: nat)
    ensures MatchDuration(IsoOfSeconds(n)) == Some(Components(n / 3600, n % 3600 / 60, n % 60))
  {
    MatchOfIsoText(n / 3600, n % 3600 / 60, n % 60);
  }

  lemma Decompose(n: nat)
    ensures (n / 3600) * 3600 + (n % 3600 / 60) * 60 + n % 60 == n
  {
  }

  /** `parseDuration(secondsToISO(n)) == n` for every natural `n`. */
  lemma RoundTrip(n: nat)
    ensures ParseDuration(Some(IsoOfSeconds(n))) == n
  {
    MatchOfIso(n);
    Decompose(n);
  }

  /** `h:mm:ss` (or `m:ss`) rendering of a number of seconds, written independently of the parser. */
  function Clock(n: nat): string {
    if n >= 3600 then NatToString(n / 3600) + ":" + Pad2(n % 3600 / 60) + ":" + Pad2(n % 60)
    else NatToString(n / 60) + ":" + Pad2(n % 60)
  }

  /** Formatting the canonical text of `n` seconds gives the clock reading of `n`. */
  lemma FormatOfIso(n: nat)
    ensures FormatDuration(Some(IsoOfSeconds(n))) == Clock(n)
  {
    MatchOfIso(n);
    IsoTextStart(n / 3600, n % 3600 / 60, n % 60);
    FormatOfMatch(IsoOfSeconds(n), Components(n / 3600, n % 3600 / 60, n % 60));
  }

  /** A non-empty text that matches is shown as the clock reading of what it matched. */
  lemma FormatOfMatch(s: string, c: Components)
    requires s != "" && MatchDuration(s) == Some(c)
    ensures FormatDuration(Some(s)) == ClockText(c)
  {
  }

  /** A clock reading that starts with a non-zero number is not "0:00". */
  lemma LeadingNonZero(x: nat, tail: string)
    requires x > 0
    ensures NatToString(x) + tail != "0:00"
  {
    var f := NatToString(x);
    assert (f + tail)[0] == f[0];
  }

  /** The two-digit field reads "00" exactly for zero. */
  lemma Pad2ZeroIff(n: nat)
    ensures Pad2(n) == "00" <==> n == 0
  {
    var f := NatToString(n);
    if n == 0 {
      assert f == [DigitChar(0)];
    } else if |f| < 2 {
      assert Pad2(n)[1] == f[0];
    } else {
      assert Pad2(n)[0] == f[0];
    }
  }

  /** Matched components are shown as "0:00" exactly when they add up to zero seconds. */
  lemma ClockZeroIff(c: Components)
    ensures ClockText(c) == "0:00" <==> TotalSeconds(c) == 0
  {
    if c.hours > 0 {
      LeadingNonZero(c.hours, ":" + Pad2(c.minutes) + ":" + Pad2(c.seconds));
    } else if c.minutes > 0 {
      LeadingNonZero(c.minutes, ":" + Pad2(c.seconds));
    } else {
      SecondsOnlyClock(c.seconds);
    }
  }

  lemma SecondsOnlyClock(sec: nat)
    ensures ClockText(Components(0, 0, sec)) == "0:00" <==> sec == 0
  {
    var p := Pad2(sec);
    var z := NatToString(0);
    assert z == "0";
    assert ClockText(Components(0, 0, sec)) == z + ":" + p;
    assert (z + ":" + p)[2..] == p;
    Pad2ZeroIff(sec);
  }

  /** Only a zero duration (or an unreadable one) is shown as "0:00". */
  lemma FormatZeroIff(iso: Option<string>)
    ensures FormatDuration(iso) == "0:00" <==> ParseDuration(iso) == 0
  {
    if iso.Some? && iso.value != "" && MatchDuration(iso.value).Some? {
      ClockZeroIff(MatchDuration(iso.value).value);
    }
  }

  /** A day designator is not part of the pattern: "P1DT2H" has no "PT" and parses to 0. */
  lemma DaysAreNotRead()
    ensures ParseDuration(Some("P1DT2H")) == 0
  {
    assert FindPT("P1DT2H", 0) == None;
  }

  lemma IsoTextMinuteAndAHalf()
    ensures IsoText(0, 1, 30) == "PT1M30S"
  {
    assert NatToString(1) == "1";
    assert NatToString(3) == "3";
    assert NatToString(30) == NatToString(3) + [DigitChar(0)];
    assert HoursPart(0) == "";
    assert MinutesPart(1) == "1M";
    assert SecondsPart(0, 1, 30) == "30S";
  }

  lemma IsoTextTwoMinutes()
    ensures IsoText(0, 2, 0) == "PT2M"
  {
    assert NatToString(2) == "2";
    assert HoursPart(0) == "";
    assert MinutesPart(2) == "2M";
    assert SecondsPart(0, 2, 0) == "";
  }

  /** The `durationAsc` example: one and a half minutes is 90 seconds. */
  lemma ExampleMinuteAndAHalf()
    ensures ParseDuration(Some("PT1M30S")) == 90
  {
    IsoTextMinuteAndAHalf();
    MatchOfIsoText(0, 1, 30);
  }

  /** The `durationAsc` example: two minutes is 120 seconds. */
  lemma ExampleTwoMinutes()
    ensures ParseDuration(Some("PT2M")) == 120
  {
    IsoTextTwoMinutes();
    MatchOfIsoText(0, 2, 0);
  }

  /** Text without "PT" parses to 0. */
  lemma ExampleMalformed()
    ensures ParseDuration(Some("abc")) == 0
  {
    assert FindPT("abc", 0) == None;
  }
}
