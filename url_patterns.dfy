/**
 * The regular expressions the YouTube link parsers try, as matching functions.
 * Every link pattern of the core has the shape `(?:m1|m2|..)([^&\n?#]+)`,
 * unanchored: the first position (from the left) where one of the literal
 * alternatives occurs followed by at least one id character; the alternatives
 * are tried in order at each position, and the group takes the longest run of
 * id characters. The bare-id pattern `^([a-zA-Z0-9_-]{11})$` matches a whole
 * string of exactly 11 such characters.
 */
module UrlPatterns {
  import opened Optional
  import opened Text

  /** `[^&\n?#]`: a character the id group accepts. */
  predicate IdChar(c: char) {
    c != '&' && c != '\n' && c != '?' && c != '#'
  }

  /** `[a-zA-Z0-9_-]`. */
  predicate BareChar(c: char) {
    ('a' <= c <= 'z') || ('A' <= c <= 'Z') || ('0' <= c <= '9') || c == '_' || c == '-'
  }

  predicate IsIdText(s: string) {
    s != [] && forall i :: 0 <= i < |s| ==> IdChar(s[i])
  }

  /** Length of the longest run of id characters starting at `i` (the greedy `+`). */
  function IdRun(s: string, i: nat): (k: nat)
    requires i <= |s|
    ensures i + k <= |s|
    ensures forall j :: i <= j < i + k ==> IdChar(s[j])
    ensures i + k == |s| || !IdChar(s[i + k])
    decreases |s| - i
  {
    if i < |s| && IdChar(s[i]) then 1 + IdRun(s, i + 1) else 0
  }

  /** The alternatives tried at position `p`: the group of the first one that occurs there followed by an id character. */
  function GroupAt(s: string, p: nat, markers: seq<string>): (r: Option<string>)
    requires p <= |s|
    ensures r.Some? ==> IsIdText(r.value)
  {
    if |markers| == 0 then None
    else
      var m := markers[0];
      if OccursAt(s, m, p) && p + |m| < |s| && IdChar(s[p + |m|]) then
        Some(s[p + |m|..p + |m| + IdRun(s, p + |m|)])
      else GroupAt(s, p, markers[1..])
  }

  /** The unanchored search, from position `p` rightwards: the group at the leftmost position where one exists. */
  function SearchFrom(s: string, p: nat, markers: seq<string>): (r: Option<string>)
    requires p <= |s|
    ensures r.Some? ==> IsIdText(r.value)
    decreases |s| - p
  {
    match GroupAt(s, p, markers)
    case Some(g) => Some(g)
    case None => if p == |s| then None else SearchFrom(s, p + 1, markers)
  }

  /** The search finds the group at the leftmost position where one exists, and nothing when no position has one. */
  lemma {:induction false} SearchIsLeftmost(s: string, p: nat, markers: seq<string>)
    requires p <= |s|
    ensures var r := SearchFrom(s, p, markers);
      r.Some? ==> exists x :: p <= x <= |s| && GroupAt(s, x, markers) == r
                            && forall y :: p <= y < x ==> GroupAt(s, y, markers).None?
    ensures SearchFrom(s, p, markers).None? <==> forall x :: p <= x <= |s| ==> GroupAt(s, x, markers).None?
    decreases |s| - p
  {
    if SearchFrom(s, p, markers).Some? {
      var x := SearchFoundAt(s, p, markers);
    } else {
      forall x | p <= x <= |s|
        ensures GroupAt(s, x, markers).None?
      {
        if GroupAt(s, x, markers).Some? {
          SearchFindsAt(s, p, markers, x);
        }
      }
    }
  }

  /** Where the search found something: the leftmost position with a group. */
  lemma {:induction false} SearchFoundAt(s: string, p: nat, markers: seq<string>) returns (x: nat)
    requires p <= |s| && SearchFrom(s, p, markers).Some?
    ensures p <= x <= |s| && GroupAt(s, x, markers) == SearchFrom(s, p, markers)
    ensures forall y :: p <= y < x ==> GroupAt(s, y, markers).None?
    decreases |s| - p
  {
    if GroupAt(s, p, markers).Some? {
      x := p;
    } else {
      x := SearchFoundAt(s, p + 1, markers);
    }
  }

  /** A group at or after `p` makes the search from `p` find something. */
  lemma {:induction false} SearchFindsAt(s: string, p: nat, markers: seq<string>, x: nat)
    requires p <= x <= |s| && GroupAt(s, x, markers).Some?
    ensures SearchFrom(s, p, markers).Some?
    decreases x - p
  {
    if p < x && GroupAt(s, p, markers).None? {
      SearchFindsAt(s, p + 1, markers, x);
    }
  }

  /** The whole string is an 11-character bare id. */
  predicate IsBareId(s: string) {
    |s| == 11 && forall i :: 0 <= i < |s| ==> BareChar(s[i])
  }

  datatype Pattern = Markers(alternatives: seq<string>) | BareId

  /** `s.match(pattern)?.[1]`. */
  function MatchPattern(s: string, pattern: Pattern): (r: Option<string>)
    ensures r.Some? ==> IsIdText(r.value)
    ensures pattern.BareId? ==> r == (if IsBareId(s) then Some(s) else None)
  {
    match pattern
    case Markers(alternatives) => SearchFrom(s, 0, alternatives)
    case BareId => if IsBareId(s) then Some(s) else None
  }

  /** `for (const pattern of patterns) { const m = s.match(pattern); if (m && m[1]) return m[1]; } return null`. */
  function FirstMatch(s: string, patterns: seq<Pattern>): (r: Option<string>)
    ensures r.Some? ==> IsIdText(r.value)
  {
    if |patterns| == 0 then None
    else
      match MatchPattern(s, patterns[0])
      case Some(g) => Some(g)
      case None => FirstMatch(s, patterns[1..])
  }

  /** `patterns.some((pattern) => pattern.test(s))`. */
  predicate AnyMatches(s: string, patterns: seq<Pattern>) {
    exists i :: 0 <= i < |patterns| && MatchPattern(s, patterns[i]).Some?
  }

  /** No pattern before the `i`-th matches. */
  predicate MissesBefore(s: string, patterns: seq<Pattern>, i: nat)
    requires i <= |patterns|
  {
    forall j :: 0 <= j < i ==> MatchPattern(s, patterns[j]).None?
  }

  /** First match wins: the result is the group of the first pattern that matches, and `null` when none does. */
  lemma {:induction false} FirstMatchWins(s: string, patterns: seq<Pattern>)
    ensures FirstMatch(s, patterns).None? <==> !AnyMatches(s, patterns)
    ensures FirstMatch(s, patterns).Some? ==>
      exists i :: 0 <= i < |patterns| && MatchPattern(s, patterns[i]) == FirstMatch(s, patterns)
               && MissesBefore(s, patterns, i)
  {
    if |patterns| > 0 {
      if MatchPattern(s, patterns[0]).None? {
        FirstMatchWins(s, patterns[1..]);
        AnyMatchesPastMiss(s, patterns);
        if FirstMatch(s, patterns).Some? {
          var i :| 0 <= i < |patterns| - 1 && MatchPattern(s, patterns[1..][i]) == FirstMatch(s, patterns)
                   && MissesBefore(s, patterns[1..], i);
          MissesShift(s, patterns, i);
        }
      } else {
        assert MissesBefore(s, patterns, 0);
      }
    }
  }

  /** When the first pattern misses, some pattern matches exactly when one of the rest does. */
  lemma AnyMatchesPastMiss(s: string, patterns: seq<Pattern>)
    requires |patterns| > 0 && MatchPattern(s, patterns[0]).None?
    ensures AnyMatches(s, patterns) <==> AnyMatches(s, patterns[1..])
  {
    if AnyMatches(s, patterns) {
      var i :| 0 <= i < |patterns| && MatchPattern(s, patterns[i]).Some?;
      assert patterns[i] == patterns[1..][i - 1];
    }
    if AnyMatches(s, patterns[1..]) {
      var i :| 0 <= i < |patterns| - 1 && MatchPattern(s, patterns[1..][i]).Some?;
      assert patterns[1..][i] == patterns[i + 1];
    }
  }

  /** Misses before the `i`-th of the rest, after a missing first pattern, are misses before the `i + 1`-th. */
  lemma MissesShift(s: string, patterns: seq<Pattern>, i: nat)
    requires |patterns| > 0 && MatchPattern(s, patterns[0]).None?
    requires i < |patterns| - 1 && MissesBefore(s, patterns[1..], i)
    ensures MissesBefore(s, patterns, i + 1) && patterns[i + 1] == patterns[1..][i]
  {
    forall j | 0 <= j < i + 1
      ensures MatchPattern(s, patterns[j]).None?
    {
      if j > 0 { assert patterns[j] == patterns[1..][j - 1]; }
    }
  }

  /** No alternative can match at a position whose character starts none of them. */
  lemma NoGroupAt(s: string, x: nat, markers: seq<string>)
    requires x < |s|
    requires forall k :: 0 <= k < |markers| ==> |markers[k]| > 0 && markers[k][0] != s[x]
    ensures GroupAt(s, x, markers).None?
    decreases |markers|
  {
    if |markers| > 0 {
      var m := markers[0];
      if x + |m| <= |s| {
        assert s[x..x + |m|][0] == s[x] != m[0];
      }
      NoGroupAt(s, x, markers[1..]);
    }
  }

  /** The search skips positions where nothing matches. */
  lemma {:induction false} SearchSkips(s: string, p: nat, q: nat, markers: seq<string>)
    requires p <= q <= |s|
    requires forall x :: p <= x < q ==> GroupAt(s, x, markers).None?
    ensures SearchFrom(s, p, markers) == SearchFrom(s, q, markers)
    decreases q - p
  {
    if p < q {
      SearchSkips(s, p + 1, q, markers);
    }
  }

  /** When the first alternative occurs at `p` and the id characters run to the end, the group is the rest of the string. */
  lemma GroupToEnd(s: string, p: nat, markers: seq<string>)
    requires |markers| > 0 && OccursAt(s, markers[0], p)
    requires p + |markers[0]| < |s|
    requires forall j :: p + |markers[0]| <= j < |s| ==> IdChar(s[j])
    ensures GroupAt(s, p, markers) == Some(s[p + |markers[0]|..])
  {
    var start := p + |markers[0]|;
    var k := IdRun(s, start);
    assert start + k == |s|;
    assert s[start..start + k] == s[start..];
    assert IdChar(s[start]);
  }

  /** A position where the text differs from an alternative is not an occurrence of it. */
  lemma MismatchAt(s: string, m: string, p: nat, d: nat)
    requires d < |m| && p + d < |s| && s[p + d] != m[d]
    ensures !OccursAt(s, m, p)
  {
  }

  /** An occurrence of `m` holds an occurrence of each of its suffixes. */
  lemma OccursInside(s: string, m: string, x: nat, d: nat)
    requires OccursAt(s, m, x) && d <= |m|
    ensures OccursAt(s, m[d..], x + d)
  {
    assert s[x + d..x + |m|] == s[x..x + |m|][d..];
  }

  /** A group of a single alternative is that alternative, then at least one id character. */
  lemma SingleGroup(s: string, x: nat, m: string)
    requires x <= |s|
    ensures GroupAt(s, x, [m]).Some? <==> OccursAt(s, m, x) && x + |m| < |s| && IdChar(s[x + |m|])
  {
    assert [m][0] == m && [m][1..] == [];
  }

  /**
   * A link `prefix + id` whose prefix ends with the `k`-th alternative at
   * `lead`, where no character before `lead` is the first character `c` of
   * any alternative and no earlier alternative occurs at `lead`: the search
   * finds the id.
   */
  lemma ReadAfterLead(prefix: string, lead: nat, c: char, markers: seq<string>, k: nat, id: string)
    requires k < |markers| && lead + |markers[k]| == |prefix| && prefix[lead..] == markers[k]
    requires forall i :: 0 <= i < |markers| ==> |markers[i]| > 0 && markers[i][0] == c
    requires forall x :: 0 <= x < lead ==> prefix[x] != c
    requires forall j :: 0 <= j < k ==> !OccursAt(prefix + id, markers[j], lead)
    requires IsIdText(id)
    ensures SearchFrom(prefix + id, 0, markers) == Some(id)
  {
    var s := prefix + id;
    forall x | 0 <= x < lead
      ensures GroupAt(s, x, markers).None?
    {
      assert s[x] == prefix[x];
      NoGroupAt(s, x, markers);
    }
    SearchSkips(s, 0, lead, markers);
    assert s[lead..|prefix|] == prefix[lead..];
    SkipAbsent(s, lead, markers, k);
    forall j | |prefix| <= j < |s|
      ensures IdChar(s[j])
    {
      assert s[j] == id[j - |prefix|];
    }
    GroupToEnd(s, lead, markers[k..]);
    assert s[|prefix|..] == id;
  }

  /** Alternatives that do not occur at `p` are passed over. */
  lemma SkipAbsent(s: string, p: nat, markers: seq<string>, k: nat)
    requires p <= |s| && k < |markers|
    requires forall j :: 0 <= j < k ==> !OccursAt(s, markers[j], p)
    ensures GroupAt(s, p, markers) == GroupAt(s, p, markers[k..])
  {
    var j := 0;
    while j < k
      invariant 0 <= j <= k
      invariant GroupAt(s, p, markers) == GroupAt(s, p, markers[j..])
    {
      assert markers[j..][0] == markers[j] && markers[j..][1..] == markers[j + 1..];
      GroupSkipsAbsent(s, p, markers[j..]);
      j := j + 1;
    }
  }

  /** An alternative that does not occur at `p` is passed over. */
  lemma GroupSkipsAbsent(s: string, p: nat, markers: seq<string>)
    requires p <= |s| && |markers| > 0 && !OccursAt(s, markers[0], p)
    ensures GroupAt(s, p, markers) == GroupAt(s, p, markers[1..])
  {
  }

  /** A '.' at position `d`. */
  lemma DotIn(m: string, d: nat)
    requires d < |m| && m[d] == '.'
    ensures '.' in m
  {
  }

  /** Every alternative holds a '.'. */
  predicate Dotted(markers: seq<string>) {
    forall k :: 0 <= k < |markers| ==> '.' in markers[k]
  }

  /** A single alternative with a '.' at position `d`. */
  lemma DottedSingle(m: string, d: nat)
    requires d < |m| && m[d] == '.'
    ensures Dotted([m])
  {
    DotIn(m, d);
    assert [m][0] == m;
  }

  /** A string that neither contains a '.' nor a link alternative, all of which have one. */
  lemma NoMarkerInDotless(s: string, markers: seq<string>)
    requires forall i :: 0 <= i < |s| ==> s[i] != '.'
    requires Dotted(markers)
    ensures SearchFrom(s, 0, markers).None?
  {
    forall x | 0 <= x <= |s|
      ensures GroupAt(s, x, markers).None?
    {
      NoOccurrence(s, x, markers);
    }
    SearchSkips(s, 0, |s|, markers);
  }

  lemma NoOccurrence(s: string, x: nat, markers: seq<string>)
    requires x <= |s|
    requires forall i :: 0 <= i < |s| ==> s[i] != '.'
    requires forall k :: 0 <= k < |markers| ==> '.' in markers[k]
    ensures GroupAt(s, x, markers).None?
    decreases |markers|
  {
    if |markers| > 0 {
      var m := markers[0];
      var d :| 0 <= d < |m| && m[d] == '.';
      if x + |m| <= |s| {
        assert s[x..x + |m|][d] == s[x + d] != '.';
      }
      NoOccurrence(s, x, markers[1..]);
    }
  }

  /** When an alternation matches at `x`, one of its alternatives matches there on its own. */
  lemma GroupAtSomeAlternative(s: string, x: nat, markers: seq<string>)
    requires x <= |s| && GroupAt(s, x, markers).Some?
    ensures exists k :: 0 <= k < |markers| && GroupAt(s, x, [markers[k]]).Some?
    decreases |markers|
  {
    var m := markers[0];
    var single: seq<string> := [m];
    assert single[0] == m && single[1..] == [];
    if !(OccursAt(s, m, x) && x + |m| < |s| && IdChar(s[x + |m|])) {
      GroupAtSomeAlternative(s, x, markers[1..]);
      var k :| 0 <= k < |markers| - 1 && GroupAt(s, x, [markers[1..][k]]).Some?;
      assert markers[1..][k] == markers[k + 1];
    } else {
      assert GroupAt(s, x, single).Some?;
    }
  }

  /** An alternation finds something only where one of its alternatives, searched alone, finds something. */
  lemma SearchSomeAlternative(s: string, markers: seq<string>)
    requires SearchFrom(s, 0, markers).Some?
    ensures exists k :: 0 <= k < |markers| && SearchFrom(s, 0, [markers[k]]).Some?
  {
    var x := SearchFoundAt(s, 0, markers);
    GroupAtSomeAlternative(s, x, markers);
    var k :| 0 <= k < |markers| && GroupAt(s, x, [markers[k]]).Some?;
    SearchFindsAt(s, 0, [markers[k]], x);
  }

  /** Nothing matches at the very end of the string: every group needs at least one character. */
  lemma NoGroupAtEnd(s: string, markers: seq<string>)
    ensures GroupAt(s, |s|, markers).None?
    decreases |markers|
  {
    if |markers| > 0 {
      NoGroupAtEnd(s, markers[1..]);
    }
  }
}
