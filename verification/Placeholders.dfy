/**
 * replacePlaceholders: one linear scan that claims to equal the substitution of
 * /\$\{([A-Z0-9_]+)(?::([^}]*))?\}/g.
 */
module Placeholders {
  import opened Wrappers

  predicate IsVariableChar(c: char) {
    'A' <= c <= 'Z' || '0' <= c <= '9' || c == '_'
  }

  // ---- The regular expression -----------------------------------------------------------

  /** One match: where it lies, and its two capture groups. */
  datatype Match = Match(start: nat, end: nat, variable: string, fallback: Option<string>)

  /** The text a match with these groups has. */
  function MatchText(variable: string, fallback: Option<string>): string {
    "${" + variable + (match fallback case None => "" case Some(f) => ":" + f) + "}"
  }

  /** `m` is a match of the regular expression in `s` with its capture groups. */
  predicate RegexMatch(s: string, m: Match) {
    && m.start <= m.end <= |s|
    && s[m.start..m.end] == MatchText(m.variable, m.fallback)
    && m.variable != "" && (forall c :: c in m.variable ==> IsVariableChar(c))
    && (m.fallback.Some? ==> '}' !in m.fallback.value)
  }

  /** The leftmost match that starts at `from` or later. */
  ghost function FirstMatch(s: string, from: nat): (r: Option<Match>)
    ensures r.Some? ==> RegexMatch(s, r.value) && from <= r.value.start < r.value.end
    decreases |s| - from
  {
    if from >= |s| then None
    else if exists m: Match :: RegexMatch(s, m) && m.start == from then
      var m: Match :| RegexMatch(s, m) && m.start == from;
      Some(m)
    else FirstMatch(s, from + 1)
  }

  /** The successive matches of a global search from `from` on: leftmost, never overlapping. */
  ghost function Matches(s: string, from: nat): seq<Match>
    decreases |s| - from
  {
    match FirstMatch(s, from)
    case None => []
    case Some(m) => [m] + Matches(s, m.end)
  }

  /** What `replace` receives: the matched text and the groups. */
  type Replacer = (string, string, Option<string>) -> string

  /** The text from `from` up to the end of the match, with the match replaced. */
  function Piece(s: string, from: nat, m: Match, replace: Replacer): string {
    if from <= m.start <= m.end <= |s| then
      s[from..m.start] + replace(s[m.start..m.end], m.variable, m.fallback)
    else ""
  }

  /** The text from `from` on with the matches `ms` replaced. */
  function Substitute(s: string, from: nat, ms: seq<Match>, replace: Replacer): string
    decreases |ms|
  {
    if ms == [] then (if from <= |s| then s[from..] else "")
    else Piece(s, from, ms[0], replace) + Substitute(s, ms[0].end, ms[1..], replace)
  }

  // ---- A match is determined by where it starts -----------------------------------------

  /** `cursor` is the end of the run of variable characters after the opening at `start`. */
  predicate RunEnds(s: string, start: nat, cursor: nat) {
    && start + 2 <= cursor <= |s|
    && (forall k :: start + 2 <= k < cursor ==> IsVariableChar(s[k]))
    && (cursor < |s| ==> !IsVariableChar(s[cursor]))
  }

  lemma MatchChars(s: string, m: Match)
    requires RegexMatch(s, m)
    ensures var v := m.start + 2 + |m.variable|;
      && m.start + 3 < m.end && v < m.end
      && s[m.start] == '$' && s[m.start + 1] == '{' && s[m.end - 1] == '}'
      && s[m.start + 2..v] == m.variable
      && (m.fallback.None? ==> v == m.end - 1)
      && (m.fallback.Some? ==> v < m.end - 1 && s[v] == ':' && s[v + 1..m.end - 1] == m.fallback.value)
  {
    var t, n := s[m.start..m.end], |m.variable|;
    TextChars(m.variable, m.fallback);
    hide MatchText;
    assert |t| == m.end - m.start;
    assert t[0] == s[m.start] && t[1] == s[m.start + 1] && t[|t| - 1] == s[m.end - 1];
    SliceOfSlice(s, m.start, m.end, 2, 2 + n);
    if m.fallback.Some? {
      assert t[2 + n] == s[m.start + 2 + n];
      SliceOfSlice(s, m.start, m.end, 3 + n, |t| - 1);
    }
  }

  lemma SliceOfSlice(s: string, a: nat, b: nat, i: nat, j: nat)
    requires a <= b <= |s| && i <= j <= b - a
    ensures s[a..b][i..j] == s[a + i..a + j]
  {
    assert forall k :: 0 <= k < j - i ==> s[a..b][i..j][k] == s[a + i..a + j][k];
  }

  lemma TextChars(w: string, fallback: Option<string>)
    ensures var t := MatchText(w, fallback);
      && |t| >= |w| + 3 && t[0] == '$' && t[1] == '{' && t[|t| - 1] == '}' && t[2..2 + |w|] == w
      && (fallback.None? ==> |t| == |w| + 3)
      && (fallback.Some? ==> |t| == |w| + 4 + |fallback.value| && t[2 + |w|] == ':')
      && (fallback.Some? ==> t[3 + |w|..|t| - 1] == fallback.value)
  {
    var t := MatchText(w, fallback);
    var tail := match fallback case None => "" case Some(f) => ":" + f;
    assert t == "${" + w + tail + "}" && |t| == |w| + |tail| + 3;
    assert t[2..2 + |w|] == w;
    if fallback.Some? {
      assert tail[0] == ':' && t[2 + |w|] == tail[0];
      assert t[3 + |w|..|t| - 1] == fallback.value;
    }
  }

  /** Greedy or not, the groups are forced: the variable is the whole run, the fallback ends at the first brace. */
  lemma MatchShape(s: string, m: Match, cursor: nat)
    requires RegexMatch(s, m) && RunEnds(s, m.start, cursor)
    ensures m.start + 2 < cursor < m.end && m.variable == s[m.start + 2..cursor]
    ensures m.fallback.None? ==> s[cursor] == '}' && m.end == cursor + 1
    ensures m.fallback.Some? ==>
      s[cursor] == ':' && cursor + 1 < m.end && s[m.end - 1] == '}' && m.fallback.value == s[cursor + 1..m.end - 1]
    ensures m.fallback.Some? ==> forall k :: cursor < k < m.end - 1 ==> s[k] != '}'
  {
    MatchChars(s, m);
    var v := m.start + 2 + |m.variable|;
    assert forall k :: m.start + 2 <= k < v ==> s[k] == m.variable[k - m.start - 2] && s[k] in m.variable;
    assert !IsVariableChar(s[v]);
    assert v == cursor;
    if m.fallback.Some? {
      assert forall k :: cursor < k < m.end - 1 ==> s[k] == m.fallback.value[k - cursor - 1];
    }
  }

  /** What the scanner has found is a match. */
  lemma ScannedIsMatch(s: string, start: nat, cursor: nat, end: nat, fallback: Option<string>)
    requires start + 2 < cursor <= end < |s| && RunEnds(s, start, cursor)
    requires s[start] == '$' && s[start + 1] == '{' && s[end] == '}'
    requires fallback.None? ==> end == cursor
    requires fallback.Some? ==>
      cursor < end && s[cursor] == ':' && fallback.value == s[cursor + 1..end] && '}' !in fallback.value
    ensures RegexMatch(s, Match(start, end + 1, s[start + 2..cursor], fallback))
  {
    var t := s[start..end + 1];
    if fallback.None? {
      assert t == "${" + s[start + 2..cursor] + "" + "}";
    } else {
      assert t == "${" + s[start + 2..cursor] + (":" + fallback.value) + "}";
    }
  }

  lemma {:induction false} SkipTo(s: string, from: nat, to: nat)
    requires from <= to
    requires forall m: Match :: RegexMatch(s, m) ==> !(from <= m.start < to)
    ensures FirstMatch(s, from) == FirstMatch(s, to)
    decreases if from <= to then to - from else 0
  {
    if from < to {
      SkipTo(s, from + 1, to);
      if to > |s| {
        BeyondEnd(s, from);
        BeyondEnd(s, to);
      }
    }
  }

  lemma {:induction false} BeyondEnd(s: string, from: nat)
    ensures from >= |s| ==> FirstMatch(s, from).None?
  {
  }

  /** The match at a place is the first match from there, and it is the only one there. */
  lemma FirstIs(s: string, m: Match, cursor: nat)
    requires RegexMatch(s, m) && RunEnds(s, m.start, cursor)
    ensures FirstMatch(s, m.start) == Some(m)
  {
    MatchShape(s, m, cursor);
    forall n: Match | RegexMatch(s, n) && n.start == m.start
      ensures n == m
    {
      MatchShape(s, n, cursor);
    }
  }

  /** Every match is one of the successive matches, or starts inside an earlier one. */
  lemma {:induction false} MatchesAreMaximal(s: string, from: nat, n: Match)
    requires RegexMatch(s, n) && from <= n.start
    ensures exists m :: m in Matches(s, from) && (m == n || m.start < n.start < m.end)
    decreases |s| - from
  {
    FirstIsLeftmost(s, from, n);
    var m := FirstMatch(s, from).value;
    assert m in Matches(s, from);
    if m.end <= n.start {
      MatchesAreMaximal(s, m.end, n);
      var later :| later in Matches(s, m.end) && (later == n || later.start < n.start < later.end);
      assert later in Matches(s, from);
    } else if m.start == n.start {
      SameStartSameMatch(s, m, n);
    }
  }

  lemma {:induction false} FirstIsLeftmost(s: string, from: nat, n: Match)
    requires RegexMatch(s, n) && from <= n.start
    ensures FirstMatch(s, from).Some? && FirstMatch(s, from).value.start <= n.start
    decreases |s| - from
  {
    MatchChars(s, n);
    if from < n.start {
      FirstIsLeftmost(s, from + 1, n);
    }
  }

  /** The expression never has two matches at one place. */
  lemma SameStartSameMatch(s: string, m: Match, n: Match)
    requires RegexMatch(s, m) && RegexMatch(s, n) && m.start == n.start
    ensures m == n
  {
    var cursor := RunFrom(s, m.start + 2);
    MatchChars(s, m);
    MatchShape(s, m, cursor);
    MatchShape(s, n, cursor);
  }

  ghost function RunFrom(s: string, i: nat): (cursor: nat)
    ensures i <= |s| ==> i <= cursor <= |s| && (forall k :: i <= k < cursor ==> IsVariableChar(s[k]))
    ensures i <= |s| ==> cursor < |s| ==> !IsVariableChar(s[cursor])
    decreases |s| - i
  {
    if i < |s| && IsVariableChar(s[i]) then RunFrom(s, i + 1) else i
  }

  // ---- The scanner ----------------------------------------------------------------------

  predicate OpensAt(s: string, i: nat) {
    i + 1 < |s| && s[i] == '$' && s[i + 1] == '{'
  }

  /** `input.indexOf("${", from)`, counting the characters it inspects. */
  method IndexOfOpening(s: string, from: nat) returns (i: int, ghost inspected: nat)
    requires from <= |s|
    ensures i == -1 || (from <= i && OpensAt(s, i))
    ensures forall k :: from <= k && (i == -1 || k < i) ==> !OpensAt(s, k)
    ensures inspected <= if i == -1 then 2 * (|s| - from) else 2 * (i - from) + 2
  {
    i, inspected := from, 0;
    while i + 1 < |s|
      invariant from <= i <= |s| && inspected <= 2 * (i - from)
      invariant forall k :: from <= k < i ==> !OpensAt(s, k)
    {
      inspected := inspected + if s[i] == '$' then 2 else 1;
      if s[i] == '$' && s[i + 1] == '{' {
        return;
      }
      i := i + 1;
    }
    i := -1;
  }

  /** `input.indexOf("}", from)`. */
  method IndexOfBrace(s: string, from: nat) returns (i: int, ghost inspected: nat)
    requires from <= |s|
    ensures i == -1 || (from <= i < |s| && s[i] == '}')
    ensures forall k :: from <= k < |s| && (i == -1 || k < i) ==> s[k] != '}'
    ensures inspected == if i == -1 then |s| - from else i - from + 1
  {
    i, inspected := from, 0;
    while i < |s|
      invariant from <= i <= |s| && inspected == i - from
      invariant forall k :: from <= k < i ==> s[k] != '}'
    {
      inspected := inspected + 1;
      if s[i] == '}' {
        return;
      }
      i := i + 1;
    }
    i := -1;
  }

  /** Where no opening lies, from `from` up to `to` (or to the end when `to` is -1), no match starts. */
  lemma NoOpeningNoMatch(s: string, from: nat, to: int)
    requires forall k :: from <= k && (to == -1 || k < to) ==> !OpensAt(s, k)
    ensures forall m: Match :: RegexMatch(s, m) ==> !(from <= m.start && (to == -1 || m.start < to))
  {
    forall m: Match | RegexMatch(s, m)
      ensures !(from <= m.start && (to == -1 || m.start < to))
    {
      MatchChars(s, m);
      assert OpensAt(s, m.start);
    }
  }

  lemma NoneLeft(s: string, from: nat)
    requires forall m: Match :: RegexMatch(s, m) ==> m.start < from
    ensures Matches(s, from) == []
  {
  }

  /** The next match, taken: the remaining matches and the remaining substitution both start with it. */
  lemma TakeMatch(s: string, copied: nat, m: Match, cursor: nat, calls: seq<Match>, output: string, replace: Replacer)
    requires copied <= m.start && RegexMatch(s, m) && RunEnds(s, m.start, cursor)
    requires forall n: Match :: RegexMatch(s, n) ==> !(copied <= n.start < m.start)
    ensures m.end <= |s|
    ensures calls + Matches(s, copied) == calls + [m] + Matches(s, m.end)
    ensures output + Substitute(s, copied, Matches(s, copied), replace)
         == output + s[copied..m.start] + replace(s[m.start..m.end], m.variable, m.fallback)
            + Substitute(s, m.end, Matches(s, m.end), replace)
  {
    FirstIs(s, m, cursor);
    SkipTo(s, copied, m.start);
    assert Matches(s, copied) == [m] + Matches(s, m.end);
    hide RegexMatch, FirstMatch, Matches, RunEnds;
    SubstituteFirst(s, copied, m, Matches(s, m.end), replace);
    Assoc4(output, s[copied..m.start], replace(s[m.start..m.end], m.variable, m.fallback),
           Substitute(s, m.end, Matches(s, m.end), replace));
  }

  lemma SubstituteFirst(s: string, copied: nat, m: Match, rest: seq<Match>, replace: Replacer)
    requires copied <= m.start <= m.end <= |s|
    ensures Substitute(s, copied, [m] + rest, replace)
         == s[copied..m.start] + replace(s[m.start..m.end], m.variable, m.fallback)
            + Substitute(s, m.end, rest, replace)
  {
    assert ([m] + rest)[0] == m && ([m] + rest)[1..] == rest;
  }

  lemma Assoc4(a: string, b: string, c: string, d: string)
    ensures a + (b + c + d) == a + b + c + d
  {
  }

  /** One opening tried: a match (`end` is its brace), no match here, or no match any more (`stop`). */
  method TryOpening(input: string, start: nat)
    returns (end: int, variable: string, fallback: Option<string>, stop: bool, ghost cursor: nat, ghost inspected: nat)
    requires OpensAt(input, start)
    ensures RunEnds(input, start, cursor)
    ensures stop ==> forall m: Match :: RegexMatch(input, m) ==> m.start < start
    ensures !stop && end == -1 ==> forall m: Match :: RegexMatch(input, m) ==> m.start != start
    ensures stop ==> inspected <= |input| - start
    ensures !stop && end == -1 ==> inspected <= cursor - start + 1
    ensures !stop && end != -1 ==> start < cursor <= end < |input| && inspected <= end - start + 1
    ensures !stop && end != -1 ==> RegexMatch(input, Match(start, end + 1, variable, fallback))
  {
    var at := start + 2;
    inspected := 0;
    while at < |input| && IsVariableChar(input[at])
      invariant start + 2 <= at <= |input| && inspected == at - start - 2
      invariant forall k :: start + 2 <= k < at ==> IsVariableChar(input[k])
    {
      inspected := inspected + 1;
      at := at + 1;
    }
    cursor := at;
    inspected := inspected + if at < |input| then 3 else 0;
    variable := input[start + 2..at];
    end, fallback, stop := -1, None, false;
    if variable != "" && at < |input| && input[at] == '}' {
      end := at;
      ScannedIsMatch(input, start, at, end, None);
    } else if variable != "" && at < |input| && input[at] == ':' {
      ghost var cost: nat;
      end, cost := IndexOfBrace(input, at + 1);
      inspected := inspected + cost;
      if end == -1 {
        NothingAfter(input, start, at);
        stop := true;
      } else {
        fallback := Some(input[at + 1..end]);
        ScannedIsMatch(input, start, at, end, fallback);
      }
    } else {
      NoMatchHere(input, start, at);
    }
  }

  /**
   * The scan yields exactly the substitution the regular expression defines, calls `replace` on its
   * matches in order (`calls`), and inspects at most four characters per character of the input.
   */
  method ReplacePlaceholders(input: string, replace: Replacer)
    returns (result: string, calls: seq<Match>, ghost inspected: nat)
    ensures calls == Matches(input, 0)
    ensures result == Substitute(input, 0, Matches(input, 0), replace)
    ensures inspected <= 4 * |input| + 3
  {
    hide RegexMatch, FirstMatch, Matches, Substitute, RunEnds;
    var output, copied := "", 0;
    calls := [];
    var start: int;
    start, inspected := IndexOfOpening(input, 0);
    ghost var all, total := Matches(input, 0), Substitute(input, 0, Matches(input, 0), replace);
    NoOpeningNoMatch(input, 0, start);
    assert [] + all == all && "" + total == total;
    while start != -1
      invariant 0 <= copied <= |input|
      invariant start == -1 || (copied <= start && OpensAt(input, start))
      invariant forall m: Match :: RegexMatch(input, m) ==> !(copied <= m.start && (start == -1 || m.start < start))
      invariant calls + Matches(input, copied) == all
      invariant output + Substitute(input, copied, Matches(input, copied), replace) == total
      invariant inspected <= if start == -1 then 4 * |input| + 3 else 4 * start + 2
      decreases if start == -1 then 0 else |input| + 1 - start
    {
      ghost var cursor, cost: nat;
      var end, variable, fallback, stop;
      end, variable, fallback, stop, cursor, cost := TryOpening(input, start);
      inspected := inspected + cost;
      if stop {
        // Every later opening would need the missing brace too (NothingAfter).
        break;
      }
      if end == -1 {
        ghost var before := start;
        NoOpeningInRun(input, start, cursor);
        start, cost := IndexOfOpening(input, start + 2);
        inspected := inspected + cost;
        NoOpeningNoMatch(input, before + 1, start);
        continue;
      }
      TakeMatch(input, copied, Match(start, end + 1, variable, fallback), cursor, calls, output, replace);
      calls := calls + [Match(start, end + 1, variable, fallback)];
      output := output + input[copied..start] + replace(input[start..end + 1], variable, fallback);
      copied := end + 1;
      start, cost := IndexOfOpening(input, copied);
      inspected := inspected + cost;
      NoOpeningNoMatch(input, copied, start);
    }
    Finished(input, copied, calls, output, replace);
    result := output + input[copied..];
  }

  lemma NoOpeningInRun(s: string, start: nat, cursor: nat)
    requires OpensAt(s, start) && RunEnds(s, start, cursor)
    ensures forall k :: start < k < cursor ==> !OpensAt(s, k)
    ensures cursor <= |s|
  {
  }

  lemma Finished(s: string, copied: nat, calls: seq<Match>, output: string, replace: Replacer)
    requires copied <= |s|
    requires forall m: Match :: RegexMatch(s, m) ==> m.start < copied
    ensures calls + Matches(s, copied) == calls
    ensures output + Substitute(s, copied, Matches(s, copied), replace) == output + s[copied..]
  {
    NoneLeft(s, copied);
  }

  /** No brace after the colon: no further match can end, so the scan may stop. */
  lemma NothingAfter(s: string, start: nat, cursor: nat)
    requires OpensAt(s, start) && RunEnds(s, start, cursor) && cursor < |s| && s[cursor] == ':'
    requires forall k :: cursor < k < |s| ==> s[k] != '}'
    ensures forall m: Match :: RegexMatch(s, m) ==> m.start < start
  {
    forall m: Match | RegexMatch(s, m)
      ensures m.start < start
    {
      MatchChars(s, m);
      assert s[m.end - 1] == '}' && m.end - 1 <= cursor;
      assert m.end - 1 <= start + 1 || IsVariableChar(s[m.end - 1]);
    }
  }

  /** The run is not followed by a brace or a colon: there is no match at this opening. */
  lemma NoMatchHere(s: string, start: nat, cursor: nat)
    requires RunEnds(s, start, cursor)
    requires cursor == start + 2 || cursor == |s| || (s[cursor] != '}' && s[cursor] != ':')
    ensures forall m: Match :: RegexMatch(s, m) ==> m.start != start
  {
    forall m: Match | RegexMatch(s, m)
      ensures m.start != start
    {
      if m.start == start {
        MatchShape(s, m, cursor);
      }
    }
  }

  // ---- One placeholder after the other --------------------------------------------------

  /** The characters of variable names, by their codes: capitals, digits and the underscore. */
  lemma VariableCharCodes(c: char)
    ensures IsVariableChar(c) <==> 65 <= c as int <= 90 || 48 <= c as int <= 57 || c as int == 95
  {
  }

  function Moved(m: Match, k: nat): Match {
    Match(m.start + k, m.end + k, m.variable, m.fallback)
  }

  function AllMoved(ms: seq<Match>, k: nat): seq<Match> {
    if ms == [] then [] else [Moved(ms[0], k)] + AllMoved(ms[1..], k)
  }

  lemma MovedMatch(s: string, k: nat, m: Match)
    requires k <= |s|
    ensures RegexMatch(s[k..], m) <==> RegexMatch(s, Moved(m, k))
  {
    if m.start <= m.end <= |s| - k {
      assert s[k..][m.start..m.end] == s[m.start + k..m.end + k];
    }
  }

  /** Matching the rest of a text is matching the text from there on. */
  lemma FirstMoved(s: string, k: nat, from: nat)
    requires k <= |s|
    ensures FirstMatch(s, k + from).Some? <==> FirstMatch(s[k..], from).Some?
    ensures FirstMatch(s, k + from).Some? ==> FirstMatch(s, k + from).value == Moved(FirstMatch(s[k..], from).value, k)
  {
    var rest, here, there := s[k..], FirstMatch(s, k + from), FirstMatch(s[k..], from);
    hide FirstMatch, RegexMatch;
    if here.Some? {
      var m := here.value;
      var back := Match(m.start - k, m.end - k, m.variable, m.fallback);
      assert m == Moved(back, k);
      MovedMatch(s, k, back);
      FirstIsLeftmost(rest, from, back);
    }
    if there.Some? {
      var n := there.value;
      MovedMatch(s, k, n);
      FirstIsLeftmost(s, k + from, Moved(n, k));
      SameStartSameMatch(s, here.value, Moved(n, k));
    }
  }

  lemma {:induction false} MatchesMoved(s: string, k: nat, from: nat)
    requires k <= |s|
    ensures Matches(s, k + from) == AllMoved(Matches(s[k..], from), k)
    decreases |s| - from
  {
    FirstMoved(s, k, from);
    hide FirstMatch, RegexMatch;
    var there := FirstMatch(s[k..], from);
    if there.Some? {
      var m, rest := there.value, Matches(s[k..], there.value.end);
      MatchesMoved(s, k, m.end);
      AllMovedCons(m, rest, k);
    }
  }

  lemma AllMovedCons(m: Match, ms: seq<Match>, k: nat)
    ensures AllMoved([m] + ms, k) == [Moved(m, k)] + AllMoved(ms, k)
  {
    assert ([m] + ms)[1..] == ms;
  }

  lemma PieceMoved(s: string, k: nat, from: nat, m: Match, replace: Replacer)
    requires k <= |s|
    ensures Piece(s, from + k, Moved(m, k), replace) == Piece(s[k..], from, m, replace)
  {
    if from <= m.start <= m.end <= |s| - k {
      assert s[from + k..m.start + k] == s[k..][from..m.start];
      assert s[m.start + k..m.end + k] == s[k..][m.start..m.end];
    }
  }

  lemma {:induction false} SubstituteMoved(s: string, k: nat, from: nat, ms: seq<Match>, replace: Replacer)
    requires k <= |s|
    ensures Substitute(s, from + k, AllMoved(ms, k), replace) == Substitute(s[k..], from, ms, replace)
    decreases |ms|
  {
    hide Piece;
    if ms == [] {
      assert from <= |s| - k ==> s[k..][from..] == s[from + k..];
    } else {
      PieceMoved(s, k, from, ms[0], replace);
      SubstituteMoved(s, k, ms[0].end, ms[1..], replace);
      assert AllMoved(ms, k)[0] == Moved(ms[0], k) && AllMoved(ms, k)[1..] == AllMoved(ms[1..], k);
    }
  }

  /** The text of a placeholder, written out. */
  function PlaceholderText(variable: string, fallback: Option<string>): string {
    if fallback.None? then "${" + variable + "}" else "${" + variable + ":" + fallback.value + "}"
  }

  predicate IsPlaceholder(variable: string, fallback: Option<string>) {
    && variable != "" && (forall c :: c in variable ==> IsVariableChar(c))
    && (fallback.Some? ==> '}' !in fallback.value)
  }

  /** A placeholder of the text before which no match starts. */
  ghost predicate FirstPlaceholder(s: string, i: nat, j: nat, variable: string, fallback: Option<string>) {
    && IsPlaceholder(variable, fallback) && i <= j <= |s| && s[i..j] == PlaceholderText(variable, fallback)
    && forall m: Match :: RegexMatch(s, m) ==> m.start >= i
  }

  lemma PlaceholderIsFirst(s: string, i: nat, j: nat, variable: string, fallback: Option<string>)
    requires FirstPlaceholder(s, i, j, variable, fallback)
    ensures Matches(s, 0) == [Match(i, j, variable, fallback)] + Matches(s, j)
  {
    var m := Match(i, j, variable, fallback);
    TextOfMatch(variable, fallback);
    hide PlaceholderText, MatchText, IsVariableChar;
    assert RegexMatch(s, m);
    MatchChars(s, m);
    hide RegexMatch;
    FirstIs(s, m, RunFrom(s, i + 2));
    SkipTo(s, 0, i);
    hide FirstMatch;
    assert FirstMatch(s, 0) == Some(m);
  }

  lemma RestMatches(s: string, k: nat)
    requires k <= |s|
    ensures Matches(s, k) == AllMoved(Matches(s[k..], 0), k)
  {
    hide *;
    MatchesMoved(s, k, 0);
  }

  lemma RestSubstituted(s: string, k: nat, replace: Replacer)
    requires k <= |s|
    ensures Substitute(s, k, Matches(s, k), replace) == Substitute(s[k..], 0, Matches(s[k..], 0), replace)
  {
    hide *;
    RestMatches(s, k);
    SubstituteMoved(s, k, 0, Matches(s[k..], 0), replace);
  }

  /** The first match taken, and the rest of the text matched by itself. */
  lemma TakeFirst(s: string, m: Match, replace: Replacer)
    requires m.start <= m.end <= |s| && Matches(s, 0) == [m] + Matches(s, m.end)
    ensures Substitute(s, 0, Matches(s, 0), replace)
         == s[0..m.start] + replace(s[m.start..m.end], m.variable, m.fallback)
            + Substitute(s[m.end..], 0, Matches(s[m.end..], 0), replace)
  {
    hide *;
    RestSubstituted(s, m.end, replace);
    SubstituteFirst(s, 0, m, Matches(s, m.end), replace);
  }

  /** A text is taken up to its first placeholder, and what follows is matched by itself. */
  lemma TakePlaceholder(s: string, i: nat, j: nat, variable: string, fallback: Option<string>, replace: Replacer)
    requires FirstPlaceholder(s, i, j, variable, fallback)
    ensures Matches(s, 0) == [Match(i, j, variable, fallback)] + AllMoved(Matches(s[j..], 0), j)
    ensures Substitute(s, 0, Matches(s, 0), replace)
         == s[0..i] + replace(PlaceholderText(variable, fallback), variable, fallback)
            + Substitute(s[j..], 0, Matches(s[j..], 0), replace)
  {
    PlaceholderIsFirst(s, i, j, variable, fallback);
    hide *;
    assert i <= j <= |s| && s[i..j] == PlaceholderText(variable, fallback) by {
      FirstBounds(s, i, j, variable, fallback);
    }
    RestMatches(s, j);
    TakeFirst(s, Match(i, j, variable, fallback), replace);
  }

  lemma FirstBounds(s: string, i: nat, j: nat, variable: string, fallback: Option<string>)
    requires FirstPlaceholder(s, i, j, variable, fallback)
    ensures i <= j <= |s| && s[i..j] == PlaceholderText(variable, fallback)
  {
  }

  lemma TextOfMatch(variable: string, fallback: Option<string>)
    ensures PlaceholderText(variable, fallback) == MatchText(variable, fallback)
  {
    match fallback
    case None => assert "${" + variable + "" == "${" + variable;
    case Some(f) => assert "${" + variable + (":" + f) == "${" + variable + ":" + f;
  }

  /** No match starts before the first opening. */
  lemma NoneBeforeOpening(s: string, i: nat)
    requires forall k :: 0 <= k < i ==> !OpensAt(s, k)
    ensures forall m: Match :: RegexMatch(s, m) ==> m.start >= i
  {
    NoOpeningNoMatch(s, 0, i);
  }
}
