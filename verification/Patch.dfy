/**
 Search/replace patches of workspace files. Text stands for its UTF-8 bytes: the markers are
 ASCII, so lines, occurrences and lengths are the same on either.
 */
module Patch {
  import opened Wrappers

  datatype Hunk = Hunk(search: string, replace: string)

  const SEARCH_MARK := "<<<<<<< SEARCH\n"
  const DIVIDER := "\n=======\n"
  const REPLACE_MARK := "\n>>>>>>> REPLACE"

  // ---------------------------------------------------------------- scanning a patch

  predicate At(text: string, at: nat, part: string) {
    at + |part| <= |text| && text[at..at + |part|] == part
  }

  /** The end of the line that `at` is on. */
  function LineEnd(text: string, at: nat): (end: nat)
    requires at <= |text|
    ensures at <= end <= |text|
    ensures forall i :: at <= i < end ==> text[i] != '\n'
    ensures end < |text| ==> text[end] == '\n'
    decreases |text| - at
  {
    if at == |text| || text[at] == '\n' then at else LineEnd(text, at + 1)
  }

  /** The pattern matched at one place. Neither side crosses a line end and each is followed
      by one, so there is only one way to match. */
  function MatchAt(patch: string, at: nat): (r: Option<(Hunk, nat)>)
    ensures r.Some? ==> at < r.value.1 <= |patch|
  {
    if !At(patch, at, SEARCH_MARK) then None
    else
      var from := at + |SEARCH_MARK|;
      var middle := LineEnd(patch, from);
      if !At(patch, middle, DIVIDER) then None
      else
        var second := middle + |DIVIDER|;
        var end := LineEnd(patch, second);
        if !At(patch, end, REPLACE_MARK) then None
        else Some((Hunk(patch[from..middle], patch[second..end]), end + |REPLACE_MARK|))
  }

  /** The leftmost matches from `at` on, none overlapping another. */
  function Hunks(patch: string, at: nat): seq<Hunk>
    decreases |patch| - at
  {
    if at >= |patch| then []
    else
      match MatchAt(patch, at)
      case None => Hunks(patch, at + 1)
      case Some((hunk, end)) => [hunk] + Hunks(patch, end)
  }

  // ---------------------------------------------------------------- applying it

  /** The first occurrence of `part`. */
  function Find(text: string, part: string, at: nat): (r: Option<nat>)
    requires at <= |text|
    ensures r.Some? ==> at <= r.value && At(text, r.value, part) && forall i :: at <= i < r.value ==> !At(text, i, part)
    ensures r.None? ==> forall i :: at <= i ==> !At(text, i, part)
    decreases |text| - at
  {
    if At(text, at, part) then Some(at) else if at == |text| then None else Find(text, part, at + 1)
  }

  function ReplaceFirst(text: string, hunk: Hunk): string {
    match Find(text, hunk.search, 0)
    case None => text
    case Some(i) => text[..i] + hunk.replace + text[i + |hunk.search|..]
  }

  /** The text after the hunks, one after the other. */
  function Patched(text: string, hunks: seq<Hunk>): string {
    if hunks == [] then text else ReplaceFirst(Patched(text, hunks[..|hunks| - 1]), hunks[|hunks| - 1])
  }

  /** The search text of hunk `k` occurs when its turn comes. */
  predicate Applies(text: string, hunks: seq<Hunk>, k: nat)
    requires k < |hunks|
  {
    Find(Patched(text, hunks[..k]), hunks[k].search, 0).Some?
  }

  function AppliedHunks(text: string, hunks: seq<Hunk>): set<nat> {
    set k: nat | k < |hunks| && Applies(text, hunks, k)
  }

  /** What the hunks that apply add to the length. */
  function Growth(text: string, hunks: seq<Hunk>): int {
    if hunks == [] then 0
    else
      var k := |hunks| - 1;
      Growth(text, hunks[..k]) + if Applies(text, hunks, k) then |hunks[k].replace| - |hunks[k].search| else 0
  }

  lemma AppliedMore(text: string, hunks: seq<Hunk>, k: nat)
    requires k < |hunks|
    ensures Applies(text, hunks[..k + 1], k) <==> Applies(text, hunks, k)
    ensures AppliedHunks(text, hunks[..k + 1]) ==
            AppliedHunks(text, hunks[..k]) + if Applies(text, hunks, k) then {k} else {}
    ensures Patched(text, hunks[..k + 1]) == ReplaceFirst(Patched(text, hunks[..k]), hunks[k])
  {
    hide Patched;
    forall i: nat | i <= k ensures hunks[..k + 1][..i] == hunks[..i] {}
    forall i: nat | i < k ensures hunks[..k][..i] == hunks[..i] {}
    PatchedMore(text, hunks, k);
  }

  lemma PatchedMore(text: string, hunks: seq<Hunk>, k: nat)
    requires k < |hunks|
    ensures Patched(text, hunks[..k + 1]) == ReplaceFirst(Patched(text, hunks[..k]), hunks[k])
  {
    assert hunks[..k + 1][..k] == hunks[..k];
  }

  /** Applies a patch to a file's text; the result's length is the number of bytes written. */
  method ApplyPatch(text: string, patch: string) returns (content: string, hunksApplied: nat)
    ensures content == Patched(text, Hunks(patch, 0))
    ensures hunksApplied == |AppliedHunks(text, Hunks(patch, 0))|
  {
    hide Patched, Hunks, AppliedHunks, Applies;
    content, hunksApplied := text, 0;
    var captures := Hunks(patch, 0);
    NothingApplied(text, captures);
    for k := 0 to |captures|
      invariant content == Patched(text, captures[..k])
      invariant hunksApplied == |AppliedHunks(text, captures[..k])|
    {
      var hunk := captures[k];
      AppliedMore(text, captures, k);
      NotYetApplied(text, captures, k);
      AppliesMeans(text, captures, k);
      if Find(content, hunk.search, 0).Some? {
        content := ReplaceFirst(content, hunk);
        hunksApplied := hunksApplied + 1;
      }
    }
    assert captures[..|captures|] == captures;
  }

  lemma NothingApplied(text: string, hunks: seq<Hunk>)
    ensures Patched(text, hunks[..0]) == text && AppliedHunks(text, hunks[..0]) == {}
  {
  }

  lemma NotYetApplied(text: string, hunks: seq<Hunk>, k: nat)
    requires k < |hunks|
    ensures k !in AppliedHunks(text, hunks[..k])
  {
  }

  lemma AppliesMeans(text: string, hunks: seq<Hunk>, k: nat)
    requires k < |hunks|
    ensures Applies(text, hunks, k) <==> Find(Patched(text, hunks[..k]), hunks[k].search, 0).Some?
  {
  }

  /** The bytes written are those of the original and what the applied hunks add. */
  lemma {:induction false} PatchedLength(text: string, hunks: seq<Hunk>)
    ensures |Patched(text, hunks)| == |text| + Growth(text, hunks)
    decreases |hunks|
  {
    if hunks != [] {
      var k := |hunks| - 1;
      PatchedLength(text, hunks[..k]);
      ReplacedLength(Patched(text, hunks[..k]), hunks[k]);
    }
  }

  lemma ReplacedLength(text: string, hunk: Hunk)
    ensures |ReplaceFirst(text, hunk)| ==
            |text| + if Find(text, hunk.search, 0).Some? then |hunk.replace| - |hunk.search| else 0
  {
  }

  /** A hunk's own text applies whatever surrounds it, at its first occurrence. */
  lemma ReplacesFirstOccurrence(before: string, hunk: Hunk, after: string)
    requires forall i :: 0 <= i < |before| ==> !At(before + hunk.search + after, i, hunk.search)
    ensures ReplaceFirst(before + hunk.search + after, hunk) == before + hunk.replace + after
  {
    var text := before + hunk.search + after;
    assert At(text, |before|, hunk.search);
    assert text[..|before|] == before && text[|before| + |hunk.search|..] == after;
  }

  /** The hunks are applied in their order, each to the text that the ones before it left. */
  lemma {:induction false} PatchedInOrder(text: string, first: seq<Hunk>, later: seq<Hunk>)
    ensures Patched(text, first + later) == Patched(Patched(text, first), later)
    decreases |later|
  {
    hide ReplaceFirst;
    if later == [] {
      assert first + later == first;
    } else {
      var n := |later| - 1;
      PatchedInOrder(text, first, later[..n]);
      var all := first + later;
      assert all[..|all| - 1] == first + later[..n] && all[|all| - 1] == later[n];
    }
  }

  // ---------------------------------------------------------------- printing and parsing

  predicate OneLine(text: string) {
    '\n' !in text
  }

  predicate OneLiner(hunk: Hunk) {
    OneLine(hunk.search) && OneLine(hunk.replace)
  }

  function PrintHunk(hunk: Hunk): string {
    SEARCH_MARK + hunk.search + DIVIDER + hunk.replace + REPLACE_MARK
  }

  /** Hunks with any text before each of them and at the end. */
  function Print(gaps: seq<string>, hunks: seq<Hunk>): string
    requires |gaps| == |hunks| + 1
  {
    if hunks == [] then gaps[0] else gaps[0] + PrintHunk(hunks[0]) + Print(gaps[1..], hunks[1..])
  }

  /** Text in which no marker can begin. */
  predicate Plain(gap: string) {
    '<' !in gap
  }

  lemma {:induction false} LineEndIs(text: string, at: nat, end: nat)
    requires at <= end < |text| && text[end] == '\n' && forall i :: at <= i < end ==> text[i] != '\n'
    ensures LineEnd(text, at) == end
    decreases end - at
  {
    if at < end { LineEndIs(text, at + 1, end); }
  }

  lemma Glue(a: string, b: string, c: string, at: nat)
    requires At(c, at, a + b)
    ensures At(c, at, a) && At(c, at + |a|, b)
  {
    assert c[at..at + |a|] == (a + b)[..|a|];
    assert c[at + |a|..at + |a| + |b|] == (a + b)[|a|..];
  }

  /** A side, up to the mark after it. */
  lemma SideEnds(text: string, at: nat, side: string, mark: string)
    requires OneLine(side) && mark != [] && mark[0] == '\n' && At(text, at, side + mark)
    ensures LineEnd(text, at) == at + |side| && At(text, at + |side|, mark) && text[at..at + |side|] == side
  {
    Glue(side, mark, text, at);
    assert text[at + |side|] == mark[0];
    forall i | at <= i < at + |side| ensures text[i] != '\n' { assert text[i] == side[i - at]; }
    LineEndIs(text, at, at + |side|);
  }

  lemma PrintedParts(hunk: Hunk)
    ensures PrintHunk(hunk) == SEARCH_MARK + ((hunk.search + DIVIDER) + (hunk.replace + REPLACE_MARK))
  {
  }

  lemma PrintedMatches(patch: string, at: nat, hunk: Hunk)
    requires OneLiner(hunk) && At(patch, at, PrintHunk(hunk))
    ensures MatchAt(patch, at) == Some((hunk, at + |PrintHunk(hunk)|))
  {
    hide At, OneLine, PrintHunk, LineEnd;
    PrintedParts(hunk);
    var side1, side2 := hunk.search + DIVIDER, hunk.replace + REPLACE_MARK;
    Glue(SEARCH_MARK, side1 + side2, patch, at);
    Glue(side1, side2, patch, at + |SEARCH_MARK|);
    SideEnds(patch, at + |SEARCH_MARK|, hunk.search, DIVIDER);
    SideEnds(patch, at + |SEARCH_MARK| + |side1|, hunk.replace, REPLACE_MARK);
  }

  lemma {:induction false} GapIsSkipped(patch: string, at: nat, end: nat)
    requires at <= end <= |patch| && forall i :: at <= i < end ==> patch[i] != '<'
    ensures Hunks(patch, at) == Hunks(patch, end)
    decreases end - at
  {
    if at < end {
      assert At(patch, at, SEARCH_MARK) ==> patch[at..at + |SEARCH_MARK|][0] == '<';
      GapIsSkipped(patch, at + 1, end);
    }
  }

  lemma {:induction false} PrintedParses(before: string, gaps: seq<string>, hunks: seq<Hunk>)
    requires |gaps| == |hunks| + 1
    requires forall i :: 0 <= i < |gaps| ==> Plain(gaps[i])
    requires forall i :: 0 <= i < |hunks| ==> OneLiner(hunks[i])
    ensures Hunks(before + Print(gaps, hunks), |before|) == hunks
    decreases |hunks|
  {
    hide PrintHunk, OneLiner, MatchAt;
    var patch := before + Print(gaps, hunks);
    var from := |before| + |gaps[0]|;
    forall i | |before| <= i < from ensures patch[i] != '<' { assert patch[i] == gaps[0][i - |before|]; }
    GapIsSkipped(patch, |before|, from);
    if hunks != [] {
      var text := PrintHunk(hunks[0]);
      var next := before + gaps[0] + text;
      assert patch == next + Print(gaps[1..], hunks[1..]);
      assert At(patch, from, text);
      PrintedMatches(patch, from, hunks[0]);
      PrintedParses(next, gaps[1..], hunks[1..]);
    }
  }

  /** A patch of one hunk, as it is written. */
  lemma OneHunk(search: string, replace: string)
    requires OneLine(search) && OneLine(replace)
    ensures var patch := "<<<<<<< SEARCH\n" + search + "\n=======\n" + replace + "\n>>>>>>> REPLACE";
      Hunks(patch, 0) == [Hunk(search, replace)]
  {
    hide Hunks, PrintHunk;
    var hunk := Hunk(search, replace);
    var patch := "<<<<<<< SEARCH\n" + search + "\n=======\n" + replace + "\n>>>>>>> REPLACE";
    assert patch == Print(["", ""], [hunk]) by { PrintedOnce(hunk); }
    ReadBackIff(["", ""], [hunk]);
  }

  lemma PrintedOnce(hunk: Hunk)
    ensures Print(["", ""], [hunk]) ==
            "<<<<<<< SEARCH\n" + hunk.search + "\n=======\n" + hunk.replace + "\n>>>>>>> REPLACE"
  {
    assert ["", ""][1..] == [""] && [hunk][1..] == [];
  }

  lemma {:induction false} ParsedAreOneLiners(patch: string, at: nat)
    ensures forall i :: 0 <= i < |Hunks(patch, at)| ==> OneLiner(Hunks(patch, at)[i])
    decreases |patch| - at
  {
    if at < |patch| {
      match MatchAt(patch, at)
      case None => ParsedAreOneLiners(patch, at + 1);
      case Some((_, end)) => ParsedAreOneLiners(patch, end);
    }
  }

  /** Which hunks a patch can carry: a printed list, whatever harmless text is around the
      hunks, is read back exactly when no side has a line end. */
  lemma ReadBackIff(gaps: seq<string>, hunks: seq<Hunk>)
    requires |gaps| == |hunks| + 1
    requires forall i :: 0 <= i < |gaps| ==> Plain(gaps[i])
    ensures Hunks(Print(gaps, hunks), 0) == hunks <==> forall i :: 0 <= i < |hunks| ==> OneLiner(hunks[i])
  {
    hide Print, Hunks, OneLiner;
    if forall i :: 0 <= i < |hunks| ==> OneLiner(hunks[i]) {
      PrintedParses([], gaps, hunks);
      assert [] + Print(gaps, hunks) == Print(gaps, hunks);
    }
    ParsedAreOneLiners(Print(gaps, hunks), 0);
  }
}
