/** The two filters over ICE candidate lines: the Go one keeps relay candidates and compacts
    its lines in place; the Python one keeps the host candidates of one address. */
module Candidates {
  import opened Wrappers
  import opened Selections
  import opened Text

  const CANDIDATE: string := "a=candidate:"
  const RELAY: string := " typ relay "

  predicate IsCandidate(line: string) {
    CANDIDATE <= line
  }

  // ---------------------------------------------------------------- filtering

  function Filter(keep: string -> bool, lines: seq<string>): seq<string> {
    if lines == [] then []
    else
      var front, last := lines[..|lines| - 1], lines[|lines| - 1];
      Filter(keep, front) + if keep(last) then [last] else []
  }

  /** Filtering picks the kept lines, in their order. */
  lemma {:induction false} FilterSelects(keep: string -> bool, lines: seq<string>)
    ensures Selects(keep, lines, Filter(keep, lines))
  {
    if lines == [] {
      SelectsNothing(keep);
    } else {
      var front, last := lines[..|lines| - 1], lines[|lines| - 1];
      FilterSelects(keep, front);
      SelectsLast(keep, front, last, Filter(keep, front));
      assert lines == front + [last];
    }
  }

  lemma {:induction false} FilterExactly(keep: string -> bool, lines: seq<string>)
    ensures forall line :: line in Filter(keep, lines) <==> line in lines && keep(line)
  {
    if lines != [] {
      var front, last := lines[..|lines| - 1], lines[|lines| - 1];
      FilterExactly(keep, front);
      assert lines == front + [last];
    }
  }

  /** Every kept line keeps all its occurrences ... */
  lemma {:induction false} FilterCounts(keep: string -> bool, lines: seq<string>, line: string)
    ensures multiset(Filter(keep, lines))[line] == if keep(line) then multiset(lines)[line] else 0
  {
    if lines != [] {
      var front, last := lines[..|lines| - 1], lines[|lines| - 1];
      FilterCounts(keep, front, line);
      assert lines == front + [last];
    }
  }

  /** ... and order is respected: what comes from the first part stays before the second. */
  lemma {:induction false} FilterOrder(keep: string -> bool, first: seq<string>, second: seq<string>)
    ensures Filter(keep, first + second) == Filter(keep, first) + Filter(keep, second)
  {
    if second == [] {
      assert first + second == first;
    } else {
      var front := second[..|second| - 1];
      FilterOrder(keep, first, front);
      assert (first + second)[..|first + second| - 1] == first + front;
      assert (first + second)[|first + second| - 1] == second[|second| - 1];
      Associate(Filter(keep, first), Filter(keep, front), if keep(second[|second| - 1]) then [second[|second| - 1]] else []);
    }
  }

  predicate AllKept(keep: string -> bool, lines: seq<string>) {
    forall line <- lines :: keep(line)
  }

  lemma {:induction false} FilterShrinks(keep: string -> bool, lines: seq<string>)
    ensures |Filter(keep, lines)| <= |lines|
  {
    if lines != [] {
      FilterShrinks(keep, lines[..|lines| - 1]);
    }
  }

  /** A filter changes exactly the lists with a line it does not keep. */
  lemma {:induction false} FilterUnchanged(keep: string -> bool, lines: seq<string>)
    ensures AllKept(keep, lines) <==> Filter(keep, lines) == lines
  {
    if lines != [] {
      var front, last := lines[..|lines| - 1], lines[|lines| - 1];
      FilterUnchanged(keep, front);
      FilterShrinks(keep, front);
      assert lines == front + [last];
    }
  }

  // ---------------------------------------------------------------- splitting at line feeds

  /** Go's `strings.Split(s, "\n")`: always at least one piece. */
  function SplitOn(s: string): (pieces: seq<string>)
    ensures pieces != []
  {
    if s == "" then [""]
    else
      var rest := SplitOn(s[1..]);
      if s[0] == '\n' then [""] + rest else [[s[0]] + rest[0]] + rest[1..]
  }

  predicate NoLineFeed(lines: seq<string>) {
    forall i | 0 <= i < |lines| :: '\n' !in lines[i]
  }

  lemma {:induction false} SplitHasNoLineFeed(s: string)
    ensures NoLineFeed(SplitOn(s))
  {
    if s != "" {
      SplitHasNoLineFeed(s[1..]);
    }
  }

  lemma {:induction false} JoinOfSplit(s: string)
    ensures Join(LF, SplitOn(s)) == s
  {
    if s != "" {
      var rest := SplitOn(s[1..]);
      JoinOfSplit(s[1..]);
      if s[0] == '\n' {
        assert ([""] + rest)[1..] == rest;
        assert s == LF + s[1..];
      } else {
        PrependToJoin(s[0], rest);
      }
    }
  }

  lemma PrependToJoin(c: char, lines: seq<string>)
    requires lines != []
    ensures Join(LF, [[c] + lines[0]] + lines[1..]) == [c] + Join(LF, lines)
  {
    if |lines| > 1 {
      assert ([[c] + lines[0]] + lines[1..])[1..] == lines[1..];
    }
  }

  lemma {:induction false} SplitOfLine(line: string, rest: string)
    requires '\n' !in line
    ensures SplitOn(line + LF + rest) == [line] + SplitOn(rest)
    ensures SplitOn(line) == [line]
  {
    if line == "" {
      assert ("" + LF + rest)[1..] == rest;
    } else {
      SplitOfLine(line[1..], rest);
      assert (line + LF + rest)[1..] == line[1..] + LF + rest;
      assert line == [line[0]] + line[1..];
    }
  }

  lemma {:induction false} SplitOfJoin(lines: seq<string>)
    requires lines != [] && NoLineFeed(lines)
    ensures SplitOn(Join(LF, lines)) == lines
  {
    if |lines| == 1 {
      SplitOfLine(lines[0], "");
    } else {
      SplitOfJoin(lines[1..]);
      SplitOfLine(lines[0], Join(LF, lines[1..]));
    }
  }

  // ---------------------------------------------------------------- relay candidates

  function TrimCr(line: string): string {
    if line != "" && line[|line| - 1] == '\r' then line[..|line| - 1] else line
  }

  predicate KeepRelay(line: string) {
    var candidate := TrimCr(line);
    !(IsCandidate(candidate) && !Contains(" " + candidate + " ", RELAY))
  }

  function RelayOnly(sdp: string): string {
    Join(LF, Filter(KeepRelay, SplitOn(sdp)))
  }

  /** The loop of the source: `filtered` is the front of the very array it reads.  Because it
      never grows past the line being read, no unread line is overwritten. */
  method CompactRelay(lines: array<string>) returns (kept: nat)
    modifies lines
    ensures kept <= lines.Length
    ensures lines[..kept] == Filter(KeepRelay, old(lines[..]))
  {
    kept := 0;
    ghost var original := lines[..];
    for i := 0 to lines.Length
      invariant kept <= i
      invariant forall k | i <= k < lines.Length :: lines[k] == original[k]
      invariant lines[..kept] == Filter(KeepRelay, original[..i])
    {
      var line := lines[i];
      FilterNext(KeepRelay, original, i);
      if KeepRelay(line) {
        Store(lines, kept, line);
        kept := kept + 1;
      }
    }
    assert original[..lines.Length] == original;
  }

  /** The append of the source, into the array that is being read. */
  method Store(lines: array<string>, kept: nat, line: string)
    requires kept < lines.Length
    modifies lines
    ensures lines[..kept + 1] == old(lines[..kept]) + [line]
    ensures forall k | kept < k < lines.Length :: lines[k] == old(lines[k])
  {
    lines[kept] := line;
  }

  lemma FilterNext(keep: string -> bool, lines: seq<string>, i: nat)
    requires i < |lines|
    ensures Filter(keep, lines[..i + 1]) == Filter(keep, lines[..i]) + if keep(lines[i]) then [lines[i]] else []
  {
    assert lines[..i + 1][..i] == lines[..i];
  }

  method RelayOnlySDP(sdp: string) returns (filtered: string)
    ensures filtered == RelayOnly(sdp)
  {
    var pieces := SplitOn(sdp);
    var lines := new string[|pieces|](i requires 0 <= i < |pieces| => pieces[i]);
    assert lines[..] == pieces;
    var kept := CompactRelay(lines);
    filtered := Join(LF, lines[..kept]);
  }

  lemma KeptHasNoLineFeed(keep: string -> bool, lines: seq<string>)
    requires NoLineFeed(lines)
    ensures NoLineFeed(Filter(keep, lines))
  {
    var kept := Filter(keep, lines);
    FilterExactly(keep, lines);
    forall i | 0 <= i < |kept|
      ensures '\n' !in kept[i]
    {
      assert kept[i] in kept;
    }
  }

  /** No candidate, or a candidate with " typ relay " in it, between blanks. */
  ghost predicate IsRelayOrOther(text: string) {
    "a=candidate:" <= text ==> exists i: nat :: OccursAt(" " + text + " ", " typ relay ", i)
  }

  /** A line that stays, whether or not a carriage return ends it. */
  ghost predicate StaysForRelay(line: string) {
    IsRelayOrOther(if line != "" && line[|line| - 1] == '\r' then line[..|line| - 1] else line)
  }

  /** The filter, from its text alone. */
  lemma RelaySelects(sdp: string) returns (kept: seq<string>)
    ensures exists at: seq<nat> :: StandsAt(kept, SplitOn(sdp), at)
              && forall i: nat | i < |SplitOn(sdp)| :: i in at <==> StaysForRelay(SplitOn(sdp)[i])
    ensures RelayOnly(sdp) == Join("\n", kept)
  {
    var lines := SplitOn(sdp);
    kept := Filter(KeepRelay, lines);
    FilterSelects(KeepRelay, lines);
    var at: seq<nat> :| StandsAt(kept, lines, at) && Positions(KeepRelay, lines, at);
    forall i: nat | i < |lines|
      ensures i in at <==> StaysForRelay(lines[i])
    {
      KeepRelayExactly(lines[i]);
    }
  }

  lemma KeepRelayExactly(line: string)
    ensures KeepRelay(line) <==> StaysForRelay(line)
  {
    ContainsExactly(" " + TrimCr(line) + " ", " typ relay ");
    assert StaysForRelay(line) <==> IsRelayOrOther(TrimCr(line));
  }

  /** The lines of the result, with their own terminators, are the kept lines in order; only
      a text of which nothing is kept becomes the empty text. */
  lemma RelayLines(sdp: string)
    ensures SplitOn(RelayOnly(sdp)) == if Filter(KeepRelay, SplitOn(sdp)) == [] then [""] else Filter(KeepRelay, SplitOn(sdp))
  {
    SplitHasNoLineFeed(sdp);
    KeptHasNoLineFeed(KeepRelay, SplitOn(sdp));
    if Filter(KeepRelay, SplitOn(sdp)) != [] {
      SplitOfJoin(Filter(KeepRelay, SplitOn(sdp)));
    }
  }

  /** The text is left alone exactly when every candidate in it is a relay candidate. */
  lemma RelayUnchangedExactly(sdp: string)
    ensures RelayOnly(sdp) == sdp <==> AllKept(KeepRelay, SplitOn(sdp))
  {
    FilterUnchanged(KeepRelay, SplitOn(sdp));
    JoinOfSplit(sdp);
    RelayLines(sdp);
    EmptyIsKept();
  }

  lemma EmptyIsKept()
    ensures KeepRelay("")
  {
    assert !IsCandidate("") by { assert |CANDIDATE| > 0; }
  }

  lemma RelayIsIdempotent(sdp: string)
    ensures RelayOnly(RelayOnly(sdp)) == RelayOnly(sdp)
  {
    RelayLines(sdp);
    FilterExactly(KeepRelay, SplitOn(sdp));
    EmptyIsKept();
    RelayUnchangedExactly(RelayOnly(sdp));
  }

  // ---------------------------------------------------------------- host candidates

  predicate IsHostCandidate(line: string, host: string) {
    var fields := Fields(line);
    IsCandidate(line) && |fields| >= 8 && fields[4] == host && fields[7] == "host"
  }

  function KeepHost(host: string): string -> bool {
    line => !IsCandidate(line) || IsHostCandidate(line, host)
  }

  predicate HasHost(lines: seq<string>, host: string) {
    exists line <- lines :: IsHostCandidate(line, host)
  }

  lemma OneMoreHost(lines: seq<string>, line: string, host: string)
    ensures HasHost(lines + [line], host) <==> HasHost(lines, host) || IsHostCandidate(line, host)
    ensures Filter(KeepHost(host), lines + [line])
            == Filter(KeepHost(host), lines) + if !IsCandidate(line) || IsHostCandidate(line, host) then [line] else []
  {
    assert (lines + [line])[..|lines|] == lines;
    if HasHost(lines, host) {
      var found :| found in lines && IsHostCandidate(found, host);
      assert found in lines + [line];
    }
    assert line in lines + [line];
  }

  /** `None` stands for the error raised when no candidate is left. */
  function HostOnly(sdp: string, host: string): Option<string> {
    var lines := LinesOf(sdp);
    if HasHost(lines, host) then Some(Render(Filter(KeepHost(host), lines), NewlineOf(sdp), Terminated(sdp))) else None
  }

  method PrimaryHostSDP(sdp: string, host: string) returns (r: Option<string>)
    ensures r == HostOnly(sdp, host)
  {
    var lines := LinesOf(sdp);
    var filtered := [];
    var kept := 0;
    for k := 0 to |lines|
      invariant filtered == Filter(KeepHost(host), lines[..k])
      invariant kept > 0 <==> HasHost(lines[..k], host)
    {
      var line := lines[k];
      assert lines[..k + 1] == lines[..k] + [line];
      OneMoreHost(lines[..k], line, host);
      if !IsCandidate(line) {
        filtered := filtered + [line];
        continue;
      }
      var fields := Fields(line);
      if |fields| >= 8 && fields[4] == host && fields[7] == "host" {
        filtered := filtered + [line];
        kept := kept + 1;
      }
    }
    assert lines[..|lines|] == lines;
    if kept == 0 {
      return None;
    }
    var rendered := RenderLike(filtered, sdp);
    r := Some(rendered);
  }

  /** A line that stays: no candidate, or one of at least eight fields of which the fifth is
      the address and the eighth the word "host". */
  ghost predicate StaysForHost(line: string, host: string) {
    "a=candidate:" <= line ==> var fields := Fields(line); |fields| >= 8 && fields[4] == host && fields[7] == "host"
  }

  /** The filter, from its text alone: an error when no candidate stays, and otherwise the
      lines that stay, in their order and in the style of the text. */
  lemma HostSelects(sdp: string, host: string) returns (kept: seq<string>)
    ensures exists at: seq<nat> :: StandsAt(kept, LinesOf(sdp), at)
              && forall i: nat | i < |LinesOf(sdp)| :: i in at <==> StaysForHost(LinesOf(sdp)[i], host)
    ensures HostOnly(sdp, host)
            == if HasCandidate(kept) then Some(Render(kept, NewlineOf(sdp), Terminated(sdp))) else None
  {
    var lines := LinesOf(sdp);
    kept := Filter(KeepHost(host), lines);
    FilterSelects(KeepHost(host), lines);
    var at: seq<nat> :| StandsAt(kept, lines, at) && Positions(KeepHost(host), lines, at);
    forall i: nat | i < |lines|
      ensures i in at <==> StaysForHost(lines[i], host)
    {
      KeepHostExactly(lines[i], host);
    }
    HostIsLeft(lines, host);
  }

  lemma KeepHostExactly(line: string, host: string)
    ensures KeepHost(host)(line) <==> StaysForHost(line, host)
    ensures IsHostCandidate(line, host) <==> "a=candidate:" <= line && StaysForHost(line, host)
  {
  }

  predicate HasCandidate(lines: seq<string>) {
    exists line <- lines :: "a=candidate:" <= line
  }

  lemma HostIsLeft(lines: seq<string>, host: string)
    ensures HasHost(lines, host) <==> HasCandidate(Filter(KeepHost(host), lines))
  {
    var kept := Filter(KeepHost(host), lines);
    FilterExactly(KeepHost(host), lines);
    if HasHost(lines, host) {
      var line :| line in lines && IsHostCandidate(line, host);
      assert line in kept && "a=candidate:" <= line;
    }
    if HasCandidate(kept) {
      var line :| line in kept && "a=candidate:" <= line;
      assert line in lines && IsHostCandidate(line, host);
    }
  }

  lemma KeptHost(lines: seq<string>, host: string)
    requires HasHost(lines, host)
    ensures exists line <- Filter(KeepHost(host), lines) :: IsHostCandidate(line, host)
  {
    FilterExactly(KeepHost(host), lines);
    var line :| line in lines && IsHostCandidate(line, host);
    assert line in Filter(KeepHost(host), lines);
  }

  /** Filtering succeeds exactly when the address has a host candidate; then every candidate
      of the result is one, and filtering the result again changes nothing. */
  lemma HostOnlyIsIdempotent(sdp: string, host: string)
    ensures HostOnly(sdp, host).Some? <==> HasHost(LinesOf(sdp), host)
    ensures HostOnly(sdp, host).Some? ==>
              var text := HostOnly(sdp, host).value;
              && LinesOf(text) == Visible(Filter(KeepHost(host), LinesOf(sdp)), Terminated(sdp))
              && AllKept(KeepHost(host), LinesOf(text))
              && HostOnly(text, host) == Some(text)
  {
    var lines := LinesOf(sdp);
    if HasHost(lines, host) {
      var kept := Filter(KeepHost(host), lines);
      FilterExactly(KeepHost(host), lines);
      SplitLinesAreClean(ReplaceCrLf(sdp));
      KeptHost(lines, host);
      RenderedHost(kept, NewlineOf(sdp), Terminated(sdp), host);
    }
  }

  lemma RenderedHost(lines: seq<string>, newline: string, terminated: bool, host: string)
    requires Clean(lines) && (newline == LF || newline == CRLF) && AllKept(KeepHost(host), lines) && HasHost(lines, host)
    ensures var text := Render(lines, newline, terminated);
            && LinesOf(text) == Visible(lines, terminated) && AllKept(KeepHost(host), Visible(lines, terminated))
            && HostOnly(text, host) == Some(text)
  {
    LinesOfRendered(lines, newline, terminated);
    RenderIsStable(lines, newline, terminated);
    VisibleHost(lines, terminated, host);
    FilterUnchanged(KeepHost(host), Visible(lines, terminated));
  }

  /** An empty line that does not show is no candidate. */
  lemma VisibleHost(lines: seq<string>, terminated: bool, host: string)
    requires AllKept(KeepHost(host), lines) && HasHost(lines, host)
    ensures AllKept(KeepHost(host), Visible(lines, terminated)) && HasHost(Visible(lines, terminated), host)
  {
    var line :| line in lines && IsHostCandidate(line, host);
    var visible := Visible(lines, terminated);
    assert line != "" by { assert |CANDIDATE| > 0; }
    if visible != lines {
      assert lines == visible + [""];
    }
    assert line in visible;
  }
}
