/** Giving every member of a BUNDLE group the DTLS attributes that section 7.1.3 of RFC 9143
    lets an SDP state once, in the section of the group's first mid. */
module BundleExpansion {
  import opened Wrappers
  import opened Selections
  import opened Text

  const GROUP: string := "a=group:BUNDLE "
  const MID: string := "a=mid:"
  const SETUP: string := "a=setup:"
  const FINGERPRINT: string := "a=fingerprint:"

  predicate IsGroup(line: string) {
    GROUP <= line
  }

  predicate IsMid(line: string) {
    MID <= line
  }

  predicate IsTransport(line: string) {
    SETUP <= line || FINGERPRINT <= line
  }

  function NameOf(line: string): string {
    Before(line, ':')
  }

  // ---------------------------------------------------------------- taking an SDP apart

  datatype Parsed = Parsed(bundle: seq<string>, session: seq<string>, sections: seq<seq<string>>)

  /** One turn of the parsing loop: the last group line wins, and every line goes to the
      latest section or, before the first, to the session. */
  function ParseLine(p: Parsed, line: string): Parsed {
    var bundle := if IsGroup(line) then Fields(After(GROUP, line)) else p.bundle;
    if IsMedia(line) then Parsed(bundle, p.session, p.sections + [[line]])
    else if p.sections != [] then
      var k := |p.sections| - 1;
      Parsed(bundle, p.session, p.sections[..k] + [p.sections[k] + [line]])
    else Parsed(bundle, p.session + [line], [])
  }

  function Parse(lines: seq<string>): Parsed {
    if lines == [] then Parsed([], [], []) else ParseLine(Parse(lines[..|lines| - 1]), lines[|lines| - 1])
  }

  function Flatten(sections: seq<seq<string>>): seq<string> {
    if sections == [] then [] else Flatten(sections[..|sections| - 1]) + sections[|sections| - 1]
  }

  /** The mid of a section; empty when it has none. */
  function MidOf(section: seq<string>): string {
    if section == [] then ""
    else if IsMid(section[0]) then After(MID, section[0])
    else MidOf(section[1..])
  }

  /** The dictionary from mids to sections, as positions; a later section replaces an earlier. */
  function ByMid(sections: seq<seq<string>>): map<string, nat> {
    if sections == [] then map[]
    else
      var k := |sections| - 1;
      var m := MidOf(sections[k]);
      if m == "" then ByMid(sections[..k]) else ByMid(sections[..k])[m := k]
  }

  // ---------------------------------------------------------------- filling a section

  function Transport(section: seq<string>): seq<string> {
    if section == [] then []
    else (if IsTransport(section[0]) then [section[0]] else []) + Transport(section[1..])
  }

  predicate HasName(section: seq<string>, name: string) {
    exists line <- section :: NameOf(line) == name
  }

  function Additions(attributes: seq<string>, section: seq<string>): seq<string> {
    if attributes == [] then []
    else (if HasName(section, NameOf(attributes[0])) then [] else [attributes[0]]) + Additions(attributes[1..], section)
  }

  /** After the first mid line, or else after the first line. */
  function InsertionPoint(section: seq<string>): (i: nat)
    requires section != []
    ensures 1 <= i <= |section|
  {
    if IsMid(section[0]) then 1
    else if |section| > 1 && HasMid(section[1..]) then 1 + InsertionPoint(section[1..])
    else 1
  }

  predicate HasMid(section: seq<string>) {
    exists line <- section :: IsMid(line)
  }

  function Fill(attributes: seq<string>, section: seq<string>): seq<string>
    requires section != []
  {
    var i := InsertionPoint(section);
    section[..i] + Additions(attributes, section) + section[i..]
  }

  // ---------------------------------------------------------------- expanding a bundle

  predicate NonEmpty(sections: seq<seq<string>>) {
    forall i | 0 <= i < |sections| :: sections[i] != []
  }

  predicate InRange(byMid: map<string, nat>, sections: seq<seq<string>>) {
    forall m <- byMid :: byMid[m] < |sections|
  }

  /** The sections that some mid of the list selects are filled, the others untouched. */
  function FillSelected(sections: seq<seq<string>>, byMid: map<string, nat>, mids: seq<string>, attributes: seq<string>): (r: seq<seq<string>>)
    requires NonEmpty(sections)
    ensures |r| == |sections|
  {
    seq(|sections|, i requires 0 <= i < |sections| =>
      if Selected(byMid, mids, i) then Fill(attributes, sections[i]) else sections[i])
  }

  predicate Selected(byMid: map<string, nat>, mids: seq<string>, i: nat) {
    exists m <- mids :: m in byMid && byMid[m] == i
  }

  /** The new sections, or nothing when there is no bundle or no section for its first mid. */
  function ExpandSections(p: Parsed): Option<seq<seq<string>>>
    requires NonEmpty(p.sections)
  {
    var byMid := ByMid(p.sections);
    if p.bundle == [] || p.bundle[0] !in byMid then None
    else
      ByMidInRange(p.sections);
      Some(FillSelected(p.sections, byMid, p.bundle[1..], Transport(p.sections[byMid[p.bundle[0]]])))
  }

  lemma {:induction false} ByMidInRange(sections: seq<seq<string>>)
    ensures InRange(ByMid(sections), sections)
  {
    if sections != [] {
      ByMidInRange(sections[..|sections| - 1]);
    }
  }

  lemma {:induction false} ParsedSectionsAreNonEmpty(lines: seq<string>)
    ensures NonEmpty(Parse(lines).sections)
  {
    if lines != [] {
      ParsedSectionsAreNonEmpty(lines[..|lines| - 1]);
    }
  }

  function ExpandedSections(sdp: string): Option<seq<seq<string>>> {
    ParsedSectionsAreNonEmpty(LinesOf(sdp));
    ExpandSections(Parse(LinesOf(sdp)))
  }

  function Expand(sdp: string): string {
    match ExpandedSections(sdp)
    case None => sdp
    case Some(sections) => Render(Parse(LinesOf(sdp)).session + Flatten(sections), NewlineOf(sdp), Terminated(sdp))
  }

  // ---------------------------------------------------------------- what filling does

  lemma TransportLines(line: string)
    requires IsTransport(line)
    ensures !IsMedia(line) && !IsMid(line) && !IsGroup(line) && NameOf(line) != ""
  {
    var start := if SETUP <= line then SETUP else FINGERPRINT;
    assert line[0] == start[0] == 'a' && line[1] == start[1] == '=' && line[2] == start[2];
    StartOf(MEDIA, line);
    StartOf(MID, line);
    StartOf(GROUP, line);
    assert MEDIA[0] == 'm' && MID[2] == 'm' && GROUP[2] == 'g' && (SETUP[2] == 's' && FINGERPRINT[2] == 'f');
  }

  lemma StartOf(prefix: string, line: string)
    ensures prefix <= line ==> forall i | 0 <= i < |prefix| :: line[i] == prefix[i]
  {
  }

  predicate AreTransport(attributes: seq<string>) {
    forall a <- attributes :: IsTransport(a)
  }

  lemma {:induction false} TransportIsTransport(section: seq<string>)
    ensures AreTransport(Transport(section))
    ensures forall a :: a in Transport(section) <==> a in section && IsTransport(a)
  {
    if section != [] {
      TransportIsTransport(section[1..]);
      assert section == [section[0]] + section[1..];
    }
  }

  lemma {:induction false} AdditionsExactly(attributes: seq<string>, section: seq<string>)
    ensures forall a :: a in Additions(attributes, section) <==> a in attributes && !HasName(section, NameOf(a))
  {
    if attributes != [] {
      AdditionsExactly(attributes[1..], section);
      assert attributes == [attributes[0]] + attributes[1..];
    }
  }

  lemma {:induction false} NothingToAdd(attributes: seq<string>, section: seq<string>)
    requires forall a <- attributes :: HasName(section, NameOf(a))
    ensures Additions(attributes, section) == []
  {
    if attributes != [] {
      NothingToAdd(attributes[1..], section);
    }
  }

  /** A filled section keeps its lines and has every name of the attributes. */
  lemma FillAddsNames(attributes: seq<string>, section: seq<string>)
    requires section != []
    ensures forall line <- section :: line in Fill(attributes, section)
    ensures forall a <- attributes :: HasName(Fill(attributes, section), NameOf(a))
  {
    var i, filled := InsertionPoint(section), Fill(attributes, section);
    AdditionsExactly(attributes, section);
    forall line <- section
      ensures line in filled
    {
      assert section == section[..i] + section[i..];
    }
    forall a <- attributes
      ensures HasName(filled, NameOf(a))
    {
      if HasName(section, NameOf(a)) {
        var line :| line in section && NameOf(line) == NameOf(a);
        assert line in filled;
      } else {
        assert a in Additions(attributes, section) && a in filled;
      }
    }
  }

  lemma FillNothing(attributes: seq<string>, section: seq<string>)
    requires section != [] && Additions(attributes, section) == []
    ensures Fill(attributes, section) == section
  {
  }

  lemma FillIsIdempotent(attributes: seq<string>, section: seq<string>)
    requires section != []
    ensures Additions(attributes, Fill(attributes, section)) == []
    ensures Fill(attributes, Fill(attributes, section)) == Fill(attributes, section)
  {
    FillAddsNames(attributes, section);
    NothingToAdd(attributes, Fill(attributes, section));
  }

  // ---------------------------------------------------------------- the loops

  /** A section is a list that the source appends to and inserts into, and reaches both by
      position and by mid. */
  class Section {
    var lines: seq<string>

    constructor (line: string)
      ensures lines == [line]
    {
      lines := [line];
    }
  }

  ghost predicate Distinct(sections: seq<Section>) {
    forall i, j | 0 <= i < j < |sections| :: sections[i] != sections[j]
  }

  ghost predicate Holds(sections: seq<Section>, contents: seq<seq<string>>)
    reads sections
  {
    |sections| == |contents| && forall i | 0 <= i < |sections| :: sections[i].lines == contents[i]
  }

  method SplitSections(lines: seq<string>) returns (bundle: seq<string>, session: seq<string>, sections: seq<Section>)
    ensures fresh(sections) && Distinct(sections)
    ensures bundle == Parse(lines).bundle && session == Parse(lines).session
    ensures Holds(sections, Parse(lines).sections)
  {
    bundle, session, sections := [], [], [];
    ghost var p := Parsed([], [], []);
    for k := 0 to |lines|
      invariant p == Parse(lines[..k])
      invariant fresh(sections) && Distinct(sections)
      invariant bundle == p.bundle && session == p.session && Holds(sections, p.sections)
    {
      ParseNext(lines, k);
      bundle, session, sections := PlaceLine(lines[k], bundle, session, sections, p);
      p := Parse(lines[..k + 1]);
    }
    assert lines[..|lines|] == lines;
  }

  lemma ParseNext(lines: seq<string>, k: nat)
    requires k < |lines|
    ensures Parse(lines[..k + 1]) == ParseLine(Parse(lines[..k]), lines[k])
  {
    assert lines[..k + 1][..k] == lines[..k];
  }

  /** One turn: read a group, then open a section, extend the last one in place, or extend
      the session. */
  method PlaceLine(line: string, bundle: seq<string>, session: seq<string>, sections: seq<Section>, ghost p: Parsed)
    returns (bundle': seq<string>, session': seq<string>, sections': seq<Section>)
    requires bundle == p.bundle && session == p.session && Holds(sections, p.sections) && Distinct(sections)
    modifies sections
    ensures bundle' == ParseLine(p, line).bundle && session' == ParseLine(p, line).session
    ensures Holds(sections', ParseLine(p, line).sections) && Distinct(sections')
    ensures forall i | 0 <= i < |sections'| :: sections'[i] in sections || fresh(sections'[i])
  {
    bundle' := if IsGroup(line) then Fields(After(GROUP, line)) else bundle;
    session', sections' := session, sections;
    if IsMedia(line) {
      var section := new Section(line);
      sections' := sections + [section];
    } else if sections != [] {
      var last := sections[|sections| - 1];
      last.lines := last.lines + [line];
    } else {
      session' := session + [line];
    }
  }

  ghost predicate Indexes(byMid: map<string, Section>, sections: seq<Section>, positions: map<string, nat>) {
    && byMid.Keys == positions.Keys
    && forall m <- positions :: positions[m] < |sections| && byMid[m] == sections[positions[m]]
  }

  method IndexSections(sections: seq<Section>, ghost contents: seq<seq<string>>) returns (byMid: map<string, Section>)
    requires Holds(sections, contents)
    ensures Indexes(byMid, sections, ByMid(contents))
  {
    byMid := map[];
    for k := 0 to |sections|
      invariant Indexes(byMid, sections, ByMid(contents[..k]))
    {
      assert contents[..k + 1][..k] == contents[..k];
      var m := MidOf(sections[k].lines);
      if m != "" {
        byMid := byMid[m := sections[k]];
      }
    }
    assert contents[..|contents|] == contents;
  }

  /** Fills one section in place and no other. */
  method FillSection(section: Section, attributes: seq<string>, ghost sections: seq<Section>, ghost contents: seq<seq<string>>, ghost at: nat)
    requires Holds(sections, contents) && Distinct(sections)
    requires at < |sections| && sections[at] == section && contents[at] != []
    modifies section
    ensures Holds(sections, contents[at := Fill(attributes, contents[at])])
  {
    var insertion := InsertionPoint(section.lines);
    var additions := Additions(attributes, section.lines);
    section.lines := section.lines[..insertion] + additions + section.lines[insertion..];
  }

  lemma SelectNext(byMid: map<string, nat>, mids: seq<string>, m: string, i: nat)
    ensures Selected(byMid, mids + [m], i) <==> Selected(byMid, mids, i) || (m in byMid && byMid[m] == i)
  {
  }

  lemma FillSelectedNext(contents: seq<seq<string>>, positions: map<string, nat>, mids: seq<string>, k: nat, attributes: seq<string>)
    requires NonEmpty(contents) && InRange(positions, contents) && k < |mids|
    ensures var before := FillSelected(contents, positions, mids[..k], attributes);
            FillSelected(contents, positions, mids[..k + 1], attributes)
            == if mids[k] in positions then before[positions[mids[k]] := Fill(attributes, contents[positions[mids[k]]])] else before
  {
    assert mids[..k + 1] == mids[..k] + [mids[k]];
    forall i | 0 <= i < |contents|
      ensures Selected(positions, mids[..k + 1], i)
              <==> Selected(positions, mids[..k], i) || (mids[k] in positions && positions[mids[k]] == i)
    {
      SelectNext(positions, mids[..k], mids[k], i);
    }
  }

  lemma NothingSelected(contents: seq<seq<string>>, positions: map<string, nat>, attributes: seq<string>)
    requires NonEmpty(contents)
    ensures FillSelected(contents, positions, [], attributes) == contents
  {
  }

  /** A section that was filled before is filled to the same. */
  lemma Refill(contents: seq<seq<string>>, positions: map<string, nat>, mids: seq<string>, attributes: seq<string>, at: nat)
    requires NonEmpty(contents) && at < |contents|
    ensures var section := FillSelected(contents, positions, mids, attributes)[at];
            section != [] && Fill(attributes, section) == Fill(attributes, contents[at])
  {
    FillIsIdempotent(attributes, contents[at]);
  }

  /** Filling in place, one mid after the other: a section that several mids reach is filled
      once, because filling it again adds nothing. */
  method FillMembers(sections: seq<Section>, byMid: map<string, Section>, mids: seq<string>, attributes: seq<string>,
                     ghost contents: seq<seq<string>>)
    requires Holds(sections, contents) && Distinct(sections) && NonEmpty(contents)
    requires Indexes(byMid, sections, ByMid(contents))
    modifies sections
    ensures Holds(sections, FillSelected(contents, ByMid(contents), mids, attributes))
  {
    ghost var positions, filled := ByMid(contents), contents;
    NothingSelected(contents, positions, attributes);
    for k := 0 to |mids|
      invariant filled == FillSelected(contents, positions, mids[..k], attributes) && Holds(sections, filled)
    {
      var m := mids[k];
      FillSelectedNext(contents, positions, mids, k, attributes);
      if m in byMid {
        ghost var at := positions[m];
        Refill(contents, positions, mids[..k], attributes, at);
        FillSection(byMid[m], attributes, sections, filled, at);
        filled := filled[at := Fill(attributes, filled[at])];
      }
    }
    assert mids[..|mids|] == mids;
  }

  method ExpandBundle(sdp: string) returns (rendered: string)
    ensures rendered == Expand(sdp)
  {
    var bundle, session, sections := SplitSections(LinesOf(sdp));
    ghost var contents := Parse(LinesOf(sdp)).sections;
    ParsedSectionsAreNonEmpty(LinesOf(sdp));
    ByMidInRange(contents);
    if bundle == [] {
      return sdp;
    }
    var byMid := IndexSections(sections, contents);
    if bundle[0] !in byMid {
      return sdp;
    }
    var attributes := Transport(byMid[bundle[0]].lines);
    FillMembers(sections, byMid, bundle[1..], attributes, contents);
    var lines := FlattenSections(sections, FillSelected(contents, ByMid(contents), bundle[1..], attributes));
    rendered := RenderLike(session + lines, sdp);
  }

  method FlattenSections(sections: seq<Section>, ghost contents: seq<seq<string>>) returns (lines: seq<string>)
    requires Holds(sections, contents)
    ensures lines == Flatten(contents)
  {
    lines := [];
    for k := 0 to |sections|
      invariant lines == Flatten(contents[..k])
    {
      assert contents[..k + 1][..k] == contents[..k];
      lines := lines + sections[k].lines;
    }
    assert contents[..|contents|] == contents;
  }

  // ---------------------------------------------------------------- parsing and flattening are inverse

  /** A section is a media line and the lines up to the next one. */
  predicate IsSection(section: seq<string>) {
    section != [] && "m=" <= section[0] && forall i | 1 <= i < |section| :: !("m=" <= section[i])
  }

  predicate WellSplit(session: seq<string>, sections: seq<seq<string>>) {
    && (forall i | 0 <= i < |session| :: !("m=" <= session[i]))
    && forall i | 0 <= i < |sections| :: IsSection(sections[i])
  }

  lemma FlattenSnoc(front: seq<seq<string>>, section: seq<string>)
    ensures Flatten(front + [section]) == Flatten(front) + section
  {
    assert (front + [section])[..|front|] == front;
  }

  lemma FlattenExtended(sections: seq<seq<string>>, line: string)
    requires sections != []
    ensures var k := |sections| - 1;
            Flatten(sections[..k] + [sections[k] + [line]]) == Flatten(sections) + [line]
  {
    var front, last := sections[..|sections| - 1], sections[|sections| - 1];
    FlattenSnoc(front, last + [line]);
    Associate(Flatten(front), last, [line]);
  }

  /** No line is lost or moved by splitting. */
  lemma {:induction false} FlattenParsed(lines: seq<string>)
    ensures var p := Parse(lines); WellSplit(p.session, p.sections) && p.session + Flatten(p.sections) == lines
  {
    if lines == [] {
      assert Flatten([]) == [];
    } else {
      var front, line := lines[..|lines| - 1], lines[|lines| - 1];
      FlattenParsed(front);
      FlattenParsedStep(Parse(front), line);
      assert lines == front + [line];
    }
  }

  lemma ExtendedIsWellSplit(session: seq<string>, sections: seq<seq<string>>, line: string)
    requires WellSplit(session, sections) && sections != [] && !IsMedia(line)
    ensures var k := |sections| - 1;
            WellSplit(session, sections[..k] + [sections[k] + [line]])
  {
    assert IsSection(sections[|sections| - 1] + [line]);
  }

  lemma FlattenParsedStep(p: Parsed, line: string)
    requires WellSplit(p.session, p.sections)
    ensures var q := ParseLine(p, line);
            WellSplit(q.session, q.sections) && q.session + Flatten(q.sections) == p.session + Flatten(p.sections) + [line]
  {
    if IsMedia(line) {
      FlattenSnoc(p.sections, [line]);
      Associate(p.session, Flatten(p.sections), [line]);
    } else if p.sections != [] {
      ExtendedIsWellSplit(p.session, p.sections, line);
      FlattenExtended(p.sections, line);
      Associate(p.session, Flatten(p.sections), [line]);
    } else {
      assert Flatten([]) == [];
    }
  }

  function GroupLines(lines: seq<string>): (groups: seq<string>)
    ensures forall i | 0 <= i < |groups| :: IsGroup(groups[i])
  {
    if lines == [] then []
    else GroupLines(lines[..|lines| - 1]) + if IsGroup(lines[|lines| - 1]) then [lines[|lines| - 1]] else []
  }

  lemma {:induction false} BundleIsLastGroup(lines: seq<string>)
    ensures var groups := GroupLines(lines);
            Parse(lines).bundle == if groups == [] then [] else Fields(After(GROUP, groups[|groups| - 1]))
  {
    if lines != [] {
      var front, last := lines[..|lines| - 1], lines[|lines| - 1];
      BundleIsLastGroup(front);
      BundleOfLine(Parse(front), last);
      if !IsGroup(last) {
        assert GroupLines(front) + [] == GroupLines(front);
      }
    }
  }

  lemma BundleOfLine(p: Parsed, line: string)
    ensures ParseLine(p, line).bundle == if IsGroup(line) then Fields(After(GROUP, line)) else p.bundle
  {
  }

  lemma {:induction false} GroupLinesAppend(a: seq<string>, b: seq<string>)
    ensures GroupLines(a + b) == GroupLines(a) + GroupLines(b)
  {
    if b == [] {
      assert a + b == a;
    } else {
      assert (a + b)[..|a + b| - 1] == a + b[..|b| - 1];
      GroupLinesAppend(a, b[..|b| - 1]);
    }
  }

  lemma {:induction false} ParseSession(session: seq<string>)
    requires forall i | 0 <= i < |session| :: !IsMedia(session[i])
    ensures Parse(session).session == session && Parse(session).sections == []
  {
    if session != [] {
      var front, last := session[..|session| - 1], session[|session| - 1];
      ParseSession(front);
      ParseSessionLine(Parse(front), last);
      assert session == front + [last];
    }
  }

  lemma ParseSessionLine(p: Parsed, line: string)
    requires p.sections == [] && !IsMedia(line)
    ensures ParseLine(p, line).session == p.session + [line] && ParseLine(p, line).sections == []
  {
  }

  predicate SplitsInto(lines: seq<string>, session: seq<string>, sections: seq<seq<string>>) {
    Parse(lines).session == session && Parse(lines).sections == sections
  }

  lemma {:induction false} ParseSection(before: seq<string>, section: seq<string>, session: seq<string>, sections: seq<seq<string>>)
    requires IsSection(section) && SplitsInto(before, session, sections)
    ensures SplitsInto(before + section, session, sections + [section])
  {
    var last := section[|section| - 1];
    var front := section[..|section| - 1];
    assert (before + section)[..|before + section| - 1] == before + front;
    assert section == front + [last];
    if front == [] {
      assert before + front == before;
    } else {
      ParseSection(before, front, session, sections);
    }
  }

  lemma FlattenLast(session: seq<string>, sections: seq<seq<string>>)
    requires sections != []
    ensures session + Flatten(sections) == session + Flatten(sections[..|sections| - 1]) + sections[|sections| - 1]
  {
    Associate(session, Flatten(sections[..|sections| - 1]), sections[|sections| - 1]);
  }

  /** Flattened sections are split again where they were joined. */
  lemma {:induction false} ParseFlattened(session: seq<string>, sections: seq<seq<string>>)
    requires WellSplit(session, sections)
    ensures SplitsInto(session + Flatten(sections), session, sections)
  {
    if sections == [] {
      assert session + Flatten(sections) == session;
      ParseSession(session);
    } else {
      var front, last := sections[..|sections| - 1], sections[|sections| - 1];
      ParseFlattened(session, front);
      ParseSection(session + Flatten(front), last, session, front);
      FlattenLast(session, sections);
      assert front + [last] == sections;
    }
  }

  // ---------------------------------------------------------------- what expansion keeps

  /** Lines that play no part in splitting. */
  predicate Plain(lines: seq<string>) {
    forall k | 0 <= k < |lines| :: !IsMedia(lines[k]) && !IsGroup(lines[k]) && !IsMid(lines[k])
  }

  lemma AdditionsArePlain(attributes: seq<string>, section: seq<string>)
    requires AreTransport(attributes)
    ensures Plain(Additions(attributes, section))
  {
    var additions := Additions(attributes, section);
    AdditionsExactly(attributes, section);
    forall k | 0 <= k < |additions|
      ensures !IsMedia(additions[k]) && !IsGroup(additions[k]) && !IsMid(additions[k])
    {
      assert additions[k] in additions;
      TransportLines(additions[k]);
    }
  }

  lemma FillKeepsSection(attributes: seq<string>, section: seq<string>)
    requires AreTransport(attributes) && IsSection(section)
    ensures IsSection(Fill(attributes, section)) && Fill(attributes, section)[0] == section[0]
  {
    AdditionsArePlain(attributes, section);
    var i, additions, filled := InsertionPoint(section), Additions(attributes, section), Fill(attributes, section);
    forall k | 1 <= k < |filled|
      ensures !IsMedia(filled[k])
    {
      assert filled[k] == if k < i then section[k] else if k < i + |additions| then additions[k - i] else section[k - |additions|];
    }
  }

  lemma FillKeepsGroups(attributes: seq<string>, section: seq<string>)
    requires AreTransport(attributes) && section != []
    ensures GroupLines(Fill(attributes, section)) == GroupLines(section)
  {
    var i, additions := InsertionPoint(section), Additions(attributes, section);
    AdditionsArePlain(attributes, section);
    assert section == section[..i] + section[i..];
    GroupLinesAround(section[..i], additions, section[i..]);
  }

  lemma GroupLinesAround(a: seq<string>, plain: seq<string>, b: seq<string>)
    requires Plain(plain)
    ensures GroupLines(a + plain + b) == GroupLines(a + b)
  {
    NoGroupLines(plain);
    GroupLinesAppend(a + plain, b);
    GroupLinesAppend(a, plain);
    GroupLinesAppend(a, b);
  }

  lemma {:induction false} NoGroupLines(lines: seq<string>)
    requires Plain(lines)
    ensures GroupLines(lines) == []
  {
    if lines != [] {
      NoGroupLines(lines[..|lines| - 1]);
    }
  }

  lemma {:induction false} MidOfSkips(lines: seq<string>, rest: seq<string>)
    requires Plain(lines)
    ensures MidOf(lines + rest) == MidOf(rest)
  {
    if lines == [] {
      assert lines + rest == rest;
    } else {
      assert (lines + rest)[1..] == lines[1..] + rest;
      MidOfSkips(lines[1..], rest);
    }
  }

  /** Lines inserted after the first mid line, or where there is none, do not change the mid. */
  lemma {:induction false} InsertKeepsMid(section: seq<string>, additions: seq<string>)
    requires section != [] && Plain(additions)
    ensures var i := InsertionPoint(section); MidOf(section[..i] + additions + section[i..]) == MidOf(section)
  {
    var i := InsertionPoint(section);
    var filled := section[..i] + additions + section[i..];
    assert filled[0] == section[0];
    if !IsMid(section[0]) {
      if |section| > 1 && HasMid(section[1..]) {
        InsertKeepsMid(section[1..], additions);
        assert filled[1..] == section[1..][..i - 1] + additions + section[1..][i - 1..];
      } else {
        assert filled[1..] == additions + section[1..];
        MidOfSkips(additions, section[1..]);
      }
    }
  }

  lemma FillKeepsMid(attributes: seq<string>, section: seq<string>)
    requires AreTransport(attributes) && section != []
    ensures MidOf(Fill(attributes, section)) == MidOf(section)
  {
    AdditionsArePlain(attributes, section);
    InsertKeepsMid(section, Additions(attributes, section));
  }

  lemma {:induction false} SameMids(a: seq<seq<string>>, b: seq<seq<string>>)
    requires |a| == |b| && forall i | 0 <= i < |a| :: MidOf(a[i]) == MidOf(b[i])
    ensures ByMid(a) == ByMid(b)
  {
    if a != [] {
      SameMids(a[..|a| - 1], b[..|b| - 1]);
    }
  }

  lemma {:induction false} SameGroupLines(a: seq<seq<string>>, b: seq<seq<string>>)
    requires |a| == |b| && forall i | 0 <= i < |a| :: GroupLines(a[i]) == GroupLines(b[i])
    ensures GroupLines(Flatten(a)) == GroupLines(Flatten(b))
  {
    if a != [] {
      var k := |a| - 1;
      SameGroupLines(a[..k], b[..k]);
      GroupLinesAppend(Flatten(a[..k]), a[k]);
      GroupLinesAppend(Flatten(b[..k]), b[k]);
    }
  }

  /** The attributes of the tag section: what the group's first mid selects. */
  function TagAttributes(p: Parsed): seq<string>
    requires p.bundle != [] && p.bundle[0] in ByMid(p.sections)
  {
    ByMidInRange(p.sections);
    Transport(p.sections[ByMid(p.sections)[p.bundle[0]]])
  }

  /** What filling leaves alone in one section. */
  ghost predicate Keeps(filled: seq<string>, section: seq<string>)
  {
    && IsSection(filled) && section != [] && filled[0] == section[0]
    && GroupLines(filled) == GroupLines(section) && MidOf(filled) == MidOf(section)
  }

  lemma ExpansionKeepsSection(p: Parsed, i: nat)
    requires NonEmpty(p.sections) && ExpandSections(p).Some? && i < |p.sections| && IsSection(p.sections[i])
    ensures Keeps(ExpandSections(p).value[i], p.sections[i])
  {
    ByMidInRange(p.sections);
    TransportIsTransport(p.sections[ByMid(p.sections)[p.bundle[0]]]);
    FillKeepsSection(TagAttributes(p), p.sections[i]);
    FillKeepsGroups(TagAttributes(p), p.sections[i]);
    FillKeepsMid(TagAttributes(p), p.sections[i]);
  }

  /** Joining kept sections gives a text that is split and grouped as before. */
  lemma KeptSectionsParse(lines: seq<string>, sections: seq<seq<string>>)
    requires |sections| == |Parse(lines).sections|
    requires forall i | 0 <= i < |sections| :: Keeps(sections[i], Parse(lines).sections[i])
    ensures var p := Parse(lines);
            Parse(p.session + Flatten(sections)) == Parsed(p.bundle, p.session, sections) && ByMid(sections) == ByMid(p.sections)
  {
    var p := Parse(lines);
    FlattenParsed(lines);
    SameMids(sections, p.sections);
    SameGroupLines(sections, p.sections);
    ParseFlattened(p.session, sections);
    BundleIsLastGroup(lines);
    BundleIsLastGroup(p.session + Flatten(sections));
    GroupLinesAppend(p.session, Flatten(sections));
    GroupLinesAppend(p.session, Flatten(p.sections));
  }

  /** Expansion changes neither the group, the session lines, the number and order of the
      sections, their media lines nor their mids. */
  lemma ExpansionKeepsStructure(lines: seq<string>)
    requires NonEmpty(Parse(lines).sections) && ExpandSections(Parse(lines)).Some?
    ensures var p := Parse(lines);
            var sections := ExpandSections(p).value;
            && Parse(p.session + Flatten(sections)) == Parsed(p.bundle, p.session, sections)
            && ByMid(sections) == ByMid(p.sections)
            && forall i | 0 <= i < |sections| :: sections[i] != [] && sections[i][0] == p.sections[i][0]
  {
    var p := Parse(lines);
    FlattenParsed(lines);
    forall i | 0 <= i < |p.sections|
      ensures Keeps(ExpandSections(p).value[i], p.sections[i])
    {
      ExpansionKeepsSection(p, i);
    }
    KeptSectionsParse(lines, ExpandSections(p).value);
  }

  /** The dictionary finds, for every mid that some section has, the last such section. */
  lemma {:induction false} ByMidExactly(sections: seq<seq<string>>, m: string)
    ensures m in ByMid(sections) <==> m != "" && exists i | 0 <= i < |sections| :: MidOf(sections[i]) == m
    ensures m in ByMid(sections) ==>
              var k := ByMid(sections)[m];
              && k < |sections| && MidOf(sections[k]) == m
              && forall i | k < i < |sections| :: MidOf(sections[i]) != m
  {
    if sections != [] {
      var front := sections[..|sections| - 1];
      ByMidExactly(front, m);
      assert forall i | 0 <= i < |front| :: front[i] == sections[i];
    }
  }

  lemma {:induction false} InsertionFollowsMid(section: seq<string>)
    requires MidOf(section) != ""
    ensures section != []
    ensures var at := InsertionPoint(section);
            IsMid(section[at - 1]) && forall k | 0 <= k < at - 1 :: !IsMid(section[k])
  {
    if !IsMid(section[0]) {
      InsertionFollowsMid(section[1..]);
      assert section[1..] != [] && section[1..][InsertionPoint(section[1..]) - 1] in section[1..];
    }
  }

  /** Every section that a later mid of the group selects has every attribute name that the
      tag section has; its own lines are all there in the same order, and what is added are
      lines of the tag section with names it lacked, right after its first mid line. */
  lemma MembersAreComplete(p: Parsed, i: nat)
    requires NonEmpty(p.sections) && ExpandSections(p).Some? && i < |p.sections|
    ensures var filled, section := ExpandSections(p).value[i], p.sections[i];
            if Selected(ByMid(p.sections), p.bundle[1..], i) then
              && (forall a <- TagAttributes(p) :: HasName(filled, NameOf(a)))
              && exists at | 1 <= at <= |section| ::
                   && IsMid(section[at - 1]) && (forall k | 0 <= k < at - 1 :: !IsMid(section[k]))
                   && var added := Additions(TagAttributes(p), section);
                   && filled == section[..at] + added + section[at..]
                   && forall a :: a in added <==> a in TagAttributes(p) && !HasName(section, NameOf(a))
            else filled == section
  {
    if Selected(ByMid(p.sections), p.bundle[1..], i) {
      var attributes, section := TagAttributes(p), p.sections[i];
      var m :| m in p.bundle[1..] && m in ByMid(p.sections) && ByMid(p.sections)[m] == i;
      ByMidExactly(p.sections, m);
      InsertionFollowsMid(section);
      FillAddsNames(attributes, section);
      AdditionsExactly(attributes, section);
      var at := InsertionPoint(section);
      assert Fill(attributes, section) == section[..at] + Additions(attributes, section) + section[at..];
    }
  }

  // ---------------------------------------------------------------- said of the lines alone

  /** A section's mid is what follows "a=mid:" in its first line with that start; `k` is the
      place of that line, or the end of a section without one. */
  lemma {:induction false} MidExactly(section: seq<string>) returns (k: nat)
    ensures k <= |section| && forall j | 0 <= j < k :: !("a=mid:" <= section[j])
    ensures if k < |section| then section[k] == "a=mid:" + MidOf(section) else MidOf(section) == ""
  {
    if section == [] {
      k := 0;
    } else if "a=mid:" <= section[0] {
      k := 0;
      assert section[0] == "a=mid:" + After(MID, section[0]);
    } else {
      k := MidExactly(section[1..]);
      k := k + 1;
    }
  }

  /** The group is what the last line starting with "a=group:BUNDLE " lists; `k` lines come up
      to and with that line, or none. */
  lemma {:induction false} BundleExactly(lines: seq<string>) returns (k: nat)
    ensures k <= |lines| && NoGroupFrom(lines, k)
    ensures if k > 0 then "a=group:BUNDLE " <= lines[k - 1] && Parse(lines).bundle == Fields(lines[k - 1][15..])
            else Parse(lines).bundle == []
  {
    if lines == [] {
      k := 0;
    } else {
      BundleNext(lines);
      if "a=group:BUNDLE " <= lines[|lines| - 1] {
        k := |lines|;
      } else {
        k := BundleExactly(lines[..|lines| - 1]);
        NoGroupNext(lines, k);
      }
    }
  }

  ghost predicate NoGroupFrom(lines: seq<string>, k: nat) {
    forall j | k <= j < |lines| :: !("a=group:BUNDLE " <= lines[j])
  }

  lemma NoGroupNext(lines: seq<string>, k: nat)
    requires lines != [] && NoGroupFrom(lines[..|lines| - 1], k) && !("a=group:BUNDLE " <= lines[|lines| - 1])
    ensures NoGroupFrom(lines, k)
  {
    assert forall j | 0 <= j < |lines| - 1 :: lines[j] == lines[..|lines| - 1][j];
  }

  lemma BundleNext(lines: seq<string>)
    requires lines != []
    ensures var last := lines[|lines| - 1];
            Parse(lines).bundle == if "a=group:BUNDLE " <= last then Fields(last[15..]) else Parse(lines[..|lines| - 1]).bundle
  {
    BundleOfLine(Parse(lines[..|lines| - 1]), lines[|lines| - 1]);
  }

  /** Some line states the attribute: with a value, or bare. */
  predicate States(section: seq<string>, name: string) {
    exists line <- section :: line == name || name + ":" <= line
  }

  /** What a section is given: setup lines when it states no setup, and fingerprint lines
      when it states no fingerprint. */
  function IsGiven(section: seq<string>): string -> bool {
    (line: string) => ("a=setup:" <= line && !States(section, "a=setup"))
                      || ("a=fingerprint:" <= line && !States(section, "a=fingerprint"))
  }

  lemma {:induction false} NameIs(line: string, name: string)
    requires ':' !in name
    ensures NameOf(line) == name <==> line == name || name + ":" <= line
  {
    if name == "" {
      assert name + ":" == ":";
    } else if line != "" && line[0] != ':' {
      NameIs(line[1..], name[1..]);
      assert line == [line[0]] + line[1..] && name == [name[0]] + name[1..];
      assert name + ":" == [name[0]] + (name[1..] + ":");
      PrefixTail(name + ":", line);
    } else {
      assert name[0] in name;
    }
  }

  lemma PrefixTail(prefix: string, line: string)
    requires prefix != "" && line != ""
    ensures prefix <= line <==> prefix[0] == line[0] && prefix[1..] <= line[1..]
  {
    if prefix[0] == line[0] && prefix[1..] <= line[1..] {
      assert forall i | 1 <= i < |prefix| :: prefix[i] == prefix[1..][i - 1] == line[1..][i - 1];
    }
  }

  lemma HasNameStates(section: seq<string>, name: string)
    requires ':' !in name
    ensures HasName(section, name) <==> States(section, name)
  {
    forall line <- section {
      NameIs(line, name);
    }
  }

  lemma GivenExactly(section: seq<string>, line: string)
    ensures IsTransport(line) && !HasName(section, NameOf(line)) <==> IsGiven(section)(line)
  {
    HasNameStates(section, "a=setup");
    HasNameStates(section, "a=fingerprint");
    NameIs(line, "a=setup");
    NameIs(line, "a=fingerprint");
    assert "a=setup" + ":" == "a=setup:" && "a=fingerprint" + ":" == "a=fingerprint:";
  }

  lemma AdditionsSelectNext(tag: seq<string>, section: seq<string>)
    requires tag != [] && Selects(IsGiven(section), tag[1..], Additions(Transport(tag[1..]), section))
    ensures Selects(IsGiven(section), tag, Additions(Transport(tag), section))
  {
    SelectsHead(IsGiven(section), tag, Additions(Transport(tag[1..]), section));
    AdditionsFirst(tag, section);
  }

  /** What is added are the tag section's lines that the section is given, in their order. */
  lemma {:induction false} AdditionsSelect(tag: seq<string>, section: seq<string>)
    ensures Selects(IsGiven(section), tag, Additions(Transport(tag), section))
  {
    if tag == [] {
      SelectsNothing(IsGiven(section));
    } else {
      AdditionsSelect(tag[1..], section);
      AdditionsSelectNext(tag, section);
    }
  }

  lemma AdditionsFirst(tag: seq<string>, section: seq<string>)
    requires tag != []
    ensures Additions(Transport(tag), section)
            == (if IsGiven(section)(tag[0]) then [tag[0]] else []) + Additions(Transport(tag[1..]), section)
  {
    GivenExactly(section, tag[0]);
    var rest := Transport(tag[1..]);
    if IsTransport(tag[0]) {
      assert Transport(tag) == [tag[0]] + rest && ([tag[0]] + rest)[1..] == rest;
    } else {
      assert Transport(tag) == rest;
    }
  }

  /** The section that states the attributes for the group. */
  function Tag(p: Parsed): seq<string>
    requires p.bundle != [] && p.bundle[0] in ByMid(p.sections)
  {
    ByMidInRange(p.sections);
    p.sections[ByMid(p.sections)[p.bundle[0]]]
  }

  /** A section that a later mid of the group selects is what it was, with the lines it is
      given right after its first mid line; every other section is what it was. */
  lemma MembersExactly(p: Parsed, i: nat) returns (given: seq<string>)
    requires NonEmpty(p.sections) && ExpandSections(p).Some? && i < |p.sections|
    ensures Selects(IsGiven(p.sections[i]), Tag(p), given)
    ensures var filled, section := ExpandSections(p).value[i], p.sections[i];
            if Selected(ByMid(p.sections), p.bundle[1..], i) then
              exists at: nat | 1 <= at <= |section| ::
                && "a=mid:" <= section[at - 1] && (forall k | 0 <= k < at - 1 :: !("a=mid:" <= section[k]))
                && filled == section[..at] + given + section[at..]
            else filled == section
  {
    MembersAreComplete(p, i);
    AdditionsSelect(Tag(p), p.sections[i]);
    given := Additions(TagAttributes(p), p.sections[i]);
  }

  /** The lines with a given start, in their order. */
  function Starting(start: string, lines: seq<string>): seq<string> {
    if lines == [] then []
    else (if start <= lines[0] then [lines[0]] else []) + Starting(start, lines[1..])
  }

  lemma {:induction false} StartingAppend(start: string, a: seq<string>, b: seq<string>)
    ensures Starting(start, a + b) == Starting(start, a) + Starting(start, b)
  {
    if a == [] {
      assert a + b == b;
    } else {
      assert (a + b)[1..] == a[1..] + b;
      StartingAppend(start, a[1..], b);
      Associate(if start <= a[0] then [a[0]] else [], Starting(start, a[1..]), Starting(start, b));
    }
  }

  lemma {:induction false} NoneStarting(name: string, section: seq<string>)
    requires !States(section, name)
    ensures Starting(name + ":", section) == []
  {
    if section != [] {
      StatesFirst(section, name);
      NoneStarting(name, section[1..]);
    }
  }

  lemma StatesFirst(section: seq<string>, name: string)
    requires section != []
    ensures States(section, name) <==> section[0] == name || name + ":" <= section[0] || States(section[1..], name)
  {
    assert section == [section[0]] + section[1..];
    if States(section, name) && section[0] != name && !(name + ":" <= section[0]) {
      var line :| line in section && (line == name || name + ":" <= line);
      assert line in section[1..];
    }
    assert section[0] in section;
    if States(section[1..], name) {
      var line :| line in section[1..] && (line == name || name + ":" <= line);
      assert line in section;
    }
  }

  predicate IsDtls(name: string) {
    name == "a=setup" || name == "a=fingerprint"
  }

  lemma OneStart(line: string)
    ensures !("a=setup:" <= line && "a=fingerprint:" <= line)
  {
    assert "a=setup:"[2] == 's' && "a=fingerprint:"[2] == 'f';
  }

  lemma {:induction false} StartingGiven(name: string, tag: seq<string>, section: seq<string>)
    requires IsDtls(name)
    ensures Starting(name + ":", Additions(Transport(tag), section))
            == if States(section, name) then [] else Starting(name + ":", tag)
  {
    if tag != [] {
      StartingGiven(name, tag[1..], section);
      AdditionsFirst(tag, section);
      OneStart(tag[0]);
      var own := if IsGiven(section)(tag[0]) then [tag[0]] else [];
      StartingAppend(name + ":", own, Additions(Transport(tag[1..]), section));
      assert "a=setup" + ":" == "a=setup:" && "a=fingerprint" + ":" == "a=fingerprint:";
      assert [tag[0]][1..] == [];
    }
  }

  /** After expansion a selected section has the tag section's setup lines if it stated no
      setup, all of them and in their order, and otherwise only its own; the same holds for
      fingerprints. */
  lemma LinesOfMember(p: Parsed, i: nat, name: string)
    requires NonEmpty(p.sections) && ExpandSections(p).Some? && i < |p.sections| && IsDtls(name)
    requires Selected(ByMid(p.sections), p.bundle[1..], i)
    ensures Starting(name + ":", ExpandSections(p).value[i])
            == Starting(name + ":", if States(p.sections[i], name) then p.sections[i] else Tag(p))
  {
    StartingGiven(name, Tag(p), p.sections[i]);
    StartingFilled(name, TagAttributes(p), p.sections[i]);
  }

  lemma StartingFilled(name: string, attributes: seq<string>, section: seq<string>)
    requires section != []
    ensures var given := Starting(name + ":", Additions(attributes, section));
            && (given == [] ==> Starting(name + ":", Fill(attributes, section)) == Starting(name + ":", section))
            && (!States(section, name) ==> Starting(name + ":", section) == [] && Starting(name + ":", Fill(attributes, section)) == given)
  {
    var at := InsertionPoint(section);
    StartingAround(name + ":", section[..at], Additions(attributes, section), section[at..]);
    SplitAt(section, at);
    if !States(section, name) {
      NoneStarting(name, section);
    }
  }

  lemma SplitAt(section: seq<string>, at: nat)
    requires at <= |section|
    ensures section[..at] + section[at..] == section
  {
  }

  lemma StartingAround(start: string, before: seq<string>, added: seq<string>, after: seq<string>)
    ensures Starting(start, added) == [] ==> Starting(start, before + added + after) == Starting(start, before + after)
    ensures Starting(start, before + after) == [] ==> Starting(start, before + added + after) == Starting(start, added)
  {
    StartingAppend(start, before + added, after);
    StartingAppend(start, before, added);
    StartingAppend(start, before, after);
  }

  /** So where the tag section has such a line, a selected section ends up with one unless
      it has the bare attribute and no other, which the source takes for the attribute. */
  lemma MemberHasAttribute(p: Parsed, i: nat, name: string)
    requires NonEmpty(p.sections) && ExpandSections(p).Some? && i < |p.sections| && IsDtls(name)
    requires Selected(ByMid(p.sections), p.bundle[1..], i) && Starting(name + ":", Tag(p)) != []
    ensures Starting(name + ":", ExpandSections(p).value[i]) != []
            <==> Starting(name + ":", p.sections[i]) != [] || name !in p.sections[i]
  {
    LinesOfMember(p, i, name);
    StatesExactly(p.sections[i], name);
  }

  lemma {:induction false} StatesExactly(section: seq<string>, name: string)
    ensures States(section, name) <==> name in section || Starting(name + ":", section) != []
  {
    if section != [] {
      StatesExactly(section[1..], name);
      StatesFirst(section, name);
      assert section == [section[0]] + section[1..];
    }
  }

  /** The exception occurs: a member with a bare setup line is left without any setup value. */
  lemma BareAttributeBlocks()
    ensures var first, second := ["m=audio", "a=mid:0", "a=setup:actpass"], ["m=video", "a=mid:1", "a=setup"];
            FillSelected([first, second], ByMid([first, second]), ["1"], Transport(first)) == [first, second]
            && ByMid([first, second]) == map["0" := 0, "1" := 1]
  {
    var first, second := ["m=audio", "a=mid:0", "a=setup:actpass"], ["m=video", "a=mid:1", "a=setup"];
    MidsOfTwo(first, second);
    ByMidOfTwo(first, second);
    assert second[2] == "a=setup";
    AdditionsOfBare(first, second);
    FillNothing(Transport(first), second);
  }

  lemma MidsOfTwo(first: seq<string>, second: seq<string>)
    requires |first| == |second| == 3
    requires first[..2] == ["m=audio", "a=mid:0"] && second[..2] == ["m=video", "a=mid:1"]
    ensures MidOf(first) == "0" && MidOf(second) == "1"
  {
    assert first[0] == first[..2][0] && first[1] == first[..2][1] && second[0] == second[..2][0] && second[1] == second[..2][1];
    assert "a=mid:"[0] == 'a' && "m=audio"[0] == 'm' && "m=video"[0] == 'm';
    assert "a=mid:" + "0" == "a=mid:0" && "a=mid:" + "1" == "a=mid:1";
    MidOfSecond(first, "0");
    MidOfSecond(second, "1");
  }

  lemma BareSetupIsKept()
    ensures var p := Parsed(["0", "1"], [], [["m=audio", "a=mid:0", "a=setup:actpass"], ["m=video", "a=mid:1", "a=setup"]]);
            NonEmpty(p.sections) && ExpandSections(p) == Some(p.sections)
  {
    BareAttributeBlocks();
    assert ["0", "1"][1..] == ["1"];
  }

  lemma ByMidOfTwo(first: seq<string>, second: seq<string>)
    requires MidOf(first) == "0" && MidOf(second) == "1"
    ensures ByMid([first, second]) == map["0" := 0, "1" := 1]
  {
    assert [first, second][..1] == [first] && [first][..0] == [];
    assert ByMid([first]) == map["0" := 0];
  }

  lemma MidOfSecond(section: seq<string>, mid: string)
    requires |section| >= 2 && !("a=mid:" <= section[0]) && section[1] == "a=mid:" + mid
    ensures MidOf(section) == mid
  {
    assert section[1..][0] == section[1];
  }

  lemma BareIsGivenNothing(line: string, second: seq<string>)
    requires "a=setup" in second && (line == "m=audio" || line == "a=mid:0" || line == "a=setup:actpass")
    ensures !IsGiven(second)(line)
  {
    assert States(second, "a=setup");
    assert "a=fingerprint:"[2] == 'f';
  }

  lemma AdditionsOfBare(first: seq<string>, second: seq<string>)
    requires first == ["m=audio", "a=mid:0", "a=setup:actpass"] && "a=setup" in second
    ensures Additions(Transport(first), second) == []
  {
    AdditionsSelect(first, second);
    forall line <- first
      ensures !IsGiven(second)(line)
    {
      BareIsGivenNothing(line, second);
    }
    SelectsNone(IsGiven(second), first, Additions(Transport(first), second));
  }

  // ---------------------------------------------------------------- idempotence

  /** Nothing is left to add to any member. */
  ghost predicate Saturated(p: Parsed) {
    p.bundle != [] && p.bundle[0] in ByMid(p.sections) ==>
      forall i | 0 <= i < |p.sections| && Selected(ByMid(p.sections), p.bundle[1..], i) ::
        Additions(TagAttributes(p), p.sections[i]) == []
  }

  lemma SaturatedIsFixed(p: Parsed)
    requires NonEmpty(p.sections) && Saturated(p) && ExpandSections(p).Some?
    ensures ExpandSections(p).value == p.sections
  {
    forall i | 0 <= i < |p.sections|
      ensures ExpandSections(p).value[i] == p.sections[i]
    {
      if Selected(ByMid(p.sections), p.bundle[1..], i) {
        FillNothing(TagAttributes(p), p.sections[i]);
      }
    }
  }

  lemma TagIsUnchanged(p: Parsed)
    requires NonEmpty(p.sections) && ExpandSections(p).Some?
    ensures ByMid(p.sections)[p.bundle[0]] < |p.sections|
    ensures ExpandSections(p).value[ByMid(p.sections)[p.bundle[0]]] == p.sections[ByMid(p.sections)[p.bundle[0]]]
  {
    ByMidInRange(p.sections);
    var tag := p.sections[ByMid(p.sections)[p.bundle[0]]];
    TransportIsTransport(tag);
    NothingToAdd(Transport(tag), tag);
    FillNothing(Transport(tag), tag);
  }

  lemma ExpandedIsSaturated(lines: seq<string>)
    requires NonEmpty(Parse(lines).sections) && ExpandSections(Parse(lines)).Some?
    ensures var p := Parse(lines); Saturated(Parsed(p.bundle, p.session, ExpandSections(p).value))
  {
    var p := Parse(lines);
    var q := Parsed(p.bundle, p.session, ExpandSections(p).value);
    ExpansionKeepsStructure(lines);
    TagIsUnchanged(p);
    assert TagAttributes(q) == TagAttributes(p);
    forall i | 0 <= i < |q.sections| && Selected(ByMid(q.sections), q.bundle[1..], i)
      ensures Additions(TagAttributes(q), q.sections[i]) == []
    {
      FillIsIdempotent(TagAttributes(p), p.sections[i]);
    }
  }

  /** A section and the same section with an empty line at its end. */
  lemma {:induction false} BlankLineInSection(section: seq<string>)
    ensures MidOf(section + [""]) == MidOf(section) && Transport(section + [""]) == Transport(section)
  {
    if section == [] {
      assert [""][1..] == [] && [] + [""] == [""];
      StartOf(SETUP, "");
    } else {
      assert (section + [""])[1..] == section[1..] + [""];
      BlankLineInSection(section[1..]);
    }
  }

  lemma {:induction false} BlankLineAndNames(attributes: seq<string>, section: seq<string>)
    requires AreTransport(attributes)
    ensures Additions(attributes, section + [""]) == Additions(attributes, section)
  {
    if attributes != [] {
      BlankLineAndNames(attributes[1..], section);
      TransportLines(attributes[0]);
      var name := NameOf(attributes[0]);
      assert NameOf("") == "";
      if HasName(section + [""], name) {
        var line :| line in section + [""] && NameOf(line) == name;
        assert line in section;
      }
      if HasName(section, name) {
        var line :| line in section && NameOf(line) == name;
        assert line in section + [""];
      }
    }
  }

  lemma BlankIsNothing()
    ensures !IsGroup("") && !IsMedia("")
  {
    StartOf(GROUP, "");
    StartOf(MEDIA, "");
  }

  /** The same sections, but for an empty line at the end of some. */
  ghost predicate SameButBlank(a: seq<seq<string>>, b: seq<seq<string>>) {
    |a| == |b| && forall i | 0 <= i < |a| :: b[i] == a[i] || b[i] == a[i] + [""]
  }

  lemma SameButBlankSelect(a: seq<seq<string>>, b: seq<seq<string>>)
    requires SameButBlank(a, b)
    ensures ByMid(a) == ByMid(b)
    ensures forall i | 0 <= i < |a| :: Transport(b[i]) == Transport(a[i])
  {
    forall i | 0 <= i < |a|
      ensures MidOf(a[i]) == MidOf(b[i]) && Transport(b[i]) == Transport(a[i])
    {
      BlankLineInSection(a[i]);
    }
    SameMids(a, b);
  }

  lemma SameButBlankSaturated(p: Parsed, q: Parsed)
    requires q.bundle == p.bundle && SameButBlank(p.sections, q.sections) && Saturated(q)
    ensures Saturated(p)
  {
    SameButBlankSelect(p.sections, q.sections);
    if p.bundle != [] && p.bundle[0] in ByMid(p.sections) {
      ByMidInRange(p.sections);
      TransportIsTransport(p.sections[ByMid(p.sections)[p.bundle[0]]]);
      forall i | 0 <= i < |p.sections| && Selected(ByMid(p.sections), p.bundle[1..], i)
        ensures Additions(TagAttributes(p), p.sections[i]) == []
      {
        BlankLineAndNames(TagAttributes(p), p.sections[i]);
        assert Additions(TagAttributes(q), q.sections[i]) == [];
      }
    }
  }

  lemma BlankLine(p: Parsed)
    ensures ParseLine(p, "").bundle == p.bundle && SameButBlank(p.sections, ParseLine(p, "").sections)
  {
    BlankIsNothing();
  }

  lemma SaturatedWithoutBlank(lines: seq<string>)
    requires Saturated(Parse(lines + [""]))
    ensures Saturated(Parse(lines))
  {
    assert (lines + [""])[..|lines|] == lines;
    BlankLine(Parse(lines));
    SameButBlankSaturated(Parse(lines), ParseLine(Parse(lines), ""));
  }

  lemma SaturatedVisible(lines: seq<string>, terminated: bool)
    requires Saturated(Parse(lines))
    ensures Saturated(Parse(Visible(lines, terminated)))
  {
    var visible := Visible(lines, terminated);
    if visible != lines {
      assert lines == visible + [""];
      SaturatedWithoutBlank(visible);
    }
  }

  lemma {:induction false} InFlattened(sections: seq<seq<string>>, line: string)
    ensures line in Flatten(sections) <==> exists i | 0 <= i < |sections| :: line in sections[i]
  {
    if sections != [] {
      var k := |sections| - 1;
      InFlattened(sections[..k], line);
      assert forall i | 0 <= i < k :: sections[..k][i] == sections[i];
    }
  }

  /** Every line of the expansion is a line of the original. */
  lemma NoNewLines(lines: seq<string>)
    requires NonEmpty(Parse(lines).sections) && ExpandSections(Parse(lines)).Some?
    ensures forall line <- Parse(lines).session + Flatten(ExpandSections(Parse(lines)).value) :: line in lines
  {
    var p := Parse(lines);
    var sections := ExpandSections(p).value;
    FlattenParsed(lines);
    forall line <- p.session + Flatten(sections)
      ensures line in lines
    {
      InFlattened(sections, line);
      if line in Flatten(sections) {
        var i :| 0 <= i < |sections| && line in sections[i];
        LineOfMember(p, i, line);
        InFlattened(p.sections, line);
      }
    }
  }

  lemma LineOfMember(p: Parsed, i: nat, line: string)
    requires NonEmpty(p.sections) && ExpandSections(p).Some? && i < |p.sections| && line in ExpandSections(p).value[i]
    ensures exists j | 0 <= j < |p.sections| :: line in p.sections[j]
  {
    ByMidInRange(p.sections);
    var tag := ByMid(p.sections)[p.bundle[0]];
    TransportIsTransport(p.sections[tag]);
    AdditionsExactly(TagAttributes(p), p.sections[i]);
    assert line in p.sections[i] || line in p.sections[tag];
  }

  /** Expanding twice is expanding once, as text. */
  lemma ExpandIsIdempotent(sdp: string)
    ensures Expand(Expand(sdp)) == Expand(sdp)
  {
    if ExpandedSections(sdp).Some? {
      var lines := ExpandedLines(sdp);
      ExpandRendered(lines, NewlineOf(sdp), Terminated(sdp));
    }
  }

  /** The lines that an expansion joins. */
  lemma ExpandedLines(sdp: string) returns (lines: seq<string>)
    requires ExpandedSections(sdp).Some?
    ensures lines == Parse(LinesOf(sdp)).session + Flatten(ExpandedSections(sdp).value)
    ensures Clean(lines) && lines != [] && Saturated(Parse(lines))
  {
    var sections := ExpandedSections(sdp).value;
    lines := Parse(LinesOf(sdp)).session + Flatten(sections);
    ParsedSectionsAreNonEmpty(LinesOf(sdp));
    NoNewLines(LinesOf(sdp));
    SplitLinesAreClean(ReplaceCrLf(sdp));
    ExpansionKeepsStructure(LinesOf(sdp));
    ExpandedIsSaturated(LinesOf(sdp));
    NotEmpty(sections);
  }

  lemma NotEmpty(sections: seq<seq<string>>)
    requires sections != [] && sections[|sections| - 1] != []
    ensures Flatten(sections) != []
  {
  }

  lemma ExpandRendered(lines: seq<string>, newline: string, terminated: bool)
    requires Clean(lines) && lines != [] && (newline == LF || newline == CRLF) && Saturated(Parse(lines))
    ensures Expand(Render(lines, newline, terminated)) == Render(lines, newline, terminated)
  {
    LinesOfRendered(lines, newline, terminated);
    RenderIsStable(lines, newline, terminated);
    SaturatedVisible(lines, terminated);
    ExpandSaturated(Render(lines, newline, terminated));
  }

  lemma ExpandSaturated(text: string)
    requires Saturated(Parse(LinesOf(text)))
    requires Render(LinesOf(text), NewlineOf(text), Terminated(text)) == text
    ensures Expand(text) == text
  {
    ParsedSectionsAreNonEmpty(LinesOf(text));
    FlattenParsed(LinesOf(text));
    if ExpandSections(Parse(LinesOf(text))).Some? {
      SaturatedIsFixed(Parse(LinesOf(text)));
    }
  }

  // ---------------------------------------------------------------- the text that comes out

  /** Read back as lines, the expansion is the session followed by the expanded sections. */
  lemma ExpandedText(sdp: string)
    ensures ExpandedSections(sdp).None? ==> Expand(sdp) == sdp
    ensures ExpandedSections(sdp).Some? ==>
              LinesOf(Expand(sdp))
              == Visible(Parse(LinesOf(sdp)).session + Flatten(ExpandedSections(sdp).value), Terminated(sdp))
  {
    if ExpandedSections(sdp).Some? {
      var lines := ExpandedLines(sdp);
      LinesOfRendered(lines, NewlineOf(sdp), Terminated(sdp));
    }
  }

  lemma ParseVisible(lines: seq<string>, terminated: bool)
    ensures var p, q := Parse(lines), Parse(Visible(lines, terminated));
            q.bundle == p.bundle && (q.sections == p.sections || SameButBlank(q.sections, p.sections))
  {
    var visible := Visible(lines, terminated);
    if visible != lines {
      assert lines == visible + [""];
      assert lines[..|visible|] == visible;
      BlankLine(Parse(visible));
    }
  }

  lemma NameDespiteBlank(section: seq<string>, name: string)
    requires HasName(section + [""], name) && name != ""
    ensures HasName(section, name)
  {
    var line :| line in section + [""] && NameOf(line) == name;
    assert NameOf("") == "";
    assert line in section;
  }

  /** Taken apart again, the text of the expansion has the group, the mids and the tag
      attributes of the original, and every selected section has all their names. */
  lemma ExpandedTextIsComplete(sdp: string)
    requires ExpandedSections(sdp).Some?
    ensures var p, q := Parse(LinesOf(sdp)), Parse(LinesOf(Expand(sdp)));
            && q.bundle == p.bundle && p.bundle != [] && |q.sections| == |p.sections|
            && ByMid(q.sections) == ByMid(p.sections) && p.bundle[0] in ByMid(p.sections)
            && TagAttributes(q) == TagAttributes(p)
            && forall i | 0 <= i < |q.sections| && Selected(ByMid(q.sections), q.bundle[1..], i) ::
                 HasNames(q.sections[i], TagAttributes(q))
  {
    var p, q := Parse(LinesOf(sdp)), Parse(LinesOf(Expand(sdp)));
    var sections := ExpandedSections(sdp).value;
    var lines := ExpandedLines(sdp);
    ParsedSectionsAreNonEmpty(LinesOf(sdp));
    ExpandedText(sdp);
    ExpansionKeepsStructure(LinesOf(sdp));
    ParseVisible(lines, Terminated(sdp));
    if q.sections != sections {
      SameButBlankSelect(q.sections, sections);
    }
    TagIsUnchanged(p);
    forall i | 0 <= i < |q.sections| && Selected(ByMid(q.sections), q.bundle[1..], i)
      ensures HasNames(q.sections[i], TagAttributes(q))
    {
      CompleteDespiteBlank(p, q.sections[i], i);
    }
  }

  ghost predicate HasNames(section: seq<string>, attributes: seq<string>) {
    forall a <- attributes :: HasName(section, NameOf(a))
  }

  lemma CompleteDespiteBlank(p: Parsed, section: seq<string>, i: nat)
    requires NonEmpty(p.sections) && ExpandSections(p).Some? && i < |p.sections| && Selected(ByMid(p.sections), p.bundle[1..], i)
    requires ExpandSections(p).value[i] == section || ExpandSections(p).value[i] == section + [""]
    ensures HasNames(section, TagAttributes(p))
  {
    MembersAreComplete(p, i);
    ByMidInRange(p.sections);
    TransportIsTransport(p.sections[ByMid(p.sections)[p.bundle[0]]]);
    forall a <- TagAttributes(p)
      ensures HasName(section, NameOf(a))
    {
      TransportLines(a);
      if ExpandSections(p).value[i] != section {
        NameDespiteBlank(section, NameOf(a));
      }
    }
  }
}
