/** Copying data-channel attributes (dcmap and dcsa, sections 5.1 and 5.2 of RFC 8864) from
    the application section of one SDP to that of another. */
module ApplicationAttributes {
  import opened Wrappers
  import opened Selections
  import opened Text

  const APPLICATION: string := "m=application "

  predicate IsApplication(line: string) {
    APPLICATION <= line
  }

  predicate StartsWithAny(line: string, prefixes: seq<string>) {
    exists p <- prefixes :: p <= line
  }

  function Prefixes(names: seq<string>): seq<string> {
    seq(|names|, i requires 0 <= i < |names| => "a=" + names[i] + ":")
  }

  predicate AreAttributes(prefixes: seq<string>) {
    forall p <- prefixes :: "a=" <= p
  }

  /** Whether the line after `lines` belongs to an application section. */
  function InApplication(lines: seq<string>, inside: bool): bool {
    if lines == [] then inside
    else InApplication(lines[1..], if IsMedia(lines[0]) then IsApplication(lines[0]) else inside)
  }

  /** The selected attribute lines of all application sections. */
  function Extract(lines: seq<string>, prefixes: seq<string>, inside: bool): seq<string> {
    if lines == [] then []
    else if IsMedia(lines[0]) then Extract(lines[1..], prefixes, IsApplication(lines[0]))
    else (if inside && StartsWithAny(lines[0], prefixes) then [lines[0]] else []) + Extract(lines[1..], prefixes, inside)
  }

  /** Where the first application section ends. */
  function FirstEnd(lines: seq<string>, inside: bool): (end: Option<nat>)
    ensures end.Some? ==> end.value <= |lines| && InApplication(lines[..end.value], inside)
    ensures end.Some? && end.value < |lines| ==> IsMedia(lines[end.value])
    ensures end.Some? && !inside ==> end.value > 0
    ensures inside ==> end.Some?
  {
    if lines == [] then (if inside then Some(0) else None)
    else if IsMedia(lines[0]) && inside then Some(0)
    else
      var inside' := if IsMedia(lines[0]) then IsApplication(lines[0]) else inside;
      match FirstEnd(lines[1..], inside')
      case None => None
      case Some(end) =>
        assert lines[..end + 1][1..] == lines[1..][..end];
        Some(end + 1)
  }

  function Absent(attributes: seq<string>, existing: seq<string>): seq<string> {
    if attributes == [] then []
    else (if attributes[0] !in existing then [attributes[0]] else []) + Absent(attributes[1..], existing)
  }

  /** The lines after copying; nothing when there is no application section to copy to. */
  function Insert(attributes: seq<string>, lines: seq<string>, prefixes: seq<string>): Option<seq<string>> {
    match FirstEnd(lines, false)
    case None => None
    case Some(end) => Some(lines[..end] + Absent(attributes, Extract(lines, prefixes, false)) + lines[end..])
  }

  function Copy(source: string, target: string, names: seq<string>): string {
    var prefixes := Prefixes(names);
    var attributes := Extract(LinesOf(source), prefixes, false);
    if attributes == [] then target
    else match Insert(attributes, LinesOf(target), prefixes)
      case None => target
      case Some(lines) => Render(lines, NewlineOf(target), Terminated(target))
  }

  // ---------------------------------------------------------------- the first application section

  predicate NoApplication(lines: seq<string>) {
    forall i | 0 <= i < |lines| :: !("m=application " <= lines[i])
  }

  lemma {:induction false} NoApplicationSection(lines: seq<string>)
    ensures FirstEnd(lines, false).None? <==> NoApplication(lines)
  {
    if lines != [] {
      NoApplicationSection(lines[1..]);
      ApplicationIsMedia(lines[0]);
      assert NoApplication(lines) <==> !IsApplication(lines[0]) && NoApplication(lines[1..]) by {
        assert forall i | 1 <= i < |lines| :: lines[i] == lines[1..][i - 1];
      }
    }
  }

  lemma ApplicationIsMedia(line: string)
    ensures IsApplication(line) ==> IsMedia(line)
  {
    assert MEDIA <= APPLICATION;
  }

  /** The lines from `start` to `end` are the first application section. */
  ghost predicate FirstSection(lines: seq<string>, start: nat, end: nat) {
    && start < end <= |lines| && "m=application " <= lines[start]
    && (forall i | 0 <= i < start :: !("m=application " <= lines[i]))
    && (forall i | start < i < end :: !("m=" <= lines[i]))
    && (end < |lines| ==> "m=" <= lines[end])
  }

  lemma {:induction false} SectionEnd(lines: seq<string>)
    ensures var end := FirstEnd(lines, true).value;
            && (forall i | 0 <= i < end :: !IsMedia(lines[i]))
            && (end < |lines| ==> IsMedia(lines[end]))
  {
    if lines != [] && !IsMedia(lines[0]) {
      SectionEnd(lines[1..]);
      assert forall i | 1 <= i < |lines| :: lines[i] == lines[1..][i - 1];
    }
  }

  /** The insertion point is the end of the first application section and nothing else. */
  lemma {:induction false} FirstEndIsExact(lines: seq<string>) returns (start: nat)
    requires FirstEnd(lines, false).Some?
    ensures FirstSection(lines, start, FirstEnd(lines, false).value)
  {
    ApplicationIsMedia(lines[0]);
    assert forall i | 1 <= i < |lines| :: lines[i] == lines[1..][i - 1];
    if IsApplication(lines[0]) {
      SectionEnd(lines[1..]);
      start := 0;
    } else {
      start := FirstEndIsExact(lines[1..]);
      start := start + 1;
    }
  }

  ghost predicate EndsFirstSection(lines: seq<string>, end: nat) {
    exists start: nat :: FirstSection(lines, start, end)
  }

  lemma FirstSectionFound(lines: seq<string>)
    ensures FirstEnd(lines, false).Some? ==> EndsFirstSection(lines, FirstEnd(lines, false).value)
    ensures FirstEnd(lines, false).None? ==> NoApplication(lines)
  {
    NoApplicationSection(lines);
    if FirstEnd(lines, false).Some? {
      var start := FirstEndIsExact(lines);
    }
  }

  /** There is only one first application section. */
  lemma FirstSectionIsUnique(lines: seq<string>, start: nat, end: nat)
    requires FirstSection(lines, start, end)
    ensures FirstEnd(lines, false) == Some(end)
  {
    NoApplicationSection(lines);
    var other := FirstEndIsExact(lines);
    assert other == start;
  }

  // ---------------------------------------------------------------- the loops

  lemma {:induction false} ExtractAppend(a: seq<string>, b: seq<string>, prefixes: seq<string>, inside: bool)
    ensures Extract(a + b, prefixes, inside) == Extract(a, prefixes, inside) + Extract(b, prefixes, InApplication(a, inside))
    ensures InApplication(a + b, inside) == InApplication(b, InApplication(a, inside))
  {
    if a == [] {
      assert a + b == b;
    } else {
      assert (a + b)[1..] == a[1..] + b;
      ExtractAppend(a[1..], b, prefixes, if IsMedia(a[0]) then IsApplication(a[0]) else inside);
    }
  }

  lemma TakeOneMore(lines: seq<string>, k: nat, prefixes: seq<string>)
    requires k < |lines|
    ensures var inside := InApplication(lines[..k], false);
            && Extract(lines[..k + 1], prefixes, false)
               == Extract(lines[..k], prefixes, false)
                  + (if !IsMedia(lines[k]) && inside && StartsWithAny(lines[k], prefixes) then [lines[k]] else [])
            && InApplication(lines[..k + 1], false) == if IsMedia(lines[k]) then IsApplication(lines[k]) else inside
  {
    assert lines[..k + 1] == lines[..k] + [lines[k]];
    ExtractAppend(lines[..k], [lines[k]], prefixes, false);
    assert [lines[k]][1..] == [];
  }

  /** The inner function of the source. */
  method ApplicationLines(sdp: string, prefixes: seq<string>) returns (result: seq<string>)
    ensures result == Extract(LinesOf(sdp), prefixes, false)
  {
    result := [];
    var inApplication := false;
    var lines := LinesOf(sdp);
    for k := 0 to |lines|
      invariant result == Extract(lines[..k], prefixes, false)
      invariant inApplication == InApplication(lines[..k], false)
    {
      var line := lines[k];
      TakeOneMore(lines, k, prefixes);
      if IsMedia(line) {
        inApplication := IsApplication(line);
      } else if inApplication && StartsWithAny(line, prefixes) {
        result := result + [line];
      }
    }
    assert lines[..|lines|] == lines;
  }

  method CopyApplicationAttributes(source: string, target: string, names: seq<string>) returns (rendered: string)
    ensures rendered == Copy(source, target, names)
  {
    var prefixes := Prefixes(names);
    var attributes := ApplicationLines(source, prefixes);
    if attributes == [] {
      return target;
    }
    var lines := LinesOf(target);
    var insertion, inApplication := FindInsertion(lines);
    if !inApplication {
      return target;
    }
    var existing := ApplicationLines(target, prefixes);
    lines := lines[..insertion] + Absent(attributes, existing) + lines[insertion..];
    rendered := RenderLike(lines, target);
  }

  /** Where the first application section ends, seen from a line of the text. */
  function EndFrom(lines: seq<string>, index: nat, inside: bool): Option<nat>
    requires index <= |lines|
  {
    match FirstEnd(lines[index..], inside)
    case None => None
    case Some(end) => Some(index + end)
  }

  lemma EndFromNext(lines: seq<string>, index: nat, inside: bool)
    requires index < |lines|
    ensures EndFrom(lines, index, inside)
            == if IsMedia(lines[index]) && inside then Some(index)
               else EndFrom(lines, index + 1, if IsMedia(lines[index]) then IsApplication(lines[index]) else inside)
  {
    assert lines[index..][1..] == lines[index + 1..];
  }

  /** The search loop of the source, which stops at the section after the first application section. */
  method FindInsertion(lines: seq<string>) returns (insertion: nat, inApplication: bool)
    ensures FirstEnd(lines, false) == if inApplication then Some(insertion) else None
    ensures if inApplication then EndsFirstSection(lines, insertion) else NoApplication(lines)
  {
    insertion, inApplication := |lines|, false;
    FirstSectionFound(lines);
    assert lines[0..] == lines;
    for index := 0 to |lines|
      invariant insertion == |lines|
      invariant FirstEnd(lines, false) == EndFrom(lines, index, inApplication)
    {
      EndFromNext(lines, index, inApplication);
      if IsMedia(lines[index]) {
        if inApplication {
          insertion := index;
          break;
        }
        inApplication := IsApplication(lines[index]);
      }
    }
  }

  // ---------------------------------------------------------------- which lines are attributes

  /** The last media line before line `i` starts an application section. */
  ghost predicate BelongsToApplication(lines: seq<string>, i: nat)
    requires i <= |lines|
  {
    exists j: nat | j < i :: "m=application " <= lines[j] && forall k | j < k < i :: !("m=" <= lines[k])
  }

  /** A line of an application section that starts with one of the names, as an attribute. */
  ghost predicate IsAttribute(lines: seq<string>, i: nat, names: seq<string>)
    requires i < |lines|
  {
    && !("m=" <= lines[i]) && BelongsToApplication(lines, i)
    && exists name <- names :: "a=" + name + ":" <= lines[i]
  }

  /** `r` are the attribute lines of `lines`, in their order. */
  ghost predicate AttributesOf(lines: seq<string>, names: seq<string>, r: seq<string>) {
    exists at: seq<nat> :: StandsAt(r, lines, at) && forall i: nat | i < |lines| :: i in at <==> IsAttribute(lines, i, names)
  }

  lemma StartsWithName(line: string, names: seq<string>)
    ensures StartsWithAny(line, Prefixes(names)) <==> exists name <- names :: "a=" + name + ":" <= line
  {
    if StartsWithAny(line, Prefixes(names)) {
      var p :| p in Prefixes(names) && p <= line;
      var i :| 0 <= i < |names| && Prefixes(names)[i] == p;
      assert names[i] in names;
    }
    if exists name <- names :: "a=" + name + ":" <= line {
      var name :| name in names && "a=" + name + ":" <= line;
      var i :| 0 <= i < |names| && names[i] == name;
      assert Prefixes(names)[i] in Prefixes(names);
    }
  }

  lemma InsideNext(lines: seq<string>, k: nat)
    requires k < |lines|
    ensures InApplication(lines[..k + 1], false)
            <==> "m=application " <= lines[k] || (!("m=" <= lines[k]) && InApplication(lines[..k], false))
  {
    TakeOneMore(lines, k, []);
    ApplicationIsMedia(lines[k]);
  }

  lemma {:induction false} InApplicationExactly(lines: seq<string>, k: nat)
    requires k <= |lines|
    ensures InApplication(lines[..k], false) <==> BelongsToApplication(lines, k)
  {
    if k > 0 {
      InApplicationExactly(lines, k - 1);
      InsideNext(lines, k - 1);
      BelongsNext(lines, k - 1);
    }
  }

  lemma BelongsNext(lines: seq<string>, k: nat)
    requires k < |lines|
    ensures BelongsToApplication(lines, k + 1)
            <==> "m=application " <= lines[k] || (!("m=" <= lines[k]) && BelongsToApplication(lines, k))
  {
    if BelongsToApplication(lines, k) && !("m=" <= lines[k]) {
      var j: nat :| j < k && "m=application " <= lines[j] && forall i | j < i < k :: !("m=" <= lines[i]);
      assert forall i | j < i < k + 1 :: !("m=" <= lines[i]);
    }
    if BelongsToApplication(lines, k + 1) {
      var j: nat :| j < k + 1 && "m=application " <= lines[j] && forall i | j < i < k + 1 :: !("m=" <= lines[i]);
      assert j < k ==> !("m=" <= lines[k]) && forall i | j < i < k :: !("m=" <= lines[i]);
    }
  }

  lemma ExtractNext(lines: seq<string>, names: seq<string>, k: nat)
    requires k < |lines|
    ensures var before := Extract(lines[..k], Prefixes(names), false);
            Extract(lines[..k + 1], Prefixes(names), false) == if Attributes(lines, names)(k) then before + [lines[k]] else before
  {
    TakeOneMore(lines, k, Prefixes(names));
    InApplicationExactly(lines, k);
    StartsWithName(lines[k], names);
  }

  ghost function Attributes(lines: seq<string>, names: seq<string>): nat -> bool {
    (i: nat) => i < |lines| && IsAttribute(lines, i, names)
  }

  lemma {:induction false} ExtractStands(lines: seq<string>, names: seq<string>, k: nat)
    requires k <= |lines|
    ensures StandsAt(Extract(lines[..k], Prefixes(names), false), lines, Below(Attributes(lines, names), k))
  {
    if k > 0 {
      ExtractStands(lines, names, k - 1);
      ExtractNext(lines, names, k - 1);
    }
  }

  /** What is extracted are exactly the attribute lines. */
  lemma ExtractExactly(lines: seq<string>, names: seq<string>)
    ensures AttributesOf(lines, names, Extract(lines, Prefixes(names), false))
  {
    var wanted := Attributes(lines, names);
    ExtractStands(lines, names, |lines|);
    assert lines[..|lines|] == lines;
    forall i: nat | i < |lines|
      ensures i in Below(wanted, |lines|) <==> IsAttribute(lines, i, names)
    {
      BelowHas(wanted, |lines|, i);
    }
  }

  function NotIn(existing: seq<string>): string -> bool {
    a => a !in existing
  }

  /** The absent attributes, in their order and as often as they occur. */
  lemma {:induction false} AbsentSelects(attributes: seq<string>, existing: seq<string>)
    ensures Selects(NotIn(existing), attributes, Absent(attributes, existing))
  {
    if attributes == [] {
      SelectsNothing(NotIn(existing));
    } else {
      AbsentSelects(attributes[1..], existing);
      SelectsFirst(NotIn(existing), attributes[0], attributes[1..], Absent(attributes[1..], existing));
      assert attributes == [attributes[0]] + attributes[1..];
    }
  }

  // ---------------------------------------------------------------- what copying achieves

  lemma AttributesAreNotMedia(line: string, prefixes: seq<string>)
    requires AreAttributes(prefixes) && StartsWithAny(line, prefixes)
    ensures !IsMedia(line) && line != ""
  {
    var p :| p in prefixes && p <= line;
    assert line[0] == p[0] == "a="[0];
    MediaStart(line);
  }

  lemma MediaStart(line: string)
    ensures IsMedia(line) ==> line != "" && line[0] == 'm'
  {
    assert MEDIA[0] == 'm';
  }

  lemma PrefixesAreAttributes(names: seq<string>)
    ensures AreAttributes(Prefixes(names))
  {
    forall p <- Prefixes(names)
      ensures "a=" <= p
    {
      var i :| 0 <= i < |names| && Prefixes(names)[i] == p;
      assert p == "a=" + (names[i] + ":");
    }
  }

  lemma {:induction false} ExtractedAreAttributes(lines: seq<string>, prefixes: seq<string>, inside: bool)
    ensures AreSelected(Extract(lines, prefixes, inside), prefixes)
    ensures forall a <- Extract(lines, prefixes, inside) :: a in lines
  {
    if lines != [] {
      ExtractedAreAttributes(lines[1..], prefixes, if IsMedia(lines[0]) then IsApplication(lines[0]) else inside);
    }
  }

  lemma {:induction false} AbsentExactly(attributes: seq<string>, existing: seq<string>)
    ensures forall a :: a in Absent(attributes, existing) <==> a in attributes && a !in existing
  {
    if attributes != [] {
      AbsentExactly(attributes[1..], existing);
      assert attributes == [attributes[0]] + attributes[1..];
    }
  }

  lemma {:induction false} ExtractAll(attributes: seq<string>, prefixes: seq<string>)
    requires AreAttributes(prefixes) && forall a <- attributes :: StartsWithAny(a, prefixes)
    ensures Extract(attributes, prefixes, true) == attributes && InApplication(attributes, true)
  {
    if attributes != [] {
      AttributesAreNotMedia(attributes[0], prefixes);
      ExtractAll(attributes[1..], prefixes);
    }
  }

  predicate AreSelected(attributes: seq<string>, prefixes: seq<string>) {
    forall a <- attributes :: StartsWithAny(a, prefixes)
  }

  /** Selected lines put at the end of an application section are read back where they are. */
  lemma ReadInserted(before: seq<string>, missing: seq<string>, after: seq<string>, prefixes: seq<string>)
    requires AreAttributes(prefixes) && AreSelected(missing, prefixes) && InApplication(before, false)
    ensures Extract(before + missing + after, prefixes, false)
            == Extract(before, prefixes, false) + missing + Extract(after, prefixes, true)
    ensures Extract(before + after, prefixes, false) == Extract(before, prefixes, false) + Extract(after, prefixes, true)
  {
    ExtractAll(missing, prefixes);
    ExtractAppend(before, missing, prefixes, false);
    ExtractAppend(before + missing, after, prefixes, false);
    ExtractAppend(before, after, prefixes, false);
  }

  lemma AbsentAreSelected(attributes: seq<string>, existing: seq<string>, prefixes: seq<string>)
    requires AreSelected(attributes, prefixes)
    ensures AreSelected(Absent(attributes, existing), prefixes)
  {
    AbsentExactly(attributes, existing);
  }

  /** Read back, the result has what the first application section had, then exactly the
      missing attributes in the order of the source, then what later sections had. */
  lemma InsertedAttributes(attributes: seq<string>, lines: seq<string>, prefixes: seq<string>)
    requires AreAttributes(prefixes) && AreSelected(attributes, prefixes)
    requires FirstEnd(lines, false).Some?
    ensures var end := FirstEnd(lines, false).value;
            var missing := Absent(attributes, Extract(lines, prefixes, false));
            Extract(Insert(attributes, lines, prefixes).value, prefixes, false)
            == Extract(lines[..end], prefixes, false) + missing + Extract(lines[end..], prefixes, true)
  {
    var end := FirstEnd(lines, false).value;
    var missing := Absent(attributes, Extract(lines, prefixes, false));
    AbsentAreSelected(attributes, Extract(lines, prefixes, false), prefixes);
    ReadInserted(lines[..end], missing, lines[end..], prefixes);
  }

  /** Nothing can be read from the sections after the only application section. */
  lemma NothingAfter(lines: seq<string>, prefixes: seq<string>)
    requires NoApplication(lines) && (lines != [] ==> IsMedia(lines[0]))
    ensures Extract(lines, prefixes, true) == []
  {
    if lines != [] {
      assert forall i | 0 <= i < |lines| - 1 :: lines[1..][i] == lines[i + 1];
      ExtractNothing(lines[1..], prefixes);
    }
  }

  lemma {:induction false} ExtractNothing(lines: seq<string>, prefixes: seq<string>)
    requires NoApplication(lines)
    ensures Extract(lines, prefixes, false) == []
  {
    if lines != [] {
      assert forall i | 0 <= i < |lines| - 1 :: lines[1..][i] == lines[i + 1];
      ExtractNothing(lines[1..], prefixes);
    }
  }

  /** Exactly one line starts an application section. */
  ghost predicate OneApplication(lines: seq<string>) {
    exists i | 0 <= i < |lines| ::
      "m=application " <= lines[i] && forall j | 0 <= j < |lines| && j != i :: !("m=application " <= lines[j])
  }

  lemma OnlySection(lines: seq<string>)
    requires OneApplication(lines)
    ensures FirstEnd(lines, false).Some? && NoApplication(lines[FirstEnd(lines, false).value..])
  {
    NoApplicationSection(lines);
    var start := FirstEndIsExact(lines);
  }

  /** With one application section there is nothing after the missing attributes. */
  lemma SingleSection(attributes: seq<string>, lines: seq<string>, prefixes: seq<string>)
    requires AreAttributes(prefixes) && AreSelected(attributes, prefixes)
    requires OneApplication(lines)
    ensures FirstEnd(lines, false).Some?
    ensures var existing := Extract(lines, prefixes, false);
            Extract(Insert(attributes, lines, prefixes).value, prefixes, false) == existing + Absent(attributes, existing)
  {
    AllInOnlySection(lines, prefixes);
    InsertedAttributes(attributes, lines, prefixes);
  }

  lemma AllInOnlySection(lines: seq<string>, prefixes: seq<string>)
    requires OneApplication(lines)
    ensures FirstEnd(lines, false).Some?
    ensures var end := FirstEnd(lines, false).value;
            Extract(lines[..end], prefixes, false) == Extract(lines, prefixes, false) && Extract(lines[end..], prefixes, true) == []
  {
    OnlySection(lines);
    var end := FirstEnd(lines, false).value;
    NothingAfter(lines[end..], prefixes);
    ExtractAppend(lines[..end], lines[end..], prefixes, false);
    assert lines == lines[..end] + lines[end..];
  }

  // ---------------------------------------------------------------- idempotence

  lemma {:induction false} NothingAbsent(attributes: seq<string>, existing: seq<string>)
    requires AllIn(attributes, existing)
    ensures Absent(attributes, existing) == []
  {
    if attributes != [] {
      NothingAbsent(attributes[1..], existing);
    }
  }

  lemma VisibleExtract(lines: seq<string>, terminated: bool, prefixes: seq<string>)
    requires AreAttributes(prefixes)
    ensures Extract(Visible(lines, terminated), prefixes, false) == Extract(lines, prefixes, false)
  {
    if Visible(lines, terminated) != lines {
      var front := lines[..|lines| - 1];
      assert lines == front + [""];
      ExtractAppend(front, [""], prefixes, false);
      if StartsWithAny("", prefixes) {
        AttributesAreNotMedia("", prefixes);
      }
      assert [""][1..] == [];
    }
  }

  lemma ReadRendered(lines: seq<string>, target: string, prefixes: seq<string>)
    requires AreAttributes(prefixes) && Clean(lines) && lines != []
    ensures Extract(LinesOf(Render(lines, NewlineOf(target), Terminated(target))), prefixes, false) == Extract(lines, prefixes, false)
  {
    LinesOfRendered(lines, NewlineOf(target), Terminated(target));
    VisibleExtract(lines, Terminated(target), prefixes);
  }

  /** What a copy that changes the target is made of. */
  lemma CopiedLines(source: string, target: string, names: seq<string>) returns (lines: seq<string>)
    requires var attributes := Extract(LinesOf(source), Prefixes(names), false);
             attributes != [] && Insert(attributes, LinesOf(target), Prefixes(names)).Some?
    ensures Copy(source, target, names) == Render(lines, NewlineOf(target), Terminated(target))
    ensures Clean(lines) && lines != []
    ensures lines == Insert(Extract(LinesOf(source), Prefixes(names), false), LinesOf(target), Prefixes(names)).value
    ensures AllIn(Extract(LinesOf(source), Prefixes(names), false), Extract(lines, Prefixes(names), false))
  {
    var prefixes := Prefixes(names);
    PrefixesAreAttributes(names);
    ExtractedAreAttributes(LinesOf(source), prefixes, false);
    ExtractedAreClean(source, prefixes);
    ExtractedAreClean(target, prefixes);
    lines := InsertedLines(Extract(LinesOf(source), prefixes, false), LinesOf(target), prefixes);
  }

  predicate AllIn(attributes: seq<string>, lines: seq<string>) {
    forall a <- attributes :: a in lines
  }

  lemma ExtractedAreClean(sdp: string, prefixes: seq<string>)
    ensures Clean(LinesOf(sdp)) && Clean(Extract(LinesOf(sdp), prefixes, false))
  {
    SplitLinesAreClean(ReplaceCrLf(sdp));
    ExtractedAreAttributes(LinesOf(sdp), prefixes, false);
  }

  lemma InsertedLines(attributes: seq<string>, lines: seq<string>, prefixes: seq<string>) returns (inserted: seq<string>)
    requires AreAttributes(prefixes) && AreSelected(attributes, prefixes)
    requires Clean(attributes) && Clean(lines) && Insert(attributes, lines, prefixes).Some?
    ensures inserted == Insert(attributes, lines, prefixes).value
    ensures Clean(inserted) && inserted != [] && AllIn(attributes, Extract(inserted, prefixes, false))
  {
    var end, existing := FirstEnd(lines, false).value, Extract(lines, prefixes, false);
    inserted := Insert(attributes, lines, prefixes).value;
    AbsentAreSelected(attributes, existing, prefixes);
    AbsentExactly(attributes, existing);
    ReadInserted(lines[..end], Absent(attributes, existing), lines[end..], prefixes);
    assert lines == lines[..end] + lines[end..];
  }

  /** Copying changes nothing but the first application section of the target, at whose end
      it puts the missing attributes; without attributes or without a section it returns the
      target.  All of this is said of the text that comes out, read back as lines. */
  lemma CopyInserts(source: string, target: string, names: seq<string>)
    ensures var lines := LinesOf(target);
            var attributes := Extract(LinesOf(source), Prefixes(names), false);
            if attributes == [] || NoApplication(lines) then Copy(source, target, names) == target
            else exists end: nat ::
              && end <= |lines| && EndsFirstSection(lines, end)
              && LinesOf(Copy(source, target, names))
                 == Visible(lines[..end] + Absent(attributes, Extract(lines, Prefixes(names), false)) + lines[end..], Terminated(target))
  {
    var lines := LinesOf(target);
    NoApplicationSection(lines);
    FirstSectionFound(lines);
    if Extract(LinesOf(source), Prefixes(names), false) != [] && FirstEnd(lines, false).Some? {
      var inserted := CopiedLines(source, target, names);
      LinesOfRendered(inserted, NewlineOf(target), Terminated(target));
    }
  }

  /** Copying, from its texts alone: with the attribute lines that the source offers and that
      the target holds, the offered lines that are not held go, in the order of the source, to
      the end of the target's first application section. */
  lemma CopySelects(source: string, target: string, names: seq<string>)
    returns (offered: seq<string>, held: seq<string>, inserted: seq<string>)
    ensures AttributesOf(LinesOf(source), names, offered) && AttributesOf(LinesOf(target), names, held)
    ensures Selects((a: string) => a !in held, offered, inserted)
    ensures var lines := LinesOf(target);
            if offered == [] || NoApplication(lines) then Copy(source, target, names) == target
            else exists start: nat, end: nat ::
              && FirstSection(lines, start, end)
              && Copy(source, target, names) == Render(lines[..end] + inserted + lines[end..], NewlineOf(target), Terminated(target))
  {
    var lines := LinesOf(target);
    offered, held := Extract(LinesOf(source), Prefixes(names), false), Extract(lines, Prefixes(names), false);
    inserted := Absent(offered, held);
    ExtractExactly(LinesOf(source), names);
    ExtractExactly(lines, names);
    AbsentSelects(offered, held);
    NoApplicationSection(lines);
    if FirstEnd(lines, false).Some? {
      var start := FirstEndIsExact(lines);
    }
  }

  /** After copying, every selected attribute of the source can be read from the target. */
  lemma NothingIsLost(source: string, target: string, names: seq<string>)
    requires !FirstEnd(LinesOf(target), false).None?
    ensures AllIn(Extract(LinesOf(source), Prefixes(names), false),
                  Extract(LinesOf(Copy(source, target, names)), Prefixes(names), false))
  {
    if Extract(LinesOf(source), Prefixes(names), false) != [] {
      var lines := CopiedLines(source, target, names);
      PrefixesAreAttributes(names);
      ReadRendered(lines, target, Prefixes(names));
    }
  }

  /** For a target with one application section, reading the result back gives what it had,
      followed by exactly the attributes of the source that it lacked, in their order. */
  lemma CopyExact(source: string, target: string, names: seq<string>)
    requires OneApplication(LinesOf(target))
    ensures var prefixes := Prefixes(names);
            var existing := Extract(LinesOf(target), prefixes, false);
            Extract(LinesOf(Copy(source, target, names)), prefixes, false)
            == existing + Absent(Extract(LinesOf(source), prefixes, false), existing)
  {
    var prefixes := Prefixes(names);
    var attributes := Extract(LinesOf(source), prefixes, false);
    PrefixesAreAttributes(names);
    ExtractedAreAttributes(LinesOf(source), prefixes, false);
    SingleSection(attributes, LinesOf(target), prefixes);
    if attributes != [] {
      var lines := CopiedLines(source, target, names);
      ReadRendered(lines, target, prefixes);
    }
  }

  lemma NothingToInsert(attributes: seq<string>, lines: seq<string>, prefixes: seq<string>)
    requires AllIn(attributes, Extract(lines, prefixes, false))
    ensures var inserted := Insert(attributes, lines, prefixes); inserted.Some? ==> inserted.value == lines
  {
    NothingAbsent(attributes, Extract(lines, prefixes, false));
    match FirstEnd(lines, false)
    case None =>
    case Some(end) =>
      assert lines[..end] + [] + lines[end..] == lines;
  }

  /** Copying twice is copying once, as text. */
  lemma CopyIsIdempotent(source: string, target: string, names: seq<string>)
    ensures Copy(source, Copy(source, target, names), names) == Copy(source, target, names)
  {
    var prefixes, text := Prefixes(names), Copy(source, target, names);
    var attributes := Extract(LinesOf(source), prefixes, false);
    if attributes != [] && Insert(attributes, LinesOf(target), prefixes).Some? {
      var lines := CopiedLines(source, target, names);
      RenderIsStable(lines, NewlineOf(target), Terminated(target));
      NothingIsLost(source, target, names);
      CopyToComplete(source, text, names);
    }
  }

  lemma CopyToComplete(source: string, text: string, names: seq<string>)
    requires Render(LinesOf(text), NewlineOf(text), Terminated(text)) == text
    requires AllIn(Extract(LinesOf(source), Prefixes(names), false), Extract(LinesOf(text), Prefixes(names), false))
    ensures Copy(source, text, names) == text
  {
    NothingToInsert(Extract(LinesOf(source), Prefixes(names), false), LinesOf(text), Prefixes(names));
  }
}
