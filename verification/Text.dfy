/** The Python string operations the SDP rewriters are made of, and the one fact they all
    rest on: text rendered from lines reads back as those lines. */
module Text {

  const LF: string := "\n"
  const CRLF: string := "\r\n"
  const MEDIA: string := "m="

  /** The characters at which `str.splitlines` breaks a line. */
  predicate IsBreak(c: char) {
    || '\n' <= c <= '\r'
    || '\U{1c}' <= c <= '\U{1e}'
    || c == '\U{85}' || c == '\U{2028}' || c == '\U{2029}'
  }

  /** The characters `str.split` splits at when it is given no separator. */
  predicate IsSpace(c: char) {
    || IsBreak(c) || c == '\t' || c == '\U{1f}' || c == ' '
    || c == '\U{a0}' || c == '\U{1680}' || '\U{2000}' <= c <= '\U{200a}'
    || c == '\U{202f}' || c == '\U{205f}' || c == '\U{3000}'
  }

  predicate Contains(s: string, part: string) {
    part <= s || (s != "" && Contains(s[1..], part))
  }

  predicate EndsWith(s: string, suffix: string) {
    |suffix| <= |s| && s[|s| - |suffix|..] == suffix
  }

  /** `s.removeprefix(prefix)` when the prefix is there. */
  function After(prefix: string, s: string): string
    requires prefix <= s
  {
    s[|prefix|..]
  }

  /** `s.partition(c)[0]`. */
  function Before(s: string, c: char): string {
    if s == "" || s[0] == c then "" else [s[0]] + Before(s[1..], c)
  }

  /** The first field of a text, and what follows it. */
  function TakeField(s: string): string {
    if s == "" || IsSpace(s[0]) then "" else [s[0]] + TakeField(s[1..])
  }

  /** `s.split()`. */
  function Fields(s: string): seq<string> {
    if s == "" then []
    else if IsSpace(s[0]) then Fields(s[1..])
    else
      TakeFieldIsPrefix(s);
      [TakeField(s)] + Fields(s[|TakeField(s)|..])
  }

  lemma {:induction false} TakeFieldIsPrefix(s: string)
    ensures TakeField(s) <= s && (s != "" && !IsSpace(s[0]) ==> TakeField(s) != "")
  {
    if s != "" && !IsSpace(s[0]) {
      TakeFieldIsPrefix(s[1..]);
    }
  }

  function Join(separator: string, parts: seq<string>): string {
    if parts == [] then ""
    else if |parts| == 1 then parts[0]
    else parts[0] + separator + Join(separator, parts[1..])
  }

  /** `s.replace("\r\n", "\n")`. */
  function ReplaceCrLf(s: string): string {
    if s == "" then ""
    else if CRLF <= s then LF + ReplaceCrLf(s[2..])
    else [s[0]] + ReplaceCrLf(s[1..])
  }

  /** The text before the first line break. */
  function FirstLine(s: string): (l: string)
    ensures l <= s
  {
    if s == "" || IsBreak(s[0]) then "" else [s[0]] + FirstLine(s[1..])
  }

  /** `s.splitlines()`. */
  function SplitLines(s: string): seq<string>
    decreases |s|
  {
    if s == "" then []
    else
      var line := FirstLine(s);
      var rest := s[|line|..];
      if rest == "" then [line]
      else [line] + SplitLines(if CRLF <= rest then rest[2..] else rest[1..])
  }

  // ---------------------------------------------------------------- what the operations mean

  /** The line breaks, by code point. */
  lemma BreaksAre(c: char)
    ensures IsBreak(c) <==> c in ['\U{0a}', '\U{0b}', '\U{0c}', '\U{0d}', '\U{1c}', '\U{1d}', '\U{1e}', '\U{85}', '\U{2028}', '\U{2029}']
  {
  }

  /** White space: the line breaks, and the other spaces of Unicode from the tabulator to the
      ideographic space. */
  lemma SpacesAre(c: char)
    ensures IsSpace(c) <==>
              || c in ['\U{09}', '\U{0a}', '\U{0b}', '\U{0c}', '\U{0d}', '\U{1c}', '\U{1d}', '\U{1e}', '\U{1f}', '\U{20}', '\U{85}', '\U{a0}']
              || c in ['\U{1680}', '\U{2000}', '\U{2001}', '\U{2002}', '\U{2003}', '\U{2004}', '\U{2005}', '\U{2006}', '\U{2007}']
              || c in ['\U{2008}', '\U{2009}', '\U{200a}', '\U{2028}', '\U{2029}', '\U{202f}', '\U{205f}', '\U{3000}']
  {
  }

  ghost predicate OccursAt(s: string, part: string, i: nat) {
    i + |part| <= |s| && s[i..i + |part|] == part
  }

  lemma {:induction false} ContainsAt(s: string, part: string) returns (i: nat)
    requires Contains(s, part)
    ensures OccursAt(s, part, i)
  {
    if part <= s {
      i := 0;
    } else {
      i := ContainsAt(s[1..], part);
      i := i + 1;
    }
  }

  lemma {:induction false} OccursContains(s: string, part: string, i: nat)
    requires OccursAt(s, part, i)
    ensures Contains(s, part)
  {
    if i > 0 {
      OccursContains(s[1..], part, i - 1);
    }
  }

  lemma ContainsExactly(s: string, part: string)
    ensures Contains(s, part) <==> exists i: nat :: OccursAt(s, part, i)
  {
    if Contains(s, part) {
      var i := ContainsAt(s, part);
    }
    if exists i: nat :: OccursAt(s, part, i) {
      var i: nat :| OccursAt(s, part, i);
      OccursContains(s, part, i);
    }
  }

  /** What comes before the first `c`, or everything when there is none. */
  lemma {:induction false} BeforeExactly(s: string, c: char)
    ensures Before(s, c) <= s && c !in Before(s, c)
    ensures Before(s, c) == s || s[|Before(s, c)|] == c
  {
    if s != "" && s[0] != c {
      BeforeExactly(s[1..], c);
    }
  }

  /** Fields are the longest stretches without white space, and white space only separates. */
  lemma FieldsExactly(c: char, word: string, rest: string)
    requires IsSpace(c) && word != "" && forall x <- word :: !IsSpace(x)
    requires rest == "" || IsSpace(rest[0])
    ensures Fields("") == [] && Fields([c] + rest) == Fields(rest) && Fields(word + rest) == [word] + Fields(rest)
  {
    assert ([c] + rest)[1..] == rest;
    assert word[0] in word && (word + rest)[0] == word[0];
    TakeFieldOf(word, rest);
    assert (word + rest)[|word|..] == rest;
  }

  lemma {:induction false} TakeFieldOf(word: string, rest: string)
    requires (forall x <- word :: !IsSpace(x)) && (rest == "" || IsSpace(rest[0]))
    ensures TakeField(word + rest) == word
  {
    if word == "" {
      assert word + rest == rest;
    } else {
      assert word[0] in word && (word + rest)[1..] == word[1..] + rest;
      TakeFieldOf(word[1..], rest);
    }
  }

  // ---------------------------------------------------------------- an SDP as text

  /** A line that starts a media section. */
  predicate IsMedia(line: string) {
    MEDIA <= line
  }

  function LinesOf(sdp: string): seq<string> {
    SplitLines(ReplaceCrLf(sdp))
  }

  function NewlineOf(sdp: string): string {
    if Contains(sdp, CRLF) then CRLF else LF
  }

  predicate Terminated(sdp: string) {
    EndsWith(sdp, CRLF) || EndsWith(sdp, LF)
  }

  function Render(lines: seq<string>, newline: string, terminated: bool): string {
    Join(newline, lines) + if terminated then newline else ""
  }

  /** The last step of every rewriter: lines joined in the style of the text they came from. */
  method RenderLike(lines: seq<string>, sdp: string) returns (rendered: string)
    ensures rendered == Render(lines, NewlineOf(sdp), Terminated(sdp))
  {
    rendered := Join(NewlineOf(sdp), lines);
    if Terminated(sdp) {
      rendered := rendered + NewlineOf(sdp);
    } else {
      assert rendered + "" == rendered;
    }
  }

  /** No line break inside a line. */
  predicate CleanLine(line: string) {
    forall c <- line :: !IsBreak(c)
  }

  predicate Clean(lines: seq<string>) {
    forall line <- lines :: CleanLine(line)
  }

  lemma {:induction false} FirstLineIsClean(s: string)
    ensures CleanLine(FirstLine(s))
    ensures FirstLine(s) != s ==> IsBreak(s[|FirstLine(s)|])
  {
    if s != "" && !IsBreak(s[0]) {
      FirstLineIsClean(s[1..]);
      assert s == [s[0]] + s[1..];
    }
  }

  lemma {:induction false} SplitLinesAreClean(s: string)
    ensures Clean(SplitLines(s))
    decreases |s|
  {
    if s != "" {
      var line := FirstLine(s);
      var rest := s[|line|..];
      FirstLineIsClean(s);
      if rest != "" {
        SplitLinesAreClean(if CRLF <= rest then rest[2..] else rest[1..]);
      }
    }
  }

  // ---------------------------------------------------------------- reading back

  lemma {:induction false} FirstLineOf(line: string, rest: string)
    requires CleanLine(line) && (rest == "" || IsBreak(rest[0]))
    ensures FirstLine(line + rest) == line
  {
    if line != "" {
      assert (line + rest)[1..] == line[1..] + rest;
      FirstLineOf(line[1..], rest);
    } else {
      assert line + rest == rest;
    }
  }

  lemma SplitStep(line: string, rest: string)
    requires CleanLine(line)
    ensures SplitLines(line + (LF + rest)) == [line] + SplitLines(rest)
  {
    FirstLineOf(line, LF + rest);
    AfterPrefix(line, LF + rest);
    AfterPrefix(LF, rest);
    StartsWithCr(LF + rest);
  }

  /** Every line break ends a line; a carriage return and a line feed together are one break. */
  lemma SplitAtBreak(line: string, c: char, rest: string)
    requires CleanLine(line) && IsBreak(c)
    ensures !(c == '\r' && rest != "" && rest[0] == '\n') ==> SplitLines(line + ([c] + rest)) == [line] + SplitLines(rest)
    ensures SplitLines(line + (CRLF + rest)) == [line] + SplitLines(rest)
  {
    FirstLineOf(line, [c] + rest);
    AfterPrefix(line, [c] + rest);
    AfterPrefix([c], rest);
    StartsWithCr([c] + rest);
    FirstLineOf(line, CRLF + rest);
    AfterPrefix(line, CRLF + rest);
    AfterPrefix(CRLF, rest);
  }

  lemma AfterPrefix(prefix: string, rest: string)
    ensures (prefix + rest)[|prefix|..] == rest
  {
  }

  lemma SplitLast(line: string)
    requires CleanLine(line)
    ensures SplitLines(line) == if line == "" then [] else [line]
  {
    FirstLineOf(line, "");
    assert line + "" == line;
  }

  lemma {:induction false} ReplaceSkips(line: string, rest: string)
    requires CleanLine(line)
    ensures ReplaceCrLf(line + rest) == line + ReplaceCrLf(rest)
  {
    if line == "" {
      assert line + rest == rest;
    } else {
      assert line[0] in line && line[0] != '\r';
      StartsWithCr(line + rest);
      assert (line + rest)[1..] == line[1..] + rest;
      ReplaceSkips(line[1..], rest);
      assert [line[0]] + (line[1..] + ReplaceCrLf(rest)) == line + ReplaceCrLf(rest);
    }
  }

  lemma ReplaceNewline(newline: string, rest: string)
    requires newline == LF || newline == CRLF
    ensures ReplaceCrLf(newline + rest) == LF + ReplaceCrLf(rest)
    ensures ReplaceCrLf("") == ""
  {
    if newline == CRLF {
      assert (CRLF + rest)[2..] == rest;
    } else {
      assert (LF + rest)[0] == '\n' && (LF + rest)[1..] == rest;
    }
  }

  /** Only a carriage return followed by a line feed is replaced. */
  lemma ReplaceOther(c: char, rest: string)
    requires !(c == '\r' && rest != "" && rest[0] == '\n')
    ensures ReplaceCrLf([c] + rest) == [c] + ReplaceCrLf(rest)
  {
    assert ([c] + rest)[1..] == rest;
    StartsWithCr([c] + rest);
  }

  lemma RenderStep(lines: seq<string>, newline: string, terminated: bool)
    requires |lines| >= 2
    ensures Render(lines, newline, terminated) == lines[0] + (newline + Render(lines[1..], newline, terminated))
  {
  }

  lemma {:induction false} RenderNormalises(lines: seq<string>, newline: string, terminated: bool)
    requires Clean(lines) && (newline == LF || newline == CRLF)
    ensures ReplaceCrLf(Render(lines, newline, terminated)) == Render(lines, LF, terminated)
  {
    var tail := if terminated then newline else "";
    assert newline + "" == newline;
    ReplaceNewline(newline, "");
    if lines == [] {
      assert Render(lines, newline, terminated) == tail;
      assert LF + "" == LF;
    } else if |lines| == 1 {
      ReplaceSkips(lines[0], tail);
      assert LF + "" == LF;
    } else {
      RenderStep(lines, newline, terminated);
      RenderStep(lines, LF, terminated);
      ReplaceSkips(lines[0], newline + Render(lines[1..], newline, terminated));
      ReplaceNewline(newline, Render(lines[1..], newline, terminated));
      RenderNormalises(lines[1..], newline, terminated);
    }
  }

  /** A last empty line without a newline after it does not show. */
  function Visible(lines: seq<string>, terminated: bool): seq<string> {
    if !terminated && lines != [] && lines[|lines| - 1] == "" then lines[..|lines| - 1] else lines
  }

  lemma SplitOne(line: string, terminated: bool)
    requires CleanLine(line)
    ensures SplitLines(Render([line], LF, terminated)) == Visible([line], terminated)
  {
    if terminated {
      SplitStep(line, "");
      assert LF + "" == LF;
    } else {
      SplitLast(line);
      assert line + "" == line;
    }
  }

  lemma VisibleStep(lines: seq<string>, terminated: bool)
    requires |lines| >= 2
    ensures Visible(lines, terminated) == [lines[0]] + Visible(lines[1..], terminated)
  {
  }

  lemma {:induction false} SplitRendered(lines: seq<string>, terminated: bool)
    requires Clean(lines) && (lines == [] ==> !terminated)
    ensures SplitLines(Render(lines, LF, terminated)) == Visible(lines, terminated)
  {
    if |lines| == 1 {
      assert lines == [lines[0]];
      SplitOne(lines[0], terminated);
    } else if lines != [] {
      RenderStep(lines, LF, terminated);
      SplitStep(lines[0], Render(lines[1..], LF, terminated));
      SplitRendered(lines[1..], terminated);
      VisibleStep(lines, terminated);
    }
  }

  /** Rendered text reads back as its lines. */
  lemma LinesOfRendered(lines: seq<string>, newline: string, terminated: bool)
    requires Clean(lines) && (newline == LF || newline == CRLF) && (lines == [] ==> !terminated)
    ensures LinesOf(Render(lines, newline, terminated)) == Visible(lines, terminated)
  {
    RenderNormalises(lines, newline, terminated);
    SplitRendered(lines, terminated);
  }

  lemma {:induction false} RenderedHasNewline(lines: seq<string>, newline: string, terminated: bool)
    requires Clean(lines) && (newline == LF || newline == CRLF) && (lines == [] ==> !terminated)
    ensures Contains(Render(lines, newline, terminated), CRLF) <==> newline == CRLF && (|lines| >= 2 || terminated)
  {
    var text := Render(lines, newline, terminated);
    if |lines| <= 1 {
      var line, tail := if lines == [] then "" else lines[0], if terminated then newline else "";
      assert text == line + tail;
      ContainsAfter(line, tail);
    } else {
      RenderStep(lines, newline, terminated);
      RenderedHasNewline(lines[1..], newline, terminated);
      ContainsAfter(lines[0], newline + Render(lines[1..], newline, terminated));
      var rest := Render(lines[1..], newline, terminated);
      if newline == LF {
        assert (LF + rest)[1..] == rest;
        StartsWithCr(LF + rest);
      }
    }
  }

  lemma StartsWithCr(s: string)
    ensures CRLF <= s ==> |s| >= 2 && s[0] == '\r' && s[1] == '\n'
  {
    assert CRLF[0] == '\r' && CRLF[1] == '\n';
  }

  lemma {:induction false} ContainsAfter(line: string, rest: string)
    requires CleanLine(line)
    ensures Contains(line + rest, CRLF) <==> Contains(rest, CRLF)
  {
    if line == "" {
      assert line + rest == rest;
    } else {
      assert line[0] in line && line[0] != '\r';
      assert (line + rest)[1..] == line[1..] + rest;
      StartsWithCr(line + rest);
      ContainsAfter(line[1..], rest);
    }
  }

  lemma TerminatedByLf(s: string)
    ensures Terminated(s) <==> s != "" && s[|s| - 1] == '\n'
  {
    if s != "" && s[|s| - 1] == '\n' {
      assert s[|s| - 1..] == LF;
    }
    if EndsWith(s, CRLF) {
      assert s[|s| - 2..][1] == '\n';
    }
    if EndsWith(s, LF) {
      assert s[|s| - 1..][0] == '\n';
    }
  }

  lemma RenderedEnd(lines: seq<string>, newline: string, terminated: bool)
    requires Clean(lines) && (newline == LF || newline == CRLF)
    ensures Terminated(Render(lines, newline, terminated))
            <==> terminated || (|lines| >= 2 && lines[|lines| - 1] == "")
  {
    var text := Render(lines, newline, terminated);
    TerminatedByLf(text);
    if terminated {
      assert text[|text| - 1] == newline[|newline| - 1];
    } else {
      assert text == Join(newline, lines);
      if lines != [] {
        JoinedEnd(lines, newline);
      }
    }
  }

  lemma JoinedEnd(lines: seq<string>, newline: string)
    requires Clean(lines) && lines != [] && (newline == LF || newline == CRLF)
    ensures var text := Join(newline, lines);
            (text != "" && text[|text| - 1] == '\n') <==> |lines| >= 2 && lines[|lines| - 1] == ""
  {
    var text, last := Join(newline, lines), lines[|lines| - 1];
    if last != "" {
      JoinEndsWithLast(lines, newline);
      assert last in lines && last[|last| - 1] in last;
      assert text[|text| - 1] == last[|last| - 1];
    } else if |lines| >= 2 {
      JoinSnoc(lines, newline);
      assert text[|text| - 1] == newline[|newline| - 1];
    }
  }

  lemma {:induction false} JoinSnoc(lines: seq<string>, newline: string)
    requires |lines| >= 2
    ensures Join(newline, lines) == Join(newline, lines[..|lines| - 1]) + newline + lines[|lines| - 1]
  {
    var front, last := lines[..|lines| - 1], lines[|lines| - 1];
    if |lines| > 2 {
      JoinSnoc(lines[1..], newline);
      assert lines[1..][..|lines| - 2] == front[1..];
    }
  }

  lemma JoinEndsWithLast(lines: seq<string>, newline: string)
    requires lines != []
    ensures var last := lines[|lines| - 1];
            |last| <= |Join(newline, lines)| && Join(newline, lines)[|Join(newline, lines)| - |last|..] == last
  {
    if |lines| >= 2 {
      JoinSnoc(lines, newline);
    }
  }

  /** A rendered SDP is in normal form: taking it apart and rendering it again, with the
      newline and the ending found in it, changes nothing. */
  lemma RenderIsStable(lines: seq<string>, newline: string, terminated: bool)
    requires Clean(lines) && (newline == LF || newline == CRLF) && (lines == [] ==> !terminated)
    ensures var text := Render(lines, newline, terminated);
            Render(LinesOf(text), NewlineOf(text), Terminated(text)) == text
  {
    var text := Render(lines, newline, terminated);
    LinesOfRendered(lines, newline, terminated);
    RenderedHasNewline(lines, newline, terminated);
    RenderedEnd(lines, newline, terminated);
    if Visible(lines, terminated) != lines && |lines| >= 2 {
      JoinSnoc(lines, newline);
    }
  }
}
