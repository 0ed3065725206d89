/** Normalisation of outgoing text in the channel adapters. */
module OutboundText {
  import opened Wrappers
  import opened Text
  import opened TextSplit

  datatype Flavor = Plain | WhatsApp

  const REASONING := "Reasoning:"

  /** Lines as the language library splits them: a final newline opens no further line. */
  function Lines(s: string): seq<string>
    decreases |s|
  {
    if s == "" then []
    else
      match IndexOf(s, '\n')
      case None => [s]
      case Some(i) => [StripCr(s[..i])] + Lines(s[i + 1..])
  }

  predicate Blank(line: string) {
    Trim(line) == ""
  }

  /** A non-blank line that directly follows a blank one. */
  predicate BodyAt(lines: seq<string>, i: int) {
    0 < i < |lines| && Blank(lines[i - 1]) && !Blank(lines[i])
  }

  /** The first such line, searched from an index on. */
  function BodyStart(lines: seq<string>, from: nat): (r: Option<nat>)
    ensures r.Some? ==> from <= r.value < |lines| && BodyAt(lines, r.value)
    ensures forall i :: from <= i < (if r.Some? then r.value else |lines|) ==> !BodyAt(lines, i)
    decreases |lines| - from
  {
    if from >= |lines| then None
    else if BodyAt(lines, from) then Some(from)
    else BodyStart(lines, from + 1)
  }

  /** What follows the reasoning marker, if the text begins with one. */
  function AfterMarker(text: string): (rest: Option<string>)
    ensures rest.Some? ==> (rest.value != "" ==> !IsWhitespace(rest.value[0]))
  {
    var trimmed := TrimStart(text);
    if REASONING <= trimmed then Some(TrimStart(trimmed[|REASONING|..])) else None
  }

  /** The text begins with a reasoning section and goes on with a body. */
  predicate HasReasoning(text: string) {
    AfterMarker(text).Some? && BodyStart(Lines(AfterMarker(text).value), 1).Some?
  }

  function StripReasoningPrefix(text: string): string {
    match AfterMarker(text)
    case None => text
    case Some(rest) =>
      if rest == "" then text
      else
        match BodyStart(Lines(rest), 1)
        case Some(index) => JoinLines(Lines(rest)[index..])
        case None => text
  }

  function ReplaceCrLf(s: string): string
    decreases |s|
  {
    if s == "" then ""
    else if "\r\n" <= s then "\n" + ReplaceCrLf(s[2..])
    else [s[0]] + ReplaceCrLf(s[1..])
  }

  /** Doubled asterisks and tildes are halved, left to right. */
  function WhatsAppMarkup(s: string): string
    decreases |s|
  {
    if |s| >= 2 && (s[0] == '*' || s[0] == '~') && s[1] == s[0] then [s[0]] + WhatsAppMarkup(s[2..])
    else if s == "" then ""
    else [s[0]] + WhatsAppMarkup(s[1..])
  }

  /** The two ways the conversion advances from a position. */
  lemma MarkupStep(text: string, index: nat, out: string)
    requires index < |text|
    ensures index + 1 < |text| && (text[index] == '*' || text[index] == '~') && text[index + 1] == text[index] ==>
              out + WhatsAppMarkup(text[index..]) == out + [text[index]] + WhatsAppMarkup(text[index + 2..])
    ensures !(index + 1 < |text| && (text[index] == '*' || text[index] == '~') && text[index + 1] == text[index]) ==>
              out + WhatsAppMarkup(text[index..]) == out + [text[index]] + WhatsAppMarkup(text[index + 1..])
  {
    var rest, c := text[index..], [text[index]];
    assert rest[1..] == text[index + 1..];
    if index + 1 < |text| && (text[index] == '*' || text[index] == '~') && text[index + 1] == text[index] {
      assert rest[2..] == text[index + 2..];
      assert out + (c + WhatsAppMarkup(text[index + 2..])) == out + c + WhatsAppMarkup(text[index + 2..]);
    } else {
      assert out + (c + WhatsAppMarkup(text[index + 1..])) == out + c + WhatsAppMarkup(text[index + 1..]);
    }
  }

  method NormalizeWhatsAppText(text: string) returns (out: string)
    ensures out == WhatsAppMarkup(text)
  {
    hide WhatsAppMarkup;
    out := "";
    var index := 0;
    assert text[0..] == text;
    assert "" + WhatsAppMarkup(text) == WhatsAppMarkup(text);
    while index < |text|
      invariant index <= |text|
      invariant WhatsAppMarkup(text) == out + WhatsAppMarkup(text[index..])
    {
      MarkupStep(text, index, out);
      if text[index] == '*' && index + 1 < |text| && text[index + 1] == '*' {
        out := out + ['*'];
        index := index + 2;
        continue;
      }
      if text[index] == '~' && index + 1 < |text| && text[index + 1] == '~' {
        out := out + ['~'];
        index := index + 2;
        continue;
      }
      out := out + [text[index]];
      index := index + 1;
    }
    assert text[index..] == "";
    NoMarkup();
  }

  lemma NoMarkup()
    ensures WhatsAppMarkup("") == ""
  {
  }

  function NormalizeOutbound(text: string, flavor: Flavor): string {
    var normalized := ReplaceCrLf(Trim(StripReasoningPrefix(text)));
    match flavor
    case Plain => normalized
    case WhatsApp => WhatsAppMarkup(normalized)
  }

  function Repeat(c: char, n: nat): (s: string)
    ensures |s| == n
  {
    if n == 0 then "" else [c] + Repeat(c, n - 1)
  }

  /** A maximal run of n markers becomes a run of half as many, rounded up. */
  lemma {:induction false} WhatsAppHalvesRuns(c: char, n: nat, rest: string)
    requires (c == '*' || c == '~') && (rest != "" ==> rest[0] != c)
    ensures WhatsAppMarkup(Repeat(c, n) + rest) == Repeat(c, (n + 1) / 2) + WhatsAppMarkup(rest)
    decreases n
  {
    hide WhatsAppMarkup;
    var marked := WhatsAppMarkup(rest);
    if n == 0 {
      assert "" + rest == rest && "" + marked == marked;
    } else if n == 1 {
      assert Repeat(c, 1) == [c];
      MarkupSingle(c, rest);
    } else {
      var fewer := Repeat(c, n - 2);
      assert Repeat(c, n) + rest == [c, c] + (fewer + rest) by {
        assert Repeat(c, n) == [c] + ([c] + fewer);
      }
      MarkupPair(c, fewer + rest);
      WhatsAppHalvesRuns(c, n - 2, rest);
      var half := Repeat(c, (n - 2 + 1) / 2);
      assert Repeat(c, (n + 1) / 2) == [c] + half;
      assert [c] + (half + marked) == [c] + half + marked;
    }
  }

  lemma MarkupPair(c: char, tail: string)
    requires c == '*' || c == '~'
    ensures WhatsAppMarkup([c, c] + tail) == [c] + WhatsAppMarkup(tail)
  {
    assert ([c, c] + tail)[2..] == tail;
  }

  lemma MarkupSingle(c: char, tail: string)
    requires tail != "" ==> tail[0] != c
    ensures WhatsAppMarkup([c] + tail) == [c] + WhatsAppMarkup(tail)
  {
    assert ([c] + tail)[1..] == tail;
  }

  lemma {:induction false} ReplacedStart(s: string)
    ensures "\n" <= ReplaceCrLf(s) <==> "\n" <= s || "\r\n" <= s
  {
  }

  lemma ContainsUnfolds(s: string, pattern: string)
    requires s != ""
    ensures Contains(s, pattern) <==> pattern <= s || Contains(s[1..], pattern)
  {
  }

  /** A carriage return before a newline survives exactly where two of them stood: the replacement is not repeated. */
  lemma {:induction false} CrLfSurvives(s: string)
    ensures Contains(ReplaceCrLf(s), "\r\n") <==> Contains(s, "\r\r\n")
    decreases |s|
  {
    hide Contains;
    if s == "" {
      NothingContained("\r\n");
      NothingContained("\r\r\n");
    } else {
      var r := ReplaceCrLf(s);
      ContainsUnfolds(s, "\r\r\n");
      ContainsUnfolds(r, "\r\n");
      if "\r\n" <= s {
        assert r[1..] == ReplaceCrLf(s[2..]) && r[0] == '\n';
        CrLfSurvives(s[2..]);
        var t := s[1..];
        ContainsUnfolds(t, "\r\r\n");
        assert t[1..] == s[2..] && t[0] == s[1] == '\n';
        assert !("\r\r\n" <= s) && !("\r\r\n" <= t) && !("\r\n" <= r);
      } else {
        assert r[1..] == ReplaceCrLf(s[1..]) && r[0] == s[0];
        CrLfSurvives(s[1..]);
        ReplacedStart(s[1..]);
        assert "\r\n" <= r <==> s[0] == '\r' && "\n" <= r[1..];
        assert "\r\r\n" <= s <==> s[0] == '\r' && "\r\n" <= s[1..];
        assert s[0] == '\r' ==> !("\n" <= s[1..]);
      }
    }
  }

  lemma NothingContained(pattern: string)
    requires pattern != ""
    ensures !Contains("", pattern)
  {
  }

  // ----- normalisation never lengthens a text

  lemma {:induction false} JoinLength(lines: seq<string>, k: nat)
    requires k <= |lines|
    ensures |JoinLines(lines[k..])| <= |JoinLines(lines)|
  {
    if k > 0 {
      JoinLength(lines[1..], k - 1);
      assert lines[1..][k - 1..] == lines[k..];
      assert |lines| == 1 ==> lines[1..] == [];
    } else {
      assert lines[0..] == lines;
    }
  }

  lemma {:induction false} JoinOfLinesLength(s: string)
    ensures |JoinLines(Lines(s))| <= |s|
    decreases |s|
  {
    if s == "" {
    } else {
      match IndexOf(s, '\n')
      case None =>
      case Some(i) =>
        JoinOfLinesLength(s[i + 1..]);
        assert Lines(s)[1..] == Lines(s[i + 1..]);
    }
  }

  lemma {:induction false} ReplaceLength(s: string)
    ensures |ReplaceCrLf(s)| <= |s|
    decreases |s|
  {
    if s == "" {
    } else if "\r\n" <= s {
      ReplaceLength(s[2..]);
    } else {
      ReplaceLength(s[1..]);
    }
  }

  lemma {:induction false} WhatsAppLength(s: string)
    ensures |WhatsAppMarkup(s)| <= |s|
    decreases |s|
  {
    if |s| >= 2 && (s[0] == '*' || s[0] == '~') && s[1] == s[0] {
      WhatsAppLength(s[2..]);
    } else if s != "" {
      WhatsAppLength(s[1..]);
    }
  }

  lemma StripReasoningLength(text: string)
    ensures |StripReasoningPrefix(text)| <= |text|
  {
    hide Lines, BodyStart, TrimStart;
    var after := AfterMarker(text);
    if after.Some? {
      JoinOfLinesLength(after.value);
      var start := BodyStart(Lines(after.value), 1);
      if start.Some? { JoinLength(Lines(after.value), start.value); }
    }
  }

  /** For every text and flavour; and a blank text becomes empty. */
  lemma NormalizeNeverLengthens(text: string, flavor: Flavor)
    ensures |NormalizeOutbound(text, flavor)| <= |text|
    ensures AllWhitespace(text) ==> NormalizeOutbound(text, flavor) == ""
  {
    hide StripReasoningPrefix, ReplaceCrLf, WhatsAppMarkup, TrimStart, TrimEnd;
    StripReasoningLength(text);
    var trimmed := Trim(StripReasoningPrefix(text));
    ReplaceLength(trimmed);
    WhatsAppLength(ReplaceCrLf(trimmed));
    if AllWhitespace(text) { BlankHasNoPrefix(text); }
  }

  lemma {:induction false} BlankTrimsAway(text: string)
    requires AllWhitespace(text)
    ensures TrimStart(text) == ""
  {
    if text == "" {
    } else {
      BlankTrimsAway(text[1..]);
    }
  }

  lemma BlankHasNoPrefix(text: string)
    requires AllWhitespace(text)
    ensures StripReasoningPrefix(text) == text
  {
    BlankTrimsAway(text);
  }

  // ----- what is stripped

  /** A line as text between newlines; the last one is not empty, so that no newline ends the text. */
  predicate TextLines(lines: seq<string>) {
    && lines != [] && lines[|lines| - 1] != ""
    && forall i :: 0 <= i < |lines| ==> '\n' !in lines[i] && (lines[i] != "" ==> lines[i][|lines[i]| - 1] != '\r')
  }

  lemma {:induction false} LinesOfJoin(lines: seq<string>)
    requires TextLines(lines)
    ensures Lines(JoinLines(lines)) == lines
  {
    var text, first := JoinLines(lines), lines[0];
    if |lines| == 1 {
      assert lines == [first];
    } else {
      var rest := lines[1..];
      assert forall i :: 0 <= i < |rest| ==> rest[i] == lines[i + 1];
      LinesOfJoin(rest);
      assert text == first + "\n" + JoinLines(rest);
      assert text[..|first|] == first && text[|first| + 1..] == JoinLines(rest);
      IndexOfIs(text, '\n', |first|);
      assert StripCr(first) == first;
      hide JoinLines;
      assert Lines(text) == [first] + Lines(text[|first| + 1..]);
    }
  }

  /** The first non-blank line directly after a blank one, or the number of lines if there is none. */
  predicate BodyBegins(lines: seq<string>, k: nat) {
    && 0 < k <= |lines|
    && (k < |lines| ==> AllWhitespace(lines[k - 1]) && !AllWhitespace(lines[k]))
    && forall i :: 0 < i < k && i < |lines| ==> !AllWhitespace(lines[i - 1]) || AllWhitespace(lines[i])
  }

  lemma BodyStartIs(lines: seq<string>, k: nat)
    requires BodyBegins(lines, k)
    ensures BodyStart(lines, 1) == if k < |lines| then Some(k) else None
  {
    hide Trim, BodyStart;
    assert forall line: string :: Blank(line) <==> AllWhitespace(line) by {
      forall line: string ensures Blank(line) <==> AllWhitespace(line) { assert Trim(line) == "" <==> AllWhitespace(line); }
    }
    hide Blank, AllWhitespace;
    var r := BodyStart(lines, 1);
    assert k < |lines| ==> BodyAt(lines, k);
    assert forall i :: 0 < i < k && i < |lines| ==> !BodyAt(lines, i);
  }

  lemma MarkerIsVisible()
    ensures |REASONING| == 10 && REASONING[0] == 'R' && forall i :: 0 <= i < |REASONING| ==> !IsWhitespace(REASONING[i])
  {
  }

  lemma MarkerThenText(lead: string, gap: string, rest: string)
    requires AllWhitespace(lead) && AllWhitespace(gap) && rest != "" && !IsWhitespace(rest[0])
    ensures AfterMarker(lead + (REASONING + (gap + rest))) == Some(rest)
  {
    var tail := gap + rest;
    var text := REASONING + tail;
    TrimStartSkips(lead, text);
    MarkerIsVisible();
    assert text[0] == REASONING[0] && TrimStart(text) == text;
    assert text[|REASONING|..] == tail;
    TrimStartSkips(gap, rest);
    hide TrimStart, IsWhitespace;
    assert REASONING <= text;
  }

  /** Of a text that begins with the marker, the lines from the first non-blank one after a blank one are kept, and the
      whole text if there is none. */
  lemma SectionIsDropped(lead: string, gap: string, lines: seq<string>, k: nat)
    requires AllWhitespace(lead) && AllWhitespace(gap)
    requires TextLines(lines) && lines[0] != "" && !IsWhitespace(lines[0][0]) && BodyBegins(lines, k)
    ensures var text := lead + ("Reasoning:" + (gap + JoinLines(lines)));
            StripReasoningPrefix(text) == if k < |lines| then JoinLines(lines[k..]) else text
  {
    var rest := JoinLines(lines);
    assert rest != "" && rest[0] == lines[0][0] by { JoinStarts(lines); }
    MarkerThenText(lead, gap, rest);
    LinesOfJoin(lines);
    BodyStartIs(lines, k);
    hide AfterMarker, Lines, BodyStart, JoinLines, TextLines, BodyBegins;
  }

  lemma JoinStarts(lines: seq<string>)
    requires lines != [] && lines[0] != ""
    ensures JoinLines(lines) != "" && JoinLines(lines)[0] == lines[0][0]
  {
  }

  // ----- the WhatsApp flavour

  predicate MarkerFree(s: string) {
    '*' !in s && '~' !in s
  }

  /** Text without markers is passed over. */
  lemma {:induction false} MarkupSkips(body: string, rest: string)
    requires MarkerFree(body)
    ensures WhatsAppMarkup(body + rest) == body + WhatsAppMarkup(rest)
    decreases |body|
  {
    if body == "" {
      assert body + rest == rest;
      assert "" + WhatsAppMarkup(rest) == WhatsAppMarkup(rest);
    } else {
      var tail := body[1..];
      assert (body + rest)[1..] == tail + rest && (body + rest)[0] == body[0];
      assert WhatsAppMarkup(body + rest) == [body[0]] + WhatsAppMarkup(tail + rest);
      hide WhatsAppMarkup;
      MarkupSkips(tail, rest);
      assert [body[0]] + (tail + WhatsAppMarkup(rest)) == body + WhatsAppMarkup(rest);
    }
  }

  /** The flavours differ by the markup alone: if the plain normal form is a text set off by n markers on either side,
      the WhatsApp form is the same text set off by half as many, rounded up. */
  lemma WhatsAppEmphasis(text: string, c: char, n: nat, body: string)
    requires (c == '*' || c == '~') && MarkerFree(body) && body != ""
    requires NormalizeOutbound(text, Plain) == Repeat(c, n) + (body + Repeat(c, n))
    ensures NormalizeOutbound(text, WhatsApp) == Repeat(c, (n + 1) / 2) + (body + Repeat(c, (n + 1) / 2))
  {
    hide StripReasoningPrefix, ReplaceCrLf, WhatsAppMarkup, Repeat;
    WhatsAppHalvesRuns(c, n, body + Repeat(c, n));
    MarkupSkips(body, Repeat(c, n));
    WhatsAppHalvesRuns(c, n, "");
    assert Repeat(c, n) + "" == Repeat(c, n);
    NoMarkup();
    assert Repeat(c, (n + 1) / 2) + "" == Repeat(c, (n + 1) / 2);
  }

  /** A text without markers is the same in both flavours. */
  lemma WhatsAppPlain(text: string)
    requires MarkerFree(NormalizeOutbound(text, Plain))
    ensures NormalizeOutbound(text, WhatsApp) == NormalizeOutbound(text, Plain)
  {
    hide StripReasoningPrefix, ReplaceCrLf, WhatsAppMarkup;
    var body := NormalizeOutbound(text, Plain);
    MarkupSkips(body, "");
    NoMarkup();
    assert body + "" == body;
  }

  // ----- which texts lose visible characters

  lemma {:induction false} ReplaceKeepsVisible(s: string)
    ensures NonWhitespace(ReplaceCrLf(s)) == NonWhitespace(s)
    decreases |s|
  {
    if s == "" {
    } else if "\r\n" <= s {
      ReplaceKeepsVisible(s[2..]);
      assert s[1..][1..] == s[2..];
      NonWhitespaceConcat("\n", ReplaceCrLf(s[2..]));
    } else {
      ReplaceKeepsVisible(s[1..]);
      assert ([s[0]] + ReplaceCrLf(s[1..]))[1..] == ReplaceCrLf(s[1..]);
    }
  }

  lemma StripCrKeepsVisible(line: string)
    ensures NonWhitespace(StripCr(line)) == NonWhitespace(line)
  {
    var kept := StripCr(line);
    assert line == kept + line[|kept|..];
    NonWhitespaceConcat(kept, line[|kept|..]);
    BlankHasNothing(line[|kept|..]);
  }

  lemma LineThenRest(line: string, rest: string)
    ensures NonWhitespace(line + "\n" + rest) == NonWhitespace(StripCr(line)) + NonWhitespace(rest)
  {
    hide StripCr;
    StripCrKeepsVisible(line);
    NonWhitespaceConcat(line + "\n", rest);
    NonWhitespaceConcat(line, "\n");
    BlankHasNothing("\n");
    hide NonWhitespace;
  }

  /** The visible characters of a text are those of its lines. */
  lemma {:induction false} LinesKeepVisible(s: string)
    ensures AllNonWhitespace(Lines(s)) == NonWhitespace(s)
    decreases |s|
  {
    hide NonWhitespace, StripCr;
    if s == "" {
      BlankHasNothing("");
    } else {
      match IndexOf(s, '\n')
      case None =>
        Whole(s);
      case Some(i) =>
        LinesKeepVisible(s[i + 1..]);
        assert Lines(s) == [StripCr(s[..i])] + Lines(s[i + 1..]);
        hide Lines;
        assert s == s[..i] + "\n" + s[i + 1..];
        LineThenRest(s[..i], s[i + 1..]);
    }
  }

  lemma {:induction false} JoinKeepsVisible(lines: seq<string>)
    ensures NonWhitespace(JoinLines(lines)) == AllNonWhitespace(lines)
  {
    if lines == [] {
    } else if |lines| == 1 {
      Whole(lines[0]);
      assert lines == [lines[0]];
    } else {
      JoinKeepsVisible(lines[1..]);
      var tail := JoinLines(lines[1..]);
      NonWhitespaceConcat(lines[0] + "\n", tail);
      NonWhitespaceConcat(lines[0], "\n");
      BlankHasNothing("\n");
    }
  }

  lemma {:induction false} FewerLinesShowLess(lines: seq<string>, k: nat)
    requires k <= |lines|
    ensures |AllNonWhitespace(lines[k..])| <= |AllNonWhitespace(lines)|
  {
    if k == 0 {
      assert lines[0..] == lines;
    } else {
      FewerLinesShowLess(lines[1..], k - 1);
      assert lines[1..][k - 1..] == lines[k..];
    }
  }

  lemma {:induction false} AllVisible(s: string)
    requires forall i :: 0 <= i < |s| ==> !IsWhitespace(s[i])
    ensures NonWhitespace(s) == s
  {
    if s == "" {
    } else {
      AllVisible(s[1..]);
    }
  }

  lemma DroppingAMarkerShowsLess(text: string, marker: string)
    requires marker <= TrimStart(text) && marker != "" && forall i :: 0 <= i < |marker| ==> !IsWhitespace(marker[i])
    ensures |NonWhitespace(TrimStart(TrimStart(text)[|marker|..]))| < |NonWhitespace(text)|
  {
    hide NonWhitespace, TrimStart;
    var trimmed := TrimStart(text);
    var tail := trimmed[|marker|..];
    TrimStartKeepsContent(text);
    TrimStartKeepsContent(tail);
    assert trimmed == marker + tail;
    NonWhitespaceConcat(marker, tail);
    AllVisible(marker);
  }

  lemma AfterMarkerShowsLess(text: string)
    requires AfterMarker(text).Some?
    ensures |NonWhitespace(AfterMarker(text).value)| < |NonWhitespace(text)|
  {
    hide NonWhitespace, TrimStart, IsWhitespace;
    MarkerIsVisible();
    DroppingAMarkerShowsLess(text, REASONING);
  }

  /** Stripping acts exactly on texts with a reasoning section before a body, and always takes visible characters. */
  lemma StripShowsLess(text: string)
    ensures !HasReasoning(text) ==> StripReasoningPrefix(text) == text
    ensures HasReasoning(text) ==> |NonWhitespace(StripReasoningPrefix(text))| < |NonWhitespace(text)|
  {
    hide NonWhitespace, AllNonWhitespace, AfterMarker, BodyStart;
    if HasReasoning(text) {
      var rest := AfterMarker(text).value;
      var lines, index := Lines(rest), BodyStart(Lines(rest), 1).value;
      assert rest != "";
      hide Lines;
      AfterMarkerShowsLess(text);
      LinesKeepVisible(rest);
      FewerLinesShowLess(lines, index);
      JoinKeepsVisible(lines[index..]);
    }
  }

  /** The normal form shows the same visible characters exactly if no reasoning section was stripped, and fewer otherwise. */
  lemma NormalFormShows(text: string)
    ensures !HasReasoning(text) ==> NonWhitespace(NormalizeOutbound(text, Plain)) == NonWhitespace(text)
    ensures HasReasoning(text) ==> |NonWhitespace(NormalizeOutbound(text, Plain))| < |NonWhitespace(text)|
  {
    hide NonWhitespace, StripReasoningPrefix, ReplaceCrLf, HasReasoning, Trim;
    var stripped := StripReasoningPrefix(text);
    StripShowsLess(text);
    TrimKeepsContent(stripped);
    ReplaceKeepsVisible(Trim(stripped));
  }

  function NormalForms(texts: seq<string>): (forms: seq<string>)
    ensures |forms| == |texts| && forall i :: 0 <= i < |texts| ==> forms[i] == NormalizeOutbound(texts[i], Plain)
  {
    seq(|texts|, i requires 0 <= i < |texts| => NormalizeOutbound(texts[i], Plain))
  }

  /** Texts shown one after the other in their normal forms keep all visible characters if and only if none of them
      begins with a reasoning section before a body. */
  lemma NormalFormsShow(texts: seq<string>)
    ensures AllNonWhitespace(NormalForms(texts)) == AllNonWhitespace(texts) <==>
              forall i :: 0 <= i < |texts| ==> !HasReasoning(texts[i])
  {
    NormalFormsShowSome(texts);
  }

  lemma {:induction false} NormalFormsShowSome(texts: seq<string>)
    ensures |AllNonWhitespace(NormalForms(texts))| <= |AllNonWhitespace(texts)|
    ensures if forall i :: 0 <= i < |texts| ==> !HasReasoning(texts[i])
            then AllNonWhitespace(NormalForms(texts)) == AllNonWhitespace(texts)
            else |AllNonWhitespace(NormalForms(texts))| < |AllNonWhitespace(texts)|
  {
    hide NonWhitespace, NormalizeOutbound, HasReasoning;
    if texts == [] {
    } else {
      var tail := texts[1..];
      assert NormalForms(texts)[1..] == NormalForms(tail);
      NormalFormsShowSome(tail);
      NormalFormShows(texts[0]);
      assert forall i :: 0 <= i < |tail| ==> tail[i] == texts[i + 1];
      assert forall i :: 0 < i < |texts| ==> texts[i] == tail[i - 1];
    }
  }
}

/** The Discord adapter: its own re-split of over-long texts, and what it posts. */
module Discord {
  import opened Wrappers
  import opened Text
  import opened Channel
  import opened Outbound
  import opened OutboundText
  import opened OutboundSplit
  import opened TextSplit

  const DISCORD_MESSAGE_LIMIT: nat := 2000

  function LastIndexOf(s: string, c: char): (r: Option<nat>)
    ensures r.Some? ==> r.value < |s| && s[r.value] == c && c !in s[r.value + 1..]
    ensures r.None? ==> c !in s
  {
    if s == "" then None
    else if s[|s| - 1] == c then Some(|s| - 1)
    else
      var r := LastIndexOf(s[..|s| - 1], c);
      assert s == s[..|s| - 1] + [s[|s| - 1]];
      assert r.Some? ==> s[r.value + 1..] == s[..|s| - 1][r.value + 1..] + [s[|s| - 1]];
      r
  }

  /** A chunk ends after the last newline within reach, or is full if there is none. */
  function ChunkEnd(text: string, limit: nat): (end: nat)
    requires 0 < limit < |text|
    ensures 0 < end <= limit
    ensures (text[end - 1] == '\n' && '\n' !in text[end..limit]) || (end == limit && '\n' !in text[..limit])
  {
    match LastIndexOf(text[..limit], '\n')
    case Some(i) =>
      assert text[..limit][i + 1..] == text[i + 1..limit];
      i + 1
    case None => limit
  }

  function ChunksOf(text: string, limit: nat): (chunks: seq<string>)
    requires limit > 0
    decreases |text|
  {
    if |text| <= limit then [text]
    else [text[..ChunkEnd(text, limit)]] + ChunksOf(text[ChunkEnd(text, limit)..], limit)
  }

  /** Lossless, within the limit, and empty only for the empty text. */
  lemma {:induction false} ChunksAreSound(text: string, limit: nat)
    requires limit > 0
    ensures Flatten(ChunksOf(text, limit)) == text
    ensures forall chunk :: chunk in ChunksOf(text, limit) ==> |chunk| <= limit && (chunk == "" ==> text == "")
    decreases |text|
  {
    hide ChunkEnd;
    if |text| <= limit {
      assert [text][1..] == [];
    } else {
      var end := ChunkEnd(text, limit);
      ChunksAreSound(text[end..], limit);
      assert ChunksOf(text, limit)[1..] == ChunksOf(text[end..], limit);
    }
  }

  /** A limit of zero would never advance. */
  method ChunkDiscordText(text: string, limit: nat) returns (chunks: seq<string>)
    requires limit > 0
    ensures chunks == ChunksOf(text, limit)
    ensures Flatten(chunks) == text
    ensures forall chunk :: chunk in chunks ==> |chunk| <= limit && (chunk == "" ==> text == "")
  {
    if |text| <= limit {
      ChunksAreSound(text, limit);
      return [text];
    }
    hide ChunksOf, ChunkEnd, Flatten, LastIndexOf;
    chunks := [];
    var start := 0;
    assert text[0..] == text;
    while start < |text|
      invariant 0 <= start < |text| && chunks + ChunksOf(text[start..], limit) == ChunksOf(text, limit)
      decreases |text| - start
    {
      var end := if start + limit < |text| then start + limit else |text|;
      if end == |text| {
        LastChunk(text, limit, start);
        chunks := chunks + [text[start..end]];
        break;
      }
      var slice := text[start..end];
      var newline := LastIndexOf(slice, '\n');
      var splitAt := if newline.Some? then start + newline.value + 1 else end;
      ChunkEndIs(text, limit, start);
      NextChunk(text, limit, start, splitAt, chunks);
      chunks := chunks + [text[start..splitAt]];
      start := splitAt;
    }
    ChunksAreSound(text, limit);
  }

  lemma LastChunk(text: string, limit: nat, start: nat)
    requires limit > 0 && start <= |text| <= start + limit
    ensures ChunksOf(text[start..], limit) == [text[start..|text|]]
  {
    assert text[start..] == text[start..|text|];
  }

  lemma ChunkEndIs(text: string, limit: nat, start: nat)
    requires limit > 0 && start + limit < |text|
    ensures var newline := LastIndexOf(text[start..start + limit], '\n');
            start + ChunkEnd(text[start..], limit) == if newline.Some? then start + newline.value + 1 else start + limit
  {
    hide LastIndexOf;
    assert text[start..][..limit] == text[start..start + limit];
  }

  lemma NextChunk(text: string, limit: nat, start: nat, splitAt: nat, chunks: seq<string>)
    requires limit > 0 && start + limit < |text| && start < splitAt <= start + limit
    requires splitAt == start + ChunkEnd(text[start..], limit)
    ensures chunks + ChunksOf(text[start..], limit) == chunks + [text[start..splitAt]] + ChunksOf(text[splitAt..], limit)
  {
    hide ChunkEnd;
    var rest, cut := text[start..], splitAt - start;
    assert rest[..cut] == text[start..splitAt] && rest[cut..] == text[splitAt..];
    assert ChunksOf(rest, limit) == [rest[..cut]] + ChunksOf(rest[cut..], limit);
  }

  // ----- one call of the adapter

  datatype Post = Post(channelId: string, content: string, replyTo: Option<string>, attachments: seq<Attachment>)

  /** The text is brought to its normal form again when the request body is built. */
  function PostOf(msg: OutboundMessage): Post {
    Post(if msg.threadId.Some? then msg.threadId.value else msg.to,
         NormalizeOutbound(msg.text, Plain), msg.replyTo, msg.attachments)
  }

  /** The server: an arbitrary reaction to everything posted so far. */
  class Server {
    const reaction: seq<Post> -> SendOutcome
    var posts: seq<Post>

    constructor (reaction: seq<Post> -> SendOutcome)
      ensures this.reaction == reaction && posts == []
    {
      this.reaction, posts := reaction, [];
    }

    method SendSingle(msg: OutboundMessage) returns (outcome: SendOutcome)
      modifies this
      ensures posts == old(posts) + [PostOf(msg)] && outcome == reaction(posts)
    {
      posts := posts + [PostOf(msg)];
      outcome := reaction(posts);
    }
  }

  predicate Resplit(msg: OutboundMessage) {
    msg.attachments == [] && |NormalizeOutbound(msg.text, Plain)| > DISCORD_MESSAGE_LIMIT
  }

  /** The texts of one message before the request bodies are built. */
  function TextsToSend(msg: OutboundMessage): (texts: seq<string>)
    ensures texts != []
  {
    if Resplit(msg) then ChunksOf(NormalizeOutbound(msg.text, Plain), DISCORD_MESSAGE_LIMIT) else [msg.text]
  }

  /** All posts of one message: only the first is a reply. */
  function PostsOf(msg: OutboundMessage): (posts: seq<Post>)
    ensures |posts| == |TextsToSend(msg)|
  {
    var texts := TextsToSend(msg);
    seq(|texts|, i requires 0 <= i < |texts| =>
      PostOf(msg.(text := texts[i], replyTo := if i == 0 then msg.replyTo else None)))
  }

  function Contents(posts: seq<Post>): (contents: seq<string>)
    ensures |contents| == |posts| && forall i :: 0 <= i < |posts| ==> contents[i] == posts[i].content
  {
    seq(|posts|, i requires 0 <= i < |posts| => posts[i].content)
  }

  /** The first n of a list of posts went out, and all of them but the last were accepted. */
  predicate Sending(reaction: seq<Post> -> SendOutcome, before: seq<Post>, after: seq<Post>, posts: seq<Post>, n: nat) {
    && n <= |posts| && after == before + posts[..n]
    && forall k :: 1 <= k < n ==> reaction(before + posts[..k]).Sent?
  }

  /** Posting stopped at the first post that was not accepted, or after the last one, with the outcome of that post. */
  predicate Posted(reaction: seq<Post> -> SendOutcome, before: seq<Post>, after: seq<Post>, posts: seq<Post>, n: nat,
                   outcome: SendOutcome) {
    && n > 0 && Sending(reaction, before, after, posts, n)
    && outcome == reaction(after) && (n == |posts| || !outcome.Sent?)
  }

  lemma SendingStarts(reaction: seq<Post> -> SendOutcome, before: seq<Post>, posts: seq<Post>)
    ensures Sending(reaction, before, before, posts, 0)
  {
  }

  lemma SendingNext(reaction: seq<Post> -> SendOutcome, before: seq<Post>, after: seq<Post>, posts: seq<Post>, n: nat)
    requires Sending(reaction, before, after, posts, n) && n < |posts| && (n > 0 ==> reaction(after).Sent?)
    ensures Sending(reaction, before, after + [posts[n]], posts, n + 1)
  {
    assert posts[..n + 1] == posts[..n] + [posts[n]];
    assert before + posts[..n] + [posts[n]] == before + (posts[..n] + [posts[n]]);
  }

  /** A threaded message goes to its thread and any other to its recipient, its attachments with it, and only the first
      post answers a message. */
  predicate Targeted(posts: seq<Post>, msg: OutboundMessage) {
    forall i :: 0 <= i < |posts| ==>
      posts[i].channelId == (if msg.threadId.Some? then msg.threadId.value else msg.to) &&
      posts[i].attachments == msg.attachments && posts[i].replyTo == (if i == 0 then msg.replyTo else None)
  }

  lemma PostsAreTargeted(msg: OutboundMessage, n: nat)
    requires n <= |PostsOf(msg)|
    ensures Targeted(PostsOf(msg)[..n], msg)
  {
    hide NormalizeOutbound, ChunksOf;
  }

  method Send(server: Server, msg: OutboundMessage) returns (outcome: SendOutcome, ghost n: nat)
    modifies server
    ensures Posted(server.reaction, old(server.posts), server.posts, PostsOf(msg), n, outcome)
    ensures old(server.posts) <= server.posts && Targeted(server.posts[|old(server.posts)|..], msg)
  {
    ghost var before := server.posts;
    outcome, n := SendAll(server, msg);
    PostsAreTargeted(msg, n);
    hide PostsOf, Targeted;
    assert server.posts[|before|..] == PostsOf(msg)[..n];
  }

  /** The branch between one post and many. */
  method SendAll(server: Server, msg: OutboundMessage) returns (outcome: SendOutcome, ghost n: nat)
    modifies server
    ensures Posted(server.reaction, old(server.posts), server.posts, PostsOf(msg), n, outcome)
  {
    hide NormalizeOutbound, ChunksOf, Sending;
    if msg.attachments == [] {
      var text := NormalizeOutbound(msg.text, Plain);
      if |text| > DISCORD_MESSAGE_LIMIT {
        var chunks := ChunkDiscordText(text, DISCORD_MESSAGE_LIMIT);
        outcome, n := SendChunks(server, msg, chunks);
        return;
      }
    }
    SendingStarts(server.reaction, server.posts, PostsOf(msg));
    SendingNext(server.reaction, server.posts, server.posts, PostsOf(msg), 0);
    outcome := server.SendSingle(msg);
    n := 1;
  }

  /** The loop over the chunks. */
  method SendChunks(server: Server, msg: OutboundMessage, chunks: seq<string>) returns (outcome: SendOutcome, ghost n: nat)
    requires Resplit(msg) && chunks == TextsToSend(msg)
    modifies server
    ensures Posted(server.reaction, old(server.posts), server.posts, PostsOf(msg), n, outcome)
  {
    hide PostsOf, TextsToSend, Resplit, PostOf, Sending;
    ghost var before, posts := server.posts, PostsOf(msg);
    outcome := Failed("no chunks to send");
    n := 0;
    SendingStarts(server.reaction, before, posts);
    for i := 0 to |chunks|
      invariant n == i && Sending(server.reaction, before, server.posts, posts, i)
      invariant i > 0 ==> outcome == server.reaction(server.posts) && outcome.Sent?
    {
      var chunkMsg := msg.(text := chunks[i]);
      if i > 0 {
        chunkMsg := chunkMsg.(replyTo := None);
      }
      PostAt(msg, i);
      SendingNext(server.reaction, before, server.posts, posts, i);
      outcome := server.SendSingle(chunkMsg);
      n := n + 1;
      if !outcome.Sent? {
        return;
      }
    }
  }

  lemma PostAt(msg: OutboundMessage, i: nat)
    requires i < |PostsOf(msg)|
    ensures PostsOf(msg)[i] == PostOf(msg.(text := TextsToSend(msg)[i], replyTo := if i == 0 then msg.replyTo else None))
  {
    hide PostOf, TextsToSend;
  }

  lemma ContentsAreNormalForms(msg: OutboundMessage)
    ensures Contents(PostsOf(msg)) == NormalForms(TextsToSend(msg))
  {
    hide NormalizeOutbound, ChunksOf;
  }

  lemma LongTextsAreCut(text: string, limit: nat)
    requires 0 < limit < |text|
    ensures |ChunksOf(text, limit)| > 1
  {
    hide ChunkEnd;
    var rest := text[ChunkEnd(text, limit)..];
    assert |ChunksOf(rest, limit)| > 0;
  }

  /** Every post fits the server's limit, except that the text of a message with attachments is never cut; and a message
      is cut only where it has to be. */
  lemma PostsFit(msg: OutboundMessage)
    ensures (forall i :: 0 <= i < |PostsOf(msg)| ==> |PostsOf(msg)[i].content| <= 2000) <==>
              msg.attachments == [] || |NormalizeOutbound(msg.text, Plain)| <= 2000
    ensures |PostsOf(msg)| == 1 <==> msg.attachments != [] || |NormalizeOutbound(msg.text, Plain)| <= 2000
  {
    hide NormalizeOutbound, ChunksOf;
    var texts := TextsToSend(msg);
    if Resplit(msg) {
      LongTextsAreCut(NormalizeOutbound(msg.text, Plain), DISCORD_MESSAGE_LIMIT);
      ChunksAreSound(NormalizeOutbound(msg.text, Plain), DISCORD_MESSAGE_LIMIT);
      forall i | 0 <= i < |texts| ensures |PostsOf(msg)[i].content| <= DISCORD_MESSAGE_LIMIT {
        assert texts[i] in texts;
        NormalizeNeverLengthens(texts[i], Plain);
      }
    } else {
      assert PostsOf(msg)[0].content == NormalizeOutbound(msg.text, Plain);
    }
  }

  lemma {:induction false} FlattenShowsAll(texts: seq<string>)
    ensures NonWhitespace(Flatten(texts)) == AllNonWhitespace(texts)
  {
    if texts == [] {
    } else {
      FlattenShowsAll(texts[1..]);
      NonWhitespaceConcat(texts[0], Flatten(texts[1..]));
    }
  }

  /** The posts show all visible characters of the normal form if and only if it is not cut, or no chunk of it begins
      with a reasoning section before a body: such a chunk loses the section when its request is built. */
  lemma VisibleTextSurvives(msg: OutboundMessage)
    ensures AllNonWhitespace(Contents(PostsOf(msg))) == NonWhitespace(NormalizeOutbound(msg.text, Plain)) <==>
              !Resplit(msg) || forall i :: 0 <= i < |TextsToSend(msg)| ==> !HasReasoning(TextsToSend(msg)[i])
  {
    hide NormalizeOutbound, ChunksOf, NonWhitespace, AllNonWhitespace, HasReasoning;
    var text := NormalizeOutbound(msg.text, Plain);
    ContentsAreNormalForms(msg);
    if Resplit(msg) {
      ChunksAreSound(text, DISCORD_MESSAGE_LIMIT);
      FlattenShowsAll(ChunksOf(text, DISCORD_MESSAGE_LIMIT));
      NormalFormsShow(TextsToSend(msg));
    } else {
      assert Contents(PostsOf(msg)) == [text];
      Whole(text);
    }
  }

  lemma {:induction false} NothingToReplace(s: string)
    requires '\r' !in s
    ensures ReplaceCrLf(s) == s
  {
    if s == "" {
    } else {
      NothingToReplace(s[1..]);
      assert s == [s[0]] + s[1..];
    }
  }

  lemma {:induction false} RepeatIs(c: char, n: nat)
    ensures forall i :: 0 <= i < n ==> Repeat(c, n)[i] == c
  {
    if n == 0 {
    } else {
      RepeatIs(c, n - 1);
    }
  }

  lemma OtherStart(marker: string, s: string)
    requires marker != "" && s != "" && marker[0] != s[0]
    ensures !(marker <= s)
  {
  }

  lemma NoMarker(s: string)
    requires s != "" && s[0] == 'a'
    ensures AfterMarker(s) == None
  {
    assert TrimStart(s) == s;
    hide TrimStart, IsWhitespace;
    MarkerIsVisible();
    OtherStart(REASONING, s);
  }

  lemma NoMarkerNoChange(s: string)
    requires s != "" && s[0] == 'a'
    ensures StripReasoningPrefix(s) == s
  {
    hide AfterMarker, Lines, BodyStart, JoinLines;
    NoMarker(s);
  }

  lemma OwnNormalForm(s: string)
    requires s != "" && s[0] == 'a' && '\r' !in s && !IsWhitespace(s[|s| - 1])
    ensures NormalizeOutbound(s, Plain) == s
  {
    hide StripReasoningPrefix, ReplaceCrLf, Trim;
    NoMarkerNoChange(s);
    TrimTrimmed(s);
    NothingToReplace(s);
  }

  lemma TrimTrimmed(s: string)
    requires Trimmed(s)
    ensures Trim(s) == s
  {
  }

  lemma NewlineTrimsAway(s: string)
    requires s != "" && s[0] == 'a' && '\r' !in s && !IsWhitespace(s[|s| - 1])
    ensures NormalizeOutbound(s + "\n", Plain) == s
  {
    hide StripReasoningPrefix, ReplaceCrLf, TrimEnd;
    NoMarkerNoChange(s + "\n");
    assert TrimStart(s + "\n") == s + "\n";
    assert TrimEnd(s + "\n") == s by {
      var r := TrimEnd(s + "\n");
      assert r == (s + "\n")[..|r|];
      assert (s + "\n")[|s| - 1] == s[|s| - 1];
      assert |r| >= |s|;
      assert (s + "\n")[..|s|] == s;
    }
    NothingToReplace(s);
  }

  const SECTION := REASONING + " " + "x\n\nb"

  lemma AfterMarkerIs(rest: string)
    requires rest != "" && !IsWhitespace(rest[0])
    ensures AfterMarker(REASONING + " " + rest) == Some(rest)
  {
    var text := REASONING + " " + rest;
    MarkerIsVisible();
    assert text[0] == REASONING[0];
    assert text[|REASONING|..] == " " + rest;
    assert (" " + rest)[1..] == rest;
  }

  lemma StripIs(text: string, rest: string, lines: seq<string>, k: nat)
    requires AfterMarker(text) == Some(rest) && rest != "" && Lines(rest) == lines && BodyStart(lines, 1) == Some(k)
    ensures StripReasoningPrefix(text) == JoinLines(lines[k..])
  {
    hide AfterMarker, Lines, BodyStart, JoinLines;
  }

  lemma SectionIsStripped()
    ensures NormalizeOutbound(SECTION, Plain) == "b"
  {
    hide BodyStart, ReplaceCrLf, Lines, StripReasoningPrefix, AfterMarker, TrimStart, TrimEnd;
    var rest, lines := "x\n\nb", ["x", "", "b"];
    AfterMarkerIs(rest);
    SectionLines();
    assert BodyStart(lines, 1) == Some(2) by { SectionBody(); }
    StripIs(SECTION, rest, lines, 2);
    assert lines[2..] == ["b"];
    NothingToReplace("b");
  }

  lemma SectionBody()
    ensures BodyStart(["x", "", "b"], 1) == Some(2)
  {
    hide TrimStart, TrimEnd;
    var lines := ["x", "", "b"];
    assert BodyAt(lines, 2) && !BodyAt(lines, 1);
  }

  lemma SectionLines()
    ensures Lines("x\n\nb") == ["x", "", "b"]
  {
    var s := "x\n\nb";
    IndexOfIs(s, '\n', 1);
    assert s[..1] == "x" && s[1 + 1..] == "\nb";
    IndexOfIs("\nb", '\n', 0);
    assert "\nb"[..0] == "" && "\nb"[0 + 1..] == "b";
    assert Lines("b") == ["b"] by { assert IndexOf("b", '\n') == None; }
    assert Lines("\nb") == ["", "b"];
  }

  /** A reasoning section that a cut moves to the start of a chunk disappears, although the whole text has none. */
  lemma CutSectionIsLost(msg: OutboundMessage)
    requires msg.attachments == [] && msg.text == Repeat('a', 1999) + "\n" + SECTION
    ensures NormalizeOutbound(msg.text, Plain) == msg.text
    ensures Contents(PostsOf(msg)) == [Repeat('a', 1999), "b"]
  {
    hide NormalizeOutbound, Repeat, ChunksOf, ChunkEnd;
    var head := Repeat('a', 1999);
    RepeatIs('a', 1999);
    assert |SECTION| == 15 && SECTION[14] == 'b' && '\r' !in SECTION;
    OwnNormalForm(msg.text);
    NewlineTrimsAway(head);
    SectionIsStripped();
    FirstChunk(head + "\n", SECTION);
    ContentsAreNormalForms(msg);
    assert NormalForms([head + "\n", SECTION]) == [head, "b"];
  }

  lemma FirstChunk(chunk: string, rest: string)
    requires |chunk| == DISCORD_MESSAGE_LIMIT && chunk[|chunk| - 1] == '\n' && 0 < |rest| <= DISCORD_MESSAGE_LIMIT
    ensures ChunksOf(chunk + rest, DISCORD_MESSAGE_LIMIT) == [chunk, rest]
  {
    var text := chunk + rest;
    var end := ChunkEnd(text, DISCORD_MESSAGE_LIMIT);
    hide ChunkEnd;
    forall e | 0 <= e < DISCORD_MESSAGE_LIMIT ensures '\n' in text[e..DISCORD_MESSAGE_LIMIT] {
      assert text[e..DISCORD_MESSAGE_LIMIT][DISCORD_MESSAGE_LIMIT - 1 - e] == '\n';
    }
    assert text[..DISCORD_MESSAGE_LIMIT] == text[0..DISCORD_MESSAGE_LIMIT];
    assert end == DISCORD_MESSAGE_LIMIT;
    assert text[..end] == chunk && text[end..] == rest;
  }

  /** A text message the gateway has cut for Discord is never cut again by the adapter: each piece is one post, and
      all visible characters of the message are shown if and only if no piece begins with a reasoning section before a body. */
  method GatewayPieces(outbound: OutboundMessage) returns (messages: seq<OutboundMessage>)
    requires outbound.channel == "discord" && outbound.attachments == []
    ensures forall i :: 0 <= i < |messages| ==>
              PostsOf(messages[i]) == [PostOf(messages[i])] && |PostOf(messages[i]).content| <= DISCORD_MESSAGE_LIMIT
    ensures AllNonWhitespace(NormalForms(TextsOf(messages))) == NonWhitespace(outbound.text) <==>
              forall i :: 0 <= i < |messages| ==> !HasReasoning(messages[i].text)
  {
    hide NormalizeOutbound, HasReasoning, NonWhitespace, AllNonWhitespace;
    messages := SplitOutboundMessage(outbound);
    assert MaxChars(outbound.channel) == Some(1900);
    forall i | 0 <= i < |messages|
      ensures PostsOf(messages[i]) == [PostOf(messages[i])] && |PostOf(messages[i]).content| <= DISCORD_MESSAGE_LIMIT
    {
      NormalizeNeverLengthens(messages[i].text, Plain);
      assert !Resplit(messages[i]);
    }
    NormalFormsShow(TextsOf(messages));
    assert forall i :: 0 <= i < |messages| ==> messages[i].text == TextsOf(messages)[i];
    assert forall i :: 0 <= i < |messages| ==> TextsOf(messages)[i] == messages[i].text;
  }
}
