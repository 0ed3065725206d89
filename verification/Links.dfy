/** Extraction of bare web addresses from a message, after markdown links are stripped. */
module Links {
  import opened Wrappers
  import opened Text

  const DEFAULT_MAX_LINKS: nat := 3

  predicate HasScheme(s: string) {
    "http://" <= s || "https://" <= s
  }

  /** Length of a parenthesised web address at the start of the text. */
  function TargetLength(rest: string): (r: Option<nat>)
    ensures r.Some? ==> 2 <= r.value <= |rest|
  {
    if rest == "" || rest[0] != '(' || !HasScheme(rest[1..]) then None
    else
      match IndexOf(rest[1..], ')')
      case None => None
      case Some(p) => Some(p + 2)
  }

  /** Length of a complete markdown link at the start of the text: only the first closing bracket is tried. */
  function LinkLength(s: string): (r: Option<nat>)
    ensures r.Some? ==> 4 <= r.value <= |s|
  {
    if s == "" || s[0] != '[' then None
    else
      match IndexOf(s[1..], ']')
      case None => None
      case Some(k) =>
        match TargetLength(s[k + 2..])
        case None => None
        case Some(m) => Some(k + 2 + m)
  }

  /** Every complete link, left to right, replaced by one space. */
  function Strip(s: string): string
    decreases |s|
  {
    if s == "" then ""
    else
      match LinkLength(s)
      case Some(n) => " " + Strip(s[n..])
      case None => [s[0]] + Strip(s[1..])
  }

  method StripMarkdownLinks(message: string) returns (result: string)
    ensures result == Strip(message)
  {
    hide LinkLength;
    result := "";
    var i := 0;
    assert message[0..] == message;
    while i < |message|
      invariant 0 <= i <= |message|
      invariant Strip(message) == result + Strip(message[i..])
    {
      var linkEnd := ScanLink(message, i);
      if linkEnd.Some? {
        assert message[i..][linkEnd.value - i..] == message[linkEnd.value..];
        assert Strip(message[i..]) == " " + Strip(message[linkEnd.value..]);
        assert result + (" " + Strip(message[linkEnd.value..])) == result + " " + Strip(message[linkEnd.value..]);
        i := linkEnd.value;
        result := result + " ";
        continue;
      }
      assert message[i..][1..] == message[i + 1..];
      assert result + ([message[i]] + Strip(message[i + 1..])) == result + [message[i]] + Strip(message[i + 1..]);
      result := result + [message[i]];
      i := i + 1;
    }
  }

  /** The nested searches of the loop body, on positions of the whole message. */
  method ScanLink(chars: string, i: nat) returns (linkEnd: Option<nat>)
    requires i < |chars|
    ensures linkEnd.None? <==> LinkLength(chars[i..]).None?
    ensures linkEnd.Some? ==> linkEnd.value == i + LinkLength(chars[i..]).value
  {
    hide TargetLength, IndexOf;
    if chars[i] == '[' {
      assert chars[i..][1..] == chars[i + 1..];
      var closeBracket := IndexOf(chars[i + 1..], ']');
      if closeBracket.Some? {
        var closeIdx := i + 1 + closeBracket.value;
        assert chars[i..][closeBracket.value + 2..] == chars[closeIdx + 1..];
        linkEnd := ScanTarget(chars, closeIdx + 1);
        return linkEnd;
      }
    }
    return None;
  }

  method ScanTarget(chars: string, at: nat) returns (targetEnd: Option<nat>)
    requires at <= |chars|
    ensures targetEnd.None? <==> TargetLength(chars[at..]).None?
    ensures targetEnd.Some? ==> targetEnd.value == at + TargetLength(chars[at..]).value
  {
    hide HasScheme, IndexOf;
    if at < |chars| && chars[at] == '(' {
      var parenStart := at + 1;
      assert chars[at..][1..] == chars[parenStart..];
      if HasScheme(chars[parenStart..]) {
        var closeParen := IndexOf(chars[parenStart..], ')');
        if closeParen.Some? {
          return Some(parenStart + closeParen.value + 1);
        }
      }
    }
    return None;
  }

  // ----- nothing is left to strip

  lemma {:induction false} StripAddsOnlySpaces(s: string, c: char)
    requires c != ' ' && c in Strip(s)
    ensures c in s
    decreases |s|
  {
    match LinkLength(s)
    case Some(n) => StripAddsOnlySpaces(s[n..], c);
    case None => if c != s[0] { StripAddsOnlySpaces(s[1..], c); }
  }

  lemma StripReflectsChar(s: string, c: char)
    requires Strip(s) != "" && Strip(s)[0] == c && c != ' ' && c != '['
    ensures s != "" && s[0] == c && Strip(s)[1..] == Strip(s[1..])
  {
    hide LinkLength;
  }

  lemma PrefixTail(prefix: string, s: string)
    requires prefix != "" && s != "" && prefix[0] == s[0]
    ensures prefix <= s <==> prefix[1..] <= s[1..]
    ensures |prefix| <= |s| ==> s[1..][|prefix| - 1..] == s[|prefix|..]
  {
    assert prefix == [prefix[0]] + prefix[1..] && s == [s[0]] + s[1..];
  }

  /** A prefix without brackets and spaces survives stripping only if it was there before, followed by the stripped rest. */
  lemma {:induction false} StripReflectsPrefix(s: string, prefix: string)
    requires prefix <= Strip(s) && ' ' !in prefix && '[' !in prefix
    ensures prefix <= s && Strip(s)[|prefix|..] == Strip(s[|prefix|..])
    decreases |prefix|
  {
    hide Strip;
    if prefix != "" {
      StripReflectsChar(s, prefix[0]);
      PrefixTail(prefix, Strip(s));
      PrefixTail(prefix, s);
      StripReflectsPrefix(s[1..], prefix[1..]);
    } else {
      assert s[0..] == s && Strip(s)[0..] == Strip(s);
    }
  }

  /** A target in the stripped text was a target before. */
  lemma StripReflectsTarget(u: string)
    requires TargetLength(Strip(u)).Some?
    ensures TargetLength(u).Some?
  {
    hide Strip;
    StripReflectsChar(u, '(');
    if "http://" <= Strip(u[1..]) {
      StripReflectsPrefix(u[1..], "http://");
    } else {
      StripReflectsPrefix(u[1..], "https://");
    }
    StripAddsOnlySpaces(u[1..], ')');
  }

  /** If what follows the first closing bracket is no target, no link begins before it. */
  lemma {:induction false} StripKeepsBrackets(t: string, c: nat)
    requires c < |t| && t[c] == ']' && ']' !in t[..c] && TargetLength(t[c + 1..]).None?
    ensures Strip(t) == t[..c + 1] + Strip(t[c + 1..])
    decreases c
  {
    hide TargetLength, LinkLength, Strip;
    var u := t[1..];
    assert u[c..] == t[c + 1..];
    if c == 0 {
      LinksNeedABracket(t);
      StripKeepsHead(t);
      assert t[..1] == [t[0]];
    } else {
      assert t[..c] == [t[0]] + u[..c - 1];
      if t[0] == '[' {
        IndexOfIs(u, ']', c - 1);
        BracketPairs(t, c - 1);
      } else {
        LinksNeedABracket(t);
      }
      StripKeepsHead(t);
      StripKeepsBrackets(u, c - 1);
      assert t[..c + 1] == [t[0]] + u[..c];
      assert [t[0]] + (u[..c] + Strip(u[c..])) == [t[0]] + u[..c] + Strip(u[c..]);
    }
  }

  lemma StripKeepsHead(t: string)
    requires t != "" && LinkLength(t).None?
    ensures Strip(t) == [t[0]] + Strip(t[1..])
  {
    hide LinkLength;
  }

  /** An opening bracket that begins no link begins none after stripping either. */
  lemma BracketStaysUnlinked(s: string)
    requires s != "" && s[0] == '[' && LinkLength(s).None?
    ensures LinkLength(Strip(s)).None?
  {
    var t := s[1..];
    StripKeepsHead(s);
    hide LinkLength, TargetLength, Strip;
    var stripped := Strip(s);
    assert stripped == "[" + Strip(t);
    if ']' in Strip(t) {
      assert ']' in t by { StripAddsOnlySpaces(t, ']'); }
      var c := IndexOf(t, ']').value;
      var inside, rest := t[..c], t[c + 1..];
      assert TargetLength(rest).None? by {
        BracketPairs(s, c);
        assert s[c + 2..] == rest;
      }
      assert Strip(t) == inside + "]" + Strip(rest) by {
        StripKeepsBrackets(t, c);
        assert t[..c + 1] == inside + "]";
      }
      assert TargetLength(Strip(rest)).None? by {
        if TargetLength(Strip(rest)).Some? { StripReflectsTarget(rest); }
      }
      AfterBracket(stripped, inside, Strip(rest));
      BracketPairs(stripped, c);
    } else {
      assert stripped[1..] == Strip(t);
      NoBracketNoLink(stripped);
    }
  }

  lemma AfterBracket(s: string, inside: string, tail: string)
    requires s == "[" + (inside + "]" + tail) && ']' !in inside
    ensures IndexOf(s[1..], ']') == Some(|inside|) && s[|inside| + 2..] == tail
  {
    var t := s[1..];
    assert t == inside + "]" + tail && t[..|inside|] == inside;
    IndexOfIs(t, ']', |inside|);
  }

  lemma BracketPairs(s: string, c: nat)
    requires s != "" && s[0] == '[' && IndexOf(s[1..], ']') == Some(c)
    ensures LinkLength(s).None? <==> TargetLength(s[c + 2..]).None?
  {
  }

  lemma NoBracketNoLink(s: string)
    requires s != "" && ']' !in s[1..]
    ensures LinkLength(s).None?
  {
  }

  lemma LinksNeedABracket(s: string)
    ensures LinkLength(s).Some? ==> s != "" && s[0] == '['
  {
  }

  lemma {:induction false} NoLinkInStripped(s: string, i: nat)
    requires i < |Strip(s)|
    ensures LinkLength(Strip(s)[i..]).None?
    decreases |s|
  {
    hide LinkLength;
    var rest := if LinkLength(s).Some? then s[LinkLength(s).value..] else s[1..];
    if i > 0 {
      assert Strip(s)[1..] == Strip(rest);
      assert Strip(s)[i..] == Strip(rest)[i - 1..];
      NoLinkInStripped(rest, i - 1);
    } else {
      assert Strip(s)[0..] == Strip(s);
      if LinkLength(s).None? && s[0] == '[' { BracketStaysUnlinked(s); } else { LinksNeedABracket(Strip(s)); }
    }
  }

  /** A complete link occupies s[i..p]: an opening bracket, the next closing bracket c, and a web address in parentheses. */
  predicate LinkAt(s: string, i: nat, c: nat, p: nat) {
    && i < c && c + 2 <= p < |s|
    && s[i] == '[' && s[c] == ']' && ']' !in s[i + 1..c] && s[c + 1] == '('
    && ("http://" <= s[c + 2..] || "https://" <= s[c + 2..]) && s[p] == ')'
  }

  lemma LinkAtIsFound(s: string, i: nat, c: nat, p: nat)
    requires LinkAt(s, i, c, p)
    ensures LinkLength(s[i..]).Some?
  {
    var t := s[i..];
    assert t[1..] == s[i + 1..] && t[1..][..c - i - 1] == s[i + 1..c];
    IndexOfIs(t[1..], ']', c - i - 1);
    assert t[c - i + 1..] == s[c + 1..];
    assert s[c + 1..][1..] == s[c + 2..];
    assert s[c + 2..][p - c - 2] == ')';
  }

  lemma LinkIsSomewhere(s: string) returns (c: nat, p: nat)
    requires LinkLength(s).Some?
    ensures LinkAt(s, 0, c, p)
  {
    var k := IndexOf(s[1..], ']').value;
    c := k + 1;
    assert s[1..][..k] == s[1..c];
    var rest := s[k + 2..];
    assert rest[1..] == s[c + 2..];
    p := c + 2 + IndexOf(rest[1..], ')').value;
  }

  /** A stretch in which no link begins is kept as it is. */
  lemma {:induction false} StripKeepsUnlinked(before: string, rest: string)
    requires forall j :: 0 <= j < |before| ==> LinkLength(before[j..] + rest).None?
    ensures Strip(before + rest) == before + Strip(rest)
    decreases |before|
  {
    hide LinkLength, Strip;
    if before == "" {
      assert before + rest == rest && "" + Strip(rest) == Strip(rest);
    } else {
      var text, tail := before + rest, before[1..];
      assert before[0..] == before;
      StripKeepsHead(text);
      assert text[1..] == tail + rest && text[0] == before[0];
      forall j | 0 <= j < |tail| ensures LinkLength(tail[j..] + rest).None? {
        assert tail[j..] == before[j + 1..];
      }
      StripKeepsUnlinked(tail, rest);
      assert [before[0]] + (tail + Strip(rest)) == before + Strip(rest);
    }
  }

  /** The text before the first link is kept, the link becomes one space, and the rest is stripped likewise. */
  lemma StripFirstLink(before: string, link: string, after: string)
    requires forall j :: 0 <= j < |before| ==> LinkLength(before[j..] + (link + after)).None?
    requires LinkLength(link + after) == Some(|link|)
    ensures Strip(before + (link + after)) == before + (" " + Strip(after))
  {
    hide LinkLength;
    StripKeepsUnlinked(before, link + after);
    assert (link + after)[|link|..] == after;
  }

  lemma {:induction false} StripShortens(s: string)
    ensures |Strip(s)| <= |s|
    decreases |s|
  {
    if s == "" {
    } else {
      match LinkLength(s)
      case Some(n) => StripShortens(s[n..]);
      case None => StripShortens(s[1..]);
    }
  }

  lemma {:induction false} StripFixesUnlinked(s: string)
    ensures Strip(s) == s <==> forall i :: 0 <= i < |s| ==> LinkLength(s[i..]).None?
    decreases |s|
  {
    if s == "" {
    } else {
      assert s[0..] == s;
      match LinkLength(s)
      case Some(n) => StripShortens(s[n..]);
      case None =>
        var t := s[1..];
        StripFixesUnlinked(t);
        assert Strip(s)[1..] == Strip(t);
        assert forall i :: 0 < i < |s| ==> s[i..] == t[i - 1..];
        assert forall i :: 0 <= i < |t| ==> t[i..] == s[i + 1..];
        assert s == [s[0]] + t;
    }
  }

  /** Stripping leaves no complete link anywhere, so stripping again changes nothing; and a text is left
      unchanged exactly when it contains no complete link. */
  lemma StripIsComplete(s: string)
    ensures forall i: nat, c: nat, p: nat :: !LinkAt(Strip(s), i, c, p)
    ensures Strip(Strip(s)) == Strip(s)
    ensures Strip(s) == s <==> forall i: nat, c: nat, p: nat :: !LinkAt(s, i, c, p)
  {
    hide Strip, LinkLength, LinkAt;
    forall i | 0 <= i < |Strip(s)| ensures LinkLength(Strip(s)[i..]).None? { NoLinkInStripped(s, i); }
    UnlinkedMeans(Strip(s));
    UnlinkedMeans(s);
    StripFixesUnlinked(Strip(s));
    StripFixesUnlinked(s);
  }

  lemma UnlinkedMeans(s: string)
    ensures (forall i :: 0 <= i < |s| ==> LinkLength(s[i..]).None?)
       <==> (forall i: nat, c: nat, p: nat :: !LinkAt(s, i, c, p))
  {
    forall i: nat, c: nat, p: nat | LinkAt(s, i, c, p) ensures i < |s| && LinkLength(s[i..]).Some? { LinkAtIsFound(s, i, c, p); }
    forall i | 0 <= i < |s| && LinkLength(s[i..]).Some? ensures exists c: nat, p: nat :: LinkAt(s, i, c, p) {
      var c, p := LinkIsSomewhere(s[i..]);
      LinkAtShifts(s, i, c, p);
    }
  }

  lemma LinkAtShifts(s: string, i: nat, c: nat, p: nat)
    requires i < |s| && LinkAt(s[i..], 0, c, p)
    ensures LinkAt(s, i, i + c, i + p)
  {
    var t := s[i..];
    assert t[1..c] == s[i + 1..i + c];
    assert t[c + 2..] == s[i + c + 2..];
  }

  // ----- addresses

  predicate IsUrlChar(c: char) {
    !IsWhitespace(c) && c != '<' && c != '>' && c != '"' && c != '\'' && c != '`'
  }

  predicate IsTrailing(c: char) {
    c == '.' || c == ',' || c == ')' || c == ']' || c == '>' || c == ';' || c == '!' || c == '?'
  }

  /** Length of the leading run of address characters. */
  function UrlRun(s: string): (n: nat)
    ensures n <= |s| && forall i :: 0 <= i < n ==> IsUrlChar(s[i])
    ensures n < |s| ==> !IsUrlChar(s[n])
  {
    if s == "" || !IsUrlChar(s[0]) then 0 else 1 + UrlRun(s[1..])
  }

  function DropTrailing(s: string): (r: string)
    ensures |r| <= |s| && r == s[..|r|]
    ensures r != "" ==> !IsTrailing(r[|r| - 1])
    ensures forall i :: |r| <= i < |s| ==> IsTrailing(s[i])
  {
    if s != "" && IsTrailing(s[|s| - 1]) then
      var r := DropTrailing(s[..|s| - 1]);
      assert s[..|s| - 1][..|r|] == s[..|r|];
      assert forall i :: |r| <= i < |s| - 1 ==> s[i] == s[..|s| - 1][i];
      r
    else s
  }

  const MIN_URL_BYTES: nat := 8

  /** The bare address at the start of the text; lengths are compared in bytes. */
  function ExtractUrlAt(s: string): (r: Option<string>)
    ensures r.Some? ==> r.value != "" && r.value <= s && HasScheme(s)
    ensures r.Some? ==> ByteLen(r.value) > MIN_URL_BYTES && !IsTrailing(r.value[|r.value| - 1])
    ensures r.Some? ==> forall i :: 0 <= i < |r.value| ==> IsUrlChar(r.value[i])
  {
    if !HasScheme(s) then None
    else
      var raw := s[..UrlRun(s)];
      if ByteLen(raw) <= MIN_URL_BYTES then None
      else
        var trimmed := DropTrailing(raw);
        if ByteLen(trimmed) <= MIN_URL_BYTES then None else Some(trimmed)
  }

  /** Whitespace, angle brackets and quotes end an address. */
  predicate Delimits(c: char) {
    IsWhitespace(c) || c in "<>\"'`"
  }

  /** Punctuation that does not belong to an address at its end. */
  predicate Trails(c: char) {
    c in ".,)]>;!?"
  }

  lemma CharacterClasses(c: char)
    ensures IsUrlChar(c) <==> !Delimits(c)
    ensures IsTrailing(c) <==> Trails(c)
  {
    hide IsWhitespace;
  }

  /** An address is what is left of the run of address characters without its trailing punctuation, if it begins with a
      scheme and has more than eight bytes; n is the length of the run. */
  lemma ExtractExactly(s: string, n: nat, url: string)
    requires n <= |s| && (forall i :: 0 <= i < n ==> !Delimits(s[i])) && (n < |s| ==> Delimits(s[n]))
    requires url <= s[..n] && (url != "" ==> !Trails(url[|url| - 1])) && forall i :: |url| <= i < n ==> Trails(s[i])
    ensures ExtractUrlAt(s) == if ("http://" <= s || "https://" <= s) && ByteLen(url) > 8 then Some(url) else None
  {
    hide Delimits, Trails;
    var raw := s[..n];
    assert UrlRun(s) == n by { RunIs(s, n); }
    assert DropTrailing(raw) == url by { DropIs(raw, url); }
    hide UrlRun, DropTrailing;
    PrefixBytes(raw, |url|);
    assert raw[..|url|] == url;
  }

  lemma RunIs(s: string, n: nat)
    requires n <= |s| && (forall i :: 0 <= i < n ==> !Delimits(s[i])) && (n < |s| ==> Delimits(s[n]))
    ensures UrlRun(s) == n
  {
    hide IsUrlChar, UrlRun, Delimits;
    var m := UrlRun(s);
    forall i | 0 <= i < |s| ensures IsUrlChar(s[i]) <==> !Delimits(s[i]) { CharacterClasses(s[i]); }
    assert m < |s| ==> !IsUrlChar(s[m]);
  }

  lemma DropIs(raw: string, url: string)
    requires url <= raw && (url != "" ==> !Trails(url[|url| - 1])) && forall i :: |url| <= i < |raw| ==> Trails(raw[i])
    ensures DropTrailing(raw) == url
  {
    hide IsTrailing, DropTrailing, Trails;
    var trimmed := DropTrailing(raw);
    forall i | 0 <= i < |raw| ensures IsTrailing(raw[i]) <==> Trails(raw[i]) { CharacterClasses(raw[i]); }
    assert url == "" || !Trails(raw[|url| - 1]);
    assert trimmed == "" || !IsTrailing(raw[|trimmed| - 1]);
    assert |trimmed| == |url|;
  }

  lemma {:induction false} PrefixBytes(s: string, n: nat)
    requires n <= |s|
    ensures ByteLen(s[..n]) <= ByteLen(s)
  {
    if n == 0 {
      assert s[..0] == "";
    } else {
      assert s[..n][1..] == s[1..][..n - 1];
      PrefixBytes(s[1..], n - 1);
    }
  }

  /** The first position at which a scheme begins. */
  function NextScheme(s: string): (r: Option<nat>)
    ensures r.Some? ==> r.value < |s| && HasScheme(s[r.value..])
    ensures forall j :: 0 <= j < (if r.Some? then r.value else |s|) ==> !HasScheme(s[j..])
  {
    SchemesOccur(s);
    match (Find(s, "http://"), Find(s, "https://"))
    case (Some(a), Some(b)) => Some(if a < b then a else b)
    case (Some(a), None) => Some(a)
    case (None, Some(b)) => Some(b)
    case (None, None) => None
  }

  lemma SchemeOccurs(s: string, i: nat)
    requires i <= |s|
    ensures HasScheme(s[i..]) <==> OccursAt(s, "http://", i) || OccursAt(s, "https://", i)
    ensures HasScheme(s[i..]) ==> i < |s|
  {
    if i + 7 <= |s| { assert s[i..][..7] == s[i..i + 7]; }
    if i + 8 <= |s| { assert s[i..][..8] == s[i..i + 8]; }
  }

  lemma SchemesOccur(s: string)
    ensures forall i :: 0 <= i <= |s| ==>
              (HasScheme(s[i..]) <==> OccursAt(s, "http://", i) || OccursAt(s, "https://", i)) &&
              (HasScheme(s[i..]) ==> i < |s|)
  {
    hide HasScheme, OccursAt;
    forall i | 0 <= i <= |s|
      ensures (HasScheme(s[i..]) <==> OccursAt(s, "http://", i) || OccursAt(s, "https://", i)) && (HasScheme(s[i..]) ==> i < |s|)
    {
      SchemeOccurs(s, i);
    }
  }

  /** Every address of a text from a position on, left to right and without overlap, with its position. */
  function Candidates(text: string, from: nat): seq<(nat, string)>
    requires from <= |text|
    decreases |text| - from
  {
    hide NextScheme, ExtractUrlAt, HasScheme;
    match NextScheme(text[from..])
    case None => []
    case Some(pos) =>
      var start := from + pos;
      match ExtractUrlAt(text[start..])
      case Some(url) => [(start, url)] + Candidates(text, start + |url|)
      case None => Candidates(text, start + 1)
  }

  /** First come, first served: allowed addresses not seen before, until the limit is reached. */
  function Collect(candidates: seq<(nat, string)>, allowed: string -> bool, max: nat, results: seq<string>): seq<string>
    decreases |candidates|
  {
    if candidates == [] then results
    else
      var url := candidates[0].1;
      if allowed(url) && url !in results then
        (if |results| + 1 >= max then results + [url] else Collect(candidates[1..], allowed, max, results + [url]))
      else Collect(candidates[1..], allowed, max, results)
  }

  function Limit(maxLinks: Option<nat>): nat {
    match maxLinks
    case Some(n) => n
    case None => DEFAULT_MAX_LINKS
  }

  /** A limit of zero still lets one address through. */
  function Most(max: nat): nat {
    if max == 0 then 1 else max
  }

  /** Which addresses are safe to fetch is left to the caller. */
  method ExtractLinks(message: string, maxLinks: Option<nat>, allowed: string -> bool) returns (results: seq<string>)
    ensures results == Collect(Candidates(Strip(Trim(message)), 0), allowed, Limit(maxLinks), [])
  {
    hide Strip, NextScheme, ExtractUrlAt, TrimStart, TrimEnd, Collect, Candidates, HasScheme;
    var trimmed := Trim(message);
    if trimmed == "" {
      NothingInNothing();
      CollectNothing(allowed, Limit(maxLinks), []);
      return [];
    }
    var max := Limit(maxLinks);
    var stripped := StripMarkdownLinks(trimmed);
    results := [];
    var searchFrom := 0;
    while searchFrom < |stripped|
      invariant 0 <= searchFrom <= |stripped|
      invariant Collect(Candidates(stripped, 0), allowed, max, []) ==
                Collect(Candidates(stripped, searchFrom), allowed, max, results)
    {
      var rest := stripped[searchFrom..];
      var httpPos := NextScheme(rest);
      if httpPos.None? {
        NoMoreCandidates(stripped, searchFrom);
        CollectNothing(allowed, max, results);
        return results;
      }
      var urlStart := searchFrom + httpPos.value;
      var url := ExtractUrlAt(stripped[urlStart..]);
      if url.Some? {
        CandidateFound(stripped, searchFrom, httpPos.value, url.value);
        searchFrom := urlStart + |url.value|;
        CollectHead((urlStart, url.value), Candidates(stripped, searchFrom), allowed, max, results);
        if allowed(url.value) && url.value !in results {
          results := results + [url.value];
          if |results| >= max {
            return results;
          }
        }
      } else {
        CandidateSkipped(stripped, searchFrom, httpPos.value);
        searchFrom := urlStart + 1;
      }
    }
    NothingAtEnd(stripped);
    CollectNothing(allowed, max, results);
  }

  lemma CandidateFound(text: string, from: nat, pos: nat, url: string)
    requires from <= |text| && NextScheme(text[from..]) == Some(pos) && ExtractUrlAt(text[from + pos..]) == Some(url)
    ensures from + pos + |url| <= |text|
    ensures Candidates(text, from) == [(from + pos, url)] + Candidates(text, from + pos + |url|)
  {
    hide NextScheme, ExtractUrlAt, HasScheme;
  }

  lemma CandidateSkipped(text: string, from: nat, pos: nat)
    requires from <= |text| && NextScheme(text[from..]) == Some(pos) && ExtractUrlAt(text[from + pos..]) == None
    ensures from + pos < |text|
    ensures Candidates(text, from) == Candidates(text, from + pos + 1)
  {
    hide NextScheme, ExtractUrlAt, HasScheme;
  }

  lemma NoMoreCandidates(text: string, from: nat)
    requires from <= |text| && NextScheme(text[from..]) == None
    ensures Candidates(text, from) == []
  {
    hide NextScheme, ExtractUrlAt, HasScheme;
  }

  lemma CollectHead(head: (nat, string), tail: seq<(nat, string)>, allowed: string -> bool, max: nat, results: seq<string>)
    ensures var url := head.1;
            Collect([head] + tail, allowed, max, results) ==
            if allowed(url) && url !in results then
              (if |results| + 1 >= max then results + [url] else Collect(tail, allowed, max, results + [url]))
            else Collect(tail, allowed, max, results)
  {
    assert ([head] + tail)[1..] == tail;
  }

  lemma NothingAtEnd(text: string)
    ensures Candidates(text, |text|) == []
  {
    assert text[|text|..] == "";
  }

  lemma NothingInNothing()
    ensures Strip("") == "" && Candidates("", 0) == []
  {
  }

  lemma CollectNothing(allowed: string -> bool, max: nat, results: seq<string>)
    ensures Collect([], allowed, max, results) == results
  {
  }

  // ----- what is collected

  predicate Distinct(urls: seq<string>) {
    forall i, j :: 0 <= i < j < |urls| ==> urls[i] != urls[j]
  }

  /** The candidate texts at strictly increasing indices. */
  predicate PickedInOrder(urls: seq<string>, candidates: seq<(nat, string)>, picks: seq<nat>) {
    && |picks| == |urls|
    && (forall i :: 0 <= i < |picks| ==> picks[i] < |candidates| && candidates[picks[i]].1 == urls[i])
    && (forall i, j :: 0 <= i < j < |picks| ==> picks[i] < picks[j])
  }

  /** The results so far are the distinct allowed candidates before a position, in order. */
  predicate Collected(all: seq<(nat, string)>, from: nat, allowed: string -> bool, results: seq<string>, picks: seq<nat>) {
    && from <= |all| && Distinct(results) && PickedInOrder(results, all, picks)
    && (picks != [] ==> picks[|picks| - 1] < from)
    && (forall u :: u in results ==> allowed(u))
    && (forall k :: 0 <= k < from && allowed(all[k].1) ==> all[k].1 in results)
  }

  lemma CollectedNext(all: seq<(nat, string)>, from: nat, allowed: string -> bool, results: seq<string>, picks: seq<nat>)
    requires Collected(all, from, allowed, results, picks) && from < |all|
    ensures var url := all[from].1;
            if allowed(url) && url !in results then Collected(all, from + 1, allowed, results + [url], picks + [from])
            else Collected(all, from + 1, allowed, results, picks)
  {
    var next := results + [all[from].1];
    assert forall u :: u in next <==> u in results || u == all[from].1;
  }

  lemma CollectStep(all: seq<(nat, string)>, from: nat, allowed: string -> bool, max: nat, results: seq<string>)
    requires from < |all|
    ensures var url := all[from].1;
            Collect(all[from..], allowed, max, results) ==
            if allowed(url) && url !in results then
              (if |results| + 1 >= max then results + [url] else Collect(all[from + 1..], allowed, max, results + [url]))
            else Collect(all[from + 1..], allowed, max, results)
  {
    hide Collect;
    assert all[from..] == [all[from]] + all[from + 1..];
    CollectHead(all[from], all[from + 1..], allowed, max, results);
  }

  /** Collecting on from a position yields distinct allowed candidates in order: all of them unless the limit is reached. */
  lemma {:induction false} CollectIsSound(all: seq<(nat, string)>, from: nat, allowed: string -> bool, max: nat,
                                          results: seq<string>, picks: seq<nat>) returns (final: seq<nat>, upTo: nat)
    requires Collected(all, from, allowed, results, picks)
    requires results == [] || |results| < max
    ensures var r := Collect(all[from..], allowed, max, results);
            && Collected(all, upTo, allowed, r, final)
            && |r| <= Most(max)
            && (|r| < Most(max) ==> upTo == |all|)
    decreases |all| - from
  {
    assert from <= |all|;
    hide Collected, Collect;
    if from == |all| {
      final, upTo := picks, from;
      CollectNothing(allowed, max, results);
    } else {
      CollectedNext(all, from, allowed, results, picks);
      CollectStep(all, from, allowed, max, results);
      var url := all[from].1;
      if !allowed(url) || url in results {
        final, upTo := CollectIsSound(all, from + 1, allowed, max, results, picks);
      } else if |results| + 1 >= max {
        final, upTo := picks + [from], from + 1;
      } else {
        final, upTo := CollectIsSound(all, from + 1, allowed, max, results + [url], picks + [from]);
      }
    }
  }

  /** An address stands at a position of a text, wherever a scan may be. */
  predicate UrlAt(text: string, p: nat, url: string) {
    p <= |text| && ExtractUrlAt(text[p..]) == Some(url)
  }

  /** The candidates are addresses of the text at increasing positions, and do not overlap. */
  predicate Located(candidates: seq<(nat, string)>, text: string, from: nat) {
    && (forall i :: 0 <= i < |candidates| ==> from <= candidates[i].0 && UrlAt(text, candidates[i].0, candidates[i].1))
    && (forall i, j :: 0 <= i < j < |candidates| ==> candidates[i].0 + |candidates[i].1| <= candidates[j].0)
  }

  /** The position is that of a candidate, or lies inside one that begins earlier. */
  predicate CoveredAt(candidates: seq<(nat, string)>, p: nat, url: string) {
    exists i :: 0 <= i < |candidates| &&
      (candidates[i] == (p, url) || candidates[i].0 < p < candidates[i].0 + |candidates[i].1|)
  }

  /** Every address of the text from a position on is covered. */
  ghost predicate Covered(candidates: seq<(nat, string)>, text: string, from: nat) {
    forall p: nat, url: string :: from <= p && UrlAt(text, p, url) ==> CoveredAt(candidates, p, url)
  }

  lemma CandidatesEnd(text: string, from: nat)
    requires from <= |text| && NextScheme(text[from..]) == None
    ensures Located([], text, from) && Covered([], text, from)
  {
    hide NextScheme;
    forall p: nat, url: string | from <= p && UrlAt(text, p, url) ensures false {
      SchemeBefore(text, from, p, url);
    }
  }

  /** No address stands where the search for a scheme has passed. */
  lemma SchemeBefore(text: string, from: nat, p: nat, url: string)
    requires from <= p && UrlAt(text, p, url)
    ensures NextScheme(text[from..]).Some? && from + NextScheme(text[from..]).value <= p
  {
    hide NextScheme, HasScheme;
    var rest := text[from..];
    assert rest[p - from..] == text[p..];
    assert HasScheme(rest[p - from..]);
    SchemeIsNotEmpty(text[p..]);
  }

  lemma SchemeIsNotEmpty(s: string)
    ensures HasScheme(s) ==> s != ""
  {
  }

  lemma CandidatesSkip(text: string, from: nat, start: nat, tail: seq<(nat, string)>)
    requires from <= start < |text| && NextScheme(text[from..]) == Some(start - from) && ExtractUrlAt(text[start..]) == None
    requires Located(tail, text, start + 1) && Covered(tail, text, start + 1)
    ensures Located(tail, text, from) && Covered(tail, text, from)
  {
    hide NextScheme, ExtractUrlAt;
    forall p: nat, url: string | from <= p && UrlAt(text, p, url) ensures CoveredAt(tail, p, url) {
      SchemeBefore(text, from, p, url);
      assert p != start;
    }
  }

  lemma LocatedCons(text: string, from: nat, start: nat, url: string, tail: seq<(nat, string)>)
    requires from <= start && UrlAt(text, start, url) && Located(tail, text, start + |url|)
    ensures Located([(start, url)] + tail, text, from)
  {
    hide UrlAt;
  }

  lemma CoveredStays(head: (nat, string), tail: seq<(nat, string)>, p: nat, url: string)
    requires CoveredAt(tail, p, url)
    ensures CoveredAt([head] + tail, p, url)
  {
    var i :| 0 <= i < |tail| && (tail[i] == (p, url) || tail[i].0 < p < tail[i].0 + |tail[i].1|);
    assert ([head] + tail)[i + 1] == tail[i];
  }

  lemma CoveredByHead(text: string, start: nat, url: string, tail: seq<(nat, string)>, p: nat, other: string)
    requires UrlAt(text, start, url) && UrlAt(text, p, other) && start <= p < start + |url|
    ensures CoveredAt([(start, url)] + tail, p, other)
  {
    hide ExtractUrlAt;
    assert ([(start, url)] + tail)[0] == (start, url);
  }

  lemma CoveredCons(text: string, from: nat, start: nat, url: string, tail: seq<(nat, string)>)
    requires from <= start <= |text| && NextScheme(text[from..]) == Some(start - from) && UrlAt(text, start, url)
    requires Covered(tail, text, start + |url|)
    ensures Covered([(start, url)] + tail, text, from)
  {
    hide NextScheme, ExtractUrlAt, UrlAt, CoveredAt;
    var all := [(start, url)] + tail;
    forall p: nat, other: string | from <= p && UrlAt(text, p, other) ensures CoveredAt(all, p, other) {
      SchemeBefore(text, from, p, other);
      if p < start + |url| {
        CoveredByHead(text, start, url, tail, p, other);
      } else {
        CoveredStays((start, url), tail, p, other);
      }
    }
  }

  /** The scan misses nothing: its candidates are non-overlapping addresses, and every address of the text is one of
      them or begins inside an earlier one. */
  lemma {:induction false} CandidatesAreComplete(text: string, from: nat)
    requires from <= |text|
    ensures Located(Candidates(text, from), text, from) && Covered(Candidates(text, from), text, from)
    decreases |text| - from
  {
    hide NextScheme, ExtractUrlAt, HasScheme, Located, Covered, Candidates;
    match NextScheme(text[from..])
    case None =>
      NoMoreCandidates(text, from);
      CandidatesEnd(text, from);
    case Some(pos) =>
      var start := from + pos;
      match ExtractUrlAt(text[start..])
      case Some(url) =>
        CandidateFound(text, from, pos, url);
        CandidatesAreComplete(text, start + |url|);
        LocatedCons(text, from, start, url, Candidates(text, start + |url|));
        CoveredCons(text, from, start, url, Candidates(text, start + |url|));
      case None =>
        CandidateSkipped(text, from, pos);
        CandidatesAreComplete(text, start + 1);
        CandidatesSkip(text, from, start, Candidates(text, start + 1));
  }

  /** The extracted addresses are distinct allowed addresses of the stripped text in order of position, at most
      max(1, limit) of them; and unless that limit is reached, every allowed address of the text is among them or
      begins inside an earlier address. */
  lemma ExtractedLinks(message: string, maxLinks: Option<nat>, allowed: string -> bool)
    returns (all: seq<(nat, string)>, picks: seq<nat>)
    ensures var text := Strip(Trim(message));
            var r := Collect(Candidates(text, 0), allowed, Limit(maxLinks), []);
            var most := if maxLinks.None? then 3 else if maxLinks.value == 0 then 1 else maxLinks.value;
            && Located(all, text, 0) && PickedInOrder(r, all, picks) && Distinct(r)
            && (forall u :: u in r ==> allowed(u)) && |r| <= most
            && (|r| < most ==>
                  forall p: nat, url: string :: UrlAt(text, p, url) && allowed(url) ==>
                    url in r || exists i :: 0 <= i < |all| && all[i].0 < p < all[i].0 + |all[i].1|)
  {
    hide Strip, TrimStart, TrimEnd, Candidates, Collect, UrlAt, Located;
    var text := Strip(Trim(message));
    CandidatesAreComplete(text, 0);
    all := Candidates(text, 0);
    assert all[0..] == all;
    var upTo;
    picks, upTo := CollectIsSound(all, 0, allowed, Limit(maxLinks), [], []);
    var r := Collect(all, allowed, Limit(maxLinks), []);
    if |r| < Most(Limit(maxLinks)) {
      forall p: nat, url: string | UrlAt(text, p, url) && allowed(url)
        ensures url in r || exists i :: 0 <= i < |all| && all[i].0 < p < all[i].0 + |all[i].1|
      {
        assert CoveredAt(all, p, url);
        var i :| 0 <= i < |all| && (all[i] == (p, url) || all[i].0 < p < all[i].0 + |all[i].1|);
        assert allowed(all[i].1) ==> all[i].1 in r;
      }
    }
  }
}
