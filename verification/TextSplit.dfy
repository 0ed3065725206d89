/** Splitting a long reply into chunks a channel accepts (the text half of outbound delivery). */
module TextSplit {
  import opened Wrappers
  import opened Text

  function NonWhitespace(s: string): string {
    if s == "" then ""
    else if IsWhitespace(s[0]) then NonWhitespace(s[1..])
    else [s[0]] + NonWhitespace(s[1..])
  }

  /** Length of the leading run without whitespace. */
  function WordEnd(s: string): (n: nat)
    ensures n <= |s| && forall i :: 0 <= i < n ==> !IsWhitespace(s[i])
    ensures n < |s| ==> IsWhitespace(s[n])
  {
    if s == "" || IsWhitespace(s[0]) then 0 else 1 + WordEnd(s[1..])
  }

  /** The maximal runs without whitespace, in order. */
  function Words(s: string): seq<string>
    decreases |s|
  {
    if s == "" then []
    else if IsWhitespace(s[0]) then Words(s[1..])
    else [s[..WordEnd(s)]] + Words(s[WordEnd(s)..])
  }

  predicate WordsFit(s: string, maxChars: nat) {
    forall w :: w in Words(s) ==> |w| <= maxChars
  }

  function AllNonWhitespace(chunks: seq<string>): string {
    if chunks == [] then "" else NonWhitespace(chunks[0]) + AllNonWhitespace(chunks[1..])
  }

  function AllWords(chunks: seq<string>): seq<string> {
    if chunks == [] then [] else Words(chunks[0]) + AllWords(chunks[1..])
  }

  // ----- how the measures behave at a cut

  lemma {:induction false} NonWhitespaceConcat(a: string, b: string)
    ensures NonWhitespace(a + b) == NonWhitespace(a) + NonWhitespace(b)
  {
    if a == "" {
      assert a + b == b;
    } else {
      assert (a + b)[1..] == a[1..] + b;
      NonWhitespaceConcat(a[1..], b);
    }
  }

  lemma {:induction false} BlankHasNothing(s: string)
    requires AllWhitespace(s)
    ensures NonWhitespace(s) == "" && Words(s) == []
  {
    if s == "" {
    } else {
      BlankHasNothing(s[1..]);
    }
  }

  predicate CutBesideWhitespace(a: string, b: string) {
    a == "" || b == "" || IsWhitespace(a[|a| - 1]) || IsWhitespace(b[0])
  }

  lemma {:induction false} WordsConcat(a: string, b: string)
    requires CutBesideWhitespace(a, b)
    ensures Words(a + b) == Words(a) + Words(b)
    decreases |a|
  {
    hide IsWhitespace;
    if a == "" {
      assert a + b == b;
    } else if IsWhitespace(a[0]) {
      assert (a + b)[1..] == a[1..] + b;
      WordsConcat(a[1..], b);
    } else {
      var n := WordEnd(a);
      WordEndConcat(a, b);
      hide WordEnd;
      assert (a + b)[..n] == a[..n] && (a + b)[n..] == a[n..] + b;
      WordsConcat(a[n..], b);
    }
  }

  lemma {:induction false} WordEndIs(s: string, n: nat)
    requires n <= |s| && forall i :: 0 <= i < n ==> !IsWhitespace(s[i])
    requires n < |s| ==> IsWhitespace(s[n])
    ensures WordEnd(s) == n
  {
    if n == 0 {
    } else {
      WordEndIs(s[1..], n - 1);
    }
  }

  lemma WordEndConcat(a: string, b: string)
    requires a != "" && !IsWhitespace(a[0]) && CutBesideWhitespace(a, b)
    ensures WordEnd(a + b) == WordEnd(a)
  {
    WordEndIs(a + b, WordEnd(a));
  }

  lemma TrimKeepsContent(s: string)
    ensures NonWhitespace(Trim(s)) == NonWhitespace(s)
    ensures Words(Trim(s)) == Words(s)
  {
    var before, after := TrimSplits(s);
    var core := Trim(s);
    BlankHasNothing(before);
    BlankHasNothing(after);
    NonWhitespaceConcat(before + core, after);
    NonWhitespaceConcat(before, core);
    WordsConcat(before, core);
    WordsConcat(before + core, after);
  }

  lemma TrimStartKeepsContent(s: string)
    ensures NonWhitespace(TrimStart(s)) == NonWhitespace(s)
    ensures Words(TrimStart(s)) == Words(s)
  {
    var t := TrimStart(s);
    var before := s[..|s| - |t|];
    assert s == before + t;
    BlankHasNothing(before);
    NonWhitespaceConcat(before, t);
    WordsConcat(before, t);
  }

  lemma {:induction false} AllAppend(chunks: seq<string>, chunk: string)
    ensures AllNonWhitespace(chunks + [chunk]) == AllNonWhitespace(chunks) + NonWhitespace(chunk)
    ensures AllWords(chunks + [chunk]) == AllWords(chunks) + Words(chunk)
  {
    hide NonWhitespace, Words;
    if chunks == [] {
      assert [chunk][1..] == [];
    } else {
      assert (chunks + [chunk])[1..] == chunks[1..] + [chunk];
      AllAppend(chunks[1..], chunk);
      var s, w := NonWhitespace(chunks[0]), Words(chunks[0]);
      assert s + (AllNonWhitespace(chunks[1..]) + NonWhitespace(chunk)) == s + AllNonWhitespace(chunks[1..]) + NonWhitespace(chunk);
      assert w + (AllWords(chunks[1..]) + Words(chunk)) == w + AllWords(chunks[1..]) + Words(chunk);
    }
  }

  lemma {:induction false} WordsAreShort(s: string)
    ensures forall w :: w in Words(s) ==> 1 <= |w| <= |s|
    decreases |s|
  {
    if s == "" {
    } else if IsWhitespace(s[0]) {
      WordsAreShort(s[1..]);
    } else {
      WordsAreShort(s[WordEnd(s)..]);
    }
  }

  lemma {:induction false} AllWordsAreShort(chunks: seq<string>, maxChars: nat)
    requires forall c :: c in chunks ==> |c| <= maxChars
    ensures forall w :: w in AllWords(chunks) ==> |w| <= maxChars
  {
    if chunks == [] {
    } else {
      assert chunks[0] in chunks;
      WordsAreShort(chunks[0]);
      AllWordsAreShort(chunks[1..], maxChars);
    }
  }

  /** Where the scan of the first maxChars characters cuts a text that is too long. */
  predicate IsCut(remaining: string, maxChars: nat, preferred: nat) {
    && 0 < preferred <= maxChars < |remaining|
    && (forall i :: preferred < i < maxChars ==> !IsWhitespace(remaining[i]))
    && (IsWhitespace(remaining[preferred]) || preferred == maxChars)
    && (preferred == maxChars ==> forall i :: 0 <= i < maxChars ==> !IsWhitespace(remaining[i]))
  }

  /** The last whitespace after the first character within the first n characters. */
  function LastWhitespace(s: string, n: nat): (r: Option<nat>)
    requires n <= |s|
    ensures r.Some? ==> 0 < r.value < n && IsWhitespace(s[r.value])
    ensures forall i :: (if r.Some? then r.value else 0) < i < n ==> !IsWhitespace(s[i])
  {
    if n <= 1 then None
    else if IsWhitespace(s[n - 1]) then Some(n - 1)
    else LastWhitespace(s, n - 1)
  }

  function CutOf(remaining: string, maxChars: nat): (cut: nat)
    requires 0 < maxChars < |remaining| && !IsWhitespace(remaining[0])
    ensures IsCut(remaining, maxChars, cut)
  {
    match LastWhitespace(remaining, maxChars)
    case Some(i) => i
    case None => maxChars
  }

  /** The pieces of a trimmed text: cut at the last whitespace in reach, again and again. */
  function Pieces(remaining: string, maxChars: nat): seq<string>
    requires maxChars > 0 && Trimmed(remaining)
    decreases |remaining|
  {
    if remaining == "" then []
    else if |remaining| <= maxChars then [remaining]
    else
      var cut := CutOf(remaining, maxChars);
      var next := TrimStart(remaining[cut..]);
      assert next != "" ==> next[|next| - 1] == remaining[|remaining| - 1];
      [Trim(remaining[..cut])] + Pieces(next, maxChars)
  }

  lemma CutIsUnique(remaining: string, maxChars: nat, cut: nat)
    requires IsCut(remaining, maxChars, cut) && !IsWhitespace(remaining[0])
    ensures cut == CutOf(remaining, maxChars)
  {
    var other := CutOf(remaining, maxChars);
    assert cut < maxChars ==> IsWhitespace(remaining[cut]);
    assert other < maxChars ==> IsWhitespace(remaining[other]);
  }

  /** A cut at whitespace comes as late as possible: the next word would reach the limit. */
  lemma CutIsLate(remaining: string, maxChars: nat, cut: nat)
    requires IsCut(remaining, maxChars, cut) && cut < maxChars
    ensures cut + 1 + WordEnd(remaining[cut + 1..]) >= maxChars
  {
    var rest := remaining[cut + 1..];
    var n := WordEnd(rest);
    assert n < |rest| ==> rest[n] == remaining[cut + 1 + n];
  }

  lemma PiecesStep(remaining: string, maxChars: nat, cut: nat)
    requires Trimmed(remaining) && IsCut(remaining, maxChars, cut)
    ensures var chunk, next := Trim(remaining[..cut]), TrimStart(remaining[cut..]);
            Trimmed(next) && Pieces(remaining, maxChars) == [chunk] + Pieces(next, maxChars)
  {
    hide TrimStart, TrimEnd, CutOf, Trim;
    CutIsUnique(remaining, maxChars, cut);
    var next := TrimStart(remaining[cut..]);
    assert next != "" ==> next[|next| - 1] == remaining[|remaining| - 1];
  }

  /** A first word that is cut off at a single space. */
  lemma FirstPiece(first: string, rest: string, maxChars: nat)
    requires first != "" && rest != "" && Trimmed(first) && Trimmed(rest)
    requires IsCut(first + " " + rest, maxChars, |first|)
    ensures Pieces(first + " " + rest, maxChars) == [first] + Pieces(rest, maxChars)
  {
    hide TrimStart, TrimEnd, IsCut, Pieces;
    var text := first + " " + rest;
    assert text[..|first|] == first && text[|first|..] == " " + rest;
    TrimOneSpace(rest);
    PiecesStep(text, maxChars, |first|);
  }

  // ----- how many pieces are needed

  /** Slices of a trimmed text from left to right, each within a limit: whole words, the whitespace between slices dropped. */
  predicate WordPartition(p: seq<string>, s: string, limit: nat)
    decreases |p|
  {
    if p == [] then s == ""
    else
      && p[0] != "" && Trimmed(p[0]) && |p[0]| <= limit
      && p[0] <= s && (|p[0]| == |s| || IsWhitespace(s[|p[0]|]))
      && WordPartition(p[1..], TrimStart(s[|p[0]|..]), limit)
  }

  lemma PartitionHead(p: seq<string>, s: string, limit: nat)
    requires WordPartition(p, s, limit) && p != []
    ensures p[0] != "" && Trimmed(p[0]) && |p[0]| <= limit
    ensures p[0] <= s && (|p[0]| < |s| ==> IsWhitespace(s[|p[0]|]))
    ensures WordPartition(p[1..], TrimStart(s[|p[0]|..]), limit)
  {
  }

  lemma PartitionCons(first: string, tail: seq<string>, s: string, limit: nat)
    requires first != "" && Trimmed(first) && |first| <= limit
    requires first <= s && (|first| < |s| ==> IsWhitespace(s[|first|]))
    requires WordPartition(tail, TrimStart(s[|first|..]), limit)
    ensures WordPartition([first] + tail, s, limit)
  {
    assert ([first] + tail)[1..] == tail;
  }

  lemma HeadWords(first: string, s: string)
    requires first <= s && (|first| < |s| ==> IsWhitespace(s[|first|]))
    ensures Words(s) == Words(first) + Words(TrimStart(s[|first|..]))
  {
    hide Words, TrimStart;
    var rest := s[|first|..];
    assert s == first + rest;
    assert |first| < |s| ==> rest[0] == s[|first|];
    TrimStartKeepsContent(rest);
    WordsConcat(first, rest);
  }

  /** Such slices contain exactly the words of the text. */
  lemma {:induction false} PartitionKeepsWords(p: seq<string>, s: string, limit: nat)
    requires WordPartition(p, s, limit)
    ensures AllWords(p) == Words(s) && forall c :: c in p ==> |c| <= limit
    decreases |p|
  {
    hide Words, TrimStart, TrimEnd, WordPartition, Trimmed;
    if p == [] {
      EmptyPartition(s, limit);
      BlankHasNothing("");
    } else {
      PartitionHead(p, s, limit);
      PartitionKeepsWords(p[1..], TrimStart(s[|p[0]|..]), limit);
      HeadWords(p[0], s);
      assert forall c :: c in p ==> c == p[0] || c in p[1..];
    }
  }

  lemma EmptyPartition(s: string, limit: nat)
    ensures WordPartition([], s, limit) <==> s == ""
  {
  }

  /** A partition within a limit exists only if every word fits. */
  lemma PartitionNeedsFit(p: seq<string>, s: string, limit: nat)
    requires WordPartition(p, s, limit)
    ensures WordsFit(s, limit)
  {
    hide WordPartition, Words;
    PartitionKeepsWords(p, s, limit);
    AllWordsAreShort(p, limit);
  }

  /** A suffix that begins with the beginning of a word, or is empty. */
  predicate WordSuffix(s: string, t: string) {
    && |s| <= |t| && s == t[|t| - |s|..]
    && (s != "" ==> !IsWhitespace(s[0]) && (|s| == |t| || IsWhitespace(t[|t| - |s| - 1])))
  }

  /** In the course of the cutting, no remainder longer than the limit has whitespace right at the limit. */
  predicate NoExactFit(s: string, maxChars: nat)
    requires maxChars > 0 && Trimmed(s)
    decreases |s|
  {
    |s| > maxChars ==>
      var next := TrimStart(s[CutOf(s, maxChars)..]);
      assert next != "" ==> next[|next| - 1] == s[|s| - 1];
      !IsWhitespace(s[maxChars]) && NoExactFit(next, maxChars)
  }

  /** A suffix that begins after a slice is a suffix of what follows the slice. */
  lemma SuffixBehind(s: string, t: string, e: nat)
    requires Trimmed(t) && WordSuffix(s, t) && 0 < e <= |t|
    requires |s| <= |t| - e
    ensures WordSuffix(s, TrimStart(t[e..]))
  {
    hide TrimStart;
    var rest := t[e..];
    var t1 := TrimStart(rest);
    assert forall i :: 0 <= i < |rest| ==> rest[i] == t[e + i];
    assert |s| <= |t1| by {
      if s != "" { assert rest[|rest| - |s|] == s[0]; }
    }
    assert t1 == t[|t| - |t1|..];
    assert s == t1[|t1| - |s|..];
    assert |s| < |t1| ==> t1[|t1| - |s| - 1] == t[|t| - |s| - 1];
  }

  /** After a cut at whitespace the remainder begins with a word further on. */
  lemma SuffixAfterCut(s: string, t: string, cut: nat)
    requires Trimmed(t) && WordSuffix(s, t) && 0 < cut < |s| && IsWhitespace(s[cut])
    ensures var next := TrimStart(s[cut..]);
            Trimmed(next) && WordSuffix(next, t) && |next| < |s| - cut
  {
    hide TrimStart;
    var rest := s[cut..];
    var next := TrimStart(rest);
    assert rest[0] == s[cut];
    assert |next| < |rest|;
    assert next == t[|t| - |next|..];
    var gap := |rest| - |next| - 1;
    assert rest[gap] == t[|t| - |next| - 1];
    assert next != "" ==> next[|next| - 1] == t[|t| - 1];
  }

  /** A cut is at or behind every whitespace within the limit. */
  lemma CutReaches(s: string, maxChars: nat, at: nat)
    requires 0 < at < maxChars < |s| && !IsWhitespace(s[0]) && IsWhitespace(s[at])
    ensures at <= CutOf(s, maxChars) && IsWhitespace(s[CutOf(s, maxChars)])
  {
    hide CutOf;
  }

  /** Having cut at least as far as another partition, the code stays at least as far ahead. */
  lemma {:induction false} StaysAhead(s: string, t: string, p: seq<string>, limit: nat, maxChars: nat)
    requires Trimmed(t) && Trimmed(s) && WordSuffix(s, t) && WordPartition(p, t, limit)
    requires 0 < maxChars && (limit < maxChars || (limit == maxChars && NoExactFit(s, maxChars)))
    ensures |Pieces(s, maxChars)| <= |p|
    decreases |p|
  {
    hide TrimStart, TrimEnd, CutOf, Words, WordSuffix, Pieces, NoExactFit, WordPartition, IsCut;
    if s == "" {
      NoPieces(maxChars);
    } else {
      SuffixFits(s, t);
      PartitionOpens(p, t, limit);
      var e := |p[0]|;
      var t1 := TrimStart(t[e..]);
      if |s| <= |t| - e {
        SuffixBehind(s, t, e);
        StaysAhead(s, t1, p[1..], limit, maxChars);
      } else if |s| <= maxChars {
        LastPiece(s, maxChars);
      } else {
        var at := e - (|t| - |s|);
        assert s[at] == t[e];
        if at == maxChars { ExactFitUnfolds(s, maxChars); }
        CutReaches(s, maxChars, at);
        var cut := CutOf(s, maxChars);
        assert IsCut(s, maxChars, cut);
        assert cut <= maxChars by { CutInReach(s, maxChars, cut); }
        SuffixAfterCut(s, t, cut);
        var next := TrimStart(s[cut..]);
        SuffixBehind(next, t, e);
        PiecesStep(s, maxChars, cut);
        if limit == maxChars { ExactFitUnfolds(s, maxChars); }
        StaysAhead(next, t1, p[1..], limit, maxChars);
      }
    }
  }

  lemma SuffixFits(s: string, t: string)
    requires WordSuffix(s, t) && s != ""
    ensures |s| <= |t| && t != "" && s == t[|t| - |s|..] && !IsWhitespace(s[0])
  {
  }

  lemma CutInReach(s: string, maxChars: nat, cut: nat)
    requires IsCut(s, maxChars, cut)
    ensures 0 < cut <= maxChars < |s|
  {
  }

  lemma PartitionOpens(p: seq<string>, t: string, limit: nat)
    requires WordPartition(p, t, limit) && t != "" && Trimmed(t)
    ensures p != [] && 0 < |p[0]| <= limit && |p[0]| <= |t| && (|p[0]| < |t| ==> IsWhitespace(t[|p[0]|]))
    ensures var t1 := TrimStart(t[|p[0]|..]); Trimmed(t1) && WordPartition(p[1..], t1, limit)
  {
    hide TrimStart, IsWhitespace;
    PartitionHead(p, t, limit);
    var rest := t[|p[0]|..];
    var t1 := TrimStart(rest);
    assert t1 != "" ==> t1[|t1| - 1] == t[|t| - 1];
  }

  lemma ExactFitUnfolds(s: string, maxChars: nat)
    requires 0 < maxChars < |s| && Trimmed(s) && NoExactFit(s, maxChars)
    ensures !IsWhitespace(s[maxChars])
    ensures var next := TrimStart(s[CutOf(s, maxChars)..]); Trimmed(next) ==> NoExactFit(next, maxChars)
  {
    hide TrimStart, CutOf;
  }

  lemma WholeIsSuffix(t: string)
    requires Trimmed(t)
    ensures WordSuffix(t, t)
  {
  }

  /** No partition into slices shorter than the limit has fewer parts. */
  lemma FewestBelowTheLimit(t: string, maxChars: nat, p: seq<string>)
    requires maxChars > 0 && Trimmed(t) && WordPartition(p, t, maxChars - 1)
    ensures |Pieces(t, maxChars)| <= |p|
  {
    hide Pieces, WordPartition, WordSuffix, NoExactFit;
    WholeIsSuffix(t);
    StaysAhead(t, t, p, maxChars - 1, maxChars);
  }

  /** Unless some remainder has whitespace right at the limit, no partition within the limit has fewer parts either. */
  lemma FewestWithoutExactFit(t: string, maxChars: nat, p: seq<string>)
    requires maxChars > 0 && Trimmed(t) && NoExactFit(t, maxChars) && WordPartition(p, t, maxChars)
    ensures |Pieces(t, maxChars)| <= |p|
  {
    hide Pieces, WordPartition, WordSuffix, NoExactFit;
    WholeIsSuffix(t);
    StaysAhead(t, t, p, maxChars, maxChars);
  }

  /** The pieces are themselves such a partition if every word fits, and no partition exists otherwise. */
  lemma PiecesPartition(t: string, maxChars: nat)
    requires maxChars > 0 && Trimmed(t)
    ensures WordPartition(Pieces(t, maxChars), t, maxChars) <==> WordsFit(t, maxChars)
  {
    if WordsFit(t, maxChars) {
      FittingPiecesPartition(t, maxChars);
    } else if WordPartition(Pieces(t, maxChars), t, maxChars) {
      PartitionNeedsFit(Pieces(t, maxChars), t, maxChars);
    }
  }

  /** The chunk before a cut at whitespace is a slice, and trimming its end changes nothing about what follows. */
  lemma CutSlices(s: string, cut: nat)
    requires Trimmed(s) && 0 < cut < |s| && IsWhitespace(s[cut])
    ensures var chunk := Trim(s[..cut]);
            && chunk != "" && chunk <= s && |chunk| <= cut && IsWhitespace(s[|chunk|])
            && TrimStart(s[|chunk|..]) == TrimStart(s[cut..])
  {
    hide TrimStart, TrimEnd;
    var head := s[..cut];
    assert head[0] == s[0];
    assert TrimStart(head) == head;
    var chunk := TrimEnd(head);
    assert chunk == head[..|chunk|] == s[..|chunk|];
    assert |chunk| < cut ==> IsWhitespace(head[|chunk|]);
    var gap := s[|chunk|..cut];
    forall i | 0 <= i < |gap| ensures IsWhitespace(gap[i]) { assert gap[i] == head[|chunk| + i]; }
    assert s[|chunk|..] == gap + s[cut..];
    TrimStartSkips(gap, s[cut..]);
  }

  lemma {:induction false} TrimStartSkips(gap: string, s: string)
    requires AllWhitespace(gap)
    ensures TrimStart(gap + s) == TrimStart(s)
  {
    if gap == "" {
      assert gap + s == s;
    } else {
      assert (gap + s)[1..] == gap[1..] + s;
      TrimStartSkips(gap[1..], s);
    }
  }

  lemma WholePartition(t: string, limit: nat)
    requires t != "" && Trimmed(t) && |t| <= limit
    ensures WordPartition([t], t, limit)
  {
    assert t[|t|..] == "" && [t][1..] == [];
  }

  lemma {:induction false} FittingPiecesPartition(t: string, maxChars: nat)
    requires maxChars > 0 && Trimmed(t) && WordsFit(t, maxChars)
    ensures WordPartition(Pieces(t, maxChars), t, maxChars)
    decreases |t|
  {
    hide TrimStart, TrimEnd, CutOf, WordsFit, Pieces, Trim, IsCut, WordPartition;
    if t == "" {
      NoPieces(maxChars);
      EmptyPartition("", maxChars);
    } else if |t| <= maxChars {
      LastPiece(t, maxChars);
      WholePartition(t, maxChars);
    } else {
      var cut := CutOf(t, maxChars);
      assert IsCut(t, maxChars, cut);
      CutInReach(t, maxChars, cut);
      FittingCut(t, maxChars, cut);
      CutSlices(t, cut);
      PiecesStep(t, maxChars, cut);
      var next := TrimStart(t[cut..]);
      FittingPiecesPartition(next, maxChars);
      PartitionCons(Trim(t[..cut]), Pieces(next, maxChars), t, maxChars);
    }
  }

  /** If every word fits, the cut is at whitespace, or whitespace follows the limit, and what remains fits too. */
  lemma FittingCut(t: string, maxChars: nat, cut: nat)
    requires Trimmed(t) && IsCut(t, maxChars, cut) && WordsFit(t, maxChars)
    ensures IsWhitespace(t[cut]) && WordsFit(TrimStart(t[cut..]), maxChars)
  {
    hide Words, TrimStart, TrimEnd;
    CutSparesWords(t, maxChars, cut);
    assert t[..cut][cut - 1] == t[cut - 1] && t[cut..][0] == t[cut];
    CutKeepsContent(t, maxChars, cut);
    var next := TrimStart(t[cut..]);
    assert forall w :: w in Words(next) ==> w in Words(t);
  }

  // ----- the limit itself: the condition is not needed in every case, but cannot be dropped

  lemma TwoSlices(first: string, rest: string, limit: nat)
    requires first != "" && rest != "" && Trimmed(first) && Trimmed(rest) && |first| <= limit && |rest| <= limit
    ensures WordPartition([first, rest], first + " " + rest, limit)
  {
    hide TrimEnd, TrimStart, WordPartition, Trimmed;
    var text := first + " " + rest;
    assert text[|first|..] == " " + rest && text[..|first|] == first && text[|first|] == ' ';
    assert [first] + [rest] == [first, rest];
    TrimOneSpace(rest);
    WholePartition(rest, limit);
    PartitionCons(first, [rest], text, limit);
  }

  /** Where whitespace follows the limit, the condition fails. */
  lemma SpaceAtLimit(s: string, maxChars: nat)
    requires 0 < maxChars < |s| && Trimmed(s) && IsWhitespace(s[maxChars])
    ensures !NoExactFit(s, maxChars)
  {
    hide CutOf, TrimStart;
  }

  /** A word that would fill the limit exactly is moved on, which can cost a piece. */
  lemma NotAlwaysFewest()
    ensures Pieces("aa bb cc dd", 5) == ["aa", "bb", "cc dd"]
    ensures WordPartition(["aa bb", "cc dd"], "aa bb cc dd", 5)
    ensures !NoExactFit("aa bb cc dd", 5)
  {
    hide Words, Pieces, WordPartition, NoExactFit, TrimStart, TrimEnd;
    assert "aa bb cc dd" == "aa" + " " + "bb cc dd";
    FirstPiece("aa", "bb cc dd", 5);
    assert "bb cc dd" == "bb" + " " + "cc dd";
    FirstPiece("bb", "cc dd", 5);
    LastPiece("cc dd", 5);
    assert "aa bb cc dd" == "aa bb" + " " + "cc dd";
    TwoSlices("aa bb", "cc dd", 5);
    SpaceAtLimit("aa bb cc dd", 5);
  }

  /** Whitespace at the limit can also be harmless. */
  lemma ExactFitCanBeHarmless(p: seq<string>)
    ensures Pieces("aa bb cc", 5) == ["aa", "bb cc"] && !NoExactFit("aa bb cc", 5)
    ensures WordPartition(p, "aa bb cc", 5) ==> |p| >= 2
  {
    hide Words, Pieces, WordPartition, NoExactFit, TrimStart, TrimEnd;
    SpaceAtLimit("aa bb cc", 5);
    assert "aa bb cc" == "aa" + " " + "bb cc";
    FirstPiece("aa", "bb cc", 5);
    LastPiece("bb cc", 5);
    if WordPartition(p, "aa bb cc", 5) && |p| < 2 {
      OneSliceIsAll(p, "aa bb cc", 5);
    }
  }

  lemma TailIsNotBlank(s: string, n: nat)
    requires Trimmed(s) && n < |s|
    ensures TrimStart(s[n..]) != ""
  {
    hide TrimStart;
    assert s[n..][|s| - n - 1] == s[|s| - 1];
  }

  lemma OneSliceIsAll(p: seq<string>, s: string, limit: nat)
    requires WordPartition(p, s, limit) && |p| < 2 && Trimmed(s)
    ensures |s| <= limit
  {
    hide TrimStart;
    if |p| == 1 && |p[0]| < |s| {
      TailIsNotBlank(s, |p[0]|);
    }
  }

  lemma TrimOneSpace(s: string)
    requires Trimmed(s)
    ensures TrimStart(" " + s) == s
  {
    assert (" " + s)[1..] == s;
  }

  /** If the first word fits, the cut falls beside whitespace. */
  lemma CutSparesWords(remaining: string, maxChars: nat, preferred: nat)
    requires IsCut(remaining, maxChars, preferred) && !IsWhitespace(remaining[0])
    requires WordsFit(remaining, maxChars)
    ensures CutBesideWhitespace(remaining[..preferred], remaining[preferred..])
  {
    if preferred == maxChars {
      var w := remaining[..WordEnd(remaining)];
      assert w in Words(remaining);
      WordEndIs(remaining, WordEnd(remaining));
      assert WordEnd(remaining) <= maxChars;
      assert WordEnd(remaining) >= maxChars by {
        if WordEnd(remaining) < maxChars { assert false; }
      }
    }
  }

  /** One cut moves the visible text, and whole words if they fit, from the remainder into a chunk. */
  lemma CutKeepsContent(remaining: string, maxChars: nat, preferred: nat)
    requires IsCut(remaining, maxChars, preferred) && !IsWhitespace(remaining[0])
    ensures var chunk, next := Trim(remaining[..preferred]), TrimStart(remaining[preferred..]);
            && ChunkOk(chunk, maxChars)
            && NonWhitespace(remaining) == NonWhitespace(chunk) + NonWhitespace(next)
            && (WordsFit(remaining, maxChars) ==> Words(remaining) == Words(chunk) + Words(next))
  {
    hide NonWhitespace, Words;
    var a, b := remaining[..preferred], remaining[preferred..];
    assert remaining == a + b;
    assert !AllWhitespace(a) by { assert a[0] == remaining[0]; }
    TrimKeepsContent(a);
    TrimStartKeepsContent(b);
    NonWhitespaceConcat(a, b);
    if WordsFit(remaining, maxChars) {
      CutSparesWords(remaining, maxChars, preferred);
      WordsConcat(a, b);
    }
  }

  predicate ChunkOk(chunk: string, maxChars: nat) {
    chunk != "" && Trimmed(chunk) && |chunk| <= maxChars
  }

  /** The scan loop: the end of the first maxChars characters and the last whitespace before it. */
  method ScanForSplit(remaining: string, maxChars: nat) returns (splitAt: nat, lastWhitespace: Option<nat>)
    requires maxChars < |remaining|
    ensures splitAt == maxChars
    ensures lastWhitespace.None? ==> forall i :: 0 <= i < maxChars ==> !IsWhitespace(remaining[i])
    ensures lastWhitespace.Some? ==>
              lastWhitespace.value < maxChars && IsWhitespace(remaining[lastWhitespace.value]) &&
              forall i :: lastWhitespace.value < i < maxChars ==> !IsWhitespace(remaining[i])
  {
    splitAt, lastWhitespace := 0, None;
    var count := 0;
    for idx := 0 to |remaining|
      invariant splitAt == count == idx <= maxChars
      invariant lastWhitespace.None? ==> forall i :: 0 <= i < idx ==> !IsWhitespace(remaining[i])
      invariant lastWhitespace.Some? ==>
                  lastWhitespace.value < idx && IsWhitespace(remaining[lastWhitespace.value]) &&
                  forall i :: lastWhitespace.value < i < idx ==> !IsWhitespace(remaining[i])
    {
      if count == maxChars {
        break;
      }
      if IsWhitespace(remaining[idx]) {
        lastWhitespace := Some(idx);
      }
      splitAt := idx + 1;
      count := count + 1;
    }
  }

  /** What holds between cuts: nothing visible is lost, and no word is cut if all of them fit. */
  ghost predicate Progress(text: string, maxChars: nat, chunks: seq<string>, remaining: string) {
    && Trimmed(remaining)
    && (forall c :: c in chunks ==> ChunkOk(c, maxChars))
    && NonWhitespace(text) == AllNonWhitespace(chunks) + NonWhitespace(remaining)
    && (WordsFit(text, maxChars) ==> Words(text) == AllWords(chunks) + Words(remaining))
  }

  lemma ProgressStarts(text: string, maxChars: nat)
    ensures Progress(text, maxChars, [], Trim(text))
  {
    hide NonWhitespace, Words, TrimStart, TrimEnd;
    TrimKeepsContent(text);
    assert "" + NonWhitespace(text) == NonWhitespace(text) && [] + Words(text) == Words(text);
  }

  lemma ProgressCuts(text: string, maxChars: nat, chunks: seq<string>, remaining: string, preferred: nat)
    requires Progress(text, maxChars, chunks, remaining) && IsCut(remaining, maxChars, preferred)
    ensures var chunk, next := Trim(remaining[..preferred]), TrimStart(remaining[preferred..]);
            chunk != "" && |next| < |remaining| && Progress(text, maxChars, chunks + [chunk], next)
  {
    hide NonWhitespace, Words, AllNonWhitespace, AllWords, TrimStart, TrimEnd;
    CutKeepsContent(remaining, maxChars, preferred);
    var chunk, next := Trim(remaining[..preferred]), TrimStart(remaining[preferred..]);
    AllAppend(chunks, chunk);
    assert next != "" ==> next[|next| - 1] == remaining[|remaining| - 1];
    var a, b, c := AllNonWhitespace(chunks), NonWhitespace(chunk), NonWhitespace(next);
    assert a + (b + c) == a + b + c;
    if WordsFit(text, maxChars) {
      assert forall w :: w in Words(remaining) ==> w in Words(text);
      var u, v, w := AllWords(chunks), Words(chunk), Words(next);
      assert u + (v + w) == u + v + w;
    }
  }

  lemma ProgressEnds(text: string, maxChars: nat, chunks: seq<string>)
    requires Progress(text, maxChars, chunks, "")
    ensures AllNonWhitespace(chunks) == NonWhitespace(text)
    ensures AllWords(chunks) == Words(text) <==> WordsFit(text, maxChars)
  {
    AllWordsAreShort(chunks, maxChars);
  }

  lemma ProgressTrims(text: string, maxChars: nat, chunks: seq<string>, remaining: string)
    requires Progress(text, maxChars, chunks, remaining)
    ensures Trimmed(remaining) && forall c :: c in chunks ==> ChunkOk(c, maxChars)
  {
  }

  lemma ProgressKeepsLast(text: string, maxChars: nat, chunks: seq<string>, remaining: string)
    requires Progress(text, maxChars, chunks, remaining) && 0 < |remaining| <= maxChars
    ensures Progress(text, maxChars, chunks + [remaining], "")
  {
    AllAppend(chunks, remaining);
    BlankHasNothing("");
  }

  lemma BlankFits(text: string, maxChars: nat)
    requires AllWhitespace(text)
    ensures WordsFit(text, maxChars)
  {
    BlankHasNothing(text);
  }

  lemma NoPieces(maxChars: nat)
    requires maxChars > 0
    ensures Pieces("", maxChars) == []
  {
  }

  lemma LastPiece(remaining: string, maxChars: nat)
    requires 0 < |remaining| <= maxChars && Trimmed(remaining)
    ensures Pieces(remaining, maxChars) == [remaining]
  {
  }

  lemma PiecesCut(remaining: string, maxChars: nat, cut: nat, chunks: seq<string>)
    requires Trimmed(remaining) && IsCut(remaining, maxChars, cut)
    ensures var chunk, next := Trim(remaining[..cut]), TrimStart(remaining[cut..]);
            Trimmed(next) && chunks + Pieces(remaining, maxChars) == chunks + [chunk] + Pieces(next, maxChars)
  {
    hide TrimStart, TrimEnd, Trim, Pieces;
    PiecesStep(remaining, maxChars, cut);
    var chunk, next := Trim(remaining[..cut]), TrimStart(remaining[cut..]);
    assert chunks + ([chunk] + Pieces(next, maxChars)) == chunks + [chunk] + Pieces(next, maxChars);
  }

  /** A text returned whole. */
  lemma Whole(text: string)
    ensures AllNonWhitespace([text]) == NonWhitespace(text)
    ensures AllWords([text]) == Words(text)
  {
    AllAppend([], text);
    assert [] + [text] == [text];
  }

  /** Chunks are non-empty, trimmed and within the limit; no visible character is lost, added or moved;
      and the words survive whole exactly when each of them fits. */
  method Split(text: string, maxChars: nat) returns (chunks: seq<string>)
    ensures maxChars == 0 || AllWhitespace(text) ==> chunks == [text]
    ensures maxChars > 0 && !AllWhitespace(text) ==>
              chunks != [] && forall c :: c in chunks ==> ChunkOk(c, maxChars)
    ensures maxChars > 0 && !AllWhitespace(text) ==> chunks == Pieces(Trim(text), maxChars)
    ensures AllNonWhitespace(chunks) == NonWhitespace(text)
    ensures maxChars > 0 ==> (AllWords(chunks) == Words(text) <==> WordsFit(text, maxChars))
  {
    hide Pieces, CutOf, NonWhitespace, Words, AllNonWhitespace, AllWords, TrimStart, TrimEnd, Progress;
    ProgressStarts(text, maxChars);
    var remaining := Trim(text);
    chunks := [];
    assert maxChars > 0 ==> [] + Pieces(remaining, maxChars) == Pieces(remaining, maxChars);
    if maxChars > 0 { NoPieces(maxChars); }
    while remaining != ""
      invariant maxChars == 0 || AllWhitespace(text) ==> chunks == []
      invariant AllWhitespace(text) <==> remaining == "" && chunks == []
      invariant Progress(text, maxChars, chunks, remaining)
      invariant Trimmed(remaining)
      invariant maxChars > 0 ==> Pieces(Trim(text), maxChars) == chunks + Pieces(remaining, maxChars)
      decreases |remaining|
    {
      if |remaining| <= maxChars {
        ProgressKeepsLast(text, maxChars, chunks, remaining);
        LastPiece(remaining, maxChars);
        chunks := chunks + [remaining];
        remaining := "";
        break;
      }
      var splitAt, lastWhitespace := ScanForSplit(remaining, maxChars);
      var preferred := if lastWhitespace.Some? && lastWhitespace.value > 0 then lastWhitespace.value else splitAt;
      var chunk := Trim(remaining[..preferred]);
      if maxChars > 0 {
        PiecesCut(remaining, maxChars, preferred, chunks);
        ProgressCuts(text, maxChars, chunks, remaining, preferred);
      }
      if chunk == "" {
        chunk := Trim(remaining[..splitAt]);
      }
      if chunk == "" {
        break;
      }
      chunks := chunks + [chunk];
      var consumed := if preferred > 0 then preferred else splitAt;
      remaining := TrimStart(remaining[consumed..]);
    }
    if chunks == [] {
      chunks := [text];
      Whole(text);
      if maxChars > 0 { BlankFits(text, maxChars); }
    } else {
      ProgressEnds(text, maxChars, chunks);
      ProgressTrims(text, maxChars, chunks, "");
    }
  }
}
