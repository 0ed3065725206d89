/** The standard containers and the text operations the modelled code takes from its language library.
    Text is a sequence of Unicode scalar values; byte lengths are computed from UTF-8 widths. */
module Wrappers {
  datatype Option<+T> = None | Some(value: T)

  datatype Result<+T, +E> = Ok(value: T) | Err(error: E)
}

module Text {
  import opened Wrappers

  /** The Unicode White_Space property. */
  predicate IsWhitespace(c: char) {
    var n := c as int;
    9 <= n <= 13 || n == 0x20 || n == 0x85 || n == 0xA0 || n == 0x1680 || 0x2000 <= n <= 0x200A ||
    n == 0x2028 || n == 0x2029 || n == 0x202F || n == 0x205F || n == 0x3000
  }

  predicate AllWhitespace(s: string) {
    forall i :: 0 <= i < |s| ==> IsWhitespace(s[i])
  }

  /** No whitespace at either end. */
  predicate Trimmed(s: string) {
    s != "" ==> !IsWhitespace(s[0]) && !IsWhitespace(s[|s| - 1])
  }

  function TrimStart(s: string): (r: string)
    ensures |r| <= |s| && r == s[|s| - |r|..]
    ensures forall i :: 0 <= i < |s| - |r| ==> IsWhitespace(s[i])
    ensures r != "" ==> !IsWhitespace(r[0])
  {
    if s != "" && IsWhitespace(s[0]) then
      var r := TrimStart(s[1..]);
      assert s[1..][|s| - 1 - |r|..] == s[|s| - |r|..];
      assert forall i :: 1 <= i < |s| - |r| ==> s[i] == s[1..][i - 1];
      r
    else s
  }

  function TrimEnd(s: string): (r: string)
    ensures |r| <= |s| && r == s[..|r|]
    ensures forall i :: |r| <= i < |s| ==> IsWhitespace(s[i])
    ensures r != "" ==> !IsWhitespace(r[|r| - 1])
  {
    if s != "" && IsWhitespace(s[|s| - 1]) then
      var r := TrimEnd(s[..|s| - 1]);
      assert s[..|s| - 1][..|r|] == s[..|r|];
      assert forall i :: |r| <= i < |s| - 1 ==> s[i] == s[..|s| - 1][i];
      r
    else s
  }

  function Trim(s: string): (r: string)
    ensures |r| <= |s| && Trimmed(r)
    ensures r == "" <==> AllWhitespace(s)
    ensures Trimmed(s) ==> r == s
  {
    TrimEnd(TrimStart(s))
  }

  /** Trim removes whitespace at both ends and nothing else. */
  lemma TrimSplits(s: string) returns (before: string, after: string)
    ensures s == before + Trim(s) + after
    ensures AllWhitespace(before) && AllWhitespace(after)
  {
    hide TrimStart, TrimEnd;
    var t := TrimStart(s);
    var r := TrimEnd(t);
    before, after := s[..|s| - |t|], t[|r|..];
    assert s == before + t;
    assert t == r + after;
    assert before + (r + after) == before + r + after;
  }

  /** First index of a character. */
  function IndexOf(s: string, c: char): (r: Option<nat>)
    ensures r.Some? ==> r.value < |s| && s[r.value] == c && c !in s[..r.value]
    ensures r.None? ==> c !in s
  {
    if s == "" then None
    else if s[0] == c then Some(0)
    else
      match IndexOf(s[1..], c)
      case None => None
      case Some(i) =>
        assert s[..i + 1] == [s[0]] + s[1..][..i];
        Some(i + 1)
  }

  lemma IndexOfIs(s: string, c: char, i: nat)
    requires i < |s| && s[i] == c && c !in s[..i]
    ensures IndexOf(s, c) == Some(i)
  {
    var r := IndexOf(s, c);
    assert c in s;
    assert forall k :: 0 <= k < i ==> s[k] == s[..i][k];
    assert forall k :: 0 <= k < r.value ==> s[k] == s[..r.value][k];
  }

  predicate OccursAt(s: string, pattern: string, i: int) {
    0 <= i && i + |pattern| <= |s| && s[i..i + |pattern|] == pattern
  }

  /** First occurrence of a pattern. */
  function Find(s: string, pattern: string): (r: Option<nat>)
    ensures r.Some? ==> OccursAt(s, pattern, r.value) && forall j :: 0 <= j < r.value ==> !OccursAt(s, pattern, j)
    ensures r.None? ==> forall j: int :: !OccursAt(s, pattern, j)
  {
    if pattern <= s then assert OccursAt(s, pattern, 0); Some(0)
    else if s == "" then None
    else
      var r := Find(s[1..], pattern);
      assert !OccursAt(s, pattern, 0);
      OccursInTail(s, pattern);
      match r
      case None => None
      case Some(i) => Some(i + 1)
  }

  lemma OccursInTail(s: string, pattern: string)
    requires s != ""
    ensures forall j: int :: 0 < j ==> (OccursAt(s, pattern, j) <==> OccursAt(s[1..], pattern, j - 1))
  {
    forall j: int | 0 < j ensures OccursAt(s, pattern, j) <==> OccursAt(s[1..], pattern, j - 1) {
      if j + |pattern| <= |s| {
        assert s[1..][j - 1..j - 1 + |pattern|] == s[j..j + |pattern|];
      }
    }
  }

  predicate Contains(s: string, pattern: string) {
    Find(s, pattern).Some?
  }

  /** Upper-case ASCII letters become lower-case ones, 32 code points further on; all else stays. */
  function AsciiLower(c: char): (r: char)
    ensures !('A' <= r <= 'Z')
    ensures r == c || ('A' <= c <= 'Z' && r as int == c as int + 32)
  {
    if 'A' <= c <= 'Z' then (c as int + 32) as char else c
  }

  function ToAsciiLower(s: string): string {
    seq(|s|, i requires 0 <= i < |s| => AsciiLower(s[i]))
  }

  /** UTF-8 width of a scalar value. */
  function Utf8Width(c: char): (n: nat)
    ensures 1 <= n <= 4
  {
    var n := c as int;
    if n < 0x80 then 1 else if n < 0x800 then 2 else if n < 0x10000 then 3 else 4
  }

  /** The UTF-8 encoding of a scalar value, section 3 of RFC 3629. */
  function Utf8(c: char): (bytes: seq<nat>)
    ensures |bytes| == Utf8Width(c) && forall i :: 0 <= i < |bytes| ==> bytes[i] < 256
  {
    var n := c as int;
    if n < 0x80 then [n]
    else if n < 0x800 then [0xC0 + n / 64, 0x80 + n % 64]
    else if n < 0x10000 then [0xE0 + n / 4096, 0x80 + n / 64 % 64, 0x80 + n % 64]
    else [0xF0 + n / 262144, 0x80 + n / 4096 % 64, 0x80 + n / 64 % 64, 0x80 + n % 64]
  }

  /** The scalar value at the start of an encoding; the lead byte tells how many bytes belong to it. */
  function DecodeUtf8(bytes: seq<nat>): Option<nat> {
    if |bytes| >= 1 && bytes[0] < 0x80 then Some(bytes[0])
    else if |bytes| >= 2 && 0xC0 <= bytes[0] < 0xE0 then Some((bytes[0] - 0xC0) * 64 + bytes[1] % 64)
    else if |bytes| >= 3 && 0xE0 <= bytes[0] < 0xF0 then
      Some((bytes[0] - 0xE0) * 4096 + bytes[1] % 64 * 64 + bytes[2] % 64)
    else if |bytes| >= 4 && 0xF0 <= bytes[0] < 0xF8 then
      Some((bytes[0] - 0xF0) * 262144 + bytes[1] % 64 * 4096 + bytes[2] % 64 * 64 + bytes[3] % 64)
    else None
  }

  lemma Continues(x: nat)
    requires x < 64
    ensures (0x80 + x) % 64 == x
  {
  }

  /** A number is put together again from its base-64 digits. */
  lemma Digits64(n: nat)
    ensures n == n / 64 * 64 + n % 64
    ensures n / 64 == n / 4096 * 64 + n / 64 % 64
    ensures n / 4096 == n / 262144 * 64 + n / 4096 % 64
  {
    assert n / 64 / 64 == n / 4096;
    assert n / 4096 / 64 == n / 262144;
  }

  /** Every scalar value is decoded from its encoding, whose length is the width used for byte counts. */
  lemma Utf8RoundTrip(c: char, rest: seq<nat>)
    ensures DecodeUtf8(Utf8(c) + rest) == Some(c as nat) && |Utf8(c)| == Utf8Width(c)
  {
    var n, bytes := c as nat, Utf8(c);
    var all := bytes + rest;
    assert forall i :: 0 <= i < |bytes| ==> all[i] == bytes[i];
    Digits64(n);
    Continues(n % 64);
    Continues(n / 64 % 64);
    Continues(n / 4096 % 64);
  }

  function ByteLen(s: string): (n: nat)
    ensures |s| <= n <= 4 * |s|
  {
    if s == "" then 0 else Utf8Width(s[0]) + ByteLen(s[1..])
  }

  function Flatten<T>(parts: seq<seq<T>>): seq<T> {
    if parts == [] then [] else parts[0] + Flatten(parts[1..])
  }

  lemma {:induction false} FlattenAppend<T>(parts: seq<seq<T>>, last: seq<T>)
    ensures Flatten(parts + [last]) == Flatten(parts) + last
  {
    if parts == [] {
      assert [last][1..] == [];
    } else {
      assert (parts + [last])[1..] == parts[1..] + [last];
      FlattenAppend(parts[1..], last);
    }
  }

  /** A line without its final carriage return. */
  function StripCr(line: string): string {
    if line != "" && line[|line| - 1] == '\r' then line[..|line| - 1] else line
  }

  function JoinLines(lines: seq<string>): string {
    if lines == [] then "" else if |lines| == 1 then lines[0] else lines[0] + "\n" + JoinLines(lines[1..])
  }
}
