/** Results, options and the pieces of Go's `strings` and `unicode` packages the
    publishing core relies on: substring search, ASCII-plus-Danish case mapping,
    whitespace trimming and single-character replacement. */
module Text {

  datatype Option<+T> = None | Some(value: T)

  datatype Result<+T, +E> = Ok(value: T) | Err(error: E)

  // ---------------------------------------------------------------------------
  // Substring search (strings.Index, strings.Contains)
  // ---------------------------------------------------------------------------

  /** `pat` occurs in `s` starting at index `i`. */
  predicate OccursAt(s: string, pat: string, i: int) {
    0 <= i && i + |pat| <= |s| && s[i..i + |pat|] == pat
  }

  /** Index of the first occurrence of `pat` in `s` at or after `from`, or -1. */
  function IndexFrom(s: string, pat: string, from: nat): (r: int)
    ensures r == -1 || (from <= r && OccursAt(s, pat, r))
    ensures r == -1 ==> forall j :: from <= j ==> !OccursAt(s, pat, j)
    ensures r != -1 ==> forall j :: from <= j < r ==> !OccursAt(s, pat, j)
    decreases |s| - from
  {
    if from + |pat| > |s| then -1
    else if s[from..from + |pat|] == pat then from
    else IndexFrom(s, pat, from + 1)
  }

  /** strings.Index: the first occurrence of `pat` in `s`, or -1. */
  function IndexOf(s: string, pat: string): (r: int)
    ensures r == -1 || OccursAt(s, pat, r)
    ensures r == -1 <==> forall j :: !OccursAt(s, pat, j)
    ensures forall j :: 0 <= j < r ==> !OccursAt(s, pat, j)
  {
    IndexFrom(s, pat, 0)
  }

  /** strings.Contains. */
  predicate Contains(s: string, pat: string) {
    IndexOf(s, pat) >= 0
  }

  /** The first occurrence at or after `from` is the one at `k` when none lies in between. */
  lemma IndexFromIs(s: string, pat: string, from: nat, k: int)
    requires from <= k && OccursAt(s, pat, k)
    requires forall j :: from <= j < k ==> !OccursAt(s, pat, j)
    ensures IndexFrom(s, pat, from) == k
  {
  }

  /** One mismatching character rules out an occurrence. */
  lemma NotOccursAtByChar(s: string, pat: string, k: int, m: int)
    requires 0 <= m < |pat|
    requires 0 <= k + m < |s| ==> s[k + m] != pat[m]
    ensures !OccursAt(s, pat, k)
  {
    if 0 <= k && k + |pat| <= |s| {
      assert s[k..k + |pat|][m] == s[k + m];
    }
  }

  /** A pattern whose first character is absent from `s` does not occur in it. */
  lemma FirstCharAbsent(s: string, pat: string)
    requires |pat| > 0 && forall i :: 0 <= i < |s| ==> s[i] != pat[0]
    ensures !Contains(s, pat)
  {
    forall k ensures !OccursAt(s, pat, k) {
      NotOccursAtByChar(s, pat, k, 0);
    }
  }

  lemma ContainsAt(s: string, pat: string, i: int)
    requires OccursAt(s, pat, i)
    ensures Contains(s, pat)
  {
  }

  /** An occurrence inside `a` is an occurrence inside `a + b`, at the same index. */
  lemma OccursInPrefix(a: string, b: string, pat: string, i: int)
    requires OccursAt(a, pat, i)
    ensures OccursAt(a + b, pat, i)
  {
    assert (a + b)[i..i + |pat|] == a[i..i + |pat|];
  }

  /** An occurrence that starts inside the `b` part of `a + b` is one of `b`. */
  lemma OccursInRightPart(a: string, b: string, pat: string, i: int)
    requires OccursAt(a + b, pat, i) && |a| <= i
    ensures OccursAt(b, pat, i - |a|)
  {
    assert (a + b)[i..i + |pat|] == b[i - |a|..i - |a| + |pat|];
  }

  lemma PrefixOccurrences(a: string, b: string, pat: string)
    ensures forall k :: OccursAt(a, pat, k) ==> OccursAt(a + b, pat, k)
  {
    forall k | OccursAt(a, pat, k) ensures OccursAt(a + b, pat, k) {
      OccursInPrefix(a, b, pat, k);
    }
  }

  /** An occurrence that lies wholly inside the `a` part of `a + b` is one of `a`. */
  lemma OccursInLeftPart(a: string, b: string, pat: string, i: int)
    requires OccursAt(a + b, pat, i) && i + |pat| <= |a|
    ensures OccursAt(a, pat, i)
  {
    assert (a + b)[i..i + |pat|] == a[i..i + |pat|];
  }

  // ---------------------------------------------------------------------------
  // Case mapping (strings.ToUpper / strings.ToLower), abstracted to ASCII
  // letters plus the Danish letters Æ (U+00C6), Ø (U+00D8) and Å (U+00C5).
  // ---------------------------------------------------------------------------

  const LowerAE: char := '\U{E6}'
  const LowerOE: char := '\U{F8}'
  const LowerAA: char := '\U{E5}'
  const UpperAE: char := '\U{C6}'
  const UpperOE: char := '\U{D8}'
  const UpperAA: char := '\U{C5}'

  function UpperChar(c: char): char {
    if 'a' <= c <= 'z' then (c as int - 32) as char
    else if c == LowerAE then UpperAE
    else if c == LowerOE then UpperOE
    else if c == LowerAA then UpperAA
    else c
  }

  function LowerChar(c: char): char {
    if 'A' <= c <= 'Z' then (c as int + 32) as char
    else if c == UpperAE then LowerAE
    else if c == UpperOE then LowerOE
    else if c == UpperAA then LowerAA
    else c
  }

  function ToUpper(s: string): (r: string)
    ensures |r| == |s|
  {
    seq(|s|, i requires 0 <= i < |s| => UpperChar(s[i]))
  }

  function ToLower(s: string): (r: string)
    ensures |r| == |s|
  {
    seq(|s|, i requires 0 <= i < |s| => LowerChar(s[i]))
  }

  /** A text without lower-case letters is its own upper-case form. */
  lemma NoLowerIsFixed(s: string)
    requires forall i :: 0 <= i < |s| ==> UpperChar(s[i]) == s[i]
    ensures ToUpper(s) == s
  {
  }

  lemma ToUpperConcat(a: string, b: string)
    ensures ToUpper(a + b) == ToUpper(a) + ToUpper(b)
  {
    assert forall i :: 0 <= i < |a + b| ==> ToUpper(a + b)[i] == (ToUpper(a) + ToUpper(b))[i];
  }

  lemma ToLowerConcat(a: string, b: string)
    ensures ToLower(a + b) == ToLower(a) + ToLower(b)
  {
    assert forall i :: 0 <= i < |a + b| ==> ToLower(a + b)[i] == (ToLower(a) + ToLower(b))[i];
  }

  // ---------------------------------------------------------------------------
  // Hexadecimal digits
  // ---------------------------------------------------------------------------

  /** An upper-case hexadecimal digit: 0-9 or A-F. */
  predicate IsUpperHex(c: char) {
    '0' <= c <= '9' || 'A' <= c <= 'F'
  }

  predicate AllUpperHex(s: string) {
    forall i :: 0 <= i < |s| ==> IsUpperHex(s[i])
  }

  lemma UpperHexIsFixed(h: string)
    requires AllUpperHex(h)
    ensures ToUpper(h) == h
  {
  }

  // ---------------------------------------------------------------------------
  // Whitespace trimming (strings.TrimSpace / bytes.TrimSpace)
  // ---------------------------------------------------------------------------

  /** White space in the sense of unicode.IsSpace, restricted to Latin-1. */
  predicate IsSpace(c: char) {
    c == ' ' || c == '\t' || c == '\n' || c == '\r' || c == '\U{B}' || c == '\U{C}'
    || c == '\U{85}' || c == '\U{A0}'
  }

  function TrimLeft(s: string): (r: string)
    ensures r == [] || !IsSpace(r[0])
  {
    if s != [] && IsSpace(s[0]) then TrimLeft(s[1..]) else s
  }

  function TrimRight(s: string): (r: string)
    ensures r == [] || !IsSpace(r[|r| - 1])
  {
    if s != [] && IsSpace(s[|s| - 1]) then TrimRight(s[..|s| - 1]) else s
  }

  function TrimSpace(s: string): string {
    TrimRight(TrimLeft(s))
  }

  lemma {:induction false} TrimLeftSkipsLeadingSpace(w: string, s: string)
    requires forall i :: 0 <= i < |w| ==> IsSpace(w[i])
    ensures TrimLeft(w + s) == TrimLeft(s)
  {
    if w == [] {
      assert w + s == s;
    } else {
      assert (w + s)[0] == w[0];
      assert (w + s)[1..] == w[1..] + s;
      TrimLeftSkipsLeadingSpace(w[1..], s);
    }
  }

  /** Leading white space never survives trimming. */
  lemma TrimSpaceSkipsLeadingSpace(w: string, s: string)
    requires forall i :: 0 <= i < |w| ==> IsSpace(w[i])
    ensures TrimSpace(w + s) == TrimSpace(s)
  {
    TrimLeftSkipsLeadingSpace(w, s);
  }

  // ---------------------------------------------------------------------------
  // strings.ReplaceAll with a one-character pattern
  // ---------------------------------------------------------------------------

  /** Every occurrence of the character `from` in `s` replaced by `to`. */
  function ReplaceChar(s: string, from: char, to: string): string {
    if s == [] then []
    else (if s[0] == from then to else [s[0]]) + ReplaceChar(s[1..], from, to)
  }

  lemma {:induction false} ReplaceCharConcat(a: string, b: string, from: char, to: string)
    ensures ReplaceChar(a + b, from, to) == ReplaceChar(a, from, to) + ReplaceChar(b, from, to)
  {
    if a == [] {
      assert a + b == b;
    } else {
      assert (a + b)[0] == a[0];
      assert (a + b)[1..] == a[1..] + b;
      ReplaceCharConcat(a[1..], b, from, to);
    }
  }

  /** Replacing a character that does not occur changes nothing. */
  lemma {:induction false} ReplaceCharAbsent(s: string, from: char, to: string)
    requires forall i :: 0 <= i < |s| ==> s[i] != from
    ensures ReplaceChar(s, from, to) == s
  {
    if s != [] {
      ReplaceCharAbsent(s[1..], from, to);
    }
  }

  lemma ReplaceCharSingle(c: char, from: char, to: string)
    ensures ReplaceChar([c], from, to) == if c == from then to else [c]
  {
    assert [c][1..] == [];
  }
}
