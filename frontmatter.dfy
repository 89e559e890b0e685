/** The article document: six workflow flags resolved by "the last flag equal to 1
    wins", the title slug, the `---` split of a frontmatter document and the layout it
    is written back in, and the shape of a generated article ID. */
module Frontmatter {
  import opened Text
  import opened Paths

  // ---------------------------------------------------------------------------
  // Status flags
  // ---------------------------------------------------------------------------

  /** The six workflow flags; 1 means set, any other value means not set. */
  datatype Status = Status(draft: int, revision: int, publish: int, published: int, rejected: int, update: int)

  /** The flag names, in the order in which later flags override earlier ones. */
  const StatusNames: seq<string> := ["draft", "revision", "publish", "published", "rejected", "update"]

  const UnknownStatus: string := "unknown"

  function Flags(s: Status): (f: seq<int>)
    ensures |f| == |StatusNames|
  {
    [s.draft, s.revision, s.publish, s.published, s.rejected, s.update]
  }

  lemma StatusNamesDistinct()
    ensures forall i, j :: 0 <= i < j < |StatusNames| ==> StatusNames[i] != StatusNames[j]
    ensures UnknownStatus !in StatusNames
  {
  }

  /** Index of the last of the first `n` flags that equals 1, or -1. */
  function LastSet(flags: seq<int>, n: nat): (k: int)
    requires n <= |flags|
    ensures -1 <= k < n
    ensures k >= 0 ==> flags[k] == 1
    ensures forall j :: k < j < n ==> flags[j] != 1
  {
    if n == 0 then -1
    else if flags[n - 1] == 1 then n - 1
    else LastSet(flags, n - 1)
  }

  /** The name for a result of LastSet. */
  function NameAt(k: int): string
    requires k < |StatusNames|
  {
    if k < 0 then UnknownStatus else StatusNames[k]
  }

  /** The status an article is in: the name of the last flag equal to 1. */
  function CurrentStatus(s: Status): string {
    NameAt(LastSet(Flags(s), |StatusNames|))
  }

  /** The current status is the k-th name exactly when flag k is 1 and no later flag is. */
  lemma CurrentStatusIs(s: Status, k: nat)
    requires k < |StatusNames|
    ensures CurrentStatus(s) == StatusNames[k]
        <==> Flags(s)[k] == 1 && forall j :: k < j < |StatusNames| ==> Flags(s)[j] != 1
  {
    StatusNamesDistinct();
    var f := Flags(s);
    var m := LastSet(f, |StatusNames|);
    if f[k] == 1 && forall j :: k < j < |StatusNames| ==> f[j] != 1 {
      assert m == k;
    }
  }

  /** The status is "unknown" exactly when no flag equals 1; other values are ignored. */
  lemma CurrentStatusUnknown(s: Status)
    ensures CurrentStatus(s) == UnknownStatus <==> forall k :: 0 <= k < |StatusNames| ==> Flags(s)[k] != 1
  {
    StatusNamesDistinct();
  }

  /** Index of a status name, or -1 when the name is not one of the six. */
  function StatusIndex(name: string): (k: int)
    ensures -1 <= k < |StatusNames|
    ensures k >= 0 ==> StatusNames[k] == name
    ensures k < 0 <==> name !in StatusNames
  {
    if name == "draft" then 0
    else if name == "revision" then 1
    else if name == "publish" then 2
    else if name == "published" then 3
    else if name == "rejected" then 4
    else if name == "update" then 5
    else -1
  }

  /** The effect of UpdateStatus on the flags: set the named flag to 1, or reject the name. */
  function SetFlag(s: Status, name: string): (r: Option<Status>)
    ensures r.None? <==> name !in StatusNames
    ensures r.Some? ==> forall k :: 0 <= k < |StatusNames| ==>
      Flags(r.value)[k] == (if StatusNames[k] == name then 1 else Flags(s)[k])
  {
    if name == "draft" then Some(s.(draft := 1))
    else if name == "revision" then Some(s.(revision := 1))
    else if name == "publish" then Some(s.(publish := 1))
    else if name == "published" then Some(s.(published := 1))
    else if name == "rejected" then Some(s.(rejected := 1))
    else if name == "update" then Some(s.(update := 1))
    else None
  }

  /** After setting a flag the current status is that flag or one later in the order. */
  lemma SetFlagAdvances(s: Status, name: string)
    requires SetFlag(s, name).Some?
    ensures StatusIndex(CurrentStatus(SetFlag(s, name).value)) >= StatusIndex(name)
  {
    StatusNamesDistinct();
    var t := SetFlag(s, name).value;
    var i := StatusIndex(name);
    assert Flags(t)[i] == 1;
    var m := LastSet(Flags(t), |StatusNames|);
    assert m >= i;
    assert CurrentStatus(t) == StatusNames[m];
  }

  /** Setting a flag makes it current exactly when no later flag was already 1: the
      other flags are kept, so an earlier status never overrides a later one. */
  lemma SetFlagBecomesCurrent(s: Status, name: string)
    requires SetFlag(s, name).Some?
    ensures CurrentStatus(SetFlag(s, name).value) == name
        <==> forall j :: StatusIndex(name) < j < |StatusNames| ==> Flags(s)[j] != 1
  {
    var t := SetFlag(s, name).value;
    var i := StatusIndex(name);
    StatusNamesDistinct();
    CurrentStatusIs(t, i);
    assert forall j :: i < j < |StatusNames| ==> Flags(t)[j] == Flags(s)[j];
  }

  /** "update" is the last flag, so setting it always makes it current. */
  lemma UpdateAlwaysWins(s: Status)
    ensures SetFlag(s, "update").Some?
    ensures CurrentStatus(SetFlag(s, "update").value) == "update"
  {
    SetFlagBecomesCurrent(s, "update");
  }

  /** The flags are not cleared: from all six set, setting "draft" leaves "update" current. */
  lemma SetFlagDoesNotClear()
    ensures SetFlag(Status(1, 1, 1, 1, 1, 1), "draft") == Some(Status(1, 1, 1, 1, 1, 1))
    ensures CurrentStatus(Status(1, 1, 1, 1, 1, 1)) == "update"
  {
  }

  // ---------------------------------------------------------------------------
  // Slug
  // ---------------------------------------------------------------------------

  /** A character the slug pattern keeps: a-z, 0-9 or '-'. */
  predicate IsSlugChar(c: char) {
    'a' <= c <= 'z' || '0' <= c <= '9' || c == '-'
  }

  predicate IsSlug(s: string) {
    forall i :: 0 <= i < |s| ==> IsSlugChar(s[i])
  }

  /** Removal of every run of characters outside [a-z0-9-]. */
  function KeepSlugChars(s: string): (r: string)
    ensures IsSlug(r)
    ensures |r| <= |s|
  {
    if s == [] then []
    else (if IsSlugChar(s[0]) then [s[0]] else []) + KeepSlugChars(s[1..])
  }

  /** The four replacements applied to the lower-cased title before filtering. */
  function SlugReplacements(s: string): string {
    ReplaceChar(ReplaceChar(ReplaceChar(ReplaceChar(s, ' ', "-"), LowerAE, "ae"), LowerOE, "oe"), LowerAA, "aa")
  }

  /** GetSlug: lower-case, replace space and æ/ø/å, then drop every other character. */
  function Slug(title: string): string {
    KeepSlugChars(SlugReplacements(ToLower(title)))
  }

  /** What a single title character contributes to the slug. */
  function CharSlug(c: char): string {
    var l := LowerChar(c);
    if l == ' ' then "-"
    else if l == LowerAE then "ae"
    else if l == LowerOE then "oe"
    else if l == LowerAA then "aa"
    else if IsSlugChar(l) then [l]
    else []
  }

  /** The slug as the character-by-character reference definition. */
  function SlugByChar(title: string): string {
    if title == [] then [] else CharSlug(title[0]) + SlugByChar(title[1..])
  }

  lemma {:induction false} KeepSlugCharsConcat(a: string, b: string)
    ensures KeepSlugChars(a + b) == KeepSlugChars(a) + KeepSlugChars(b)
  {
    if a == [] {
      assert a + b == b;
    } else {
      assert (a + b)[0] == a[0];
      assert (a + b)[1..] == a[1..] + b;
      KeepSlugCharsConcat(a[1..], b);
    }
  }

  lemma {:induction false} KeepSlugCharsOfSlug(s: string)
    requires IsSlug(s)
    ensures KeepSlugChars(s) == s
  {
    if s != [] {
      KeepSlugCharsOfSlug(s[1..]);
    }
  }

  lemma SlugReplacementsConcat(a: string, b: string)
    ensures SlugReplacements(a + b) == SlugReplacements(a) + SlugReplacements(b)
  {
    var s1a := ReplaceChar(a, ' ', "-");
    var s1b := ReplaceChar(b, ' ', "-");
    ReplaceCharConcat(a, b, ' ', "-");
    var s2a := ReplaceChar(s1a, LowerAE, "ae");
    var s2b := ReplaceChar(s1b, LowerAE, "ae");
    ReplaceCharConcat(s1a, s1b, LowerAE, "ae");
    var s3a := ReplaceChar(s2a, LowerOE, "oe");
    var s3b := ReplaceChar(s2b, LowerOE, "oe");
    ReplaceCharConcat(s2a, s2b, LowerOE, "oe");
    ReplaceCharConcat(s3a, s3b, LowerAA, "aa");
  }

  lemma SlugOfChar(c: char)
    ensures Slug([c]) == CharSlug(c)
  {
    var l := LowerChar(c);
    assert ToLower([c]) == [l];
    ReplaceCharSingle(l, ' ', "-");
    var r1 := if l == ' ' then "-" else [l];
    assert ReplaceChar([l], ' ', "-") == r1;
    if l == ' ' {
      ReplaceCharAbsent("-", LowerAE, "ae");
      ReplaceCharAbsent("-", LowerOE, "oe");
      ReplaceCharAbsent("-", LowerAA, "aa");
      assert SlugReplacements([l]) == "-";
    } else if l == LowerAE {
      ReplaceCharSingle(l, LowerAE, "ae");
      ReplaceCharAbsent("ae", LowerOE, "oe");
      ReplaceCharAbsent("ae", LowerAA, "aa");
      assert SlugReplacements([l]) == "ae";
    } else if l == LowerOE {
      ReplaceCharSingle(l, LowerAE, "ae");
      ReplaceCharSingle(l, LowerOE, "oe");
      ReplaceCharAbsent("oe", LowerAA, "aa");
      assert SlugReplacements([l]) == "oe";
    } else if l == LowerAA {
      ReplaceCharSingle(l, LowerAE, "ae");
      ReplaceCharSingle(l, LowerOE, "oe");
      ReplaceCharSingle(l, LowerAA, "aa");
      assert SlugReplacements([l]) == "aa";
    } else {
      ReplaceCharSingle(l, LowerAE, "ae");
      ReplaceCharSingle(l, LowerOE, "oe");
      ReplaceCharSingle(l, LowerAA, "aa");
      assert SlugReplacements([l]) == [l];
      assert [l][1..] == [];
    }
  }

  /** The slug of a concatenation is the concatenation of the slugs. */
  lemma SlugConcat(a: string, b: string)
    ensures Slug(a + b) == Slug(a) + Slug(b)
  {
    ToLowerConcat(a, b);
    SlugReplacementsConcat(ToLower(a), ToLower(b));
    KeepSlugCharsConcat(SlugReplacements(ToLower(a)), SlugReplacements(ToLower(b)));
  }

  /** GetSlug agrees with the character-by-character reference definition, so a
      space becomes '-', æ/ø/å (either case) become ae/oe/aa, a-z/0-9/- (either case)
      are kept and every other character is dropped. */
  lemma {:induction false} SlugMatchesReference(title: string)
    ensures Slug(title) == SlugByChar(title)
  {
    if title == [] {
      assert ToLower(title) == [];
      assert ReplaceChar([], ' ', "-") == [];
    } else {
      assert title == [title[0]] + title[1..];
      SlugConcat([title[0]], title[1..]);
      SlugOfChar(title[0]);
      SlugMatchesReference(title[1..]);
    }
  }

  lemma SlugCharsAreFixed(s: string)
    requires IsSlug(s)
    ensures ToLower(s) == s
    ensures SlugReplacements(s) == s
  {
    ReplaceCharAbsent(s, ' ', "-");
    ReplaceCharAbsent(s, LowerAE, "ae");
    ReplaceCharAbsent(s, LowerOE, "oe");
    ReplaceCharAbsent(s, LowerAA, "aa");
  }

  /** A slug holds only a-z, 0-9 and '-', and slugging a slug changes nothing. */
  lemma SlugIdempotent(title: string)
    ensures IsSlug(Slug(title))
    ensures Slug(Slug(title)) == Slug(title)
  {
    var s := Slug(title);
    SlugCharsAreFixed(s);
    KeepSlugCharsOfSlug(s);
  }

  // ---------------------------------------------------------------------------
  // Article IDs
  // ---------------------------------------------------------------------------

  /** The ID shape: '#' followed by exactly six upper-case hexadecimal digits. */
  predicate IsArticleId(s: string) {
    |s| == 7 && s[0] == '#' && AllUpperHex(s[1..])
  }

  type Digest = d: seq<bv8> | |d| == 32 witness seq(32, _ => 0 as bv8)

  const LowerHexDigits: string := "0123456789abcdef"

  predicate IsLowerHex(c: char) {
    '0' <= c <= '9' || 'a' <= c <= 'f'
  }

  /** The two lower-case digits of one byte, high nibble first. */
  function HexPair(b: bv8): (r: string)
    ensures |r| == 2 && IsLowerHex(r[0]) && IsLowerHex(r[1])
  {
    [LowerHexDigits[(b >> 4) as int], LowerHexDigits[(b & 15) as int]]
  }

  /** hex.EncodeToString: two lower-case digits per byte. */
  function HexEncode(bytes: seq<bv8>): (r: string)
    ensures |r| == 2 * |bytes|
    ensures forall i :: 0 <= i < |r| ==> IsLowerHex(r[i])
  {
    if bytes == [] then []
    else HexPair(bytes[0]) + HexEncode(bytes[1..])
  }

  /** The digits of the first `n` bytes are the first `2 * n` digits. */
  lemma {:induction false} HexEncodePrefix(bytes: seq<bv8>, n: nat)
    requires n <= |bytes|
    ensures HexEncode(bytes)[..2 * n] == HexEncode(bytes[..n])
  {
    if n > 0 {
      var pair := HexPair(bytes[0]);
      var tail := HexEncode(bytes[1..]);
      HexEncodePrefix(bytes[1..], n - 1);
      assert bytes[..n][0] == bytes[0] && bytes[..n][1..] == bytes[1..][..n - 1];
      assert HexEncode(bytes[..n]) == pair + HexEncode(bytes[1..][..n - 1]);
      assert (pair + tail)[..2 * n] == pair + tail[..2 * (n - 1)];
    }
  }

  /** generateID: the first six digits of the upper-cased hex digest, after a '#'. */
  function GenerateId(digest: Digest): (id: string)
    ensures IsArticleId(id)
  {
    var hex := ToUpper(HexEncode(digest));
    "#" + hex[..6]
  }

  /** The ID is determined by the first three bytes of the digest. */
  lemma GenerateIdUsesThreeBytes(digest: Digest)
    ensures GenerateId(digest) == "#" + ToUpper(HexEncode(digest[..3]))
  {
    HexEncodePrefix(digest, 3);
    var h := HexEncode(digest);
    assert h == h[..6] + h[6..];
    ToUpperConcat(h[..6], h[6..]);
  }

  // ---------------------------------------------------------------------------
  // The document: split, parse and layout
  // ---------------------------------------------------------------------------

  const Delim: string := "---"

  /** The text holds two non-overlapping `---` delimiters. */
  ghost predicate TwoDelimiters(data: string) {
    exists i, j :: 0 <= i && i + |Delim| <= j && OccursAt(data, Delim, i) && OccursAt(data, Delim, j)
  }

  /** Two delimiters exist exactly when the first one is followed by another. */
  lemma TwoDelimitersByIndex(data: string)
    ensures TwoDelimiters(data) <==>
      IndexOf(data, Delim) >= 0 && IndexFrom(data, Delim, IndexOf(data, Delim) + |Delim|) >= 0
  {
    var i := IndexOf(data, Delim);
    if TwoDelimiters(data) {
      var a, b :| 0 <= a && a + |Delim| <= b && OccursAt(data, Delim, a) && OccursAt(data, Delim, b);
      assert i >= 0 && i <= a;
      assert OccursAt(data, Delim, b) && i + |Delim| <= b;
    }
    if i >= 0 {
      var j := IndexFrom(data, Delim, i + |Delim|);
      if j >= 0 {
        assert OccursAt(data, Delim, i) && OccursAt(data, Delim, j) && i + |Delim| <= j;
      }
    }
  }

  /** `i` and `j` are the first two non-overlapping delimiters of `data`, and `parts`
      the text between them and the text after the second. */
  predicate SplitAt(data: string, i: int, j: int, parts: (string, string)) {
    0 <= i && i + |Delim| <= j && OccursAt(data, Delim, i) && OccursAt(data, Delim, j)
    && (forall k :: 0 <= k < i ==> !OccursAt(data, Delim, k))
    && (forall k :: i + |Delim| <= k < j ==> !OccursAt(data, Delim, k))
    && parts == (data[i + |Delim|..j], data[j + |Delim|..])
  }

  lemma SplitAtIndexes(data: string)
    requires IndexOf(data, Delim) >= 0
    requires IndexFrom(data, Delim, IndexOf(data, Delim) + |Delim|) >= 0
    ensures var i := IndexOf(data, Delim);
      var j := IndexFrom(data, Delim, i + |Delim|);
      SplitAt(data, i, j, (data[i + |Delim|..j], data[j + |Delim|..]))
  {
  }

  /** bytes.SplitN(data, "---", 3) when it yields three parts: the text between the first
      two delimiters and the text after the second; the text before the first is dropped. */
  function SplitFrontmatter(data: string): Option<(string, string)> {
    var i := IndexOf(data, Delim);
    if i < 0 then None
    else
      var j := IndexFrom(data, Delim, i + |Delim|);
      if j < 0 then None
      else Some((data[i + |Delim|..j], data[j + |Delim|..]))
  }

  /** The split fails exactly when there are not two delimiters, and otherwise cuts at
      the first delimiter and the first one after it. */
  lemma SplitFrontmatterSpec(data: string)
    ensures SplitFrontmatter(data).None? <==> !TwoDelimiters(data)
    ensures SplitFrontmatter(data).Some? ==> exists i, j :: SplitAt(data, i, j, SplitFrontmatter(data).value)
  {
    TwoDelimitersByIndex(data);
    if SplitFrontmatter(data).Some? {
      SplitAtIndexes(data);
    }
  }

  /** The fields of the metadata block; `extra` stands for the optional SEO,
      organisation and branding fields, which the core never inspects. */
  datatype FrontMatter = FrontMatter(id: string, title: string, author: string, status: Status, extra: string)

  /** What YAML decoding of the metadata block yields. `Content` has no YAML tag, so a
      `content` key in the block, when present, overrides the text after the block. */
  datatype Decoded = Decoded(front: FrontMatter, content: Option<string>)

  /** The YAML library and the hash function, which are not modelled. */
  datatype Codec = Codec(
    decode: string -> Option<Decoded>,
    encode: (FrontMatter, string) -> string,
    hash: string -> Digest)

  /** A parsed article before its ID is filled in. */
  datatype Document = Document(front: FrontMatter, content: string)

  datatype ParseError =
    | ReadFailed(path: string)
    | MissingDelimiters
    | BadFrontmatter
    | MissingTitle
    | MissingAuthor

  /** The split/validate part of ParseArticle. */
  function ParseDocument(data: string, decode: string -> Option<Decoded>): (r: Result<Document, ParseError>)
    ensures r == Err(MissingDelimiters) <==> !TwoDelimiters(data)
    ensures r.Ok? ==> r.value.front.title != "" && r.value.front.author != ""
    ensures r.Ok? ==> exists block, rest ::
      SplitFrontmatter(data) == Some((block, rest)) && decode(block).Some?
      && r.value.front == decode(block).value.front
      && r.value.content == (if decode(block).value.content.Some? then decode(block).value.content.value else TrimSpace(rest))
    ensures SplitFrontmatter(data).Some? ==>
      var d := decode(SplitFrontmatter(data).value.0);
      (d.None? ==> r == Err(BadFrontmatter))
      && (d.Some? && d.value.front.title == "" ==> r == Err(MissingTitle))
      && (d.Some? && d.value.front.title != "" && d.value.front.author == "" ==> r == Err(MissingAuthor))
      && (d.Some? && d.value.front.title != "" && d.value.front.author != "" ==> r.Ok?)
  {
    SplitFrontmatterSpec(data);
    match SplitFrontmatter(data)
    case None => Err(MissingDelimiters)
    case Some((block, rest)) =>
      match decode(block)
      case None => Err(BadFrontmatter)
      case Some(d) =>
        var content := if d.content.Some? then d.content.value else TrimSpace(rest);
        if d.front.title == "" then Err(MissingTitle)
        else if d.front.author == "" then Err(MissingAuthor)
        else Ok(Document(d.front, content))
  }

  /** ParseDocument on the file at `path`, or a read failure. */
  function ReadDocument(files: map<string, string>, path: string, decode: string -> Option<Decoded>): Result<Document, ParseError> {
    if path in files then ParseDocument(files[path], decode) else Err(ReadFailed(path))
  }

  /** The file WriteFrontmatter writes: `---`, a newline, the block, `---`, a blank line, the content. */
  function Layout(block: string, content: string): string {
    "---\n" + block + "---\n\n" + content
  }

  /** A block can be written and split back: no `---` inside, and it does not end in
      '-' (which would let a delimiter straddle the block's end). */
  predicate SplittableBlock(block: string) {
    !Contains(block, Delim) && (block == [] || block[|block| - 1] != '-')
  }

  lemma NoDelimiterBeforeClosing(block: string, content: string)
    requires SplittableBlock(block)
    ensures forall k :: 3 <= k < 4 + |block| ==> !OccursAt(Layout(block, content), Delim, k)
  {
    var data := Layout(block, content);
    assert data[3] == '\n';
    forall k | 3 <= k < 4 + |block| ensures !OccursAt(data, Delim, k) {
      if k == 3 {
        NotOccursAtByChar(data, Delim, k, 0);
      } else if k + 3 <= 4 + |block| {
        if OccursAt(data, Delim, k) {
          assert data[k..k + 3] == block[k - 4..k - 1];
          ContainsAt(block, Delim, k - 4);
        }
      } else {
        assert data[3 + |block|] == block[|block| - 1];
        NotOccursAtByChar(data, Delim, k, 3 + |block| - k);
      }
    }
  }

  /** Splitting the written layout gives back the block and the content, each behind
      the newlines the layout adds. */
  lemma LayoutSplits(block: string, content: string)
    requires SplittableBlock(block)
    ensures SplitFrontmatter(Layout(block, content)) == Some(("\n" + block, "\n\n" + content))
  {
    var data := Layout(block, content);
    var close := 4 + |block|;
    LayoutParts(block, content);
    assert IndexOf(data, Delim) == 0 by {
      IndexFromIs(data, Delim, 0, 0);
    }
    assert IndexFrom(data, Delim, 3) == close by {
      NoDelimiterBeforeClosing(block, content);
      IndexFromIs(data, Delim, 3, close);
    }
    SplitByIndexes(data, 0, close);
  }

  /** The split is given by the first delimiter and the next one after it. */
  lemma SplitByIndexes(data: string, i: int, j: int)
    requires 0 <= i && IndexOf(data, Delim) == i
    requires i + |Delim| <= j && IndexFrom(data, Delim, i + |Delim|) == j
    ensures SplitFrontmatter(data) == Some((data[i + |Delim|..j], data[j + |Delim|..]))
  {
  }

  /** Where the pieces of the layout sit. */
  lemma LayoutParts(block: string, content: string)
    ensures var data := Layout(block, content);
      var close := 4 + |block|;
      |data| == close + 3 + 2 + |content|
      && data[..3] == Delim && data[3..close] == "\n" + block
      && data[close..close + 3] == Delim && data[close + 3..] == "\n\n" + content
  {
    var data := Layout(block, content);
    assert data == Delim + ("\n" + block) + Delim + ("\n\n" + content);
  }

  /** Round trip of the layout: re-parsing a written file yields the decoded fields and,
      unless the block carries its own `content` key, the trimmed content. */
  lemma ParseLayout(block: string, content: string, decode: string -> Option<Decoded>)
    requires SplittableBlock(block)
    requires decode("\n" + block).Some?
    requires decode("\n" + block).value.front.title != "" && decode("\n" + block).value.front.author != ""
    ensures ParseDocument(Layout(block, content), decode) == Ok(Document(
      decode("\n" + block).value.front,
      if decode("\n" + block).value.content.Some? then decode("\n" + block).value.content.value
      else TrimSpace(content)))
  {
    LayoutSplits(block, content);
    TrimSpaceSkipsLeadingSpace("\n\n", content);
  }

  // ---------------------------------------------------------------------------
  // The article object
  // ---------------------------------------------------------------------------

  /** A parsed article; `filePath` is not part of the frontmatter. */
  class Article {
    var filePath: string
    var id: string
    var title: string
    var author: string
    var status: Status
    var extra: string
    var content: string

    constructor (path: string, front: FrontMatter, content: string)
      ensures filePath == path && Front() == front && this.content == content
    {
      filePath := path;
      id := front.id;
      title := front.title;
      author := front.author;
      status := front.status;
      extra := front.extra;
      this.content := content;
    }

    /** The fields that are marshalled into the metadata block. */
    function Front(): FrontMatter
      reads this
    {
      FrontMatter(id, title, author, status, extra)
    }

    /** GetCurrentStatus: walk the six (name, flag) pairs, keeping the last name whose flag is 1. */
    method GetCurrentStatus() returns (current: string)
      ensures current == CurrentStatus(status)
    {
      var flags := Flags(status);
      var statuses := [("draft", flags[0]), ("revision", flags[1]), ("publish", flags[2]),
                       ("published", flags[3]), ("rejected", flags[4]), ("update", flags[5])];
      current := UnknownStatus;
      var i := 0;
      while i < |statuses|
        invariant 0 <= i <= |statuses| == |StatusNames|
        invariant current == NameAt(LastSet(flags, i))
      {
        assert statuses[i] == (StatusNames[i], flags[i]);
        if statuses[i].1 == 1 {
          current := statuses[i].0;
        }
        i := i + 1;
      }
    }

    /** UpdateStatus: set the named flag to 1 and keep the other five; an unknown name
        is an error and changes nothing. */
    method UpdateStatus(newStatus: string) returns (err: Option<string>)
      modifies this`status
      ensures err.Some? <==> newStatus !in StatusNames
      ensures err.Some? ==> err.value == "invalid status: " + newStatus && status == old(status)
      ensures err.None? ==> status == SetFlag(old(status), newStatus).value
    {
      err := None;
      if newStatus == "draft" {
        status := status.(draft := 1);
      } else if newStatus == "revision" {
        status := status.(revision := 1);
      } else if newStatus == "publish" {
        status := status.(publish := 1);
      } else if newStatus == "published" {
        status := status.(published := 1);
      } else if newStatus == "rejected" {
        status := status.(rejected := 1);
      } else if newStatus == "update" {
        status := status.(update := 1);
      } else {
        err := Some("invalid status: " + newStatus);
      }
    }

    /** GetSlug. */
    function GetSlug(): (slug: string)
      reads this
      ensures IsSlug(slug)
      ensures slug == SlugByChar(title)
    {
      SlugMatchesReference(title);
      SlugIdempotent(title);
      Slug(title)
    }

    /** WriteFrontmatter: marshal the fields (content included) and write the layout to `filePath`. */
    method WriteFrontmatter(disk: Disk, codec: Codec)
      modifies disk`files
      ensures disk.files == old(disk.files)[filePath := Layout(codec.encode(Front(), content), content)]
    {
      var block := codec.encode(Front(), content);
      disk.WriteFile(filePath, Layout(block, content));
    }
  }

  /** The text hashed for a new ID: title, author and a timestamp, separated by '|'. */
  function IdSeed(title: string, author: string, stamp: string): string {
    title + "|" + author + "|" + stamp
  }

  /** The fields ParseArticle returns: an empty ID is replaced by a generated one. */
  function FillId(front: FrontMatter, codec: Codec, stamp: string): (f: FrontMatter)
    ensures f == front.(id := f.id)
    ensures front.id != "" ==> f == front
    ensures front.id == "" ==> IsArticleId(f.id)
  {
    if front.id != "" then front
    else front.(id := GenerateId(codec.hash(IdSeed(front.title, front.author, stamp))))
  }

  /** The files after ParseArticle: the article's file is rewritten exactly when its ID
      had to be generated. */
  function FilesAfterParse(files: map<string, string>, path: string, codec: Codec, stamp: string): map<string, string> {
    match ReadDocument(files, path, codec.decode)
    case Err(_) => files
    case Ok(doc) =>
      if doc.front.id != "" then files
      else files[path := Layout(codec.encode(FillId(doc.front, codec, stamp), doc.content), doc.content)]
  }

  /** ParseArticle: read and parse the file; when it has no ID, generate one from the
      title, the author and the timestamp `stamp`, and write the frontmatter back. */
  method ParseArticle(disk: Disk, path: string, codec: Codec, stamp: string) returns (r: Result<Article, ParseError>)
    modifies disk`files
    ensures disk.files == FilesAfterParse(old(disk.files), path, codec, stamp)
    ensures r.Ok? <==> ReadDocument(old(disk.files), path, codec.decode).Ok?
    ensures r.Err? ==> r.error == ReadDocument(old(disk.files), path, codec.decode).error
    ensures r.Ok? ==> var doc := ReadDocument(old(disk.files), path, codec.decode).value;
      fresh(r.value) && r.value.filePath == path && r.value.content == doc.content
      && r.value.Front() == FillId(doc.front, codec, stamp)
  {
    var read := disk.ReadFile(path);
    if read.Err? {
      return Err(ReadFailed(path));
    }
    var parsed := ParseDocument(read.value, codec.decode);
    if parsed.Err? {
      return Err(parsed.error);
    }
    var doc := parsed.value;
    var article := new Article(path, doc.front, doc.content);
    if article.id == "" {
      article.id := GenerateId(codec.hash(IdSeed(article.title, article.author, stamp)));
      article.WriteFrontmatter(disk, codec);
    }
    return Ok(article);
  }

  /** The block a written article's file holds splits cleanly. */
  predicate WritesCleanly(codec: Codec, front: FrontMatter, content: string) {
    SplittableBlock(codec.encode(front, content))
  }

  /** The metadata library reads back what it wrote, the content included. */
  predicate CodecRoundTrips(codec: Codec, front: FrontMatter, content: string) {
    codec.decode("\n" + codec.encode(front, content)) == Some(Decoded(front, Some(content)))
  }

  /** Writing an article and parsing the file again yields the same fields and content. */
  lemma WriteThenParse(files: map<string, string>, path: string, codec: Codec, front: FrontMatter, content: string)
    requires WritesCleanly(codec, front, content) && CodecRoundTrips(codec, front, content)
    requires front.title != "" && front.author != ""
    ensures ReadDocument(files[path := Layout(codec.encode(front, content), content)], path, codec.decode)
      == Ok(Document(front, content))
  {
    ParseLayout(codec.encode(front, content), content, codec.decode);
  }

  /** Parsing never creates or removes a file. */
  lemma ParseKeepsPaths(files: map<string, string>, path: string, codec: Codec, stamp: string)
    ensures FilesAfterParse(files, path, codec, stamp).Keys == files.Keys
  {
  }

  /** Parsing an article a second time finds the ID the first parse wrote, and rewrites
      nothing, provided the metadata library reads back what it wrote. */
  lemma ParseIsStable(files: map<string, string>, path: string, codec: Codec, stamp1: string, stamp2: string)
    requires ReadDocument(files, path, codec.decode).Ok?
    requires var doc := ReadDocument(files, path, codec.decode).value;
      var front := FillId(doc.front, codec, stamp1);
      WritesCleanly(codec, front, doc.content) && CodecRoundTrips(codec, front, doc.content)
    ensures var doc := ReadDocument(files, path, codec.decode).value;
      var after := FilesAfterParse(files, path, codec, stamp1);
      ReadDocument(after, path, codec.decode) == Ok(Document(FillId(doc.front, codec, stamp1), doc.content))
      && FilesAfterParse(after, path, codec, stamp2) == after
  {
    var doc := ReadDocument(files, path, codec.decode).value;
    var front := FillId(doc.front, codec, stamp1);
    if doc.front.id == "" {
      WriteThenParse(files, path, codec, front, doc.content);
    }
  }
}
