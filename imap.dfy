/** Decoding an approval reply: the article ID found by a backward hexadecimal scan in
    front of the first `-APPR` or `-REJ` code, the action chosen by code first and by
    keyword second, and the choice between the ID header and the ID in the text. */
module Imap {
  import opened Text
  import opened Email
  import opened Frontmatter

  datatype ApprovalAction = ActionUnknown | ActionApprove | ActionReject

  /** A decoded reply; the message ID is not filled in by the parser. */
  datatype EmailReply = EmailReply(messageId: string, subject: string, body: string, action: ApprovalAction, articleId: string)

  /** The codes searched for, in order. */
  const CodePatterns: seq<string> := [ApproveSuffix, RejectSuffix]

  // ---------------------------------------------------------------------------
  // Article ID in the text
  // ---------------------------------------------------------------------------

  /** Start of the maximal run of upper-case hex digits that ends just before `idx`. */
  function HexRunStart(u: string, idx: nat): (r: nat)
    requires idx <= |u|
    ensures r <= idx
    ensures AllUpperHex(u[r..idx])
    ensures r == 0 || !IsUpperHex(u[r - 1])
  {
    if idx == 0 || !IsUpperHex(u[idx - 1]) then idx
    else
      var r := HexRunStart(u, idx - 1);
      assert u[r..idx] == u[r..idx - 1] + [u[idx - 1]];
      r
  }

  /** The ID in front of a code found at `idx`: the hex run must be exactly six long; a
      '#' before it is kept, and one is added when it is missing. */
  function IdBeforeCode(u: string, idx: nat): (r: Option<string>)
    requires idx <= |u|
    ensures r.Some? <==> idx - HexRunStart(u, idx) == 6
    ensures r.Some? ==> r.value == "#" + u[HexRunStart(u, idx)..idx]
    ensures r.Some? ==> IsArticleId(r.value)
  {
    var start := HexRunStart(u, idx);
    if idx - start == 6 then
      assert ("#" + u[start..idx])[1..] == u[start..idx];
      Some("#" + u[start..idx])
    else None
  }

  /** The first pattern whose first occurrence (not at index 0) has a valid ID before it. */
  function ExtractFrom(u: string, patterns: seq<string>): (id: string)
    ensures id == "" || IsArticleId(id)
  {
    if patterns == [] then ""
    else
      var idx := IndexOf(u, patterns[0]);
      if idx > 0 && IdBeforeCode(u, idx).Some? then IdBeforeCode(u, idx).value
      else ExtractFrom(u, patterns[1..])
  }

  /** extractArticleIDFromText, as a function of its input. */
  function ExtractArticleId(text: string): string {
    ExtractFrom(ToUpper(text), CodePatterns)
  }

  /** extractArticleIDFromText: for each code, take its first occurrence and look for
      an ID in front of it. */
  method ExtractArticleIdFromText(text: string) returns (id: string)
    ensures id == ExtractArticleId(text)
    ensures id == "" || IsArticleId(id)
  {
    var upper := ToUpper(text);
    var patterns := CodePatterns;
    for p := 0 to |patterns|
      invariant ExtractFrom(upper, patterns) == ExtractFrom(upper, patterns[p..])
    {
      assert patterns[p..][1..] == patterns[p + 1..];
      var idx := IndexOf(upper, patterns[p]);
      if idx > 0 {
        var found := ScanBackForId(upper, idx);
        if found.Some? {
          return found.value;
        }
      }
    }
    return "";
  }

  /** The backward scan in front of a code at `idx`: step over hex digits, step over an
      optional '#', and accept a run of exactly six. */
  method ScanBackForId(upper: string, idx: nat) returns (r: Option<string>)
    requires 0 < idx <= |upper|
    ensures r == IdBeforeCode(upper, idx)
  {
    var start := idx - 1;
    while start >= 0 && IsUpperHex(upper[start])
      invariant -1 <= start < idx
      invariant HexRunStart(upper, start + 1) == HexRunStart(upper, idx)
      decreases start
    {
      start := start - 1;
    }
    var hasHash := start >= 0 && upper[start] == '#';
    if hasHash {
      start := start - 1;
    }
    var idStart := start + 1;
    var idEnd := idx;
    if hasHash {
      if idEnd - idStart - 1 == 6 {
        assert upper[idStart..idEnd] == "#" + upper[idStart + 1..idEnd];
        return Some(upper[idStart..idEnd]);
      }
    } else {
      if idEnd - idStart == 6 {
        return Some("#" + upper[idStart..idEnd]);
      }
    }
    return None;
  }

  lemma UpperOfId(id: string)
    requires IsArticleId(id)
    ensures ToUpper(id) == id
  {
    assert id == [id[0]] + id[1..];
    ToUpperConcat([id[0]], id[1..]);
    UpperHexIsFixed(id[1..]);
  }

  /** Upper-casing a text around an ID and a code leaves the ID and the code alone. */
  lemma UpperAroundId(pre: string, id: string, code: string, post: string)
    requires IsArticleId(id) && ToUpper(code) == code
    ensures ToUpper(pre + id + code + post) == ToUpper(pre) + id + code + ToUpper(post)
  {
    UpperOfId(id);
    ToUpperConcat(pre + id + code, post);
    ToUpperConcat(pre + id, code);
    ToUpperConcat(pre, id);
  }

  /** The first occurrence of a '-'-led code after a '#'-led ID is the one right behind
      the ID, when the text before the ID holds none. */
  lemma FirstCodeAfterId(pre: string, id: string, code: string, post: string)
    requires IsArticleId(id) && !Contains(pre, code)
    requires |code| > 1 && code[0] == '-' && forall m :: 0 <= m < |code| ==> code[m] != '#'
    ensures IndexOf(pre + id + code + post, code) == |pre| + |id|
  {
    var u := pre + id + code + post;
    assert u[|pre| + |id|..|pre| + |id| + |code|] == code;
    forall k | 0 <= k < |pre| + |id| ensures !OccursAt(u, code, k) {
      if k >= |pre| {
        assert u[k] == id[k - |pre|];
        assert k == |pre| || id[k - |pre|] == id[1..][k - |pre| - 1];
        assert u[k] != '-';
        NotOccursAtByChar(u, code, k, 0);
        assert !OccursAt(u, code, k);
      } else if k + |code| > |pre| {
        assert u[|pre|] == '#';
        NotOccursAtByChar(u, code, k, |pre| - k);
        assert !OccursAt(u, code, k);
      } else {
        assert u[k..k + |code|] == pre[k..k + |code|];
        assert !OccursAt(pre, code, k);
        assert !OccursAt(u, code, k);
      }
    }
    IndexFromIs(u, code, 0, |pre| + |id|);
  }

  /** HexRunStart finds the start of a run of hex digits bounded by a non-digit. */
  lemma {:induction false} HexRunStartIs(u: string, s: nat, idx: nat)
    requires s <= idx <= |u|
    requires s == 0 || !IsUpperHex(u[s - 1])
    requires forall j :: s <= j < idx ==> IsUpperHex(u[j])
    ensures HexRunStart(u, idx) == s
    decreases idx
  {
    if idx > s {
      HexRunStartIs(u, s, idx - 1);
    }
  }

  /** The hex run in front of the code is the six digits of the ID. */
  lemma IdBeforeCodeOfId(pre: string, id: string, rest: string)
    requires IsArticleId(id)
    ensures IdBeforeCode(pre + id + rest, |pre| + |id|) == Some(id)
  {
    var u := pre + id + rest;
    var idx := |pre| + |id|;
    assert u[|pre|] == '#';
    forall j | |pre| + 1 <= j < idx ensures IsUpperHex(u[j]) {
      assert u[j] == id[1..][j - |pre| - 1];
    }
    HexRunStartIs(u, |pre| + 1, idx);
    assert u[|pre| + 1..idx] == id[1..];
    assert id == "#" + id[1..];
  }

  /** In an upper-cased text, a code right behind an ID yields the ID, provided no
      earlier occurrence of the code and, for the reject code, no approve code at all. */
  lemma ExtractBehindId(upre: string, id: string, code: string, upost: string)
    requires IsArticleId(id) && code in CodePatterns && !Contains(upre, code)
    requires code == RejectSuffix ==> !Contains(upre + id + code + upost, ApproveSuffix)
    ensures ExtractFrom(upre + id + code + upost, CodePatterns) == id
  {
    var u := upre + id + code + upost;
    FirstCodeAfterId(upre, id, code, upost);
    assert u == upre + id + (code + upost);
    IdBeforeCodeOfId(upre, id, code + upost);
    if code == RejectSuffix {
      assert CodePatterns[1..] == [RejectSuffix];
    }
  }

  /** An approve code quoted in a reply yields its ID, when no earlier `-APPR` exists. */
  lemma ExtractApproveRoundTrip(pre: string, id: string, post: string)
    requires IsArticleId(id) && !Contains(ToUpper(pre), ApproveSuffix)
    ensures ExtractArticleId(pre + ApproveCode(id) + post) == id
  {
    CodesAreUpper();
    assert pre + ApproveCode(id) + post == pre + id + ApproveSuffix + post;
    UpperAroundId(pre, id, ApproveSuffix, post);
    ExtractBehindId(ToUpper(pre), id, ApproveSuffix, ToUpper(post));
  }

  /** A reject code quoted in a reply yields its ID, when the text holds no `-APPR` at
      all and no earlier `-REJ`. */
  lemma ExtractRejectRoundTrip(pre: string, id: string, post: string)
    requires IsArticleId(id)
    requires !Contains(ToUpper(pre + RejectCode(id) + post), ApproveSuffix)
    requires !Contains(ToUpper(pre), RejectSuffix)
    ensures ExtractArticleId(pre + RejectCode(id) + post) == id
  {
    CodesAreUpper();
    assert pre + RejectCode(id) + post == pre + id + RejectSuffix + post;
    UpperAroundId(pre, id, RejectSuffix, post);
    ExtractBehindId(ToUpper(pre), id, RejectSuffix, ToUpper(post));
  }

  /** Only the first `-APPR` is looked at, and one at index 0 is ignored: a text that
      starts with a bare code hides a well-formed code behind it. */
  lemma OnlyFirstCodeCounts(id: string)
    requires IsArticleId(id)
    ensures ExtractArticleId(ApproveSuffix + " " + id + ApproveSuffix) == ""
  {
    var t := ApproveSuffix + " " + id + ApproveSuffix;
    assert t == (ApproveSuffix + " ") + id + ApproveSuffix + "";
    UpperAroundId(ApproveSuffix + " ", id, ApproveSuffix, "");
    assert ToUpper(ApproveSuffix + " ") == ApproveSuffix + " ";
    assert ToUpper("") == "";
    var u := ToUpper(t);
    assert u == ApproveSuffix + " " + id + ApproveSuffix;
    assert OccursAt(u, ApproveSuffix, 0);
    IndexFromIs(u, ApproveSuffix, 0, 0);
    forall k ensures !OccursAt(u, RejectSuffix, k) {
      if k == 0 || k == |u| - 5 {
        NotOccursAtByChar(u, RejectSuffix, k, 1);
      } else if 6 <= k < |u| - 5 {
        assert u[k] == id[k - 6];
        assert k == 6 || id[k - 6] == id[1..][k - 7];
        NotOccursAtByChar(u, RejectSuffix, k, 0);
      } else {
        NotOccursAtByChar(u, RejectSuffix, k, 0);
      }
    }
    assert IndexOf(u, RejectSuffix) == -1;
    assert [RejectSuffix][1..] == [];
    assert ExtractFrom(u, [RejectSuffix]) == "";
    assert CodePatterns[0] == ApproveSuffix && CodePatterns[1..] == [RejectSuffix];
    assert ExtractFrom(u, CodePatterns) == ExtractFrom(u, [RejectSuffix]);
  }

  // ---------------------------------------------------------------------------
  // Action
  // ---------------------------------------------------------------------------

  const ApproveKeywords: seq<string> := ["godkend", "godkendt", "godkender", "approve", "approved", "accept", "ok", "ja", "yes"]
  const RejectKeywords: seq<string> := ["afvis", "afvist", "afviser", "reject", "rejected", "decline", "nej", "no"]

  /** Some keyword of the list occurs in `s` (the first match ends the search). */
  function ContainsAny(s: string, keywords: seq<string>): (b: bool)
    ensures b <==> exists k :: 0 <= k < |keywords| && Contains(s, keywords[k])
  {
    if keywords == [] then false
    else if Contains(s, keywords[0]) then true
    else
      assert forall k :: 1 <= k < |keywords| ==> keywords[k] == keywords[1..][k - 1];
      ContainsAny(s, keywords[1..])
  }

  /** detectAction on the subject and body joined by a space. */
  function DetectAction(subject: string, body: string): ApprovalAction {
    var text := subject + " " + body;
    if Contains(ToUpper(text), ApproveSuffix) then ActionApprove
    else if Contains(ToUpper(text), RejectSuffix) then ActionReject
    else if ContainsAny(ToLower(text), ApproveKeywords) then ActionApprove
    else if ContainsAny(ToLower(text), RejectKeywords) then ActionReject
    else ActionUnknown
  }

  /** The action is unknown exactly when there is no code and no keyword of either list. */
  lemma UnknownExactly(subject: string, body: string)
    ensures var text := subject + " " + body;
      DetectAction(subject, body) == ActionUnknown <==>
        (!Contains(ToUpper(text), ApproveSuffix) && !Contains(ToUpper(text), RejectSuffix)
        && (forall k :: 0 <= k < |ApproveKeywords| ==> !Contains(ToLower(text), ApproveKeywords[k]))
        && (forall k :: 0 <= k < |RejectKeywords| ==> !Contains(ToLower(text), RejectKeywords[k])))
  {
  }

  /** An approve code wins over a reject code in the same text, so a reply that quotes
      the whole request (which shows both codes) always reads as approval. */
  lemma ApproveCodeWins(subject: string, body: string, id: string)
    requires Contains(ToUpper(subject + " " + body), ApproveSuffix)
    ensures DetectAction(subject, body) == ActionApprove
  {
  }

  lemma QuotedRequestReadsAsApprove(subject: string, id: string, post: string)
    ensures DetectAction(subject, RejectCode(id) + " " + ApproveCode(id) + post) == ActionApprove
  {
    var body := RejectCode(id) + " " + ApproveCode(id) + post;
    var text := subject + " " + body;
    var left := subject + " " + RejectCode(id) + " " + id;
    assert text == left + ApproveSuffix + post;
    ToUpperConcat(left + ApproveSuffix, post);
    ToUpperConcat(left, ApproveSuffix);
    CodesAreUpper();
    var u := ToUpper(text);
    assert u[|left|..|left| + |ApproveSuffix|] == ApproveSuffix;
    ContainsAt(u, ApproveSuffix, |left|);
  }

  /** Without a code, an approve keyword wins over a reject keyword. */
  lemma ApproveKeywordWins(subject: string, body: string, k: nat)
    requires k < |ApproveKeywords|
    requires !Contains(ToUpper(subject + " " + body), ApproveSuffix)
    requires !Contains(ToUpper(subject + " " + body), RejectSuffix)
    requires Contains(ToLower(subject + " " + body), ApproveKeywords[k])
    ensures DetectAction(subject, body) == ActionApprove
  {
  }

  /** Keywords match as substrings: "ok" inside "book" approves. */
  lemma BookApproves()
    ensures DetectAction("book", "") == ActionApprove
  {
    var text := "book" + " " + "";
    assert ToUpper(text) == "BOOK ";
    assert ToLower(text) == "book ";
    FirstCharAbsent("BOOK ", ApproveSuffix);
    FirstCharAbsent("BOOK ", RejectSuffix);
    assert OccursAt("book ", "ok", 2);
    ContainsAt("book ", "ok", 2);
    assert ApproveKeywords[6] == "ok";
  }

  /** The approve code of an ID without `-APPR` in it reads as approval. */
  lemma ApproveCodeApproves(id: string)
    ensures DetectAction(ApproveCode(id), "") == ActionApprove
  {
    var text := ApproveCode(id) + " " + "";
    assert text == id + ApproveSuffix + " ";
    ToUpperConcat(id + ApproveSuffix, " ");
    ToUpperConcat(id, ApproveSuffix);
    CodesAreUpper();
    var u := ToUpper(text);
    assert u[|id|..|id| + |ApproveSuffix|] == ApproveSuffix;
    ContainsAt(u, ApproveSuffix, |id|);
  }

  /** The codes and the separating space are already upper case. */
  lemma CodesAreUpper()
    ensures ToUpper(ApproveSuffix) == ApproveSuffix && ToUpper(RejectSuffix) == RejectSuffix
    ensures ToUpper(" ") == " "
  {
    assert ApproveSuffix == ['-', 'A', 'P', 'P', 'R'];
    assert RejectSuffix == ['-', 'R', 'E', 'J'];
    NoLowerIsFixed(ApproveSuffix);
    NoLowerIsFixed(RejectSuffix);
    NoLowerIsFixed(" ");
  }

  /** The reject code of an ID without `-APPR` in it reads as rejection. */
  lemma RejectCodeRejects(id: string)
    requires !Contains(ToUpper(id), ApproveSuffix)
    ensures DetectAction(RejectCode(id), "") == ActionReject
  {
    var text := RejectCode(id) + " " + "";
    assert text == id + RejectSuffix + " ";
    var u := ToUpper(text);
    assert Contains(u, RejectSuffix) by {
      CodeIsContained(id, RejectSuffix, " ");
    }
    assert u == ToUpper(id) + RejectSuffix + " " by {
      ToUpperConcat(id + RejectSuffix, " ");
      ToUpperConcat(id, RejectSuffix);
      CodesAreUpper();
    }
    assert !Contains(u, ApproveSuffix) by {
      FirstCharAbsent(" ", ApproveSuffix);
      RejectCodeAddsNoApprove(ToUpper(id), " ");
    }
  }

  /** Upper-casing keeps a code that is already upper case. */
  lemma CodeIsContained(left: string, code: string, post: string)
    requires code == ApproveSuffix || code == RejectSuffix
    ensures Contains(ToUpper(left + code + post), code)
  {
    ToUpperConcat(left + code, post);
    ToUpperConcat(left, code);
    CodesAreUpper();
    var u := ToUpper(left + code + post);
    assert u[|left|..|left| + |code|] == code;
    ContainsAt(u, code, |left|);
  }

  /** Putting a reject code between two texts without `-APPR` creates no `-APPR`. */
  lemma RejectCodeAddsNoApprove(a: string, b: string)
    requires !Contains(a, ApproveSuffix) && !Contains(b, ApproveSuffix)
    ensures !Contains(a + RejectSuffix + b, ApproveSuffix)
  {
    var u := a + RejectSuffix + b;
    var n := |a| + |RejectSuffix|;
    assert u == a + (RejectSuffix + b);
    forall k ensures !OccursAt(u, ApproveSuffix, k) {
      if k == |a| {
        NotOccursAtByChar(u, ApproveSuffix, k, 1);
      } else if |a| < k < n {
        assert u[k] == RejectSuffix[k - |a|];
        NotOccursAtByChar(u, ApproveSuffix, k, 0);
      } else if k >= n {
        if OccursAt(u, ApproveSuffix, k) {
          OccursInRightPart(a + RejectSuffix, b, ApproveSuffix, k);
          ContainsAt(b, ApproveSuffix, k - n);
        }
      } else if k + |ApproveSuffix| > |a| {
        assert k < 0 || u[|a|] == '-';
        NotOccursAtByChar(u, ApproveSuffix, k, |a| - k);
      } else if OccursAt(u, ApproveSuffix, k) {
        OccursInLeftPart(a, RejectSuffix + b, ApproveSuffix, k);
        ContainsAt(a, ApproveSuffix, k);
      }
    }
  }

  // ---------------------------------------------------------------------------
  // The reply
  // ---------------------------------------------------------------------------

  /** The ID a reply is about: the header value, or else the ID found in the text. */
  function ReplyArticleId(subject: string, body: string, headerId: string): (id: string)
    ensures headerId != "" ==> id == headerId
    ensures headerId == "" ==> id == ExtractArticleId(subject + " " + body)
    ensures headerId == "" ==> id == "" || IsArticleId(id)
  {
    if headerId != "" then headerId else ExtractArticleId(subject + " " + body)
  }

  /** parseMessage after transport: the header value is given. */
  function ParseReply(subject: string, body: string, headerId: string): EmailReply {
    EmailReply("", subject, body, DetectAction(subject, body), ReplyArticleId(subject, body, headerId))
  }

  /** A reply without the header that quotes the approve code is an approval of that
      article, when nothing before the code looks like an approve code. */
  lemma ApprovalReplyDecodes(subject: string, pre: string, id: string, post: string)
    requires IsArticleId(id) && !Contains(ToUpper(subject + " " + pre), ApproveSuffix)
    ensures ParseReply(subject, pre + ApproveCode(id) + post, "").articleId == id
    ensures ParseReply(subject, pre + ApproveCode(id) + post, "").action == ActionApprove
  {
    var body := pre + ApproveCode(id) + post;
    assert subject + " " + body == (subject + " " + pre) + ApproveCode(id) + post;
    ExtractApproveRoundTrip(subject + " " + pre, id, post);
    assert subject + " " + body == (subject + " " + pre + id) + ApproveSuffix + post;
    CodeIsContained(subject + " " + pre + id, ApproveSuffix, post);
  }

  /** A reply without the header that quotes the reject code, and nowhere holds an
      approve code, is a rejection of that article. */
  lemma RejectionReplyDecodes(subject: string, pre: string, id: string, post: string)
    requires IsArticleId(id)
    requires !Contains(ToUpper(subject + " " + pre + RejectCode(id) + post), ApproveSuffix)
    requires !Contains(ToUpper(subject + " " + pre), RejectSuffix)
    ensures ParseReply(subject, pre + RejectCode(id) + post, "").articleId == id
    ensures ParseReply(subject, pre + RejectCode(id) + post, "").action == ActionReject
  {
    var body := pre + RejectCode(id) + post;
    assert subject + " " + body == (subject + " " + pre) + RejectCode(id) + post;
    ExtractRejectRoundTrip(subject + " " + pre, id, post);
    assert subject + " " + body == (subject + " " + pre + id) + RejectSuffix + post;
    CodeIsContained(subject + " " + pre + id, RejectSuffix, post);
  }
}
