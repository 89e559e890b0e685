/** The outgoing approval request: the subject, the values the HTML body is filled
    with (the approve and reject codes among them) and the header block that carries
    the article ID. */
module Email {
  import opened Text

  const SubjectPrefix: string := "Artikel til godkendelse: "
  const ApproveSuffix: string := "-APPR"
  const RejectSuffix: string := "-REJ"
  const DropboxMarker: string := "Dropbox/"
  const LinkScheme: string := "file://"
  const ArticleIdHeader: string := "X-NorseTinge-Article-ID"
  const CRLF: string := "\r\n"

  predicate HasPrefix(s: string, prefix: string) {
    |prefix| <= |s| && s[..|prefix|] == prefix
  }

  /** The text after `prefix`, when `s` starts with it. */
  function StripPrefix(s: string, prefix: string): (r: Option<string>)
    ensures r.Some? <==> HasPrefix(s, prefix)
    ensures r.Some? ==> s == prefix + r.value
  {
    if HasPrefix(s, prefix) then Some(s[|prefix|..]) else None
  }

  lemma StripPrefixOfConcat(prefix: string, rest: string)
    ensures StripPrefix(prefix + rest, prefix) == Some(rest)
  {
    assert (prefix + rest)[..|prefix|] == prefix;
    assert (prefix + rest)[|prefix|..] == rest;
  }

  /** The subject line of an approval request. */
  function Subject(title: string): string {
    SubjectPrefix + title
  }

  /** The title can be read back from the subject. */
  lemma SubjectCarriesTitle(title: string)
    ensures StripPrefix(Subject(title), SubjectPrefix) == Some(title)
  {
    StripPrefixOfConcat(SubjectPrefix, title);
  }

  /** The ID shown in the body: one leading '#' dropped. */
  function CleanId(id: string): (c: string)
    ensures |id| > 0 && id[0] == '#' ==> id == "#" + c
    ensures !(|id| > 0 && id[0] == '#') ==> c == id
  {
    if |id| > 0 && id[0] == '#' then id[1..] else id
  }

  /** The reply code that approves the article. */
  function ApproveCode(id: string): string {
    id + ApproveSuffix
  }

  /** The reply code that rejects the article. */
  function RejectCode(id: string): string {
    id + RejectSuffix
  }

  /** The displayed path: from the first "Dropbox/" on, or the whole path. */
  function RelativeDropboxPath(path: string): (r: string)
    ensures |r| <= |path| && r == path[|path| - |r|..]
    ensures Contains(path, DropboxMarker) ==>
      HasPrefix(r, DropboxMarker) && !Contains(path[..|path| - |r|], DropboxMarker)
    ensures !Contains(path, DropboxMarker) ==> r == path
  {
    var i := IndexOf(path, DropboxMarker);
    if i != -1 then
      var r := path[i..];
      assert path[|path| - |r|..] == r;
      assert r[..|DropboxMarker|] == path[i..i + |DropboxMarker|];
      assert path[..i] + path[i..] == path;
      PrefixOccurrences(path[..i], path[i..], DropboxMarker);
      r
    else path
  }

  /** The clickable preview link. */
  function DropboxLink(path: string): string {
    LinkScheme + path
  }

  lemma DropboxLinkCarriesPath(path: string)
    ensures StripPrefix(DropboxLink(path), LinkScheme) == Some(path)
  {
    StripPrefixOfConcat(LinkScheme, path);
  }

  /** The values interpolated into the HTML body, in template order; the approval URL
      argument is accepted but not used by the template. */
  datatype ApprovalBody = ApprovalBody(
    pageTitle: string, cleanId: string, heading: string, author: string,
    link: string, shownPath: string, approveCode: string, rejectCode: string)

  /** buildDropboxApprovalEmail. */
  function BuildApprovalBody(title: string, author: string, dropboxPath: string, approvalUrl: string, id: string): (b: ApprovalBody)
    ensures b.approveCode == id + ApproveSuffix && b.rejectCode == id + RejectSuffix
  {
    ApprovalBody(title, CleanId(id), title, author, DropboxLink(dropboxPath),
      RelativeDropboxPath(dropboxPath), ApproveCode(id), RejectCode(id))
  }

  /** The approval URL has no influence on the body. */
  lemma BodyIgnoresApprovalUrl(title: string, author: string, path: string, url1: string, url2: string, id: string)
    ensures BuildApprovalBody(title, author, path, url1, id) == BuildApprovalBody(title, author, path, url2, id)
  {
  }

  /** SendApprovalRequestHTML: what goes out, before SMTP. */
  datatype OutgoingMail = OutgoingMail(subject: string, body: ApprovalBody, articleId: string)

  function ApprovalRequest(title: string, author: string, dropboxPath: string, approvalUrl: string, id: string): (m: OutgoingMail)
    ensures m.articleId == id
    ensures StripPrefix(m.subject, SubjectPrefix) == Some(title)
  {
    SubjectCarriesTitle(title);
    OutgoingMail(Subject(title), BuildApprovalBody(title, author, dropboxPath, approvalUrl, id), id)
  }

  /** One header line. */
  function HeaderLine(name: string, value: string): string {
    name + ": " + value + CRLF
  }

  /** Header lines, in order. */
  function Headers(hs: seq<(string, string)>): string {
    if hs == [] then [] else HeaderLine(hs[0].0, hs[0].1) + Headers(hs[1..])
  }

  lemma {:induction false} HeadersConcat(a: seq<(string, string)>, b: seq<(string, string)>)
    ensures Headers(a + b) == Headers(a) + Headers(b)
  {
    if a == [] {
      assert a + b == b;
    } else {
      assert (a + b)[1..] == a[1..] + b;
      HeadersConcat(a[1..], b);
    }
  }

  /** The headers sendHTML writes, in order. */
  function MailHeaders(from: string, to: string, subject: string, id: string): seq<(string, string)> {
    [("From", from), ("To", to), ("Subject", subject), (ArticleIdHeader, id),
     ("MIME-Version", "1.0"), ("Content-Type", "text/html; charset=UTF-8")]
  }

  /** The message sendHTML hands to SMTP: the header lines, a blank line, the body. */
  function WireMessage(from: string, to: string, subject: string, id: string, body: string): string {
    Headers(MailHeaders(from, to, subject, id)) + CRLF + body
  }

  /** The value of the first header line named `name`, reading line by line up to the
      blank line that ends the header block. */
  function HeaderValue(msg: string, name: string): (r: Option<string>)
    decreases |msg|
  {
    var i := IndexOf(msg, CRLF);
    if i <= 0 then None
    else
      var line := msg[..i];
      var v := StripPrefix(line, name + ": ");
      if v.Some? then v else HeaderValue(msg[i + 2..], name)
  }

  /** The value of the first pair named `name` in a header list. */
  function Lookup(hs: seq<(string, string)>, name: string): Option<string> {
    if hs == [] then None
    else if hs[0].0 == name then Some(hs[0].1)
    else Lookup(hs[1..], name)
  }

  /** Pairs whose name differs are skipped. */
  lemma {:induction false} LookupSkips(hs: seq<(string, string)>, name: string, n: nat)
    requires n <= |hs| && forall k :: 0 <= k < n ==> hs[k].0 != name
    ensures Lookup(hs, name) == Lookup(hs[n..], name)
  {
    if n > 0 {
      assert hs[1..][n - 1..] == hs[n..];
      LookupSkips(hs[1..], name, n - 1);
    }
  }

  predicate NoCR(s: string) {
    forall i :: 0 <= i < |s| ==> s[i] != '\r'
  }

  /** Header lines that keep their structure: no carriage return, and every name is
      either `wanted` or differs from it in its first character. */
  predicate WellFormedFor(hs: seq<(string, string)>, wanted: string) {
    |wanted| > 0 && forall k :: 0 <= k < |hs| ==>
      NoCR(hs[k].0) && NoCR(hs[k].1) && |hs[k].0| > 0
      && (hs[k].0 == wanted || hs[k].0[0] != wanted[0])
  }

  /** The first line break of `line + CRLF + rest` is the one after `line`. */
  lemma FirstBreak(line: string, rest: string)
    requires NoCR(line)
    ensures IndexOf(line + CRLF + rest, CRLF) == |line|
  {
    var s := line + CRLF + rest;
    assert s[|line|..|line| + 2] == CRLF;
    forall j | 0 <= j < |line| ensures !OccursAt(s, CRLF, j) {
      assert s[j] == line[j];
    }
    IndexFromIs(s, CRLF, 0, |line|);
  }

  /** Reading the first header line of a block. */
  lemma ReadHeaderLine(name: string, value: string, rest: string, wanted: string)
    requires NoCR(name) && NoCR(value) && |name| > 0 && |wanted| > 0
    requires name == wanted || name[0] != wanted[0]
    ensures HeaderValue(HeaderLine(name, value) + rest, wanted)
      == if name == wanted then Some(value) else HeaderValue(rest, wanted)
  {
    var line := name + ": " + value;
    assert NoCR(line) by {
      forall i | 0 <= i < |line| ensures line[i] != '\r' {
        if i >= |name| + 2 {
          assert line[i] == value[i - |name| - 2];
        } else if i < |name| {
          assert line[i] == name[i];
        }
      }
    }
    var msg := line + CRLF + rest;
    assert HeaderLine(name, value) + rest == msg;
    FirstBreak(line, rest);
    assert msg[..|line|] == line;
    assert msg[|line| + 2..] == rest;
    if name == wanted {
      StripPrefixOfConcat(name + ": ", value);
    } else {
      assert line[0] == name[0];
    }
  }

  /** Reading a header block finds the first header with the wanted name. */
  lemma {:induction false} HeaderValueOfHeaders(hs: seq<(string, string)>, body: string, wanted: string)
    requires |wanted| > 0 && WellFormedFor(hs, wanted)
    ensures HeaderValue(Headers(hs) + CRLF + body, wanted) == Lookup(hs, wanted)
  {
    if hs == [] {
      assert Headers(hs) + CRLF + body == CRLF + body;
      assert OccursAt(CRLF + body, CRLF, 0);
    } else {
      var rest := Headers(hs[1..]) + CRLF + body;
      assert Headers(hs) + CRLF + body == HeaderLine(hs[0].0, hs[0].1) + rest;
      assert WellFormedFor(hs[1..], wanted) by {
        forall k | 0 <= k < |hs[1..]| ensures NoCR(hs[1..][k].0) && NoCR(hs[1..][k].1) && |hs[1..][k].0| > 0
          && (hs[1..][k].0 == wanted || hs[1..][k].0[0] != wanted[0]) {
          assert hs[1..][k] == hs[k + 1];
        }
      }
      ReadHeaderLine(hs[0].0, hs[0].1, rest, wanted);
      HeaderValueOfHeaders(hs[1..], body, wanted);
    }
  }

  lemma FixedHeadersWellFormed()
    ensures NoCR("From") && NoCR("To") && NoCR("Subject") && NoCR(ArticleIdHeader)
    ensures NoCR("MIME-Version") && NoCR("1.0") && NoCR("Content-Type") && NoCR("text/html; charset=UTF-8")
  {
  }

  /** The article ID travels in its header unchanged, provided no header value breaks
      the line structure with a carriage return. */
  lemma ArticleIdHeaderRoundTrip(from: string, to: string, subject: string, id: string, body: string)
    requires NoCR(from) && NoCR(to) && NoCR(subject) && NoCR(id)
    ensures HeaderValue(WireMessage(from, to, subject, id, body), ArticleIdHeader) == Some(id)
  {
    var hs := MailHeaders(from, to, subject, id);
    FixedHeadersWellFormed();
    assert WellFormedFor(hs, ArticleIdHeader);
    HeaderValueOfHeaders(hs, body, ArticleIdHeader);
    assert "From" != ArticleIdHeader && "To" != ArticleIdHeader && "Subject" != ArticleIdHeader;
    LookupSkips(hs, ArticleIdHeader, 3);
  }
}
