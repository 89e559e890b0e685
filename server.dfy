/** The pending-approval state machine of the approval server: a map from article ID to
    pending entry, filled by approval requests and emptied by approve and reject actions
    arriving over HTTP or by e-mail. The preview build, the frontmatter write, the mover
    and the mail transport are collaborators whose outcomes are passed in. */
module ApprovalServer {
  import opened Text
  import opened Email
  import opened Frontmatter
  import Imap
  import AppConfig

  /** One article awaiting a decision. */
  datatype PendingArticle = PendingArticle(id: string, article: Article, approved: bool, rejected: bool, comments: string)

  datatype ServerError =
    | PreviewFailed(reason: string)
    | EmailFailed
    | NoMatchingArticle(id: string)
    | WriteFailed
    | MoveFailed
    | UnknownAction

  const ApprovalPagePrefix: string := "/approve/"
  const ApprovePrefix: string := "/action/approve/"
  const RejectPrefix: string := "/action/reject/"

  const StatusOK: int := 200
  const StatusNotFound: int := 404
  const StatusInternalServerError: int := 500

  /** The ID a handler serves: the URL path after the handler's prefix. */
  function PathId(path: string, prefix: string): (id: string)
    requires HasPrefix(path, prefix)
    ensures path == prefix + id
  {
    StripPrefix(path, prefix).value
  }

  /** The ID in a handler's URL is read back unchanged. */
  lemma PathIdRoundTrip(prefix: string, id: string)
    ensures HasPrefix(prefix + id, prefix) && PathId(prefix + id, prefix) == id
  {
    StripPrefixOfConcat(prefix, id);
  }

  /** The decimal digits of a non-negative number, most significant first. */
  function Digits(n: nat): (r: string)
    ensures |r| > 0 && forall i :: 0 <= i < |r| ==> '0' <= r[i] <= '9'
  {
    if n < 10 then [('0' as int + n) as char] else Digits(n / 10) + Digits(n % 10)
  }

  /** A number as the %d verb prints it. */
  function IntText(n: int): string {
    if n < 0 then "-" + Digits(-n) else Digits(n)
  }

  /** The approval page URL for an article. */
  function ApprovalUrl(hostname: string, port: int, id: string): (url: string)
    ensures HasPrefix(url, "http://" + hostname + ":")
    ensures |ApprovalPagePrefix + id| < |url| && url[|url| - |ApprovalPagePrefix + id|..] == ApprovalPagePrefix + id
  {
    var url := "http://" + hostname + ":" + IntText(port) + ApprovalPagePrefix + id;
    assert url == ("http://" + hostname + ":") + (IntText(port) + ApprovalPagePrefix + id);
    assert url == ("http://" + hostname + ":" + IntText(port)) + (ApprovalPagePrefix + id);
    url
  }

  /** The URL in the approval mail ends in the path the approval page serves, and that
      page reads the article's ID back from it. */
  lemma ApprovalUrlServesId(hostname: string, port: int, id: string)
    ensures var url := ApprovalUrl(hostname, port, id);
      var path := url[|url| - |ApprovalPagePrefix + id|..];
      HasPrefix(path, ApprovalPagePrefix) && PathId(path, ApprovalPagePrefix) == id
  {
    PathIdRoundTrip(ApprovalPagePrefix, id);
  }

  /** Every entry is filed under its own ID, and no entry whose approval was recorded
      is left in the map. */
  predicate WellFiled(m: map<string, PendingArticle>) {
    forall id :: id in m ==> m[id].id == id && !m[id].approved
  }

  class Server {
    /** The pending articles, by article ID. */
    var pending: map<string, PendingArticle>
    /** The map as last written to the persistence file. */
    ghost var saved: map<string, PendingArticle>
    /** The approval requests handed to the mail transport. */
    var sent: seq<OutgoingMail>
    /** Whether a mover has been set. */
    var hasMover: bool
    const hostname: string
    const port: int

    /** The pending map and the persisted map are both well filed. */
    ghost predicate Valid()
      reads this
    {
      WellFiled(pending) && WellFiled(saved)
    }

    /** The articles the pending entries refer to. */
    function Articles(): set<Article>
      reads this
    {
      set id | id in pending :: pending[id].article
    }

    /** NewServer: start from the persisted map when it could be loaded, else empty. */
    constructor (cfg: AppConfig.Config, loaded: Option<map<string, PendingArticle>>)
      ensures pending == (if loaded.Some? then loaded.value else map[]) && saved == pending
      ensures sent == [] && !hasMover
      ensures hostname == cfg.approval.tailscaleHostname && port == cfg.approval.port
      ensures (loaded.None? || WellFiled(loaded.value)) ==> Valid()
    {
      pending := if loaded.Some? then loaded.value else map[];
      saved := pending;
      sent := [];
      hasMover := false;
      hostname := cfg.approval.tailscaleHostname;
      port := cfg.approval.port;
    }

    /** SetMover. */
    method SetMover()
      modifies this`hasMover
      ensures hasMover
    {
      hasMover := true;
    }

    /** savePendingArticles; a failing save is only logged, so it is not modelled. */
    method Save()
      modifies this`saved
      ensures saved == pending
    {
      saved := pending;
    }

    /** removePendingArticle: delete one key and persist. */
    method RemovePendingArticle(id: string)
      modifies this`pending, this`saved
      ensures pending == old(pending) - {id} && saved == pending
      ensures old(Valid()) ==> Valid()
    {
      pending := pending - {id};
      Save();
    }

    /** RequestApproval: build the preview (outcome `preview`), file a fresh entry under
        the article's ID, persist, and send the approval mail (outcome `emailOk`). */
    method RequestApproval(article: Article, preview: Result<string, string>, emailOk: bool)
      returns (err: Option<ServerError>)
      modifies this`pending, this`saved, this`sent
      ensures preview.Err? ==> (err == Some(PreviewFailed(preview.error))
        && pending == old(pending) && saved == old(saved) && sent == old(sent))
      ensures preview.Ok? ==> (saved == pending
        && pending == old(pending)[article.id := PendingArticle(article.id, article, false, false, "")])
      ensures preview.Ok? && emailOk ==> (err.None? && sent == old(sent)
        + [ApprovalRequest(article.title, article.author, preview.value, ApprovalUrl(hostname, port, article.id), article.id)])
      ensures preview.Ok? && !emailOk ==> err == Some(EmailFailed) && sent == old(sent)
      ensures old(Valid()) ==> Valid()
    {
      var id := article.id;
      if preview.Err? {
        return Some(PreviewFailed(preview.error));
      }
      var htmlPath := preview.value;
      pending := pending[id := PendingArticle(id, article, false, false, "")];
      Save();
      var approvalUrl := ApprovalUrl(hostname, port, id);
      if !emailOk {
        return Some(EmailFailed);
      }
      sent := sent + [ApprovalRequest(article.title, article.author, htmlPath, approvalUrl, id)];
      return None;
    }

    /** handleApproval: the entry the approval page shows, or 404. */
    method HandleApproval(path: string) returns (code: int, shown: Option<PendingArticle>)
      requires HasPrefix(path, ApprovalPagePrefix)
      ensures var id := PathId(path, ApprovalPagePrefix);
        (id in pending ==> code == StatusOK && shown == Some(pending[id]))
        && (id !in pending ==> code == StatusNotFound && shown.None?)
    {
      var id := PathId(path, ApprovalPagePrefix);
      if id !in pending {
        return StatusNotFound, None;
      }
      return StatusOK, Some(pending[id]);
    }

    /** handleApprove: mark the entry approved and remove it; the article's status is
        left as it is. */
    method HandleApprove(path: string) returns (code: int)
      requires HasPrefix(path, ApprovePrefix)
      modifies this`pending, this`saved
      ensures var id := PathId(path, ApprovePrefix);
        (id !in old(pending) ==> code == StatusNotFound && pending == old(pending) && saved == old(saved))
        && (id in old(pending) ==> code == StatusOK && pending == old(pending) - {id} && saved == pending)
      ensures old(Valid()) ==> Valid()
    {
      var id := PathId(path, ApprovePrefix);
      if id !in pending {
        return StatusNotFound;
      }
      pending := pending[id := pending[id].(approved := true)];
      RemovePendingArticle(id);
      return StatusOK;
    }

    /** handleReject: mark the entry rejected and set the article's rejected flag, write
        the frontmatter (outcome `writeOk`) and move the file when a mover is set (a
        failed move is only logged); the entry is removed unless the write failed. */
    method HandleReject(path: string, writeOk: bool) returns (code: int)
      requires HasPrefix(path, RejectPrefix)
      modifies this`pending, this`saved, Articles()`status
      ensures var id := PathId(path, RejectPrefix);
        id !in old(pending) ==> code == StatusNotFound && pending == old(pending) && saved == old(saved)
      ensures var id := PathId(path, RejectPrefix);
        id in old(pending) ==>
          var e := old(pending)[id];
          e.article.status == SetFlag(old(e.article.status), "rejected").value
          && (!writeOk ==> (code == StatusInternalServerError
                && pending == old(pending)[id := e.(rejected := true)] && saved == old(saved)))
          && (writeOk ==> code == StatusOK && pending == old(pending) - {id} && saved == pending)
      ensures var id := PathId(path, RejectPrefix);
        forall a :: a in old(Articles()) && (id !in old(pending) || a != old(pending)[id].article) ==>
          a.status == old(a.status)
      ensures old(Valid()) ==> Valid()
    {
      var id := PathId(path, RejectPrefix);
      if id !in pending {
        return StatusNotFound;
      }
      var entry := pending[id].(rejected := true);
      pending := pending[id := entry];
      var _ := entry.article.UpdateStatus("rejected");
      if !writeOk {
        return StatusInternalServerError;
      }
      // the mover, when set, is called next; its failure is only logged
      RemovePendingArticle(id);
      return StatusOK;
    }

    /** HandleEmailReply: act on a decoded reply for a pending article. Approve removes
        the entry; reject sets the rejected flag, writes and moves, and removes the entry
        only when both succeeded; an unknown action changes nothing. */
    method HandleEmailReply(reply: Imap.EmailReply, writeOk: bool, moveOk: bool) returns (err: Option<ServerError>)
      modifies this`pending, this`saved, Articles()`status
      ensures var id := reply.articleId;
        id !in old(pending) ==> err == Some(NoMatchingArticle(id)) && pending == old(pending) && saved == old(saved)
      ensures var id := reply.articleId;
        id in old(pending) && reply.action == Imap.ActionApprove ==>
          err.None? && pending == old(pending) - {id} && saved == pending
      ensures var id := reply.articleId;
        id in old(pending) && reply.action == Imap.ActionUnknown ==>
          err == Some(UnknownAction) && pending == old(pending) && saved == old(saved)
      ensures var id := reply.articleId;
        id in old(pending) && reply.action == Imap.ActionReject ==>
          var e := old(pending)[id];
          var failed := if !writeOk then Some(WriteFailed) else if hasMover && !moveOk then Some(MoveFailed) else None;
          e.article.status == SetFlag(old(e.article.status), "rejected").value
          && err == failed
          && (failed.Some? ==> pending == old(pending)[id := e.(rejected := true)] && saved == old(saved))
          && (failed.None? ==> pending == old(pending) - {id} && saved == pending)
      ensures var id := reply.articleId;
        forall a :: a in old(Articles()) && (id !in old(pending) || reply.action != Imap.ActionReject || a != old(pending)[id].article) ==>
          a.status == old(a.status)
      ensures old(Valid()) ==> Valid()
    {
      err := None;
      var id := reply.articleId;
      if id !in pending {
        return Some(NoMatchingArticle(id));
      }
      match reply.action
      case ActionApprove =>
        pending := pending[id := pending[id].(approved := true)];
        RemovePendingArticle(id);
      case ActionReject =>
        var entry := pending[id].(rejected := true);
        pending := pending[id := entry];
        var _ := entry.article.UpdateStatus("rejected");
        if !writeOk {
          return Some(WriteFailed);
        }
        if hasMover && !moveOk {
          return Some(MoveFailed);
        }
        RemovePendingArticle(id);
      case ActionUnknown =>
        return Some(UnknownAction);
    }
  }
}
