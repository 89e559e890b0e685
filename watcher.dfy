/** The watcher's dispatch rules: which file names are looked at, how a file-system
    operation is classified, what happens to a created or modified article, and the
    periodic scan that re-files every article and asks for approval of those ready
    for it. Subscriptions, debouncing, timers and goroutines are not part of the model:
    each event and each scan is one sequential call. */
module Watcher {
  import opened Text
  import opened Paths
  import opened Frontmatter
  import Mover
  import AppConfig

  const MarkdownExt: string := ".md"

  // ---------------------------------------------------------------------------
  // Filters
  // ---------------------------------------------------------------------------

  /** processEvents: only Markdown files whose final element does not start with a dot. */
  predicate IsWatchedName(name: string) {
    Ext(name) == MarkdownExt && !IsHidden(name)
  }

  /** scanFolder: no directories, only Markdown files, no names starting with a dot. */
  predicate IsScanned(e: DirEntry) {
    !e.isDir && Ext(e.name) == MarkdownExt && e.name != [] && e.name[0] != '.'
  }

  lemma BaseOfElement(name: string)
    requires NoSlash(name)
    ensures Base(name) == name
  {
    assert LastIndexOf(name, '/') == -1;
  }

  /** For a file in a folder, both filters agree: the scan looks at exactly the files
      whose events the watcher handles. */
  lemma FiltersAgree(folder: string, name: string)
    requires NoSlash(name)
    ensures IsScanned(DirEntry(name, false)) <==> IsWatchedName(Join(folder, name))
  {
    BaseOfJoin(folder, name);
    BaseOfElement(name);
  }

  // ---------------------------------------------------------------------------
  // Operation classification
  // ---------------------------------------------------------------------------

  /** fsnotify operation bits. */
  const OpCreate: bv32 := 1
  const OpWrite: bv32 := 2
  const OpRemove: bv32 := 4
  const OpRename: bv32 := 8
  const OpChmod: bv32 := 16

  datatype EventType = EventCreated | EventModified | EventDeleted

  /** What the watcher emits on its event channel. */
  datatype Event = Event(kind: EventType, filePath: string)

  /** An fsnotify event: a path and a set of operation bits. */
  datatype FsEvent = FsEvent(name: string, op: bv32)

  /** handleEvent's switch: Create before Write before Remove; anything else is ignored
      (7 is the three bits together). */
  function Classify(op: bv32): (r: Option<EventType>)
    ensures r.None? <==> op & 7 == 0
  {
    if op & OpCreate == OpCreate then Some(EventCreated)
    else if op & OpWrite == OpWrite then Some(EventModified)
    else if op & OpRemove == OpRemove then Some(EventDeleted)
    else None
  }

  /** The Create bit wins over every other bit, Write wins over Remove, and a rename
      or a permission change alone is ignored. */
  lemma ClassifyOrder(op: bv32)
    ensures Classify(op | OpCreate) == Some(EventCreated)
    ensures op & OpCreate == 0 ==> Classify(op | OpWrite) == Some(EventModified)
    ensures Classify(OpRename | OpChmod) == None
  {
    var c := op | OpCreate;
    assert c & OpCreate == OpCreate;
    if op & OpCreate == 0 {
      var w := op | OpWrite;
      assert w & OpCreate == 0;
      assert w & OpWrite == OpWrite;
    }
    assert (OpRename | OpChmod) == 24;
  }

  // ---------------------------------------------------------------------------
  // The approval decision
  // ---------------------------------------------------------------------------

  /** Approval is requested for an article whose status is publish or update, when an
      approval server is set. */
  predicate ShouldRequestApproval(current: string, hasServer: bool) {
    (current == "publish" || current == "update") && hasServer
  }

  /** The branch for a rejected article with its update flag set cannot be taken: an
      update flag of 1 makes "update" the current status. */
  lemma ReapprovalUnreachable(s: Status)
    ensures !(CurrentStatus(s) == "rejected" && s.update == 1)
  {
    if s.update == 1 {
      CurrentStatusIs(s, 5);
      assert NameAt(5) == "update";
    }
  }

  // ---------------------------------------------------------------------------
  // The specification: the state an event or a scan acts on
  // ---------------------------------------------------------------------------

  /** An approval request the watcher made: the article's path and fields. */
  datatype ApprovalCall = ApprovalCall(path: string, front: FrontMatter)

  /** The disk and the approval requests made so far. */
  datatype World = World(files: map<string, string>, dirs: set<string>, calls: seq<ApprovalCall>)

  /** The collaborators and inputs of a call: the mover, the metadata library, the
      timestamp used for generated IDs, whether an approval server is set and whether
      it accepts requests. */
  datatype Context = Context(mover: Mover.Mover, codec: Codec, stamp: string, hasServer: bool, approvalOk: bool)

  datatype WatchError =
    | ParseFailed(reason: ParseError)
    | StatusChangeFailed(cause: Mover.MoveError)
    | ReparseFailed(reason: ParseError)
    | RequestFailed
    | ReadDirFailed(folder: string)

  /** The request made for an article parsed from `files` at `path`, if it is ready. */
  function Requests(ctx: Context, files: map<string, string>, path: string): seq<ApprovalCall>
    requires ReadDocument(files, path, ctx.codec.decode).Ok?
  {
    var doc := ReadDocument(files, path, ctx.codec.decode).value;
    if ShouldRequestApproval(CurrentStatus(doc.front.status), ctx.hasServer)
    then [ApprovalCall(path, FillId(doc.front, ctx.codec, ctx.stamp))]
    else []
  }

  /** processArticleFile after the re-filing: parse at the original path (a failed
      parse changes nothing, so the second attempt fails the same way) and request
      approval when the article is ready. */
  function Reparse(ctx: Context, w: World, path: string): (Result<(), WatchError>, World) {
    match ReadDocument(w.files, path, ctx.codec.decode)
    case Err(e) => (Err(ReparseFailed(e)), w)
    case Ok(_) =>
      var calls := Requests(ctx, w.files, path);
      var after := World(FilesAfterParse(w.files, path, ctx.codec, ctx.stamp), w.dirs, w.calls + calls);
      (if calls != [] && !ctx.approvalOk then Err(RequestFailed) else Ok(()), after)
  }

  /** processArticleFile: parse; re-file (which parses again); parse at the original
      path and request approval when ready. */
  function ProcessFile(ctx: Context, w: World, path: string): (Result<(), WatchError>, World) {
    match ReadDocument(w.files, path, ctx.codec.decode)
    case Err(e) => (Err(ParseFailed(e)), w)
    case Ok(_) =>
      var f1 := FilesAfterParse(w.files, path, ctx.codec, ctx.stamp);
      var o := Mover.StatusChange(ctx.mover, f1, w.dirs, path, ctx.codec, ctx.stamp);
      if o.result.Err? then (Err(StatusChangeFailed(o.result.error)), World(o.files, o.dirs, w.calls))
      else Reparse(ctx, World(o.files, o.dirs, w.calls), path)
  }

  /** A created or modified file: re-filed, re-parsed at the event's path and
      considered for approval; a failure on the way is only logged. */
  function Refile(ctx: Context, w: World, path: string): World {
    var o := Mover.StatusChange(ctx.mover, w.files, w.dirs, path, ctx.codec, ctx.stamp);
    if o.result.Err? then World(o.files, o.dirs, w.calls)
    else Reparse(ctx, World(o.files, o.dirs, w.calls), path).1
  }

  /** handleEvent for an event of the given kind: deleted files are only reported. */
  function HandleEventSpec(ctx: Context, w: World, kind: EventType, path: string): World {
    if kind == EventDeleted then w else Refile(ctx, w, path)
  }

  /** One entry of a folder: a Markdown file is processed, anything else skipped; a
      failure is logged and does not stop the scan. */
  function ScanStep(ctx: Context, w: World, folder: string, e: DirEntry): World {
    if IsScanned(e) then ProcessFile(ctx, w, Join(folder, e.name)).1 else w
  }

  /** The entries of a folder processed in `order`. */
  function ScanEntries(ctx: Context, w: World, folder: string, order: seq<DirEntry>): World
    decreases |order|
  {
    if order == [] then w
    else ScanStep(ctx, ScanEntries(ctx, w, folder, order[..|order| - 1]), folder, order[|order| - 1])
  }

  /** Processing one more entry is one more step. */
  lemma ScanEntriesSnoc(ctx: Context, w: World, folder: string, order: seq<DirEntry>, e: DirEntry)
    ensures ScanEntries(ctx, w, folder, order + [e]) == ScanStep(ctx, ScanEntries(ctx, w, folder, order), folder, e)
  {
    assert (order + [e])[..|order|] == order;
  }

  /** `order` lists the entries of `listing`, each once. */
  predicate Enumerates(order: seq<DirEntry>, listing: set<DirEntry>) {
    (set e | e in order) == listing && forall i, j :: 0 <= i < j < |order| ==> order[i] != order[j]
  }

  /** Part way through a listing: `order` holds the entries taken so far, each once,
      and `remaining` the others. */
  predicate Taking(order: seq<DirEntry>, remaining: set<DirEntry>, listing: set<DirEntry>) {
    (set e | e in order) + remaining == listing
    && (forall e :: e in order ==> e !in remaining)
    && forall i, j :: 0 <= i < j < |order| ==> order[i] != order[j]
  }

  lemma TakingStep(order: seq<DirEntry>, remaining: set<DirEntry>, listing: set<DirEntry>, e: DirEntry)
    requires Taking(order, remaining, listing) && e in remaining
    ensures Taking(order + [e], remaining - {e}, listing)
  {
    var next := order + [e];
    assert (set x | x in next) == (set x | x in order) + {e};
    forall i, j | 0 <= i < j < |next| ensures next[i] != next[j] {
      if j == |order| {
        assert next[i] in order;
      }
    }
  }

  lemma TakingDone(order: seq<DirEntry>, listing: set<DirEntry>)
    requires Taking(order, {}, listing)
    ensures Enumerates(order, listing)
  {
  }

  /** The monitored folders scanned one after the other, the entries of each in the
      matching `orders` element; an unreadable folder is skipped. */
  function ScanFolders(ctx: Context, w: World, folders: seq<string>, orders: seq<seq<DirEntry>>): World
    requires |orders| == |folders|
    decreases |folders|
  {
    if folders == [] then w
    else
      var n := |folders| - 1;
      var before := ScanFolders(ctx, w, folders[..n], orders[..n]);
      if folders[n] in before.dirs then ScanEntries(ctx, before, folders[n], orders[n]) else before
  }

  /** Each element of `orders` lists the folder as it is when its turn comes. */
  predicate ScanOrders(ctx: Context, w: World, folders: seq<string>, orders: seq<seq<DirEntry>>)
    requires |orders| == |folders|
    decreases |folders|
  {
    folders == [] ||
    (var n := |folders| - 1;
     var before := ScanFolders(ctx, w, folders[..n], orders[..n]);
     ScanOrders(ctx, w, folders[..n], orders[..n])
     && (folders[n] in before.dirs ==> Enumerates(orders[n], ListDir(before.files, before.dirs, folders[n]).value)))
  }

  /** Scanning one more folder is one more step, and its listing is taken from the
      state the earlier folders left. */
  lemma ScanFoldersSnoc(ctx: Context, w: World, folders: seq<string>, orders: seq<seq<DirEntry>>,
                        folder: string, order: seq<DirEntry>)
    requires |orders| == |folders|
    ensures var before := ScanFolders(ctx, w, folders, orders);
      ScanFolders(ctx, w, folders + [folder], orders + [order])
        == (if folder in before.dirs then ScanEntries(ctx, before, folder, order) else before)
      && (ScanOrders(ctx, w, folders + [folder], orders + [order]) <==>
          ScanOrders(ctx, w, folders, orders)
          && (folder in before.dirs ==> Enumerates(order, ListDir(before.files, before.dirs, folder).value)))
  {
    assert (folders + [folder])[..|folders|] == folders;
    assert (orders + [order])[..|orders|] == orders;
  }

  // ---------------------------------------------------------------------------
  // Properties of the specification
  // ---------------------------------------------------------------------------

  /** An article file that already sits in its folder, has an ID and is ready for
      approval is left untouched and gets one request per pass: there is no
      deduplication. */
  lemma NoDeduplication(ctx: Context, w: World, path: string)
    requires ReadDocument(w.files, path, ctx.codec.decode).Ok?
    requires var doc := ReadDocument(w.files, path, ctx.codec.decode).value;
      doc.front.id != ""
      && Mover.MoveTarget(ctx.mover, CurrentStatus(doc.front.status), path) == Ok(path)
      && ShouldRequestApproval(CurrentStatus(doc.front.status), ctx.hasServer)
    ensures var doc := ReadDocument(w.files, path, ctx.codec.decode).value;
      var call := ApprovalCall(path, doc.front);
      var w1 := ProcessFile(ctx, w, path).1;
      var w2 := ProcessFile(ctx, w1, path).1;
      w1.files == w.files && w1.calls == w.calls + [call]
      && w2.files == w.files && w2.calls == w.calls + [call, call]
  {
    var doc := ReadDocument(w.files, path, ctx.codec.decode).value;
    Mover.StatusChangeInPlace(ctx.mover, w.files, w.dirs, path, ctx.codec, ctx.stamp);
    var w1 := ProcessFile(ctx, w, path).1;
    assert w1.files == w.files;
    Mover.StatusChangeInPlace(ctx.mover, w1.files, w1.dirs, path, ctx.codec, ctx.stamp);
  }

  /** When the re-filing moves a scanned article, the re-parse at the original path
      fails and no approval is requested in that pass. */
  lemma RelocatedFileNotRequested(ctx: Context, w: World, path: string)
    requires ReadDocument(w.files, path, ctx.codec.decode).Ok?
    requires var f1 := FilesAfterParse(w.files, path, ctx.codec, ctx.stamp);
      ReadDocument(f1, path, ctx.codec.decode).Ok?
      && var doc := ReadDocument(f1, path, ctx.codec.decode).value;
      var t := Mover.MoveTarget(ctx.mover, CurrentStatus(doc.front.status), path);
      t.Ok? && t.value != path
    ensures ProcessFile(ctx, w, path).0 == Err(ReparseFailed(ReadFailed(path)))
    ensures ProcessFile(ctx, w, path).1.calls == w.calls
  {
    var f1 := FilesAfterParse(w.files, path, ctx.codec, ctx.stamp);
    Mover.StatusChangeRelocates(ctx.mover, f1, w.dirs, path, ctx.codec, ctx.stamp);
  }

  /** Approval requests are only ever appended: a scan never withdraws one. */
  lemma {:induction false} ScanEntriesAppends(ctx: Context, w: World, folder: string, order: seq<DirEntry>)
    ensures var after := ScanEntries(ctx, w, folder, order);
      |w.calls| <= |after.calls| && after.calls[..|w.calls|] == w.calls
    decreases |order|
  {
    if order != [] {
      ScanEntriesAppends(ctx, w, folder, order[..|order| - 1]);
    }
  }

  /** A file the scan skips by name changes nothing, whatever it holds. */
  lemma SkippedEntryChangesNothing(ctx: Context, w: World, folder: string, order: seq<DirEntry>, e: DirEntry)
    requires !IsScanned(e)
    ensures ScanEntries(ctx, w, folder, order + [e]) == ScanEntries(ctx, w, folder, order)
  {
    assert (order + [e])[..|order|] == order;
  }

  // ---------------------------------------------------------------------------
  // The watcher
  // ---------------------------------------------------------------------------

  class Watcher {
    const mover: Mover.Mover
    /** The events emitted on the channel, in order. */
    var events: seq<Event>
    /** Whether an approval server is set. */
    var hasServer: bool
    /** The approval requests made, in order. */
    var calls: seq<ApprovalCall>

    /** NewWatcher: a mover over the built-in alias tables; subscribing to the file
        system is not modelled. */
    constructor (cfg: AppConfig.Config)
      ensures mover == Mover.NewMover(cfg, "").value
      ensures events == [] && !hasServer && calls == []
    {
      mover := Mover.NewMover(cfg, "").value;
      events := [];
      hasServer := false;
      calls := [];
    }

    /** SetApprovalServer. */
    method SetApprovalServer()
      modifies this`hasServer
      ensures hasServer
    {
      hasServer := true;
    }

    /** handleEvent: classify, emit, and for a created or modified file re-file it,
        parse it at the event's path and request approval when it is ready. */
    method HandleEvent(disk: Disk, ev: FsEvent, codec: Codec, stamp: string)
      modifies this`events, this`calls, disk`files, disk`dirs
      ensures Classify(ev.op).None? ==>
        events == old(events) && calls == old(calls) && disk.files == old(disk.files) && disk.dirs == old(disk.dirs)
      ensures Classify(ev.op).Some? ==>
        var w := HandleEventSpec(Context(mover, codec, stamp, hasServer, true),
          World(old(disk.files), old(disk.dirs), old(calls)), Classify(ev.op).value, ev.name);
        events == old(events) + [Event(Classify(ev.op).value, ev.name)]
        && disk.files == w.files && disk.dirs == w.dirs && calls == w.calls
    {
      var kind := Classify(ev.op);
      if kind.None? {
        return;
      }
      events := events + [Event(kind.value, ev.name)];
      if kind.value == EventCreated || kind.value == EventModified {
        RefileAndRequest(disk, ev.name, codec, stamp);
      }
    }

    /** The created-or-modified part of handleEvent; its failures are only logged. */
    method RefileAndRequest(disk: Disk, path: string, codec: Codec, stamp: string)
      modifies this`calls, disk`files, disk`dirs
      ensures var w := Refile(Context(mover, codec, stamp, hasServer, true),
          World(old(disk.files), old(disk.dirs), old(calls)), path);
        disk.files == w.files && disk.dirs == w.dirs && calls == w.calls
    {
      var moved := Mover.ProcessArticleStatusChange(mover, disk, path, codec, stamp);
      if moved.Err? {
        return;
      }
      ghost var files := disk.files;
      var parsed := ParseArticle(disk, path, codec, stamp);
      if parsed.Err? {
        return;
      }
      var article := parsed.value;
      ReapprovalUnreachable(article.status);
      var requested := RequestIfReady(article);
      assert requested ==> calls == old(calls) + Requests(Context(mover, codec, stamp, hasServer, true), files, path);
      if !requested && CurrentStatus(article.status) == "rejected" && article.status.update == 1 && hasServer {
        assert false;
      }
    }

    /** Request approval for an article whose status is publish or update, when an
        approval server is set. */
    method RequestIfReady(article: Article) returns (requested: bool)
      modifies this`calls
      ensures requested == ShouldRequestApproval(CurrentStatus(article.status), hasServer)
      ensures calls == old(calls) + if requested then [ApprovalCall(article.filePath, article.Front())] else []
    {
      var current := article.GetCurrentStatus();
      requested := ShouldRequestApproval(current, hasServer);
      if requested {
        calls := calls + [ApprovalCall(article.filePath, article.Front())];
      }
    }

    /** processEvents for one event: the name filter, then handleEvent (the 500 ms
        debounce is not modelled). */
    method ProcessEvent(disk: Disk, ev: FsEvent, codec: Codec, stamp: string)
      modifies this`events, this`calls, disk`files, disk`dirs
      ensures !IsWatchedName(ev.name) ==>
        events == old(events) && calls == old(calls) && disk.files == old(disk.files) && disk.dirs == old(disk.dirs)
      ensures IsWatchedName(ev.name) && Classify(ev.op).Some? ==>
        var w := HandleEventSpec(Context(mover, codec, stamp, hasServer, true),
          World(old(disk.files), old(disk.dirs), old(calls)), Classify(ev.op).value, ev.name);
        events == old(events) + [Event(Classify(ev.op).value, ev.name)]
        && disk.files == w.files && disk.dirs == w.dirs && calls == w.calls
      ensures IsWatchedName(ev.name) && Classify(ev.op).None? ==>
        events == old(events) && calls == old(calls) && disk.files == old(disk.files) && disk.dirs == old(disk.dirs)
    {
      if !IsWatchedName(ev.name) {
        return;
      }
      HandleEvent(disk, ev, codec, stamp);
    }

    /** processArticleFile; `approvalOk` is the approval server's answer. */
    method ProcessArticleFile(disk: Disk, path: string, codec: Codec, stamp: string, approvalOk: bool)
      returns (r: Result<(), WatchError>)
      modifies this`calls, disk`files, disk`dirs
      ensures var out := ProcessFile(Context(mover, codec, stamp, hasServer, approvalOk),
          World(old(disk.files), old(disk.dirs), old(calls)), path);
        r == out.0 && disk.files == out.1.files && disk.dirs == out.1.dirs && calls == out.1.calls
    {
      var parsed := ParseArticle(disk, path, codec, stamp);
      if parsed.Err? {
        return Err(ParseFailed(parsed.error));
      }
      var article := parsed.value;
      var moved := Mover.ProcessArticleStatusChange(mover, disk, article.filePath, codec, stamp);
      if moved.Err? {
        return Err(StatusChangeFailed(moved.error));
      }
      r := ReparseAndRequest(disk, article.filePath, codec, stamp, approvalOk);
    }

    /** The tail of processArticleFile: the re-parse (retried once at the same path)
        and the approval request. */
    method ReparseAndRequest(disk: Disk, path: string, codec: Codec, stamp: string, approvalOk: bool)
      returns (r: Result<(), WatchError>)
      modifies this`calls, disk`files
      ensures var out := Reparse(Context(mover, codec, stamp, hasServer, approvalOk),
          World(old(disk.files), disk.dirs, old(calls)), path);
        r == out.0 && disk.files == out.1.files && calls == out.1.calls
    {
      var parsed := ParseArticle(disk, path, codec, stamp);
      if parsed.Err? {
        parsed := ParseArticle(disk, path, codec, stamp);
        if parsed.Err? {
          return Err(ReparseFailed(parsed.error));
        }
      }
      var article := parsed.value;
      var requested := RequestIfReady(article);
      if requested && !approvalOk {
        return Err(RequestFailed);
      }
      return Ok(());
    }

    /** scanFolder: list the folder once, then process every Markdown file in it; a
        failing file is logged and the scan goes on. The order of the listing is not
        modelled: `order` is the order the entries were taken in. */
    method ScanFolder(disk: Disk, folder: string, codec: Codec, stamp: string, approvalOk: bool)
      returns (r: Result<(), WatchError>, ghost order: seq<DirEntry>)
      modifies this`calls, disk`files, disk`dirs
      ensures folder !in old(disk.dirs) ==> (r == Err(ReadDirFailed(folder))
        && calls == old(calls) && disk.files == old(disk.files) && disk.dirs == old(disk.dirs))
      ensures folder in old(disk.dirs) ==> (r.Ok?
        && Enumerates(order, ListDir(old(disk.files), old(disk.dirs), folder).value)
        && World(disk.files, disk.dirs, calls) == ScanEntries(Context(mover, codec, stamp, hasServer, approvalOk),
             World(old(disk.files), old(disk.dirs), old(calls)), folder, order))
    {
      order := [];
      var entries := disk.ReadDir(folder);
      if entries.Err? {
        return Err(ReadDirFailed(folder)), order;
      }
      ghost var ctx := Context(mover, codec, stamp, hasServer, approvalOk);
      ghost var w0 := World(disk.files, disk.dirs, calls);
      var remaining := entries.value;
      while remaining != {}
        invariant Taking(order, remaining, entries.value)
        invariant World(disk.files, disk.dirs, calls) == ScanEntries(ctx, w0, folder, order)
        decreases |remaining|
      {
        var e :| e in remaining;
        TakingStep(order, remaining, entries.value, e);
        ScanEntriesSnoc(ctx, w0, folder, order, e);
        remaining := remaining - {e};
        ProcessEntry(disk, folder, e, codec, stamp, approvalOk);
        order := order + [e];
      }
      TakingDone(order, entries.value);
      return Ok(()), order;
    }

    /** One step of scanFolder's loop. */
    method ProcessEntry(disk: Disk, folder: string, e: DirEntry, codec: Codec, stamp: string, approvalOk: bool)
      modifies this`calls, disk`files, disk`dirs
      ensures World(disk.files, disk.dirs, calls) == ScanStep(Context(mover, codec, stamp, hasServer, approvalOk),
        World(old(disk.files), old(disk.dirs), old(calls)), folder, e)
    {
      if IsScanned(e) {
        var _ := ProcessArticleFile(disk, Join(folder, e.name), codec, stamp, approvalOk);
      }
    }

    /** scanAllFolders: every monitored folder in status order; a folder that cannot
        be read is logged and skipped. */
    method ScanAllFolders(disk: Disk, codec: Codec, stamp: string, approvalOk: bool)
      returns (r: Result<(), Mover.MoveError>, ghost orders: seq<seq<DirEntry>>)
      modifies this`calls, disk`files, disk`dirs
      ensures r.Ok? <==> Mover.AllMapped(mover)
      ensures r.Err? ==> (calls == old(calls) && disk.files == old(disk.files) && disk.dirs == old(disk.dirs))
      ensures r.Ok? ==> (|orders| == |Mover.MonitoredFolders(mover)|
        && var ctx := Context(mover, codec, stamp, hasServer, approvalOk);
        var w0 := World(old(disk.files), old(disk.dirs), old(calls));
        ScanOrders(ctx, w0, Mover.MonitoredFolders(mover), orders)
        && World(disk.files, disk.dirs, calls) == ScanFolders(ctx, w0, Mover.MonitoredFolders(mover), orders))
    {
      orders := [];
      var folders := Mover.GetAllMonitoredFolders(mover);
      if folders.Err? {
        return Err(folders.error), orders;
      }
      ghost var ctx := Context(mover, codec, stamp, hasServer, approvalOk);
      ghost var w0 := World(disk.files, disk.dirs, calls);
      var fs := folders.value;
      for i := 0 to |fs|
        invariant |orders| == i
        invariant ScanOrders(ctx, w0, fs[..i], orders)
        invariant World(disk.files, disk.dirs, calls) == ScanFolders(ctx, w0, fs[..i], orders)
      {
        assert fs[..i + 1] == fs[..i] + [fs[i]];
        var _, order := ScanFolder(disk, fs[i], codec, stamp, approvalOk);
        ScanFoldersSnoc(ctx, w0, fs[..i], orders, fs[i], order);
        orders := orders + [order];
      }
      assert fs[..|fs|] == fs;
      return Ok(()), orders;
    }
  }
}
