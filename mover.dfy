/** The status router: the per-language table of folder names, the folder lookup and
    the move of an article file into the folder its status calls for. */
module Mover {
  import opened Text
  import opened Paths
  import opened Frontmatter
  import AppConfig

  /** Language, then status, to folder name. */
  type FolderAliases = map<string, map<string, string>>

  const DanishFolders: map<string, string> := map[
    "draft" := "kladde", "revision" := "afventer-rettelser", "publish" := "udgiv",
    "published" := "udgivet", "rejected" := "afvist", "update" := "opdater"]

  const EnglishFolders: map<string, string> := map[
    "draft" := "drafts", "revision" := "awaiting-revision", "publish" := "publish",
    "published" := "published", "rejected" := "rejected", "update" := "update"]

  /** The table maps exactly the six statuses, to six different names that are single
      path elements. */
  predicate StatusTable(t: map<string, string>) {
    t.Keys == set s | s in StatusNames
    && (forall a, b :: a in t && b in t && a != b ==> t[a] != t[b])
    && (forall a :: a in t ==> t[a] != "" && NoSlash(t[a]))
  }

  /** The folder names of a table, in status order. */
  function FolderNames(t: map<string, string>): seq<string>
    requires forall s :: s in StatusNames ==> s in t
  {
    seq(|StatusNames|, i requires 0 <= i < |StatusNames| => t[StatusNames[i]])
  }

  /** Folder names that can serve as a table: pairwise different, non-empty and free
      of slashes. */
  predicate GoodNames(names: seq<string>) {
    (forall i, j :: 0 <= i < j < |names| ==> names[i] != names[j])
    && forall i :: 0 <= i < |names| ==> names[i] != "" && NoSlash(names[i])
  }

  /** A table over the six statuses whose folder names, listed in status order, are
      good names is a status table. */
  lemma StatusTableByNames(t: map<string, string>)
    requires t.Keys == set s | s in StatusNames
    requires GoodNames(FolderNames(t))
    ensures StatusTable(t)
  {
    var names := FolderNames(t);
    forall a, b | a in t && b in t && a != b ensures t[a] != t[b] {
      var i :| 0 <= i < |StatusNames| && StatusNames[i] == a;
      var j :| 0 <= j < |StatusNames| && StatusNames[j] == b;
      assert names[i] == t[a] && names[j] == t[b];
      if i < j {
        assert names[i] != names[j];
      } else {
        assert i != j;
        assert names[j] != names[i];
      }
    }
    forall a | a in t ensures t[a] != "" && NoSlash(t[a]) {
      var i :| 0 <= i < |StatusNames| && StatusNames[i] == a;
      assert names[i] == t[a];
    }
  }

  /** Six names that differ pairwise, stated pair by pair. */
  lemma SixDistinct(names: seq<string>)
    requires |names| == 6
    requires names[0] != names[1] && names[0] != names[2] && names[0] != names[3]
      && names[0] != names[4] && names[0] != names[5]
    requires names[1] != names[2] && names[1] != names[3] && names[1] != names[4] && names[1] != names[5]
    requires names[2] != names[3] && names[2] != names[4] && names[2] != names[5]
    requires names[3] != names[4] && names[3] != names[5] && names[4] != names[5]
    ensures forall i, j :: 0 <= i < j < |names| ==> names[i] != names[j]
  {
    forall i, j | 0 <= i < j < |names| ensures names[i] != names[j] {
      if i == 0 {
      } else if i == 1 {
      } else if i == 2 {
      } else if i == 3 {
      }
    }
  }

  const DanishNames: seq<string> := ["kladde", "afventer-rettelser", "udgiv", "udgivet", "afvist", "opdater"]
  const EnglishNames: seq<string> := ["drafts", "awaiting-revision", "publish", "published", "rejected", "update"]

  /** Six names, each non-empty and free of slashes, stated one by one. */
  lemma SixGood(names: seq<string>)
    requires |names| == 6
    requires names[0] != "" && NoSlash(names[0]) && names[1] != "" && NoSlash(names[1])
    requires names[2] != "" && NoSlash(names[2]) && names[3] != "" && NoSlash(names[3])
    requires names[4] != "" && NoSlash(names[4]) && names[5] != "" && NoSlash(names[5])
    ensures forall i :: 0 <= i < |names| ==> names[i] != "" && NoSlash(names[i])
  {
    forall i | 0 <= i < |names| ensures names[i] != "" && NoSlash(names[i]) {
      if i == 0 {
      } else if i == 1 {
      } else if i == 2 {
      } else if i == 3 {
      } else if i == 4 {
      }
    }
  }

  lemma DanishNamesAreGood()
    ensures GoodNames(DanishNames)
  {
    SixDistinct(DanishNames);
    SixGood(DanishNames);
  }

  lemma EnglishNamesAreGood()
    ensures GoodNames(EnglishNames)
  {
    SixDistinct(EnglishNames);
    SixGood(EnglishNames);
  }

  lemma DanishIsStatusTable()
    ensures StatusTable(DanishFolders)
  {
    assert DanishFolders.Keys == set s | s in StatusNames;
    assert FolderNames(DanishFolders) == DanishNames;
    DanishNamesAreGood();
    StatusTableByNames(DanishFolders);
  }

  lemma EnglishIsStatusTable()
    ensures StatusTable(EnglishFolders)
  {
    assert EnglishFolders.Keys == set s | s in StatusNames;
    assert FolderNames(EnglishFolders) == EnglishNames;
    EnglishNamesAreGood();
    StatusTableByNames(EnglishFolders);
  }

  /** LoadFolderAliases: the built-in tables (the path argument is not read and no error
      is ever returned). */
  function LoadFolderAliases(path: string): (r: Result<FolderAliases, string>)
    ensures r.Ok? && r.value.Keys == {"da", "en"}
    ensures r.Ok? ==> forall lang :: lang in r.value ==> StatusTable(r.value[lang])
  {
    DanishIsStatusTable();
    EnglishIsStatusTable();
    Ok(map["da" := DanishFolders, "en" := EnglishFolders])
  }

  /** The mover: the configuration and the alias tables; neither changes after creation. */
  datatype Mover = Mover(cfg: AppConfig.Config, aliases: FolderAliases)

  /** NewMover. */
  function NewMover(cfg: AppConfig.Config, aliasesPath: string): (r: Result<Mover, string>)
    ensures r.Ok? && r.value.cfg == cfg && r.value.aliases == LoadFolderAliases(aliasesPath).value
  {
    match LoadFolderAliases(aliasesPath)
    case Err(e) => Err("failed to load folder aliases: " + e)
    case Ok(aliases) => Ok(Mover(cfg, aliases))
  }

  datatype MoveError =
    | NoFolderMapping(status: string, lang: string)
    | RenameFailed(src: string, dst: string)
    | ParseFailed(reason: ParseError)

  /** GetFolderForStatus: the base path joined with the alias for the configured
      language and the status; an unmapped language or status is an error. */
  function GetFolderForStatus(m: Mover, status: string): (r: Result<string, MoveError>)
    ensures var lang := m.cfg.dropbox.folderLanguage;
      r.Ok? <==> lang in m.aliases && status in m.aliases[lang]
    ensures var lang := m.cfg.dropbox.folderLanguage;
      r.Ok? ==> r.value == Join(m.cfg.dropbox.basePath, m.aliases[lang][status])
    ensures r.Err? ==> r.error == NoFolderMapping(status, m.cfg.dropbox.folderLanguage)
  {
    var lang := m.cfg.dropbox.folderLanguage;
    if lang in m.aliases && status in m.aliases[lang] then
      Ok(Join(m.cfg.dropbox.basePath, m.aliases[lang][status]))
    else Err(NoFolderMapping(status, lang))
  }

  /** A mover built from the built-in tables. */
  predicate Standard(m: Mover) {
    m.aliases == LoadFolderAliases("").value && m.cfg.dropbox.folderLanguage in {"da", "en"}
  }

  /** With the built-in tables, every status has a folder, and different statuses have
      different folders, each directly under the base path. */
  lemma StandardFolders(m: Mover)
    requires Standard(m)
    ensures forall s :: s in StatusNames <==> GetFolderForStatus(m, s).Ok?
    ensures forall s :: s in StatusNames ==> IsChild(GetFolderForStatus(m, s).value, m.cfg.dropbox.basePath)
    ensures forall a, b :: a in StatusNames && b in StatusNames && a != b ==>
      GetFolderForStatus(m, a).value != GetFolderForStatus(m, b).value
  {
    var table := m.aliases[m.cfg.dropbox.folderLanguage];
    assert StatusTable(table);
    forall s | s in StatusNames
      ensures IsChild(GetFolderForStatus(m, s).value, m.cfg.dropbox.basePath)
    {
      JoinIsChild(m.cfg.dropbox.basePath, table[s]);
    }
    forall a, b | a in StatusNames && b in StatusNames && a != b
      ensures GetFolderForStatus(m, a).value != GetFolderForStatus(m, b).value
    {
      var base := m.cfg.dropbox.basePath;
      BaseOfJoin(base, table[a]);
      BaseOfJoin(base, table[b]);
    }
  }

  /** The Danish table with base "/test/base": the six folders, and no folder for "unknown". */
  lemma DanishFolderExamples(m: Mover)
    requires "da" in m.aliases && m.aliases["da"] == DanishFolders
    requires m.cfg.dropbox.basePath == "/test/base" && m.cfg.dropbox.folderLanguage == "da"
    ensures GetFolderForStatus(m, "draft") == Ok("/test/base/kladde")
    ensures GetFolderForStatus(m, "revision") == Ok("/test/base/afventer-rettelser")
    ensures GetFolderForStatus(m, "publish") == Ok("/test/base/udgiv")
    ensures GetFolderForStatus(m, "published") == Ok("/test/base/udgivet")
    ensures GetFolderForStatus(m, "rejected") == Ok("/test/base/afvist")
    ensures GetFolderForStatus(m, "update") == Ok("/test/base/opdater")
    ensures GetFolderForStatus(m, UnknownStatus).Err?
  {
    DanishLookups();
    DanishFoldersFirstHalf(m);
    DanishFoldersSecondHalf(m);
  }

  lemma DanishLookups()
    ensures DanishFolders["draft"] == "kladde" && DanishFolders["revision"] == "afventer-rettelser"
    ensures DanishFolders["publish"] == "udgiv" && DanishFolders["published"] == "udgivet"
    ensures DanishFolders["rejected"] == "afvist" && DanishFolders["update"] == "opdater"
    ensures UnknownStatus !in DanishFolders
  {
  }

  lemma DanishFoldersFirstHalf(m: Mover)
    requires "da" in m.aliases && m.aliases["da"] == DanishFolders
    requires m.cfg.dropbox.basePath == "/test/base" && m.cfg.dropbox.folderLanguage == "da"
    ensures GetFolderForStatus(m, "draft") == Ok("/test/base/kladde")
    ensures GetFolderForStatus(m, "revision") == Ok("/test/base/afventer-rettelser")
    ensures GetFolderForStatus(m, "publish") == Ok("/test/base/udgiv")
  {
    DanishLookups();
    assert GetFolderForStatus(m, "draft") == Ok("/test/base/kladde") by {
      assert Join("/test/base", "kladde") == "/test/base/kladde";
    }
    assert GetFolderForStatus(m, "revision") == Ok("/test/base/afventer-rettelser") by {
      assert Join("/test/base", "afventer-rettelser") == "/test/base/afventer-rettelser";
    }
    assert GetFolderForStatus(m, "publish") == Ok("/test/base/udgiv") by {
      assert Join("/test/base", "udgiv") == "/test/base/udgiv";
    }
  }

  lemma DanishFoldersSecondHalf(m: Mover)
    requires "da" in m.aliases && m.aliases["da"] == DanishFolders
    requires m.cfg.dropbox.basePath == "/test/base" && m.cfg.dropbox.folderLanguage == "da"
    ensures GetFolderForStatus(m, "published") == Ok("/test/base/udgivet")
    ensures GetFolderForStatus(m, "rejected") == Ok("/test/base/afvist")
    ensures GetFolderForStatus(m, "update") == Ok("/test/base/opdater")
    ensures GetFolderForStatus(m, UnknownStatus).Err?
  {
    DanishLookups();
    assert GetFolderForStatus(m, "published") == Ok("/test/base/udgivet") by {
      assert Join("/test/base", "udgivet") == "/test/base/udgivet";
    }
    assert GetFolderForStatus(m, "rejected") == Ok("/test/base/afvist") by {
      assert Join("/test/base", "afvist") == "/test/base/afvist";
    }
    assert GetFolderForStatus(m, "update") == Ok("/test/base/opdater") by {
      assert Join("/test/base", "opdater") == "/test/base/opdater";
    }
  }

  // ---------------------------------------------------------------------------
  // MoveArticle
  // ---------------------------------------------------------------------------

  /** The path an article at `path` with status `status` belongs at: its file name in
      the status folder. */
  function MoveTarget(m: Mover, status: string, path: string): (r: Result<string, MoveError>)
    ensures r.Ok? <==> GetFolderForStatus(m, status).Ok?
    ensures r.Err? ==> r.error == GetFolderForStatus(m, status).error
    ensures r.Ok? ==> Base(r.value) == Base(path)
    ensures r.Ok? && Base(path) != "" ==> IsChild(r.value, GetFolderForStatus(m, status).value)
  {
    match GetFolderForStatus(m, status)
    case Err(e) => Err(e)
    case Ok(folder) =>
      BaseOfJoin(folder, Base(path));
      assert Base(path) != "" ==> IsChild(Join(folder, Base(path)), folder) by {
        if Base(path) != "" {
          JoinIsChild(folder, Base(path));
        }
      }
      Ok(Join(folder, Base(path)))
  }

  /** An article already at its target stays there: moving is idempotent. */
  lemma MoveTargetIdempotent(m: Mover, status: string, path: string)
    requires MoveTarget(m, status, path).Ok?
    ensures MoveTarget(m, status, MoveTarget(m, status, path).value) == MoveTarget(m, status, path)
  {
  }

  /** What MoveArticle reports for an article at `path` with status `status`. */
  function MoveResult(m: Mover, status: string, path: string, files: map<string, string>): Result<(), MoveError> {
    match MoveTarget(m, status, path)
    case Err(e) => Err(e)
    case Ok(t) => if t == path || path in files then Ok(()) else Err(RenameFailed(path, t))
  }

  /** The article's recorded path after MoveArticle. */
  function PathAfterMove(m: Mover, status: string, path: string, files: map<string, string>): string {
    match MoveTarget(m, status, path)
    case Err(_) => path
    case Ok(t) => if path in files then t else path
  }

  /** The files after MoveArticle. */
  function FilesAfterMove(m: Mover, status: string, path: string, files: map<string, string>): map<string, string> {
    match MoveTarget(m, status, path)
    case Err(_) => files
    case Ok(t) => if t == path || path !in files then files else (files - {path})[t := files[path]]
  }

  /** The directories after MoveArticle: the status folder is created when it is known. */
  function DirsAfterMove(m: Mover, status: string, dirs: set<string>): set<string> {
    match GetFolderForStatus(m, status)
    case Err(_) => dirs
    case Ok(folder) => dirs + {folder}
  }

  /** MoveArticle: create the status folder, then rename the file into it unless it is
      already there, and record the new path. */
  method MoveArticle(m: Mover, article: Article, disk: Disk) returns (r: Result<(), MoveError>)
    modifies article`filePath, disk`files, disk`dirs
    ensures var status := CurrentStatus(article.status);
      r == MoveResult(m, status, old(article.filePath), old(disk.files))
      && article.filePath == PathAfterMove(m, status, old(article.filePath), old(disk.files))
      && disk.files == FilesAfterMove(m, status, old(article.filePath), old(disk.files))
      && disk.dirs == DirsAfterMove(m, status, old(disk.dirs))
  {
    var currentStatus := article.GetCurrentStatus();
    var targetFolder := GetFolderForStatus(m, currentStatus);
    if targetFolder.Err? {
      return Err(targetFolder.error);
    }
    disk.MkdirAll(targetFolder.value);
    var filename := Base(article.filePath);
    var targetPath := Join(targetFolder.value, filename);
    assert MoveTarget(m, currentStatus, article.filePath) == Ok(targetPath);
    if article.filePath == targetPath {
      return Ok(());
    }
    var ok := disk.Rename(article.filePath, targetPath);
    if !ok {
      return Err(RenameFailed(article.filePath, targetPath));
    }
    article.filePath := targetPath;
    return Ok(());
  }

  /** The outcomes of a move: an unmapped status changes nothing; otherwise the article
      ends at its target unless its file is missing, in which case the rename fails. */
  lemma MoveOutcomes(m: Mover, status: string, path: string, files: map<string, string>)
    ensures MoveTarget(m, status, path).Err? ==>
      MoveResult(m, status, path, files).Err? && PathAfterMove(m, status, path, files) == path
      && FilesAfterMove(m, status, path, files) == files
    ensures MoveTarget(m, status, path).Ok? ==>
      var t := MoveTarget(m, status, path).value;
      (MoveResult(m, status, path, files).Ok? <==> t == path || path in files)
      && (MoveResult(m, status, path, files).Ok? ==>
            PathAfterMove(m, status, path, files) == t && (path in files ==> t in FilesAfterMove(m, status, path, files)))
      && (t != path && path in files ==> path !in FilesAfterMove(m, status, path, files))
  {
  }

  /** A move keeps every text: each file is still present, at its own path or, for the
      moved one, at the target; only the moved file's old path disappears. */
  lemma MovePreservesContents(m: Mover, status: string, path: string, files: map<string, string>)
    requires MoveTarget(m, status, path).Ok?
    ensures var t := MoveTarget(m, status, path).value;
      var after := FilesAfterMove(m, status, path, files);
      (path in files ==> t in after && after[t] == files[path])
      && (forall p :: p in files && p != path ==> p in after && (p != t ==> after[p] == files[p]))
      && (forall p :: p in after ==> p in files || (p == t && path in files))
  {
  }

  /** Moving twice is moving once. */
  lemma MoveTwiceIsMoveOnce(m: Mover, status: string, path: string, files: map<string, string>)
    requires MoveTarget(m, status, path).Ok?
    ensures var t := MoveTarget(m, status, path).value;
      FilesAfterMove(m, status, t, FilesAfterMove(m, status, path, files)) == FilesAfterMove(m, status, path, files)
  {
    MoveTargetIdempotent(m, status, path);
  }

  // ---------------------------------------------------------------------------
  // ProcessArticleStatusChange
  // ---------------------------------------------------------------------------

  /** The result, files and directories after ProcessArticleStatusChange. */
  datatype ChangeOutcome = ChangeOutcome(result: Result<(), MoveError>, files: map<string, string>, dirs: set<string>)

  /** What ProcessArticleStatusChange does to the disk: a file that does not parse is
      left alone; otherwise the parse may write a generated ID and the move follows. */
  function StatusChange(m: Mover, files: map<string, string>, dirs: set<string>, path: string, codec: Codec, stamp: string): ChangeOutcome {
    match ReadDocument(files, path, codec.decode)
    case Err(e) => ChangeOutcome(Err(ParseFailed(e)), files, dirs)
    case Ok(doc) =>
      var status := CurrentStatus(doc.front.status);
      var written := FilesAfterParse(files, path, codec, stamp);
      ChangeOutcome(MoveResult(m, status, path, written), FilesAfterMove(m, status, path, written),
        DirsAfterMove(m, status, dirs))
  }

  /** ProcessArticleStatusChange: parse the article (which may write a generated ID
      back) and move it to the folder of its current status. */
  method ProcessArticleStatusChange(m: Mover, disk: Disk, path: string, codec: Codec, stamp: string)
    returns (r: Result<(), MoveError>)
    modifies disk`files, disk`dirs
    ensures var o := StatusChange(m, old(disk.files), old(disk.dirs), path, codec, stamp);
      r == o.result && disk.files == o.files && disk.dirs == o.dirs
  {
    var parsed := ParseArticle(disk, path, codec, stamp);
    if parsed.Err? {
      return Err(ParseFailed(parsed.error));
    }
    r := MoveArticle(m, parsed.value, disk);
  }

  /** A parsed article whose status calls for another folder ends up there: the result
      is a success, the file is at the target and no longer at its old path. */
  lemma StatusChangeRelocates(m: Mover, files: map<string, string>, dirs: set<string>, path: string, codec: Codec, stamp: string)
    requires ReadDocument(files, path, codec.decode).Ok?
    requires var doc := ReadDocument(files, path, codec.decode).value;
      var t := MoveTarget(m, CurrentStatus(doc.front.status), path);
      t.Ok? && t.value != path
    ensures var doc := ReadDocument(files, path, codec.decode).value;
      var t := MoveTarget(m, CurrentStatus(doc.front.status), path).value;
      var o := StatusChange(m, files, dirs, path, codec, stamp);
      o.result.Ok? && path !in o.files && t in o.files
  {
    ParseKeepsPaths(files, path, codec, stamp);
  }

  /** A parsed article already in its folder stays where it is, with every file kept. */
  lemma StatusChangeInPlace(m: Mover, files: map<string, string>, dirs: set<string>, path: string, codec: Codec, stamp: string)
    requires ReadDocument(files, path, codec.decode).Ok?
    requires var doc := ReadDocument(files, path, codec.decode).value;
      MoveTarget(m, CurrentStatus(doc.front.status), path) == Ok(path)
    ensures var o := StatusChange(m, files, dirs, path, codec, stamp);
      o.result.Ok? && o.files == FilesAfterParse(files, path, codec, stamp)
  {
  }

  // ---------------------------------------------------------------------------
  // GetAllMonitoredFolders
  // ---------------------------------------------------------------------------

  /** The index of the first status without a folder, or 6 when every status has one. */
  function FirstUnmapped(m: Mover, n: nat): (k: nat)
    requires n <= |StatusNames|
    ensures n <= k <= |StatusNames|
    ensures forall i :: n <= i < k ==> GetFolderForStatus(m, StatusNames[i]).Ok?
    ensures k < |StatusNames| ==> GetFolderForStatus(m, StatusNames[k]).Err?
    decreases |StatusNames| - n
  {
    if n == |StatusNames| then n
    else if GetFolderForStatus(m, StatusNames[n]).Err? then n
    else FirstUnmapped(m, n + 1)
  }

  /** Every status has a folder. */
  predicate AllMapped(m: Mover) {
    forall s :: s in StatusNames ==> GetFolderForStatus(m, s).Ok?
  }

  /** The folder of each status, in status order. */
  function MonitoredFolders(m: Mover): (r: seq<string>)
    requires AllMapped(m)
    ensures |r| == |StatusNames|
    ensures forall i :: 0 <= i < |StatusNames| ==> r[i] == GetFolderForStatus(m, StatusNames[i]).value
  {
    seq(|StatusNames|, i requires 0 <= i < |StatusNames| => GetFolderForStatus(m, StatusNames[i]).value)
  }

  /** GetAllMonitoredFolders: the folder of each status, in status order; the first
      unmapped status is the error. */
  method GetAllMonitoredFolders(m: Mover) returns (r: Result<seq<string>, MoveError>)
    ensures r.Ok? <==> AllMapped(m)
    ensures r.Ok? ==> r.value == MonitoredFolders(m)
    ensures r.Err? ==> (FirstUnmapped(m, 0) < |StatusNames|
      && r.error == GetFolderForStatus(m, StatusNames[FirstUnmapped(m, 0)]).error)
  {
    var statuses := ["draft", "revision", "publish", "published", "rejected", "update"];
    assert statuses == StatusNames;
    var folders: seq<string> := [];
    for i := 0 to |statuses|
      invariant |folders| == i
      invariant forall j :: 0 <= j < i ==>
        GetFolderForStatus(m, statuses[j]).Ok? && folders[j] == GetFolderForStatus(m, statuses[j]).value
      invariant FirstUnmapped(m, 0) == FirstUnmapped(m, i)
    {
      var folder := GetFolderForStatus(m, statuses[i]);
      if folder.Err? {
        return Err(folder.error);
      }
      folders := folders + [folder.value];
    }
    return Ok(folders);
  }
}
