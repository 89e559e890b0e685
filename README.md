# hugo-norsetinge publishing core, modelled in Dafny

Norsetinge is a publishing pipeline. Authors drop Markdown articles with YAML
frontmatter into Dropbox folders named after a workflow status. A watcher
re-files each article into the folder its status flags call for. When an
article reaches "publish" or "update", it asks an approval server for a
decision. The server mails the editor a request carrying `#XXXXXX-APPR` and
`#XXXXXX-REJ` codes. It then keeps the article pending until an approve or
reject arrives by HTTP or as an e-mail reply.

This project models the sequential core of that pipeline:

- **Article document** (`frontmatter.dfy`, module `Frontmatter`):
  - the six status flags and the "last flag equal to 1 wins" rule;
  - the status setter;
  - the title slug;
  - the `---` split and the layout the frontmatter is written back in;
  - the `#XXXXXX` article ID.
- **Approval mail** (`email.dfy`, module `Email`): the values the mail is built from, and the header block that carries the article ID.
- **Reply decoding** (`imap.dfy`, module `Imap`):
  - the backward hexadecimal scan for the article ID;
  - code-then-keyword action detection;
  - the choice between the ID header and the ID found in the text.
- **Status router** (`mover.dfy`, module `Mover`):
  - the alias tables;
  - the folder lookup;
  - the move of an article file over an abstract disk;
  - the list of monitored folders.
- **Pending-approval state machine** (`server.dfy`, module `ApprovalServer`): a class over the map of pending articles, with its request, approve, reject and e-mail-reply transitions.
- **Watcher dispatch** (`watcher.dfy`, module `Watcher`):
  - the name filters and the classification of file-system operations;
  - the approval decision;
  - event handling, `processArticleFile`, and the folder scans as loops.
- **Configuration** (`config.dfy`, module `AppConfig`): validation, the environment overrides of `Load`, and `GetFolderPath`.
- **Go library pieces** (`text.dfy`, module `Text`; `paths.dfy`, module `Paths`):
  - substring search, case mapping, trimming and replacement;
  - slash-separated paths;
  - a `Disk` class, a map from path to contents plus a set of directories.

## Decisions and source disagreements

Where call sites or tests disagree with a function body, the model follows the body:

- `src/main.go:29` calls `config.Load` with two arguments. `src/config/config.go:105` takes one path. `AppConfig.Load` follows the definition.
- `src/watcher/watcher.go:46` calls `NewMover(cfg)`. `src/watcher/mover.go:46` takes `(cfg, aliasesPath)`. `LoadFolderAliases` never reads the path, so the watcher's constructor uses `NewMover(cfg, "")`.
- `src/approval/server_test.go:159` calls `cleanupPreviewFiles`, which `server.go` does not define. It is not part of this model.
- `src/common/frontmatter_test.go:111-188` expects `UpdateStatus` to clear the other flags. `src/common/frontmatter.go:138-156` sets one flag and keeps the rest. `Frontmatter.SetFlagDoesNotClear` proves the code's behaviour on the tests' own scenario: with all six flags set, setting "draft" leaves "update" current.

Consequences of the code as written, proved about the model:

- The re-approval branch at `watcher.go:187` can never run. When the update flag is 1, the current status is "update", never "rejected" (`Watcher.ReapprovalUnreachable`).
- A reply that quotes the whole request contains both codes, so it always reads as an approval (`Imap.QuotedRequestReadsAsApprove`).
- Keywords match as substrings, so "book" approves (`Imap.BookApproves`).
- The approval URL computed by `RequestApproval` is passed to the mail builder but never used by the body (`Email.BodyIgnoresApprovalUrl`).
- Scans do not deduplicate: a ready article already in its folder is requested again on every pass (`Watcher.NoDeduplication`).
- When the scan's re-filing moves an article, both re-parses use the old path. The pass then fails and requests nothing (`Watcher.RelocatedFileNotRequested`).

The round trip between the written layout and the split needs two conditions on the metadata block:

- it holds no `---`;
- it does not end in `-`, since a trailing `-` lets a delimiter straddle the block's end.

`Content` has no YAML tag, so it is marshalled into the block as well, and a `content` key in a parsed block overrides the text after it (`Frontmatter.Decoded`).

## Model

| member | source | states |
|---|---|---|
| Frontmatter.LastSet | src/common/frontmatter.go:115-120 | the index of the last of the first n flags equal to 1, or -1; every later flag differs from 1 |
| Frontmatter.Article.GetCurrentStatus | src/common/frontmatter.go:102-123 | the loop over the six (name, flag) pairs returns the current status of the article's flags |
| Frontmatter.CurrentStatusIs | src/common/frontmatter.go:102-123 | the status is the k-th name exactly when flag k is 1 and no later flag is 1 |
| Frontmatter.CurrentStatusUnknown | src/common/frontmatter.go:115-120 | the status is "unknown" exactly when no flag equals 1; values other than 1 count as unset |
| Frontmatter.StatusNamesDistinct | src/common/frontmatter.go:103-113 | the six status names are pairwise different and none is "unknown" |
| Frontmatter.SetFlag | src/common/frontmatter.go:138-156 | an unknown name is rejected; a known name sets its flag to 1 and keeps the other five |
| Frontmatter.Article.UpdateStatus | src/common/frontmatter.go:138-156 | an unknown name yields the "invalid status" error with the status unchanged; a known one updates the status as SetFlag does |
| Frontmatter.SetFlagAdvances | src/common/frontmatter.go:102-156 | after setting a flag the current status is that flag or one later in the order |
| Frontmatter.SetFlagBecomesCurrent | src/common/frontmatter.go:102-156 | the set flag becomes current exactly when no later flag was already 1 |
| Frontmatter.UpdateAlwaysWins | src/common/frontmatter.go:150-151 | setting "update" always makes "update" the current status |
| Frontmatter.SetFlagDoesNotClear | src/common/frontmatter.go:138-156 | from all six flags set, setting "draft" changes nothing and "update" stays current |
| Frontmatter.KeepSlugChars | src/common/frontmatter.go:133 | the filter's output holds only a-z, 0-9 and '-' and is no longer than its input |
| Frontmatter.KeepSlugCharsOfSlug | src/common/frontmatter.go:133 | the filter keeps a text made only of slug characters unchanged |
| Frontmatter.SlugConcat | src/common/frontmatter.go:126-135 | the slug of a concatenation is the concatenation of the slugs |
| Frontmatter.SlugMatchesReference | src/common/frontmatter.go:126-135 | the slug equals the per-character definition: space to '-', æ/ø/å in either case to ae/oe/aa, a-z/0-9/- kept in either case, everything else dropped |
| Frontmatter.SlugIdempotent | src/common/frontmatter.go:126-135 | a slug holds only a-z, 0-9 and '-', and slugging it again changes nothing |
| Frontmatter.Article.GetSlug | src/common/frontmatter.go:126-135 | the article's slug is a slug and equals the per-character definition of its title |
| Frontmatter.HexEncode | src/common/frontmatter.go:182 | two lower-case hexadecimal digits per byte |
| Frontmatter.HexEncodePrefix | src/common/frontmatter.go:182-183 | the first 2n digits of the encoding are the encoding of the first n bytes |
| Frontmatter.GenerateId | src/common/frontmatter.go:176-184 | a generated ID is '#' followed by exactly six upper-case hexadecimal digits |
| Frontmatter.GenerateIdUsesThreeBytes | src/common/frontmatter.go:182-183 | the ID is '#' plus the upper-cased encoding of the digest's first three bytes |
| Frontmatter.TwoDelimitersByIndex | src/common/frontmatter.go:66-69 | two non-overlapping `---` exist exactly when a second one follows the first |
| Frontmatter.SplitFrontmatterSpec | src/common/frontmatter.go:66-69 | the three-way split fails exactly when there are not two delimiters; otherwise it yields the text between the first two delimiters and the text after the second |
| Frontmatter.ParseDocument | src/common/frontmatter.go:66-87 | missing delimiters is the error exactly when two `---` are absent; an undecodable block, an empty title and then an empty author are the next errors in that order; two delimiters and a block decoding with a title and an author succeed, with the decoded fields and the trimmed text after the block unless the block has its own content |
| Frontmatter.LayoutSplits | src/common/frontmatter.go:165 | splitting the written layout gives back the block and the content behind the newlines the layout adds |
| Frontmatter.ParseLayout | src/common/frontmatter.go:66-87 | parsing a written layout yields the decoded fields and the trimmed content |
| Frontmatter.Article.constructor | src/common/frontmatter.go:72-77 | the new article holds the path, the decoded fields and the content |
| Frontmatter.Article.WriteFrontmatter | src/common/frontmatter.go:159-172 | the article's file, and no other, becomes the layout of the marshalled block and the content |
| Frontmatter.FillId | src/common/frontmatter.go:89-96 | an existing ID is kept; an empty one becomes a well-formed generated ID; nothing else changes |
| Frontmatter.ParseArticle | src/common/frontmatter.go:59-99 | the result is the read or parse error, or a fresh article with the parsed fields and a filled-in ID; the file is rewritten exactly when the ID was generated |
| Frontmatter.WriteThenParse | src/common/frontmatter.go:159-172 | parsing a file just written yields the same fields and content, when the metadata library reads back what it wrote |
| Frontmatter.ParseKeepsPaths | src/common/frontmatter.go:89-96 | parsing never creates or removes a file |
| Frontmatter.ParseIsStable | src/common/frontmatter.go:89-96 | a second parse finds the ID the first wrote and rewrites nothing |
| Email.SubjectCarriesTitle | src/approval/email.go:23 | the subject is "Artikel til godkendelse: " followed by the title, which can be read back |
| Email.CleanId | src/approval/email.go:54-57 | exactly one leading '#' is dropped, otherwise the ID is unchanged |
| Email.RelativeDropboxPath | src/approval/email.go:63-66 | the displayed path is the suffix from the first "Dropbox/", or the whole path |
| Email.DropboxLinkCarriesPath | src/approval/email.go:69 | the preview link is "file://" followed by the path |
| Email.BuildApprovalBody | src/approval/email.go:52-144 | the body carries the ID plus "-APPR" and the ID plus "-REJ" as its codes |
| Email.BodyIgnoresApprovalUrl | src/approval/email.go:143 | the body does not depend on the approval URL |
| Email.ApprovalRequest | src/approval/email.go:22-29 | the outgoing request carries the article ID and a subject that reads back as the title |
| Email.HeaderValueOfHeaders | src/approval/email.go:155-168 | reading a header block finds the first header with the wanted name |
| Email.ArticleIdHeaderRoundTrip | src/approval/email.go:155-168 | the article-ID header of the message sendHTML builds reads back as the ID unchanged, when no value holds a carriage return |
| Imap.HexRunStart | src/approval/imap.go:217-223 | the backward scan stops at the start of the maximal run of upper-case hex digits before the code |
| Imap.IdBeforeCode | src/approval/imap.go:225-247 | an ID is found exactly when the maximal run of upper-case hex digits before the code is six long, and is '#' plus those six digits, so a missing '#' is added |
| Imap.ScanBackForId | src/approval/imap.go:214-248 | the loop that walks back from a code returns the ID the run in front of it defines |
| Imap.ExtractFrom | src/approval/imap.go:212-251 | the result is empty or a well-formed article ID |
| Imap.ExtractArticleIdFromText | src/approval/imap.go:206-252 | the loop over the two codes returns the ID at the first code with a valid ID in front of it, or "", and its result is "" or well-formed |
| Imap.OnlyFirstCodeCounts | src/approval/imap.go:212-214 | only the first `-APPR` is examined, and one at index 0 is ignored |
| Imap.ExtractBehindId | src/approval/imap.go:206-252 | a code right behind an ID, with no earlier occurrence of it, yields that ID |
| Imap.ExtractApproveRoundTrip | src/approval/imap.go:206-252 | a text whose first `-APPR` is the approve code of an ID yields that ID |
| Imap.ExtractRejectRoundTrip | src/approval/imap.go:206-252 | a text with no `-APPR` whose first `-REJ` is the reject code of an ID yields that ID |
| Imap.ContainsAny | src/approval/imap.go:332-343 | true exactly when some keyword of the list occurs in the text |
| Imap.UnknownExactly | src/approval/imap.go:304-346 | the action is unknown exactly when there is no code and no keyword of either list |
| Imap.ApproveCodeWins | src/approval/imap.go:310-315 | a `-APPR` anywhere, in any case, approves, even beside a `-REJ` |
| Imap.QuotedRequestReadsAsApprove | src/approval/imap.go:310-315 | a reply quoting both codes of a request reads as approval |
| Imap.ApproveKeywordWins | src/approval/imap.go:318-336 | without a code, any approve keyword approves, whatever reject keywords are present |
| Imap.BookApproves | src/approval/imap.go:318-336 | keywords match as substrings: "book" approves |
| Imap.ApproveCodeApproves | src/approval/email.go:59 | the approve code of an ID reads as approval |
| Imap.RejectCodeRejects | src/approval/email.go:60 | the reject code of an ID without `-APPR` reads as rejection |
| Imap.RejectCodeAddsNoApprove | src/approval/imap.go:310-315 | putting a reject code between two texts without `-APPR` creates no `-APPR` |
| Imap.ReplyArticleId | src/approval/imap.go:143-158 | a non-empty header value is the ID; otherwise the ID is the text extraction applied to subject, space and body, so it is empty or well-formed |
| Imap.ApprovalReplyDecodes | src/approval/imap.go:135-168 | a reply without the header that quotes the approve code decodes to an approval of that article |
| Imap.RejectionReplyDecodes | src/approval/imap.go:135-168 | a reply without the header that quotes only the reject code decodes to a rejection of that article |
| AppConfig.Validate | src/config/config.go:148-160 | the error is the first missing field of base path, folder language and site directory; none missing is valid |
| AppConfig.ValidateReadsOnlyRequired | src/config/config.go:148-160 | no other field influences validation |
| AppConfig.Override | src/config/config.go:126-137 | a non-empty environment value replaces the file's value; an empty one leaves it |
| AppConfig.EnvOverrides | src/config/config.go:125-137 | only the API key, the two passwords and the ntfy topic can change, each to its environment value when that is non-empty |
| AppConfig.EnvDoesNotAffectValidity | src/config/config.go:125-142 | the environment overrides never change whether a configuration is valid |
| AppConfig.Load | src/config/config.go:105-145 | an unreadable .env, an unreadable file, a parse failure and an invalid configuration are errors in that order; success is the overridden configuration and is valid |
| AppConfig.GetFolderPath | src/config/config.go:163-167 | the path never fails |
| AppConfig.FolderPathIsChild | src/config/config.go:163-167 | the path is the folder type directly under the base path |
| Mover.DanishIsStatusTable | src/watcher/mover.go:20-27 | the Danish table maps exactly the six statuses to six distinct single-element folder names |
| Mover.EnglishIsStatusTable | src/watcher/mover.go:28-35 | the English table maps exactly the six statuses to six distinct single-element folder names |
| Mover.LoadFolderAliases | src/watcher/mover.go:16-37 | the tables for "da" and "en", each a status table, and never an error |
| Mover.NewMover | src/watcher/mover.go:46-56 | the mover holds the configuration and the loaded tables |
| Mover.GetFolderForStatus | src/watcher/mover.go:59-68 | the base path joined with the alias of the configured language and status; an unmapped language or status is an error naming both |
| Mover.StandardFolders | src/watcher/mover.go:59-68 | with the built-in tables a status has a folder exactly when it is one of the six, each directly under the base path, different statuses in different folders |
| Mover.DanishFolderExamples | src/watcher/mover.go:59-68 | the six Danish folders under "/test/base", and none for "unknown" |
| Mover.MoveTarget | src/watcher/mover.go:84-86 | the target exists exactly when the status has a folder, keeps the file name, and lies directly in the status's folder |
| Mover.MoveTargetIdempotent | src/watcher/mover.go:85-91 | an article at its target has itself as target |
| Mover.MoveArticle | src/watcher/mover.go:71-102 | the result, the recorded path, the files and the directories are those of the move specification |
| Mover.MoveOutcomes | src/watcher/mover.go:72-99 | an unmapped status fails and changes nothing; otherwise the move succeeds exactly when the file is in place or exists, and then the article is at its target |
| Mover.MovePreservesContents | src/watcher/mover.go:93-99 | the moved text is at the target; every other file keeps its path and, unless overwritten by the target, its text; no file appears from nowhere |
| Mover.MoveTwiceIsMoveOnce | src/watcher/mover.go:88-91 | moving the moved article again changes nothing |
| Mover.ProcessArticleStatusChange | src/watcher/mover.go:105-118 | parse (possibly writing a generated ID), then move; a parse failure changes nothing |
| Mover.StatusChangeRelocates | src/watcher/mover.go:105-118 | a parsed article whose status calls for another folder is moved there and is gone from its old path |
| Mover.StatusChangeInPlace | src/watcher/mover.go:105-118 | a parsed article already in its folder stays, with only the parse's write-back changing the files |
| Mover.FirstUnmapped | src/watcher/mover.go:125-129 | every status before the returned index has a folder and the one at it has none |
| Mover.MonitoredFolders | src/watcher/mover.go:121-134 | six folders, the i-th being the folder of the i-th status |
| Mover.GetAllMonitoredFolders | src/watcher/mover.go:121-134 | the loop succeeds exactly when every status has a folder, returning them in status order, and otherwise fails with the first unmapped status's error |
| ApprovalServer.PathId | src/approval/server.go:130 | the handler's ID is the URL path after its prefix |
| ApprovalServer.PathIdRoundTrip | src/approval/server.go:147 | the ID in a handler URL is read back unchanged |
| ApprovalServer.ApprovalUrl | src/approval/server.go:107-111 | the approval URL starts with "http://", the host name and a colon, and ends in "/approve/" and the ID |
| ApprovalServer.ApprovalUrlServesId | src/approval/server.go:130 | the approval page reads the article's ID back from the path the approval URL ends in |
| ApprovalServer.Server.constructor | src/approval/server.go:45-59 | the server starts from the persisted map when it could be loaded, else from an empty one, with no mover; the invariant (every entry filed under its own ID and not approved, in memory and on disk) holds from the start unless the loaded map breaks it |
| ApprovalServer.Server.SetMover | src/approval/server.go:62-64 | a mover is set |
| ApprovalServer.Server.Save | src/approval/server.go:294-310 | the persisted map becomes the pending map |
| ApprovalServer.Server.RemovePendingArticle | src/approval/server.go:337-343 | exactly that key is removed, the map is persisted, and the server's invariant is kept |
| ApprovalServer.Server.RequestApproval | src/approval/server.go:82-126 | a failed preview is an error with nothing changed; otherwise a fresh entry replaces any old one and is persisted; the mail carries the title, author, preview path, approval URL and ID; a failed mail is an error that keeps the entry |
| ApprovalServer.Server.HandleApproval | src/approval/server.go:129-143 | a pending ID shows its entry with 200, any other ID is a 404 |
| ApprovalServer.Server.HandleApprove | src/approval/server.go:146-179 | an unknown ID is a 404 with nothing changed; a known one is removed and persisted with 200, the article's status untouched |
| ApprovalServer.Server.HandleReject | src/approval/server.go:182-227 | an unknown ID is a 404; a known one has its rejected flag set; a failed write is a 500 that keeps the entry marked rejected; otherwise the entry is removed; no other article changes |
| ApprovalServer.Server.HandleEmailReply | src/approval/server.go:230-277 | an unknown ID is an error with nothing changed; approve removes the entry; reject sets the flag and removes the entry unless the write or the move failed; an unknown action is an error with nothing changed |
| Watcher.FiltersAgree | src/watcher/watcher.go:113-121 | for a file in a folder, the scan's filter and the event filter agree: Markdown, not hidden |
| Watcher.Classify | src/watcher/watcher.go:146-158 | an operation is ignored exactly when it has none of the Create, Write and Remove bits |
| Watcher.ClassifyOrder | src/watcher/watcher.go:146-158 | Create wins over every other bit, Write wins over Remove, rename or chmod alone is ignored |
| Watcher.ReapprovalUnreachable | src/watcher/watcher.go:187 | no status flags make the current status "rejected" while the update flag is 1 |
| Watcher.NoDeduplication | src/watcher/watcher.go:304-315 | processing a ready article in place twice requests approval twice |
| Watcher.RelocatedFileNotRequested | src/watcher/watcher.go:294-301 | when re-filing moves the file, processArticleFile fails at the re-parse and requests nothing |
| Watcher.ScanEntriesAppends | src/watcher/watcher.go:261-276 | a scan only appends approval requests |
| Watcher.SkippedEntryChangesNothing | src/watcher/watcher.go:262-270 | an entry the scan skips changes nothing |
| Watcher.Watcher.constructor | src/watcher/watcher.go:45-62 | the watcher holds a mover over the built-in tables, no events, no server and no requests |
| Watcher.Watcher.SetApprovalServer | src/watcher/watcher.go:65-67 | an approval server is set |
| Watcher.Watcher.HandleEvent | src/watcher/watcher.go:143-211 | an ignored operation changes nothing; otherwise the event is emitted, and a created or modified file is re-filed, re-parsed and requested when ready |
| Watcher.Watcher.RefileAndRequest | src/watcher/watcher.go:166-209 | the disk and the requests after the created-or-modified branch are those of the re-filing specification |
| Watcher.Watcher.RequestIfReady | src/watcher/watcher.go:180-186 | approval is requested exactly when the status is publish or update and a server is set |
| Watcher.Watcher.ProcessEvent | src/watcher/watcher.go:113-131 | a name that is not a visible Markdown file changes nothing; a visible Markdown name whose op has no Create, Write or Remove bit changes nothing either; any other event is emitted and handled as handleEvent does |
| Watcher.Watcher.ProcessArticleFile | src/watcher/watcher.go:282-318 | the result, the disk and the requests are those of parse, re-file, re-parse and request |
| Watcher.Watcher.ReparseAndRequest | src/watcher/watcher.go:294-315 | the re-parse, retried once at the same path, then the request when ready; a refused request is an error |
| Watcher.Watcher.ScanFolder | src/watcher/watcher.go:255-279 | an unreadable folder is an error with nothing changed; otherwise every entry of the listing is taken once and the state is that of processing the entries in that order |
| Watcher.Watcher.ProcessEntry | src/watcher/watcher.go:261-276 | one entry: a visible Markdown file is processed and its failure ignored, anything else skipped |
| Watcher.Watcher.ScanAllFolders | src/watcher/watcher.go:236-252 | fails with nothing changed when a status has no folder; otherwise the six folders are scanned in status order, an unreadable one skipped |

## Left out

- fsnotify subscription, debounce timers, goroutines and the periodic ticker (`processEvents`, `periodicFolderScan`, `Start`, `Stop`) are concurrency and timing. An event is handled as one sequential call, and the channel is a sequence of emitted events.
- The server's mutex is left out: every transition is one sequential call.
- HTTP serving and the HTML templates are left out. Handlers return the status code and, for the approval page, the entry shown.
- SMTP and IMAP transport are left out. A sent request is appended to the server's `sent` log. The reply's header ID, subject and body are inputs, and its message ID is not filled in. The plain-text fallback `SendApprovalRequest` is not part of this model.
- The YAML and JSON libraries are parameters (`Frontmatter.Codec`). Persistence is a ghost snapshot (`saved`), and the loaded map is a constructor argument. A nil entry in a loaded file is not modelled.
- SHA-256 is a parameter, and `time.Now` is a `stamp` argument; one stamp is used for every ID generated in a call. The server's `generateID` (crypto/rand) is unused by the core and is not part of this model.
- Case mapping covers ASCII plus Æ/Ø/Å, and white space covers Latin-1. Strings are sequences of characters, not UTF-8 bytes.
- Paths.Base: trailing-slash cleaning is not modelled.
- Mover.GetFolderForStatus: `filepath.Join` cleaning (a trailing slash on the base path, `..` elements, an empty base path, for which Go gives the bare name and the model a leading slash) is not modelled; the join is the base path, a slash and the name. `NewMover` does not validate its configuration, so an empty base path can reach it.
- Frontmatter.ParseArticle: a failing write-back of a generated ID is not modelled, because the model's `WriteFile` and `MkdirAll` never fail.
- The listing order of `os.ReadDir` (sorted by name) is not modelled. The scans take entries in some order, which their ghost out-parameters expose.
- Outcome parameters stand in for four collaborators, whose effects on the disk are not modelled: the server's preview build, frontmatter write, mover call and mail send. The mover's update of the article's recorded path after a successful move (`src/watcher/mover.go:99`) is not modelled either: the server keeps the entry's old `filePath`, which nothing reads because the entry is removed right after.
- A watcher approval request is recorded in the watcher's `calls` log with an accepted-or-refused outcome, and does not drive the server model.
- The pending map holds entries by value rather than by pointer, since no handler keeps an entry outside the map.
- `GetMover`, `Events`, `loadPendingArticles`' file handling, `main.go` wiring, the Hugo builder, the deployer, ntfy and the image processor are not part of this model.
- Configuration sections the core never reads (git, rsync, images, deploy) are not modelled. The .env outcome is an input (`AppConfig.EnvFile`).
