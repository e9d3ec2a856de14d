# WhatsApp media bots — a Dafny model of their decision logic

The repository holds three WhatsApp bots and two small spreadsheet scripts:

- the **monitor bot** (`boteMonitor.js`, with the Cloudinary helper
  `cloudinary-api.js`) attaches a captioned image or video posted in a group
  to the Trello card of the student named in the caption, creating the card
  when none matches, and reports to a private chat;
- the **Drive bot** (`index.js`) uploads every media message of a group to
  a Google Drive folder and replies with the link;
- the **Drive-to-Sheets scripts** (`botpegarfotos.js`, and its earlier
  variant `testeLocal.js`) list the files of that Drive folder and record
  each one (name, creation time, sharing link) in the spreadsheet tab named
  after the file.

The services themselves (WhatsApp, Trello, Cloudinary, Google Drive and
Sheets) do the heavy work. The model keeps what the handlers decide.

- Every awaited call is an **oracle**: a parameter that holds its answer,
  success or failure. For example, the board's cards, the tab listing, the
  column length, the upload's URL.
- Every side effect is an `Effects.Effect` value. A handler returns its
  effects as a sequence, in the order the program performs them.
- Clock readings and locale-formatted dates are opaque parameters.

| module | file | models |
|---|---|---|
| `Wrappers` | wrappers.dfy | `Option`, `Result` |
| `Text` | text.dfy | the JavaScript string operations the code uses: `trim`, `length` in UTF-16 code units, `includes`, `startsWith`, `indexOf`/`lastIndexOf`, one-character `split`/`join`, decimal printing |
| `Normalize` | normalize.dfy | the fold `normalize("NFD")`, strip U+0300..U+036F, `toLowerCase()` |
| `Search` | search.dfy | first index satisfying a predicate (`for … return`, `Array.find`) |
| `Effects` | effects.dfy | the effects and the projections used to state properties (messages sent, replies, rows written) |
| `WhatsApp` | whatsapp.dfy | the message and media fields read by the handlers |
| `Cloudinary` | cloudinary.dfy | `uploadMediaToCloudinary` |
| `Trello` | trello.dfy | `findCardByTitle`, `createCard`, `attachUrlToCard` |
| `FoldExamples` | fold_examples.dfy | worked folds of concrete names |
| `Monitor` | monitor.dfy | the monitor bot's `message` handler |
| `SheetRange` | sheet_range.dfy | A1 ranges, the sharing link and the recorded row shared by both scripts |
| `SheetTabs` | sheet_tabs.dfy | `botpegarfotos.js`: tab names, `obterOuCriarAba`, the per-file body and the loop |
| `LocalSheet` | local_sheet.dfy | `testeLocal.js`: tab name, per-file body and the loop that a failed write aborts |
| `DriveBot` | drive_bot.dfy | `index.js`: `uploadFileToDrive`, the file name and the `message` handler |

## Model

| member | source | states |
|---|---|---|
| Cloudinary.UploadMedia | cloudinary-api.js:31-50 | exactly one upload request. It carries a data URI from which the media type and payload read back, resource type `video` iff the type starts with `video/`, and the fixed folder `whatsapp_trello_anexos`. On success it answers the SDK's URL. On an SDK failure it logs the SDK's message and then always answers the fixed failure message |
| Cloudinary.DataUriRoundTrip | cloudinary-api.js:33 | the RFC 2397 (section 2) `data:<type>;base64,<data>` URI gives back its media type and payload whenever the type has no comma |
| Cloudinary.ParseDataUriInverse | cloudinary-api.js:33 | conversely, every URI the reader accepts is exactly the URI built from what it read, so distinct (type, payload) pairs give distinct URIs |
| Cloudinary.UploadRequestCarriesMedia | cloudinary-api.js:31-41 | the upload request for a media item carries a data URI from which exactly that MIME type and base64 payload read back (for a MIME type without a comma). It goes into the folder `whatsapp_trello_anexos`, with resource type `video` iff the type starts with `video/` |
| Normalize.FoldIsFolded | boteMonitor.js:68-71 | every character of a folded text is unaccented, unmarked and not a capital |
| Normalize.FoldIdempotent | boteMonitor.js:68-71 | folding an already folded text changes nothing |
| Normalize.FoldAppend | boteMonitor.js:68-71 | the fold works character by character: it distributes over concatenation |
| Normalize.FoldIgnoresAccent | boteMonitor.js:68-71 | a letter written with or without its accent folds the same, wherever it stands |
| Trello.FindCardByTitle | boteMonitor.js:58-66 | the search fails exactly when the exchange is not ok. A non-ok response gives `Erro ao buscar Cards: <statusText>`. A rejected `fetch` or an unreadable JSON body gives the thrown message. It never answers "no card" then |
| Trello.FindCardByTitleFindsFirstMatch | boteMonitor.js:66-79 | on an ok response the answer is `null` iff no card's folded name contains the folded caption, and otherwise the id of the first such card in board order |
| Trello.FirstMatchIsUnique | boteMonitor.js:70-76 | only one card can be the first match, so a later matching card is never returned |
| Trello.FoundCardSurvivesAppend | boteMonitor.js:70-76 | cards added after the found card never change the answer |
| Trello.CreatedCardIsFoundLater | boteMonitor.js:70-79 | after a miss, a card named with the caption is found by every later search for it, whatever cards follow it |
| FoldExamples.AccentedCaptionFindsPlainCard | boteMonitor.js:68-73 | the caption "José" matches the card "JOSE - TURMA A" |
| Trello.CreateCard | boteMonitor.js:82-104 | exactly one creation request, named exactly with the title. The answer is the new id. A non-ok response gives an error built from status and body text. A rejected `fetch` or body read gives the thrown message |
| Trello.CardDescriptionNamesTitleAndTime | boteMonitor.js:93 | the description of a created card contains both the title and the creation time |
| Trello.AttachUrlToCard | boteMonitor.js:106-123 | exactly one attachment request, to the given card with the given title and URL. It fails iff the exchange is not ok: `Erro ao anexar URL. Status: <statusText>` for a non-ok response, the thrown message for a rejected `fetch` |
| Text.TrimIsFramed | boteMonitor.js:171 | a trimmed caption is a slice of the body with only white space around it |
| Text.TrimHasNoEdgeSpace | boteMonitor.js:171 | a trimmed caption neither starts nor ends with ECMAScript white space |
| Text.TrimOfPadded | boteMonitor.js:171 | trimming a text padded with white space gives the text back |
| Text.TrimIdempotent | boteMonitor.js:171 | trimming twice is trimming once |
| Monitor.OnlyTargetGroupIsHandled | boteMonitor.js:168 | with the group taken from `TARGET_GROUP_ID`, a message from any other chat gives no effect at all. So a handled message comes from the configured group, or from the default group when the variable is unset or empty, and never from an empty chat id |
| Monitor.FindOrCreate | boteMonitor.js:191-196 | the search is always made. A card named exactly with the caption is created iff the search answered no card or an empty id. `isNew` holds exactly then, and the id is the created one. Otherwise the id is the one found. A failed search fails without creating, and so does a failed or rejected creation |
| Monitor.MissCreatesCardNow | boteMonitor.js:192-195 | on a miss, the step after the search, and the last one, creates the card named with the caption, stamped with the handler's clock |
| Monitor.UploadAndAttach | boteMonitor.js:199-203 | the upload comes first, and it is the request for the downloaded media: its data URI, its resource type and the fixed folder. After a successful upload, exactly one attachment follows: to the given card, titled `Anexo de Mídia para <caption> (<date>)`, carrying the uploaded URL. A failed upload is logged and nothing is attached. The URL is answered iff both succeed, and an upload failure gives the helper's fixed message |
| Monitor.UploadsDownloadedMedia | boteMonitor.js:184-199 | every Cloudinary upload the handler makes sends the media it downloaded: the download succeeded, and the request carries that media's base64 data and MIME type |
| Monitor.Flow | boteMonitor.js:190-215 | for an image or video, the flow succeeds iff the search succeeds, a needed creation succeeds, the upload succeeds and the attachment succeeds. A completed flow reports the created card on a miss and the found card otherwise, and the uploaded URL. It sends no message and creates a card only on a miss |
| Monitor.FlowEndsWithAttachment | boteMonitor.js:199-203 | a completed flow's last request attaches the uploaded URL, with the dated title, to the card the flow reports |
| Monitor.Run | boteMonitor.js:184-219 | the download comes first. A failed or `undefined` download fails. Media that is neither image nor video stops right after the download. Otherwise the flow runs on the board search for the trimmed caption |
| Monitor.Conclude | boteMonitor.js:206-226 | the outcome is media ignored, attached or failed exactly as the `try` block stopped on non-media, completed, or threw. It carries the MIME type, the card, `isNew` and URL, or the error message. Everything the `try` block did comes first |
| Monitor.ConcludeAppendsTail | boteMonitor.js:217-226 | after the `try` block's effects, ignored media adds exactly its log, a success exactly the notice, and a failure exactly the error log followed by the alert |
| Monitor.Handle | boteMonitor.js:167-228 | another chat, no media, an empty body or a quote give no effect at all. A trimmed caption under 3 UTF-16 units gives only the warning to the private chat and its log. Any other message runs the `try` block on the trimmed caption |
| Monitor.IgnoresOtherMedia | boteMonitor.js:185-219 | media that is neither image nor video leads to the download and one log only: no search, creation, upload, attachment or message |
| Monitor.AttachedMeansEveryCallSucceeded | boteMonitor.js:191-215 | the handler reports an attachment iff the message passed the gate, the media is an image or video, and every call succeeded. The URL reported is the upload's |
| Monitor.AttachesToFoundOrCreatedCard | boteMonitor.js:191-196 | a reported attachment went to the card the search found for the caption, or, when it was new, to the card the creation returned |
| Monitor.AttachmentPrecedesNotice | boteMonitor.js:199-215 | when the handler reports an attachment, the request just before the success notice attaches the uploaded URL to the reported card, titled `Anexo de Mídia para <caption> (<date>)` |
| Monitor.ConcludeNotifiesOnce | boteMonitor.js:206-226 | after a `try` block that sent nothing, a success sends exactly the success notice and a failure exactly the alert, both to the private chat. Ignored media sends nothing, and no reply is ever made |
| Monitor.FailureIsLoggedThenAlerted | boteMonitor.js:221-226 | when the `try` block throws, the handler's last two effects are the flow error log with the error's message, then the alert to the private chat |
| Monitor.NotifiesPrivateChatOnce | boteMonitor.js:167-228 | every handled message sends at most one message, always to the private chat: the warning, the success notice (naming the caption and URL) or the alert (naming the caption and the error) |
| Monitor.RunCreatesOnlyOnMiss | boteMonitor.js:188-196 | inside the `try` block a card is created exactly when the media is an image or video and the search misses, and a completed flow reports `isNew` exactly then |
| Monitor.CreatesCardOnlyOnMiss | boteMonitor.js:191-196 | over the whole handler, at most one card is created, named with the trimmed, unfolded caption, and only on a miss. `isNew` holds iff a card was created |
| Monitor.HandleOutsideRunCreatesNothing | boteMonitor.js:168-182 | a message stopped by the gate or the length check creates no card |
| Monitor.CreatedCardIsFoundNext | boteMonitor.js:191-196 | after the handler creates a card, searching the board with that card in it finds the new card |
| Monitor.SuccessMessageNamesCaptionAndUrl | boteMonitor.js:207-212 | both success notices name the student and carry the URL |
| Monitor.SuccessMessageTellsNewCard | boteMonitor.js:207-210 | the notice starts with the "new card" mark iff the card was created |
| Monitor.ErrorAlertNamesCaptionAndError | boteMonitor.js:225 | the alert names the student and carries the error message |
| Monitor.TwoLetterCaptionIsRejected | boteMonitor.js:171-177 | a caption of two UTF-16 units, padded with any JavaScript white space, is rejected |
| Monitor.ThreeLetterCaptionIsAccepted | boteMonitor.js:171-177 | a caption of three UTF-16 units, padded with any JavaScript white space, is accepted |
| SheetRange.DriveLinkRoundTrip | botpegarfotos.js:118 | the sharing link embeds the file id, which reads back from it |
| SheetRange.FileIdOfLinkInverse | botpegarfotos.js:118 | every link the reader accepts is the link of the id it reads, so two files never share a link |
| SheetRange.RecordRow | botpegarfotos.js:120 | the recorded row is the file name, the creation time and a link to that file |
| SheetRange.RowRangeRoundTrip | botpegarfotos.js:146 | `<tab>!A<n>:C<n>` gives back its tab and row, whatever the tab title contains |
| SheetRange.RowRangeInjective | botpegarfotos.js:146 | different tabs or rows never share a range |
| SheetRange.NextRowIsFirstFree | botpegarfotos.js:127-139 | the row written is the first free one of column A: its range differs from the range of every row that already holds a value, and it lies directly below the last of them (row 1 when the read has no values) |
| SheetTabs.TabBaseName | botpegarfotos.js:111 | the base name is the file name up to its last dot, inner dots kept, or empty when there is no dot |
| SheetTabs.GeneratedTabName | botpegarfotos.js:114-115 | the intended rule: the mapped title when the lower-cased base is a key of the map, the base unchanged otherwise |
| SheetTabs.MapLookupAsWritten | botpegarfotos.js:114 | the lookup as written also finds the inherited `constructor` and `__proto__` members, and these are never strings |
| SheetTabs.AsWrittenAgreesOffPrototypeKeys | botpegarfotos.js:114-115 | apart from those two keys, the lookup as written gives the intended title |
| SheetTabs.PrototypeKeysGiveNonString | botpegarfotos.js:114-115 | for those two keys, the title as written is not a string, while the intended title is the base |
| SheetTabs.ResolveTab | botpegarfotos.js:37-83 | the tabs are always listed first. On a case-insensitive exact match it answers the first matching tab's stored title, existing, and creates nothing. Otherwise it creates exactly one tab titled with the title as given and answers it as new. Every failure, including a title without `toLowerCase`, is logged and rethrown. It never reads or writes cells |
| SheetTabs.CreatedTabIsFoundNext | botpegarfotos.js:53-78 | a tab created for a title is found, under its exact title, by the next lookup of any title that lower-cases the same way |
| SheetTabs.WriteRow | botpegarfotos.js:143-156 | after the earlier effects, one write of the file's row at `<tab>!A<n>:C<n>`. Then comes the success log naming the tab, the row and the file iff the write succeeded, or else the skip log with the write's error |
| SheetTabs.ProcessFileWith | botpegarfotos.js:122-157 | a file is inserted iff the tab resolves, its column read succeeds when the tab existed, and the write succeeds. The row is 1 for a new tab and the next row of column A otherwise. At most one row is written, and any failure ends with one skip log |
| SheetTabs.ReadsColumnOfResolvedTab | botpegarfotos.js:128-134 | right after resolving, an existing tab is read at `<tab>!A:A` under the exact name the resolution returned. A new tab is not read, and the next effect writes its row 1 |
| SheetTabs.NonStringTitleIsSkipped | botpegarfotos.js:122-157 | a title that is not a string is listed, logged by `obterOuCriarAba`, and the file is skipped without any write |
| SheetTabs.AsWrittenAgreesElsewhere | botpegarfotos.js:111-157 | the loop body as written (`ProcessFileAsWritten`) does exactly what the corrected one does, for every base name that does not lower-case to `constructor` or `__proto__` |
| SheetTabs.AsWrittenSkipsPrototypeKeys | botpegarfotos.js:111-157 | the loop body as written skips, with `toLowerCase is not a function` and no write, every file whose base name lower-cases to `constructor` or `__proto__`, whenever the tabs can be listed |
| SheetTabs.SecondFileGoesBelowFirst | botpegarfotos.js:122-146 | two files with the same base name: the first creates the tab at row 1, the second finds it and writes row 2 |
| SheetTabs.NewTabGetsFirstRow | botpegarfotos.js:127-146 | a file whose tab is created writes row 1 of it |
| SheetTabs.ConstructorFileIsSkippedAsWritten | botpegarfotos.js:111-124 | as written, `constructor.jpg` is never recorded: its file is skipped with `toLowerCase is not a function` |
| SheetTabs.ConstructorFileIsInserted | botpegarfotos.js:111-124 | with the intended lookup, `constructor.jpg` on a spreadsheet without tabs gets a new tab `constructor` and its row is written at row 1 |
| SheetTabs.InsertAll | botpegarfotos.js:95-163 | a failed listing gives only the general error log, and an empty listing only its log. Otherwise the effects are the count log, the start log, each file's own run in listing order, and the end log. A failing file is skipped without stopping the others, and every inserted file's row is written to its range. This holds with the script's own lookup and with the corrected one |
| LocalSheet.LocalTabName | testeLocal.js:60 | the tab is the name up to its first dot, or the whole name |
| LocalSheet.TabNamesAgreeWithOneDot | testeLocal.js:60 | with exactly one dot, both scripts pick the same tab |
| LocalSheet.TabNamesDifferWithTwoDots | testeLocal.js:60 | with two dots the scripts pick different tabs: the local one stops at the first dot |
| LocalSheet.LocalFile | testeLocal.js:56-101 | a file is inserted iff its read and write succeed. A read error containing `Unable to parse range` is a missing tab and gives the warning naming the tab. Any other read error gives the error log naming the tab, the file and the message. Both skip the file with no write. After a successful read, exactly one row is written at the next row of `<tab>!A:C`. A failed write aborts with its error, and a success ends with the log naming the tab and the file |
| LocalSheet.WritesOnlyAfterRead | testeLocal.js:67-99 | a row is written iff the tab could be read |
| LocalSheet.RecordFiles | testeLocal.js:56-102 | files are processed in order. Each file's run is exactly what that file does on its own, and the loop's effects are those runs one after the other. The loop stops at the first failed write, which is the last run, and then logs the general error. It reaches every file iff no write fails |
| LocalSheet.InsertAllLocal | testeLocal.js:41-108 | a failed listing gives only the general error log, and an empty listing only its log. Otherwise the effects are the two opening logs, the files' runs in order, and the closing log, or the general error log after a failed write. The rows written are exactly the rows the runs write |
| DriveBot.UploadFileToDrive | index.js:53-79 | an unset Drive handle throws at once with no request. Otherwise one log and one upload of the named file into the folder |
| DriveBot.MimeExtension | index.js:135 | the extension is the piece after the first `/` up to any next `/`, or `dat` when that piece is missing or empty. It is never empty and has no `/` |
| DriveBot.ExtensionIsSubtype | index.js:135 | `type/subtype` gives `subtype` |
| DriveBot.BaseFileName | index.js:134 | the media's file name unless missing or empty, else `whatsapp-media-<ms>` |
| DriveBot.FileNameShape | index.js:134-138 | the uploaded file's name always has a dot. Unless the extension itself holds a dot, the last dot sits right after the base, and the base and extension read back on either side of it |
| DriveBot.FileNameSplitsAtLastDot | index.js:134-138 | when the extension has no dot, the Drive-to-Sheets script's base name of the uploaded file is the bot's base. A MIME subtype with a dot, such as `application/vnd.ms-excel`, is excluded |
| DriveBot.TransferMedia | index.js:125-151 | download, then upload of the named file. It fails iff the download fails, gives `undefined`, or the upload fails, with one error log. It sends nothing, and anything it uploads carries the derived name and the folder |
| DriveBot.Handle | index.js:107-152 | another chat or no media gives no effect. An unset Drive handle gives only the error reply. Otherwise it acknowledges, transfers, and answers |
| DriveBot.RepliesOnceAfterAcknowledging | index.js:115-151 | the handler never sends to another chat. An authorized media message gets exactly two replies: the acknowledgement, then the link or the apology |
| DriveBot.FailsExactlyOnDownloadOrUploadError | index.js:125-151 | a media message reaching an authorized handler fails iff the download or upload fails, and otherwise is saved with the uploaded link |
| DriveBot.UploadsOnlyWhenAuthenticated | index.js:115-144 | nothing is uploaded unless the Drive handle is set, and what is uploaded carries the derived name, the media type and the fixed folder |

## Left out

- WhatsApp session plumbing is not modelled: client, QR code, `ready`/`auth_failure`/`disconnected` events, the Express server and its `/qrcode` route. It is I/O with no decisions.
- The start-up checks are not modelled: the exit on a missing Trello variable, and Cloudinary's configuration at load. Neither is the authentication: `authorizeServiceAccount`, `autenticarGoogle`.
- `descobrir_id_grupo.js` and `bot_teste.js` are not part of this model. They are one-shot I/O scripts.
- The Drive listing query is not modelled, including the difference between the two scripts over trashed files. The listing is an oracle of files.
- Progress logs inside the helpers are left out, because they carry no decision: card found or created, attachment added, Cloudinary upload done, tab found, created or creating, and the scripts' "searching"/"authenticated" logs. The error logs, skip logs and insertion logs the loops print are kept, and so is the Drive upload's opening log (`Iniciando upload do arquivo: …`), which marks that an upload was attempted.
- Normalize.Nfd: decomposes only the Latin-1 Supplement letters. Every other character stands for itself, because full Unicode NFD tables are out of scope. The same holds for Normalize.ToLower, which lower-cases ASCII and Latin-1 capitals only.
- Trello.CreateCard: the effect records the title and the formatted creation time. The description text is `Trello.CardDescription` of those, because dates are opaque strings.
- Monitor.Handle: `sendMessage` is assumed to succeed. A rejected notification is not modelled. A rejected success notice would be caught inside the `try`, logged and followed by the alert. A rejected warning (before its `console.warn`) or alert would make the handler's promise reject.
- DriveBot.Handle: `reply` is assumed to succeed. A rejected reply is not modelled. The replies are not awaited, so such a rejection would be an unhandled rejection outside the handler's `try`.
- Logged errors carry only the error's message. Node prints the whole error object, stack included.
- Two events handled at nearly the same time can both miss and both create a card or tab. The model is sequential and does not cover these check-then-act races.
- Base64 decoding of the media (`Buffer.from`) and the upload streams are not modelled. The payload is an opaque string.

## Findings

| source | as written | input that shows it | evidently intended | confidence | as-written member | corrected member |
|---|---|---|---|---|---|---|
| botpegarfotos.js:114-115 | `SHEET_NAME_MAP[key]` on a plain object literal also finds the members inherited from `Object.prototype`. For the lower-cased keys `constructor` and `__proto__` the "mapped name" is a function or an object, which is truthy and has no `toLowerCase`, so `obterOuCriarAba` throws and the file is skipped | a Drive file named `constructor.jpg` (or `__proto__.png`) | only the map's own keys are overrides, and any other base name is the tab title | medium; not executed | SheetTabs.ConstructorFileIsSkippedAsWritten | SheetTabs.ConstructorFileIsInserted |

The loop `SheetTabs.InsertAll` is verified with either lookup (`SheetTabs.Lookup`).
Its loop body is `SheetTabs.ProcessFileAsWritten` as written and
`SheetTabs.ProcessFile` corrected.
