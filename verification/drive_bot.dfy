/** The Drive bot: every media message posted in the monitored group is
    downloaded and uploaded to a fixed Google Drive folder, and the sender
    is answered with the file's link, or with an apology.

    The Drive handle is a flag (whether the service account was
    authorized), the download and the upload are oracles, and the clock
    reading is a parameter. */
module DriveBot {
  import opened Wrappers
  import opened Text
  import opened Effects
  import opened WhatsApp
  import SheetTabs

  const MONITORED_GROUP := "120363421997659113@g.us"
  const DRIVE_FOLDER_ID := "1VRFfMSQDAy8cskvjN_o7P5MSglddQFmu"

  const NOT_AUTHENTICATED_REPLY := "❌ O Google Drive não está autenticado. Não foi possível salvar a imagem."
  const RECEIVED_REPLY := "Recebi sua mídia! Fazendo download e upload para o Google Drive..."
  const APOLOGY_REPLY := "Ops! Houve um erro inesperado ao salvar sua mídia no Drive. Tente novamente."
  const UPLOAD_ERROR_LOG := "❌ Erro ao processar mídia ou fazer upload para o Drive: "

  /** What `uploadFileToDrive` throws when the Drive handle is unset. */
  const DRIVE_UNSET := "Google Drive não está autenticado. Não é possível fazer upload."

  /** The TypeError Node raises when `downloadMedia()` resolves to
      `undefined` and the handler reads its `data`. */
  const UNDEFINED_MEDIA := "Cannot read properties of undefined (reading 'data')"

  const GENERATED_NAME_PREFIX := "whatsapp-media-"
  const FALLBACK_EXTENSION := "dat"

  function SavedReply(fileName: string, link: string): string {
    "🎉 Arquivo *" + fileName + "* salvo no Drive! \n\n🔗 Link: " + link
  }

  /** `uploadFileToDrive(fileName, data, mimeType, folderId)`: throws at
      once when the Drive handle is unset; otherwise one upload request
      into `folder`, answering the file's web link. */
  function UploadFileToDrive(driveSet: bool, fileName: string, mimeType: string, folder: string, response: Result<string>)
    : (st: Step<string>)
    ensures !driveSet ==> st == Step([], Err(DRIVE_UNSET))
    ensures driveSet ==>
              st.effects == [Log(Info, "Iniciando upload do arquivo: " + fileName), DriveUpload(fileName, mimeType, folder)]
              && st.result == response
  {
    if !driveSet then Step([], Err(DRIVE_UNSET))
    else Step([Log(Info, "Iniciando upload do arquivo: " + fileName), DriveUpload(fileName, mimeType, folder)], response)
  }

  /** `mimeType.split('/')[1] || 'dat'`: the piece after the first `/`
      (up to any next `/`), or `dat` when there is no such piece or it is
      empty. */
  function MimeExtension(mimeType: string): (ext: string)
    ensures ext != "" && '/' !in ext
    ensures '/' !in mimeType ==> ext == FALLBACK_EXTENSION
    ensures '/' in mimeType ==>
              var rest := mimeType[FirstIndexOf(mimeType, '/') + 1..];
              var piece := rest[..FirstIndexOf(rest, '/')];
              ext == if piece != "" then piece else FALLBACK_EXTENSION
  {
    var parts := Split(mimeType, '/');
    SplitSecond(mimeType, '/');
    if |parts| >= 2 && parts[1] != "" then parts[1] else FALLBACK_EXTENSION
  }

  /** A `type/subtype` MIME type gives its subtype as the extension. */
  lemma ExtensionIsSubtype(mediaType: string, subtype: string)
    requires '/' !in mediaType && '/' !in subtype
    ensures MimeExtension(mediaType + "/" + subtype) == if subtype != "" then subtype else FALLBACK_EXTENSION
  {
    var mime := mediaType + "/" + subtype;
    FirstIndexOfAfter(mediaType, '/', subtype);
    assert mime == mediaType + ['/'] + subtype;
    assert mime[|mediaType| + 1..] == subtype;
  }

  /** `media.filename || 'whatsapp-media-' + Date.now()`: the original
      name, unless it is missing or empty. */
  function BaseFileName(filename: Option<string>, now: nat): (base: string)
    ensures filename.Some? && filename.value != "" ==> base == filename.value
    ensures filename.None? || filename.value == "" ==>
              base == GENERATED_NAME_PREFIX + NatToString(now)
  {
    if filename.Some? && filename.value != "" then filename.value
    else GENERATED_NAME_PREFIX + NatToString(now)
  }

  /** The uploaded file's name: base, a dot, the extension, even when the
      base already ends with an extension. */
  function FileName(media: Media, now: nat): string {
    BaseFileName(media.filename, now) + "." + MimeExtension(media.mimetype)
  }

  /** The name always has a dot, and unless the extension itself holds
      one, the last dot separates the base from the extension, so both
      read back. */
  lemma FileNameShape(media: Media, now: nat)
    ensures var name := FileName(media, now);
            '.' in name
    ensures var name := FileName(media, now);
            var base := BaseFileName(media.filename, now);
            var ext := MimeExtension(media.mimetype);
            '.' !in ext ==>
              LastIndexOf(name, '.') == |base| && name[..|base|] == base && name[|base| + 1..] == ext
  {
    var base := BaseFileName(media.filename, now);
    var ext := MimeExtension(media.mimetype);
    assert (base + "." + ext)[|base|] == '.';
    if '.' !in ext {
      LastIndexOfBefore(base, '.', ext);
    }
  }

  /** The spreadsheet script's base name of an uploaded file is the base
      the bot started from, whenever the extension has no dot. */
  lemma FileNameSplitsAtLastDot(media: Media, now: nat)
    ensures var name := FileName(media, now);
            var base := BaseFileName(media.filename, now);
            var ext := MimeExtension(media.mimetype);
            '.' !in ext ==> SheetTabs.TabBaseName(name) == base
  {
    var name := FileName(media, now);
    var base := BaseFileName(media.filename, now);
    var ext := MimeExtension(media.mimetype);
    if '.' !in ext {
      assert name == base + ['.'] + ext;
      PrefixBeforeLast(base, '.', ext);
    }
  }

  /** The answers of everything the handler awaits. */
  datatype DriveServices = DriveServices(
    driveSet: bool,                  // the service account was authorized at start-up
    download: Result<Option<Media>>, // `None` is an `undefined` media
    upload: Result<string>,          // the uploaded file's `webViewLink`
    now: nat)                        // `Date.now()`

  datatype DriveOutcome =
    | Ignored                        // another chat, or no media
    | NotAuthenticated               // the Drive handle is unset
    | Saved(fileName: string, link: string)
    | Failed(message: string)

  datatype DriveHandling = DriveHandling(outcome: DriveOutcome, effects: seq<Effect>)

  /** The `try` block after the acknowledgement: the quiet effects
      (download, upload, error log) and the text of the closing reply. */
  datatype Transfer = Transfer(outcome: DriveOutcome, quiet: seq<Effect>, answer: string)

  function TransferMedia(svc: DriveServices): (t: Transfer)
    requires svc.driveSet
    ensures forall i :: 0 <= i < |t.quiet| ==> !IsMessage(t.quiet[i])
    ensures |t.quiet| >= 1 && t.quiet[0] == DownloadMedia
    ensures t.outcome.Saved? || t.outcome.Failed?
    ensures t.outcome.Saved? ==>
              svc.download.Ok? && svc.download.value.Some? && svc.upload.Ok?
              && t.outcome == Saved(FileName(svc.download.value.value, svc.now), svc.upload.value)
              && t.answer == SavedReply(t.outcome.fileName, t.outcome.link)
    ensures t.outcome.Failed? ==>
              t.answer == APOLOGY_REPLY
              && t.quiet[|t.quiet| - 1] == Log(Error, UPLOAD_ERROR_LOG + t.outcome.message)
    ensures t.outcome.Failed? <==> svc.download.Err? || svc.download == Ok(None) || svc.upload.Err?
    ensures forall i :: 0 <= i < |t.quiet| && t.quiet[i].DriveUpload? ==>
              svc.download.Ok? && svc.download.value.Some?
              && t.quiet[i] == DriveUpload(FileName(svc.download.value.value, svc.now),
                                           svc.download.value.value.mimetype, DRIVE_FOLDER_ID)
  {
    match svc.download
    case Err(m) => Fail([DownloadMedia], m)
    case Ok(None) => Fail([DownloadMedia], UNDEFINED_MEDIA)
    case Ok(Some(media)) =>
      var name := FileName(media, svc.now);
      var upload := UploadFileToDrive(svc.driveSet, name, media.mimetype, DRIVE_FOLDER_ID, svc.upload);
      match upload.result
      case Err(m) => Fail([DownloadMedia] + upload.effects, m)
      case Ok(link) => Transfer(Saved(name, link), [DownloadMedia] + upload.effects, SavedReply(name, link))
  }

  /** The `catch` block: log the error, then apologize. */
  function Fail(before: seq<Effect>, message: string): (t: Transfer)
    ensures t.outcome == Failed(message) && t.answer == APOLOGY_REPLY
    ensures t.quiet == before + [Log(Error, UPLOAD_ERROR_LOG + message)]
  {
    Transfer(Failed(message), before + [Log(Error, UPLOAD_ERROR_LOG + message)], APOLOGY_REPLY)
  }

  /** The `message` handler: acknowledge, transfer, answer. */
  function Handle(msg: Message, svc: DriveServices): (h: DriveHandling)
    ensures h.outcome.Ignored? <==> msg.chat != MONITORED_GROUP || !msg.hasMedia
    ensures h.outcome.Ignored? ==> h.effects == []
    ensures h.outcome.NotAuthenticated? <==> msg.chat == MONITORED_GROUP && msg.hasMedia && !svc.driveSet
    ensures h.outcome.NotAuthenticated? ==> h.effects == [Reply(NOT_AUTHENTICATED_REPLY)]
    ensures msg.chat == MONITORED_GROUP && msg.hasMedia && svc.driveSet ==>
              var t := TransferMedia(svc);
              h == DriveHandling(t.outcome, [Reply(RECEIVED_REPLY)] + t.quiet + [Reply(t.answer)])
  {
    if msg.chat != MONITORED_GROUP || !msg.hasMedia then DriveHandling(Ignored, [])
    else if !svc.driveSet then DriveHandling(NotAuthenticated, [Reply(NOT_AUTHENTICATED_REPLY)])
    else
      var t := TransferMedia(svc);
      DriveHandling(t.outcome, [Reply(RECEIVED_REPLY)] + t.quiet + [Reply(t.answer)])
  }

  /** Every answer the handler gives is a reply to the message: none when
      it ignores it, the error alone when the Drive is not authorized, and
      otherwise the acknowledgement followed by exactly one of the link or
      the apology. */
  lemma RepliesOnceAfterAcknowledging(msg: Message, svc: DriveServices)
    ensures var h := Handle(msg, svc);
            Sent(h.effects) == []
            && (h.outcome.Ignored? ==> Replies(h.effects) == [])
            && (h.outcome.NotAuthenticated? ==> Replies(h.effects) == [NOT_AUTHENTICATED_REPLY])
            && (h.outcome.Saved? ==>
                  Replies(h.effects) == [RECEIVED_REPLY, SavedReply(h.outcome.fileName, h.outcome.link)])
            && (h.outcome.Failed? ==> Replies(h.effects) == [RECEIVED_REPLY, APOLOGY_REPLY])
  {
    if msg.chat == MONITORED_GROUP && msg.hasMedia && svc.driveSet {
      var t := TransferMedia(svc);
      RepliesAround(RECEIVED_REPLY, t.quiet, t.answer);
    }
  }

  /** Once a media message of the group reaches an authorized handler,
      it fails exactly when the download fails, resolves to nothing, or
      the upload fails; otherwise the reply carries the uploaded link. */
  lemma FailsExactlyOnDownloadOrUploadError(msg: Message, svc: DriveServices)
    requires msg.chat == MONITORED_GROUP && msg.hasMedia && svc.driveSet
    ensures var h := Handle(msg, svc);
            (h.outcome.Failed? <==> svc.download.Err? || svc.download == Ok(None) || svc.upload.Err?)
            && (h.outcome.Saved? <==> svc.download.Ok? && svc.download.value.Some? && svc.upload.Ok?)
            && (h.outcome.Saved? ==> h.outcome.link == svc.upload.value)
  {
    var t := TransferMedia(svc);
    assert Handle(msg, svc).outcome == t.outcome;
  }

  /** Nothing is uploaded unless the Drive handle is set; what is
      uploaded goes to the fixed folder, under the derived name. */
  lemma UploadsOnlyWhenAuthenticated(msg: Message, svc: DriveServices)
    ensures var h := Handle(msg, svc);
            forall i :: 0 <= i < |h.effects| && h.effects[i].DriveUpload? ==>
              svc.driveSet && svc.download.Ok? && svc.download.value.Some?
              && h.effects[i] == DriveUpload(FileName(svc.download.value.value, svc.now),
                                             svc.download.value.value.mimetype, DRIVE_FOLDER_ID)
  {
    var h := Handle(msg, svc);
    if msg.chat == MONITORED_GROUP && msg.hasMedia && svc.driveSet {
      var t := TransferMedia(svc);
      forall i | 0 <= i < |h.effects| && h.effects[i].DriveUpload?
        ensures h.effects[i] == t.quiet[i - 1]
      {
      }
    }
  }
}
