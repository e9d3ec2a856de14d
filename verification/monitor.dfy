/** The `message` handler of the monitor bot: a captioned image or video
    posted in the target group is attached, through Cloudinary, to the
    Trello card of the student named in the caption, and the outcome is
    reported to a private chat.

    Every call the handler awaits is an oracle in `Services`; the handler
    is a pure function from the message and those answers to an `Outcome`
    and the list of effects, in order. */
module Monitor {
  import opened Wrappers
  import opened Text
  import opened Effects
  import opened Trello
  import opened Cloudinary
  import opened WhatsApp

  /** The private chat every notification goes to. */
  const PRIVATE_CHAT := "5519992897178@c.us"

  /** The monitored group when `TARGET_GROUP_ID` is unset or empty. */
  const DEFAULT_GROUP := "5519988247466-1584793498@g.us"

  /** Shortest accepted caption, in UTF-16 code units after trimming. */
  const MIN_CAPTION := 3

  const SHORT_CAPTION_WARNING :=
    "⚠️ ALERTA: Mídia ignorada. Por favor, envie a mídia com o nome completo do aluno na legenda."
  const MEDIA_IGNORED_LOG := "ℹ️ Mídia ignorada (Não é imagem/vídeo): "
  const FLOW_ERROR_LOG := "❌ Erro no fluxo Trello/Cloudinary: "

  /** The TypeError Node raises when `downloadMedia()` resolves to
      `undefined` and the handler reads its `mimetype`. */
  const UNDEFINED_MEDIA := "Cannot read properties of undefined (reading 'mimetype')"

  /** `process.env.TARGET_GROUP_ID || default`: an unset or empty
      variable falls back to the default group. */
  function TargetGroup(configured: Option<string>): (group: string)
    ensures group != ""
    ensures configured.Some? && configured.value != "" ==> group == configured.value
    ensures configured.None? || configured.value == "" ==> group == DEFAULT_GROUP
  {
    if configured.Some? && configured.value != "" then configured.value else DEFAULT_GROUP
  }

  /** The answers of everything the handler awaits, in the order it asks:
      the download (`None` is an `undefined` media), the board's cards,
      the card creation, the Cloudinary upload and the attachment; plus
      the two clock readings it formats. */
  datatype Services = Services(
    download: Result<Option<Media>>,
    search: HttpResponse<seq<Card>>,
    create: HttpResponse<string>,
    upload: Result<string>,
    attach: HttpResponse<()>,
    now: string,
    today: string)

  /** The first filter: the target group, with media, a non-empty body
      (an empty string is falsy) and strictly not a quote. */
  predicate Accepts(msg: Message, group: string) {
    msg.chat == group && msg.hasMedia && msg.body != "" && !msg.hasQuotedMsg
  }

  /** The caption is long enough once trimmed; `length` counts UTF-16
      code units. */
  predicate CaptionLongEnough(body: string) {
    Utf16Length(Trim(body)) >= MIN_CAPTION
  }

  predicate IsImageOrVideo(mimeType: string) {
    StartsWith(mimeType, "image/") || StartsWith(mimeType, "video/")
  }

  /** A request to Trello or Cloudinary. */
  predicate IsStoreCall(e: Effect) {
    e.FetchBoardCards? || e.CreateCard? || e.CloudinaryUpload? || e.AttachUrl?
  }

  /** The names of the cards created, in order. */
  function CardsCreated(effects: seq<Effect>): (names: seq<string>)
    ensures |names| <= |effects|
  {
    if |effects| == 0 then []
    else (if effects[0].CreateCard? then [effects[0].name] else []) + CardsCreated(effects[1..])
  }

  lemma {:induction false} CardsCreatedAppend(a: seq<Effect>, b: seq<Effect>)
    ensures CardsCreated(a + b) == CardsCreated(a) + CardsCreated(b)
  {
    if |a| > 0 {
      assert (a + b)[1..] == a[1..] + b;
      assert (a + b)[0] == a[0];
      CardsCreatedAppend(a[1..], b);
    } else {
      assert a + b == b;
    }
  }

  lemma NoCardsCreatedByPair(effects: seq<Effect>)
    requires |effects| == 2 && !effects[0].CreateCard? && !effects[1].CreateCard?
    ensures CardsCreated(effects) == []
  {
    assert effects[1..][1..] == [];
  }

  /** `if (!cardId)`: no card, or a card whose id is the empty string. */
  predicate Misses(found: Result<Option<string>>) {
    found.Ok? && (found.value.None? || found.value.value == "")
  }

  function AttachmentTitle(name: string, today: string): string {
    "Anexo de Mídia para " + name + " (" + today + ")"
  }

  const NEW_CARD_MARK := "🆕"
  const EXISTING_CARD_MARK := "✅"

  /** The notice sent after a successful attachment; the headline differs
      for a card created by this message. */
  function SuccessMessage(name: string, isNew: bool, url: string): string {
    var headline :=
      if isNew then NEW_CARD_MARK + " Card para **\"" + name + "\"** foi criado e a mídia foi anexada com sucesso."
      else EXISTING_CARD_MARK + " Mídia anexada com sucesso ao Card de **\"" + name + "\"** no Trello.";
    headline + "\n\n🔗 **URL do Anexo no Cloudinary:** " + url
  }

  function ErrorAlert(name: string, message: string): string {
    "❌ ALERTA DE ERRO: Ocorreu um erro ao processar e anexar a mídia do aluno **\"" + name + "\"**: " + message
  }

  /** The alert names both the student and the error. */
  lemma ErrorAlertNamesCaptionAndError(name: string, message: string)
    ensures Includes(ErrorAlert(name, message), name)
    ensures Includes(ErrorAlert(name, message), message)
  {
    var head := "❌ ALERTA DE ERRO: Ocorreu um erro ao processar e anexar a mídia do aluno **\"";
    var tail := "\"**: ";
    IncludesMiddle(head, name, tail + message);
    assert head + name + (tail + message) == ErrorAlert(name, message);
    IncludesMiddle(head + name + tail, message, "");
    assert head + name + tail + message + "" == ErrorAlert(name, message);
  }

  /** Both success messages name the student and carry the URL. */
  lemma SuccessMessageNamesCaptionAndUrl(name: string, isNew: bool, url: string)
    ensures Includes(SuccessMessage(name, isNew, url), name)
    ensures Includes(SuccessMessage(name, isNew, url), url)
  {
    var head := if isNew then NEW_CARD_MARK + " Card para **\"" else EXISTING_CARD_MARK + " Mídia anexada com sucesso ao Card de **\"";
    var rest := if isNew then "\"** foi criado e a mídia foi anexada com sucesso." else "\"** no Trello.";
    var link := "\n\n🔗 **URL do Anexo no Cloudinary:** ";
    var message := SuccessMessage(name, isNew, url);
    IncludesMiddle(head, name, rest + link + url);
    assert head + name + (rest + link + url) == message;
    IncludesMiddle(head + name + rest + link, url, "");
    assert head + name + rest + link + url + "" == message;
  }

  /** The headline's mark tells a new card from an existing one. */
  lemma SuccessMessageTellsNewCard(name: string, isNew: bool, url: string)
    ensures StartsWith(SuccessMessage(name, isNew, url), NEW_CARD_MARK) <==> isNew
  {
    var message := SuccessMessage(name, isNew, url);
    var mark := if isNew then NEW_CARD_MARK else EXISTING_CARD_MARK;
    assert message[..1] == mark;
  }

  /** Find the card, or create one named `name` when the search misses:
      the id and whether it is new. */
  function FindOrCreate(name: string, found: Result<Option<string>>, svc: Services): (st: Step<(string, bool)>)
    ensures |st.effects| >= 1 && st.effects[0] == FetchBoardCards
    ensures forall i :: 0 <= i < |st.effects| ==> IsStoreCall(st.effects[i]) && !IsMessage(st.effects[i])
    ensures CardsCreated(st.effects) == (if Misses(found) then [name] else [])
    ensures st.result.Err? <==> found.Err? || (Misses(found) && !svc.create.HttpOk?)
    ensures found.Err? ==> st.result == Err(found.message)
    ensures st.result.Ok? ==> (st.result.value.1 <==> Misses(found))
    ensures st.result.Ok? && !st.result.value.1 ==>
              found == Ok(Some(st.result.value.0))
    ensures st.result.Ok? && st.result.value.1 ==> svc.create == HttpOk(st.result.value.0)
  {
    match found
    case Err(m) => Step([FetchBoardCards], Err(m))
    case Ok(found) =>
      if found.Some? && found.value != "" then Step([FetchBoardCards], Ok((found.value, false)))
      else
        var created := Trello.CreateCard(name, svc.now, svc.create);
        var effects := [FetchBoardCards] + created.effects;
        assert CardsCreated(effects) == [name] by {
          assert effects[1..] == created.effects;
        }
        match created.result
        case Err(m) => Step(effects, Err(m))
        case Ok(id) => Step(effects, Ok((id, true)))
  }

  /** On a miss, the second and last step creates the card named with the
      caption, stamped with the handler's clock. */
  lemma MissCreatesCardNow(name: string, found: Result<Option<string>>, svc: Services)
    ensures var st := FindOrCreate(name, found, svc);
            Misses(found) ==> |st.effects| == 2 && st.effects[1] == CreateCard(name, svc.now)
  {
  }

  /** Upload the media and attach its URL to the card: the URL. */
  function UploadAndAttach(name: string, media: Media, cardId: string, svc: Services): (st: Step<string>)
    ensures |st.effects| == 2 && st.effects[0] == UploadRequest(media.data, media.mimetype)
    ensures forall i :: 0 <= i < |st.effects| ==> !st.effects[i].CreateCard? && !IsMessage(st.effects[i])
    ensures st.effects[0].resourceType == "video" <==> StartsWith(media.mimetype, "video/")
    ensures svc.upload.Ok? ==>
              st.effects[1] == AttachUrl(cardId, AttachmentTitle(name, svc.today), svc.upload.value)
    ensures svc.upload.Err? ==> st.effects[1] == Log(Error, UploadErrorLog(svc.upload.message))
    ensures st.result.Ok? <==> svc.upload.Ok? && svc.attach.HttpOk?
    ensures st.result.Ok? ==> st.result.value == svc.upload.value
    ensures svc.upload.Err? ==> st.result == Err(UPLOAD_FAILURE)
  {
    var upload := UploadMedia(media.data, media.mimetype, svc.upload);
    match upload.result
    case Err(m) => Step(upload.effects, Err(m))
    case Ok(url) =>
      var attach := AttachUrlToCard(cardId, AttachmentTitle(name, svc.today), url, svc.attach);
      var effects := upload.effects + attach.effects;
      match attach.result
      case Err(m) => Step(effects, Err(m))
      case Ok(_) => Step(effects, Ok(url))
  }

  /** How far the attachment flow got without throwing. */
  datatype Progress = NotMedia(mimeType: string) | Done(cardId: string, isNew: bool, url: string)

  /** The image-or-video branch of the `try` block: find or create the
      card, upload, attach. */
  function Flow(name: string, media: Media, found: Result<Option<string>>, svc: Services): (st: Step<Progress>)
    ensures forall i :: 0 <= i < |st.effects| ==> !IsMessage(st.effects[i])
    ensures CardsCreated(st.effects) == (if Misses(found) then [name] else [])
    ensures st.result.Ok? ==> st.result.value.Done?
    ensures st.result.Ok? <==>
              found.Ok? && (Misses(found) ==> svc.create.HttpOk?)
              && svc.upload.Ok? && svc.attach.HttpOk?
    ensures st.result.Ok? ==>
              (st.result.value.isNew <==> Misses(found))
              && svc.upload == Ok(st.result.value.url)
              && (st.result.value.isNew ==> svc.create == HttpOk(st.result.value.cardId))
              && (!st.result.value.isNew ==> found == Ok(Some(st.result.value.cardId)))
  {
    var card := FindOrCreate(name, found, svc);
    match card.result
    case Err(m) => Step(card.effects, Err(m))
    case Ok((cardId, isNew)) =>
      var attached := UploadAndAttach(name, media, cardId, svc);
      var effects := card.effects + attached.effects;
      CardsCreatedAppend(card.effects, attached.effects);
      assert CardsCreated(attached.effects) == [] by {
        NoCardsCreatedByPair(attached.effects);
      }
      match attached.result
      case Err(m) => Step(effects, Err(m))
      case Ok(url) => Step(effects, Ok(Done(cardId, isNew, url)))
  }

  /** A completed flow ends with the attachment of the uploaded URL to
      the card it reports. */
  lemma FlowEndsWithAttachment(name: string, media: Media, found: Result<Option<string>>, svc: Services)
    ensures var st := Flow(name, media, found, svc);
            st.result.Ok? ==>
              |st.effects| >= 1
              && st.effects[|st.effects| - 1]
                   == AttachUrl(st.result.value.cardId, AttachmentTitle(name, svc.today), st.result.value.url)
  {
    var card := FindOrCreate(name, found, svc);
    if card.result.Ok? {
      var attached := UploadAndAttach(name, media, card.result.value.0, svc);
      if attached.result.Ok? {
        assert (card.effects + attached.effects)[|card.effects| + 1] == attached.effects[1];
      }
    }
  }

  /** The `try` block: download, then for images and videos the flow. */
  function Run(name: string, svc: Services): (st: Step<Progress>)
    ensures |st.effects| >= 1 && st.effects[0] == DownloadMedia
    ensures forall i :: 0 <= i < |st.effects| ==> !IsMessage(st.effects[i])
    ensures st.result.Ok? && st.result.value.NotMedia? <==>
              svc.download.Ok? && svc.download.value.Some? && !IsImageOrVideo(svc.download.value.value.mimetype)
    ensures st.result.Ok? && st.result.value.NotMedia? ==>
              st.effects == [DownloadMedia] && st.result.value.mimeType == svc.download.value.value.mimetype
    ensures svc.download.Err? ==> st.result == Err(svc.download.message)
    ensures svc.download == Ok(None) ==> st.result == Err(UNDEFINED_MEDIA)
    ensures svc.download.Ok? && svc.download.value.Some? && IsImageOrVideo(svc.download.value.value.mimetype) ==>
              var flow := Flow(name, svc.download.value.value, FindCardByTitle(svc.search, name), svc);
              st == Step([DownloadMedia] + flow.effects, flow.result)
  {
    match svc.download
    case Err(m) => Step([DownloadMedia], Err(m))
    case Ok(None) => Step([DownloadMedia], Err(UNDEFINED_MEDIA))
    case Ok(Some(media)) =>
      if !IsImageOrVideo(media.mimetype) then Step([DownloadMedia], Ok(NotMedia(media.mimetype)))
      else
        var flow := Flow(name, media, FindCardByTitle(svc.search, name), svc);
        Step([DownloadMedia] + flow.effects, flow.result)
  }

  datatype Outcome =
    | Ignored                                       // filtered out: nothing happens
    | CaptionRejected                               // caption too short: warning only
    | MediaIgnored(mimeType: string)                // neither image nor video: log only
    | Attached(cardId: string, isNew: bool, url: string)
    | Failed(message: string)                       // something in the try block threw

  datatype Handling = Handling(outcome: Outcome, effects: seq<Effect>)

  /** What the handler does once the `try` block has run: log an ignored
      media, notify a success, or log and alert a failure. */
  function Conclude(name: string, run: Step<Progress>): (h: Handling)
    ensures h.outcome.MediaIgnored? <==> run.result.Ok? && run.result.value.NotMedia?
    ensures h.outcome.Attached? <==> run.result.Ok? && run.result.value.Done?
    ensures h.outcome.Failed? <==> run.result.Err?
    ensures h.outcome.MediaIgnored? ==> h.outcome.mimeType == run.result.value.mimeType
    ensures h.outcome.Attached? ==>
              h.outcome == Attached(run.result.value.cardId, run.result.value.isNew, run.result.value.url)
    ensures h.outcome.Failed? ==> h.outcome.message == run.result.message
    ensures |h.effects| >= |run.effects| && h.effects[..|run.effects|] == run.effects
  {
    match run.result
    case Ok(NotMedia(mimeType)) =>
      Handling(MediaIgnored(mimeType), run.effects + [Log(Info, MEDIA_IGNORED_LOG + mimeType)])
    case Ok(Done(cardId, isNew, url)) =>
      Handling(Attached(cardId, isNew, url), run.effects + [SendMessage(PRIVATE_CHAT, SuccessMessage(name, isNew, url))])
    case Err(m) =>
      Handling(Failed(m), run.effects + [Log(Error, FLOW_ERROR_LOG + m), SendMessage(PRIVATE_CHAT, ErrorAlert(name, m))])
  }

  /** What `Conclude` appends after the `try` block's effects: the log of
      an ignored media, the success notice, or the error log followed by
      the alert. */
  predicate ConcludedAfter(h: Handling, name: string, before: seq<Effect>) {
    (h.outcome.MediaIgnored? ==> h.effects == before + [Log(Info, MEDIA_IGNORED_LOG + h.outcome.mimeType)])
    && (h.outcome.Attached? ==>
          h.effects == before + [SendMessage(PRIVATE_CHAT, SuccessMessage(name, h.outcome.isNew, h.outcome.url))])
    && (h.outcome.Failed? ==>
          h.effects == before + [Log(Error, FLOW_ERROR_LOG + h.outcome.message),
                                 SendMessage(PRIVATE_CHAT, ErrorAlert(name, h.outcome.message))])
  }

  lemma ConcludeAppendsTail(name: string, run: Step<Progress>)
    ensures ConcludedAfter(Conclude(name, run), name, run.effects)
  {
  }

  /** A failure ends with the flow error logged, then the alert sent. */
  predicate FailureLoggedThenAlerted(h: Handling, name: string) {
    h.outcome.Failed? ==>
      |h.effects| >= 2
      && h.effects[|h.effects| - 2..] == [Log(Error, FLOW_ERROR_LOG + h.outcome.message),
                                          SendMessage(PRIVATE_CHAT, ErrorAlert(name, h.outcome.message))]
  }

  lemma ConcludeFailureTail(name: string, run: Step<Progress>)
    ensures FailureLoggedThenAlerted(Conclude(name, run), name)
  {
    var h := Conclude(name, run);
    ConcludeAppendsTail(name, run);
    if h.outcome.Failed? {
      assert h.effects[|h.effects| - 2..] == h.effects[|run.effects|..];
    }
  }

  /** The handler for one message, given the monitored group. */
  function Handle(msg: Message, group: string, svc: Services): (h: Handling)
    ensures h.outcome.Ignored? <==> !Accepts(msg, group)
    ensures h.outcome.Ignored? ==> h.effects == []
    ensures h.outcome.CaptionRejected? <==> Accepts(msg, group) && !CaptionLongEnough(msg.body)
    ensures h.outcome.CaptionRejected? ==>
              h.effects == [SendMessage(PRIVATE_CHAT, SHORT_CAPTION_WARNING), Log(Warn, SHORT_CAPTION_WARNING)]
    ensures Accepts(msg, group) && CaptionLongEnough(msg.body) ==>
              h == Conclude(Trim(msg.body), Run(Trim(msg.body), svc))
  {
    if !Accepts(msg, group) then Handling(Ignored, [])
    else
      var name := Trim(msg.body);
      if Utf16Length(name) < MIN_CAPTION then
        Handling(CaptionRejected, [SendMessage(PRIVATE_CHAT, SHORT_CAPTION_WARNING), Log(Warn, SHORT_CAPTION_WARNING)])
      else Conclude(name, Run(name, svc))
  }

  /** Listening to the configured group: a message from any other chat
      produces nothing, so only the configured chat (or, when none is
      configured, the default one) is ever handled; the empty chat id never
      is. */
  lemma OnlyTargetGroupIsHandled(msg: Message, configured: Option<string>, svc: Services)
    ensures msg.chat != TargetGroup(configured) ==>
              Handle(msg, TargetGroup(configured), svc) == Handling(Ignored, [])
    ensures !Handle(msg, TargetGroup(configured), svc).outcome.Ignored? ==>
              msg.chat != ""
              && (configured.Some? && configured.value != "" ==> msg.chat == configured.value)
              && (configured.None? || configured.value == "" ==> msg.chat == DEFAULT_GROUP)
  {
  }

  /** Media that is neither an image nor a video is only logged. */
  lemma IgnoresOtherMedia(msg: Message, group: string, svc: Services)
    ensures var h := Handle(msg, group, svc);
            (h.outcome.MediaIgnored? <==>
               Accepts(msg, group) && CaptionLongEnough(msg.body)
               && svc.download.Ok? && svc.download.value.Some? && !IsImageOrVideo(svc.download.value.value.mimetype))
            && (h.outcome.MediaIgnored? ==>
                  h.effects == [DownloadMedia, Log(Info, MEDIA_IGNORED_LOG + svc.download.value.value.mimetype)])
  {
  }

  /** A success is reported only when the search, the upload and the
      attachment all succeeded, with the URL the upload returned. */
  lemma AttachedMeansEveryCallSucceeded(msg: Message, group: string, svc: Services)
    ensures var h := Handle(msg, group, svc);
            h.outcome.Attached? <==>
              Accepts(msg, group) && CaptionLongEnough(msg.body)
              && svc.download.Ok? && svc.download.value.Some? && IsImageOrVideo(svc.download.value.value.mimetype)
              && svc.search.HttpOk? && (Misses(FindCardByTitle(svc.search, Trim(msg.body))) ==> svc.create.HttpOk?)
              && svc.upload.Ok? && svc.attach.HttpOk?
    ensures var h := Handle(msg, group, svc);
            h.outcome.Attached? ==> svc.upload == Ok(h.outcome.url)
  {
  }

  /** When anything in the `try` block throws, the handler logs the error
      and then alerts the private chat, as its last two effects. */
  lemma FailureIsLoggedThenAlerted(msg: Message, group: string, svc: Services)
    ensures FailureLoggedThenAlerted(Handle(msg, group, svc), Trim(msg.body))
  {
    if Accepts(msg, group) && CaptionLongEnough(msg.body) {
      ConcludeFailureTail(Trim(msg.body), Run(Trim(msg.body), svc));
    }
  }

  /** A reported attachment went to the card the search found, or to the
      card created on a miss. */
  predicate CardFoundOrCreated(h: Handling, name: string, svc: Services) {
    h.outcome.Attached? ==>
      (h.outcome.isNew ==> svc.create == HttpOk(h.outcome.cardId))
      && (!h.outcome.isNew ==> FindCardByTitle(svc.search, name) == Ok(Some(h.outcome.cardId)))
  }

  lemma AttachesToFoundOrCreatedCard(msg: Message, group: string, svc: Services)
    ensures CardFoundOrCreated(Handle(msg, group, svc), Trim(msg.body), svc)
  {
    if Accepts(msg, group) && CaptionLongEnough(msg.body) {
      ConcludedRunCardFoundOrCreated(Trim(msg.body), svc);
    }
  }

  lemma ConcludedRunCardFoundOrCreated(name: string, svc: Services)
    ensures CardFoundOrCreated(Conclude(name, Run(name, svc)), name, svc)
  {
  }

  /** The request just before the success notice attaches the uploaded URL,
      with the dated title, to the card the handler reports. */
  predicate AttachmentBeforeNotice(h: Handling, name: string, today: string) {
    h.outcome.Attached? ==>
      |h.effects| >= 2
      && h.effects[|h.effects| - 2] == AttachUrl(h.outcome.cardId, AttachmentTitle(name, today), h.outcome.url)
  }

  lemma AttachmentPrecedesNotice(msg: Message, group: string, svc: Services)
    ensures AttachmentBeforeNotice(Handle(msg, group, svc), Trim(msg.body), svc.today)
  {
    if Accepts(msg, group) && CaptionLongEnough(msg.body) {
      ConcludedRunAttachesLast(Trim(msg.body), svc);
    }
  }

  lemma ConcludedRunAttachesLast(name: string, svc: Services)
    ensures AttachmentBeforeNotice(Conclude(name, Run(name, svc)), name, svc.today)
  {
    RunEndsWithAttachment(name, svc);
    ConcludeKeepsLastRequest(name, Run(name, svc));
  }

  /** A completed `try` block ends with the attachment to the card it
      reports. */
  lemma RunEndsWithAttachment(name: string, svc: Services)
    ensures var run := Run(name, svc);
            run.result.Ok? && run.result.value.Done? ==>
              run.effects[|run.effects| - 1]
                == AttachUrl(run.result.value.cardId, AttachmentTitle(name, svc.today), run.result.value.url)
  {
    if svc.download.Ok? && svc.download.value.Some? && IsImageOrVideo(svc.download.value.value.mimetype) {
      var flow := Flow(name, svc.download.value.value, FindCardByTitle(svc.search, name), svc);
      FlowEndsWithAttachment(name, svc.download.value.value, FindCardByTitle(svc.search, name), svc);
      if flow.result.Ok? {
        assert ([DownloadMedia] + flow.effects)[|flow.effects|] == flow.effects[|flow.effects| - 1];
      }
    }
  }

  /** The success notice follows the `try` block's last request. */
  lemma ConcludeKeepsLastRequest(name: string, run: Step<Progress>)
    requires |run.effects| >= 1
    ensures var h := Conclude(name, run);
            h.outcome.Attached? ==> |h.effects| >= 2 && h.effects[|h.effects| - 2] == run.effects[|run.effects| - 1]
  {
  }

  /** After a quiet `try` block, the handler sends exactly one message on
      a success or a failure, to the private chat, and none otherwise. */
  lemma ConcludeNotifiesOnce(name: string, run: Step<Progress>)
    requires forall i :: 0 <= i < |run.effects| ==> !IsMessage(run.effects[i])
    ensures var h := Conclude(name, run);
            (h.outcome.MediaIgnored? ==> Sent(h.effects) == [])
            && (h.outcome.Attached? ==> Sent(h.effects) == [(PRIVATE_CHAT, SuccessMessage(name, h.outcome.isNew, h.outcome.url))])
            && (h.outcome.Failed? ==> Sent(h.effects) == [(PRIVATE_CHAT, ErrorAlert(name, h.outcome.message))])
            && Replies(h.effects) == []
            && CardsCreated(h.effects) == CardsCreated(run.effects)
  {
    var h := Conclude(name, run);
    var tail := h.effects[|run.effects|..];
    assert h.effects == run.effects + tail;
    QuietPrefix(run.effects, tail);
    CardsCreatedAppend(run.effects, tail);
    match run.result
    case Ok(NotMedia(mimeType)) =>
    case Ok(Done(_, isNew, url)) =>
    case Err(m) =>
      assert tail[1..] == [SendMessage(PRIVATE_CHAT, ErrorAlert(name, m))];
  }

  /** Every outcome but `Ignored` and `MediaIgnored` sends exactly one
      message, always to the private chat: the warning, the success
      notice, or the alert. */
  lemma NotifiesPrivateChatOnce(msg: Message, group: string, svc: Services)
    ensures var h := Handle(msg, group, svc);
            (h.outcome.Ignored? || h.outcome.MediaIgnored? ==> Sent(h.effects) == [])
            && (h.outcome.CaptionRejected? ==> Sent(h.effects) == [(PRIVATE_CHAT, SHORT_CAPTION_WARNING)])
            && (h.outcome.Attached? ==>
                  Sent(h.effects) == [(PRIVATE_CHAT, SuccessMessage(Trim(msg.body), h.outcome.isNew, h.outcome.url))])
            && (h.outcome.Failed? ==>
                  Sent(h.effects) == [(PRIVATE_CHAT, ErrorAlert(Trim(msg.body), h.outcome.message))])
            && Replies(h.effects) == []
  {
    if Accepts(msg, group) && CaptionLongEnough(msg.body) {
      ConcludeNotifiesOnce(Trim(msg.body), Run(Trim(msg.body), svc));
    }
  }

  /** Every Cloudinary upload among `effects` sends the downloaded media:
      the download succeeded, and the request is the one for its data and
      type. */
  predicate UploadsDownloaded(effects: seq<Effect>, download: Result<Option<Media>>) {
    forall i :: 0 <= i < |effects| && effects[i].CloudinaryUpload? ==>
      download.Ok? && download.value.Some?
      && effects[i] == UploadRequest(download.value.value.data, download.value.value.mimetype)
  }

  lemma UploadsDownloadedAppend(a: seq<Effect>, b: seq<Effect>, download: Result<Option<Media>>)
    requires UploadsDownloaded(a, download) && UploadsDownloaded(b, download)
    ensures UploadsDownloaded(a + b, download)
  {
    forall i | 0 <= i < |a + b| && (a + b)[i].CloudinaryUpload?
      ensures download.Ok? && download.value.Some?
              && (a + b)[i] == UploadRequest(download.value.value.data, download.value.value.mimetype)
    {
      if i >= |a| {
        assert (a + b)[i] == b[i - |a|];
      }
    }
  }

  lemma FindOrCreateUploadsNothing(name: string, found: Result<Option<string>>, svc: Services, download: Result<Option<Media>>)
    ensures UploadsDownloaded(FindOrCreate(name, found, svc).effects, download)
  {
    var st := FindOrCreate(name, found, svc);
    if Misses(found) {
      assert st.effects == [FetchBoardCards, CreateCard(name, svc.now)];
    } else {
      assert st.effects == [FetchBoardCards];
    }
  }

  lemma FlowUploadsMedia(name: string, media: Media, found: Result<Option<string>>, svc: Services)
    ensures UploadsDownloaded(Flow(name, media, found, svc).effects, Ok(Some(media)))
  {
    var card := FindOrCreate(name, found, svc);
    FindOrCreateUploadsNothing(name, found, svc, Ok(Some(media)));
    if card.result.Ok? {
      var attached := UploadAndAttach(name, media, card.result.value.0, svc);
      assert UploadsDownloaded(attached.effects, Ok(Some(media))) by {
        assert !attached.effects[1].CloudinaryUpload?;
      }
      UploadsDownloadedAppend(card.effects, attached.effects, Ok(Some(media)));
    }
  }

  lemma RunUploadsDownloaded(name: string, svc: Services)
    ensures UploadsDownloaded(Run(name, svc).effects, svc.download)
  {
    if svc.download.Ok? && svc.download.value.Some? && IsImageOrVideo(svc.download.value.value.mimetype) {
      var media := svc.download.value.value;
      FlowUploadsMedia(name, media, FindCardByTitle(svc.search, name), svc);
      UploadsDownloadedAppend([DownloadMedia], Flow(name, media, FindCardByTitle(svc.search, name), svc).effects, svc.download);
    }
  }

  /** Concluding only logs and messages: it adds no upload. */
  lemma ConcludeKeepsUploads(name: string, run: Step<Progress>, download: Result<Option<Media>>)
    requires UploadsDownloaded(run.effects, download)
    ensures UploadsDownloaded(Conclude(name, run).effects, download)
  {
    var tail := match run.result
      case Ok(NotMedia(mimeType)) => [Log(Info, MEDIA_IGNORED_LOG + mimeType)]
      case Ok(Done(_, isNew, url)) => [SendMessage(PRIVATE_CHAT, SuccessMessage(name, isNew, url))]
      case Err(m) => [Log(Error, FLOW_ERROR_LOG + m), SendMessage(PRIVATE_CHAT, ErrorAlert(name, m))];
    UploadsDownloadedAppend(run.effects, tail, download);
    assert Conclude(name, run).effects == run.effects + tail;
  }

  lemma ConcludedRunUploadsDownloaded(name: string, svc: Services)
    ensures UploadsDownloaded(Conclude(name, Run(name, svc)).effects, svc.download)
  {
    RunUploadsDownloaded(name, svc);
    ConcludeKeepsUploads(name, Run(name, svc), svc.download);
  }

  /** The handler uploads nothing but the media it downloaded: every
      Cloudinary request carries that media's data URI and type, into the
      fixed folder. */
  lemma UploadsDownloadedMedia(msg: Message, group: string, svc: Services)
    ensures UploadsDownloaded(Handle(msg, group, svc).effects, svc.download)
  {
    if Accepts(msg, group) && CaptionLongEnough(msg.body) {
      ConcludedRunUploadsDownloaded(Trim(msg.body), svc);
    }
  }

  /** Inside the `try` block, a card named `name` is created exactly when
      the media is an image or video and the search misses; a completed
      flow reports the card as new exactly then. */
  lemma RunCreatesOnlyOnMiss(name: string, svc: Services)
    ensures var run := Run(name, svc);
            CardsCreated(run.effects) ==
              (if svc.download.Ok? && svc.download.value.Some? && IsImageOrVideo(svc.download.value.value.mimetype)
                  && Misses(FindCardByTitle(svc.search, name))
               then [name] else [])
            && (run.result.Ok? && run.result.value.Done? ==> (run.result.value.isNew <==> Misses(FindCardByTitle(svc.search, name))))
  {
    var run := Run(name, svc);
    match svc.download
    case Err(_) =>
    case Ok(None) =>
    case Ok(Some(media)) =>
      if IsImageOrVideo(media.mimetype) {
        var flow := Flow(name, media, FindCardByTitle(svc.search, name), svc);
        CardsCreatedAppend([DownloadMedia], flow.effects);
      }
  }

  /** A card is created only when the search misses, at most once, and
      it is named with the trimmed, unfolded caption; `isNew` reports
      exactly that creation. */
  lemma CreatesCardOnlyOnMiss(msg: Message, group: string, svc: Services)
    ensures var h := Handle(msg, group, svc);
            var name := Trim(msg.body);
            CardsCreated(h.effects) ==
              (if Accepts(msg, group) && CaptionLongEnough(msg.body)
                  && svc.download.Ok? && svc.download.value.Some? && IsImageOrVideo(svc.download.value.value.mimetype)
                  && Misses(FindCardByTitle(svc.search, name))
               then [name] else [])
            && (h.outcome.Attached? ==> (h.outcome.isNew <==> CardsCreated(h.effects) != []))
  {
    if Accepts(msg, group) && CaptionLongEnough(msg.body) {
      var name := Trim(msg.body);
      ConcludeNotifiesOnce(name, Run(name, svc));
      RunCreatesOnlyOnMiss(name, svc);
    } else {
      HandleOutsideRunCreatesNothing(msg, group, svc);
    }
  }

  /** Outside the `try` block the handler creates no card. */
  lemma HandleOutsideRunCreatesNothing(msg: Message, group: string, svc: Services)
    requires !Accepts(msg, group) || !CaptionLongEnough(msg.body)
    ensures CardsCreated(Handle(msg, group, svc).effects) == []
  {
    var h := Handle(msg, group, svc);
    if Accepts(msg, group) {
      assert h.effects[1..][1..] == [];
    }
  }

  /** Find-or-create converges: after the handler creates a card for a
      caption, searching the board with that card in it (and any cards
      added later) finds the new card. Trello card ids are never empty. */
  lemma CreatedCardIsFoundNext(msg: Message, group: string, svc: Services, cards: seq<Card>, more: seq<Card>)
    requires svc.search == HttpOk(cards)
    requires forall i :: 0 <= i < |cards| ==> cards[i].id != ""
    requires Handle(msg, group, svc).outcome.Attached? && Handle(msg, group, svc).outcome.isNew
    ensures var h := Handle(msg, group, svc);
            var name := Trim(msg.body);
            FindCardByTitle(HttpOk(cards + [Card(h.outcome.cardId, name)] + more), name) == Ok(Some(h.outcome.cardId))
  {
    var name := Trim(msg.body);
    CreatesCardOnlyOnMiss(msg, group, svc);
    assert Misses(FindCardByTitle(svc.search, name));
    assert FindCardByTitle(svc.search, name) == Ok(None);
    CreatedCardIsFoundLater(cards, name, Handle(msg, group, svc).outcome.cardId, more);
  }

  /** The length limit at its edge: whatever white space pads it, a
      caption of two UTF-16 units is rejected and one of three accepted. */
  lemma TwoLetterCaptionIsRejected(before: string, core: string, after: string)
    requires forall k :: 0 <= k < |before| ==> IsJsSpace(before[k])
    requires forall k :: 0 <= k < |after| ==> IsJsSpace(after[k])
    requires |core| > 0 && !IsJsSpace(core[0]) && !IsJsSpace(core[|core| - 1])
    requires Utf16Length(core) == 2
    ensures !CaptionLongEnough(before + core + after)
  {
    TrimOfPadded(before, core, after);
  }

  lemma ThreeLetterCaptionIsAccepted(before: string, core: string, after: string)
    requires forall k :: 0 <= k < |before| ==> IsJsSpace(before[k])
    requires forall k :: 0 <= k < |after| ==> IsJsSpace(after[k])
    requires |core| > 0 && !IsJsSpace(core[0]) && !IsJsSpace(core[|core| - 1])
    requires Utf16Length(core) == 3
    ensures CaptionLongEnough(before + core + after)
  {
    TrimOfPadded(before, core, after);
  }
}
