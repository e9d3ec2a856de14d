/** The parts of a WhatsApp message and of its downloaded media that the
    bots read. */
module WhatsApp {
  import opened Wrappers

  /** A received message. `chat` is the chat it arrived in (`msg.from`,
      or `msg.id.remote`; the two agree for group messages), `body` the
      caption of a media message. */
  datatype Message = Message(chat: string, hasMedia: bool, body: string, hasQuotedMsg: bool)

  /** Downloaded media: the base64 payload, its MIME type and the original
      file name when the sender's client provided one. */
  datatype Media = Media(data: string, mimetype: string, filename: Option<string>)
}
