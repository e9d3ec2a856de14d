/** The observable actions of the scripts, returned as values instead of
    being performed: WhatsApp messages, calls to the Trello, Cloudinary,
    Google Drive and Google Sheets services, and console output. */
module Effects {
  import opened Wrappers

  datatype Level = Info | Warn | Error

  datatype Effect =
    | SendMessage(chat: string, text: string)                 // client.sendMessage(chat, text)
    | Reply(text: string)                                     // message.reply(text)
    | DownloadMedia                                           // msg.downloadMedia()
    | FetchBoardCards                                         // GET the board's cards (name, id)
    | CreateCard(name: string, createdAt: string)             // POST a card to the configured list; its
                                                              // description is Trello.CardDescription(name, createdAt)
    | AttachUrl(cardId: string, name: string, url: string)    // POST an URL attachment to a card
    | CloudinaryUpload(file: string, resourceType: string, folder: string)
    | DriveUpload(name: string, mimeType: string, folder: string)
    | ListTabs                                                // spreadsheets.get of the tab titles
    | CreateTab(title: string)                                // batchUpdate with one addSheet request
    | ReadRange(range: string)                                // spreadsheets.values.get
    | WriteRange(range: string, values: seq<string>)          // spreadsheets.values.update of one row
    | Log(level: Level, text: string)                         // console.log / warn / error

  /** What an awaited call did: the effects it issued, then how it completed. */
  datatype Step<+T> = Step(effects: seq<Effect>, result: Result<T>)

  /** The WhatsApp messages sent with `sendMessage`, in order, as (chat, text). */
  function Sent(effects: seq<Effect>): (sent: seq<(string, string)>)
    ensures |sent| <= |effects|
  {
    if |effects| == 0 then []
    else (if effects[0].SendMessage? then [(effects[0].chat, effects[0].text)] else [])
         + Sent(effects[1..])
  }

  /** The texts of the replies posted with `message.reply`, in order. */
  function Replies(effects: seq<Effect>): (replies: seq<string>)
    ensures |replies| <= |effects|
  {
    if |effects| == 0 then []
    else (if effects[0].Reply? then [effects[0].text] else []) + Replies(effects[1..])
  }

  lemma {:induction false} SentAppend(a: seq<Effect>, b: seq<Effect>)
    ensures Sent(a + b) == Sent(a) + Sent(b)
  {
    if |a| > 0 {
      assert (a + b)[1..] == a[1..] + b;
      assert (a + b)[0] == a[0];
      SentAppend(a[1..], b);
    } else {
      assert a + b == b;
    }
  }

  lemma {:induction false} RepliesAppend(a: seq<Effect>, b: seq<Effect>)
    ensures Replies(a + b) == Replies(a) + Replies(b)
  {
    if |a| > 0 {
      assert (a + b)[1..] == a[1..] + b;
      assert (a + b)[0] == a[0];
      RepliesAppend(a[1..], b);
    } else {
      assert a + b == b;
    }
  }

  /** The rows written to the spreadsheet, in order, as (range, values). */
  function Writes(effects: seq<Effect>): (writes: seq<(string, seq<string>)>)
    ensures |writes| <= |effects|
  {
    if |effects| == 0 then []
    else (if effects[0].WriteRange? then [(effects[0].range, effects[0].values)] else []) + Writes(effects[1..])
  }

  lemma {:induction false} WritesAppend(a: seq<Effect>, b: seq<Effect>)
    ensures Writes(a + b) == Writes(a) + Writes(b)
  {
    if |a| > 0 {
      assert (a + b)[1..] == a[1..] + b;
      assert (a + b)[0] == a[0];
      WritesAppend(a[1..], b);
    } else {
      assert a + b == b;
    }
  }

  /** A WhatsApp message of either kind. */
  predicate IsMessage(e: Effect) {
    e.SendMessage? || e.Reply?
  }

  lemma {:induction false} QuietSendsNothing(effects: seq<Effect>)
    requires forall i :: 0 <= i < |effects| ==> !IsMessage(effects[i])
    ensures Sent(effects) == [] && Replies(effects) == []
  {
    if |effects| > 0 {
      QuietSendsNothing(effects[1..]);
    }
  }

  /** Effects without messages may precede others without changing what
      is sent or replied. */
  lemma QuietPrefix(quiet: seq<Effect>, rest: seq<Effect>)
    requires forall i :: 0 <= i < |quiet| ==> !IsMessage(quiet[i])
    ensures Sent(quiet + rest) == Sent(rest) && Replies(quiet + rest) == Replies(rest)
  {
    QuietSendsNothing(quiet);
    SentAppend(quiet, rest);
    RepliesAppend(quiet, rest);
  }

  /** A reply, quiet effects, a reply: exactly those two replies and no
      sent message. */
  lemma RepliesAround(first: string, quiet: seq<Effect>, last: string)
    requires forall i :: 0 <= i < |quiet| ==> !IsMessage(quiet[i])
    ensures var effects := [Reply(first)] + quiet + [Reply(last)];
            Sent(effects) == [] && Replies(effects) == [first, last]
  {
    QuietPrefix(quiet, [Reply(last)]);
    SentAppend([Reply(first)], quiet + [Reply(last)]);
    RepliesAppend([Reply(first)], quiet + [Reply(last)]);
    assert [Reply(first)] + quiet + [Reply(last)] == [Reply(first)] + (quiet + [Reply(last)]);
  }
}
