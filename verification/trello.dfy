/** The Trello helpers of the monitor bot: find a card whose folded name
    contains the folded caption, create a card, attach an URL to a card.
    The HTTP exchanges are oracles; a response is its decoded body, a
    failure with status, status text and body text, or a rejection. */
module Trello {
  import opened Wrappers
  import opened Text
  import opened Normalize
  import opened Search
  import opened Effects

  datatype Card = Card(id: string, name: string)

  /** An HTTP exchange as the helpers see it: `ok` with its JSON body; not
      `ok` with `status`, `statusText` and the body as text; or rejected
      with the message of what threw: `fetch` itself, or reading the body
      (`response.json()`, `response.text()`). */
  datatype HttpResponse<+T> =
    | HttpOk(body: T)
    | HttpFailure(status: nat, statusText: string, text: string)
    | HttpRejected(message: string)

  /** A card matches a caption when its folded name contains the folded
      caption; both sides go through the very same fold. */
  predicate CardMatches(card: Card, caption: string) {
    Includes(Fold(card.name), Fold(caption))
  }

  /** Card `i` matches and no earlier card does. */
  predicate IsFirstMatch(cards: seq<Card>, caption: string, i: int) {
    0 <= i < |cards| && CardMatches(cards[i], caption)
    && forall j :: 0 <= j < i ==> !CardMatches(cards[j], caption)
  }

  /** `findCardByTitle(alunoNome)`: a failed or rejected search throws;
      otherwise the id
      of the first card, in the order the board returned them, whose
      folded name contains the folded caption, or `null` when none does.
      What the search finds is stated by `FindCardByTitleFindsFirstMatch`. */
  function FindCardByTitle(search: HttpResponse<seq<Card>>, caption: string): (r: Result<Option<string>>)
    ensures r.Err? <==> !search.HttpOk?
    ensures search.HttpFailure? ==> r.message == "Erro ao buscar Cards: " + search.statusText
    ensures search.HttpRejected? ==> r.message == search.message
  {
    match search
    case HttpFailure(_, statusText, _) => Err("Erro ao buscar Cards: " + statusText)
    case HttpRejected(m) => Err(m)
    case HttpOk(cards) =>
      var k := FirstIndex(cards, (c: Card) => CardMatches(c, caption));
      if k < |cards| then Ok(Some(cards[k].id)) else Ok(None)
  }

  /** A successful search answers `null` exactly when no card matches,
      and otherwise the id of the first matching card. */
  lemma FindCardByTitleFindsFirstMatch(cards: seq<Card>, caption: string)
    ensures var r := FindCardByTitle(HttpOk(cards), caption);
            (r.value.None? <==> forall i :: 0 <= i < |cards| ==> !CardMatches(cards[i], caption))
            && (r.value.Some? ==> exists i :: IsFirstMatch(cards, caption, i) && cards[i].id == r.value.value)
  {
    var k := FirstIndex(cards, (c: Card) => CardMatches(c, caption));
    if k < |cards| {
      assert IsFirstMatch(cards, caption, k);
    }
  }

  /** Only one card can be the first match, so a later matching card is
      never the one returned. */
  lemma FirstMatchIsUnique(cards: seq<Card>, caption: string, i: int, j: int)
    requires IsFirstMatch(cards, caption, i) && IsFirstMatch(cards, caption, j)
    ensures i == j
  {
  }

  /** A card once found stays the answer for that caption however many
      cards are added after it. */
  lemma FoundCardSurvivesAppend(cards: seq<Card>, more: seq<Card>, caption: string)
    requires FindCardByTitle(HttpOk(cards), caption).value.Some?
    ensures FindCardByTitle(HttpOk(cards + more), caption) == FindCardByTitle(HttpOk(cards), caption)
  {
    var p := (c: Card) => CardMatches(c, caption);
    FirstIndexAppend(cards, more, p);
    var k := FirstIndex(cards, p);
    assert (cards + more)[k] == cards[k];
  }

  /** Find-or-create is stable: when the search misses and a card named
      after the caption is created, every later search for the same
      caption finds that new card, even with more cards added after it. */
  lemma CreatedCardIsFoundLater(cards: seq<Card>, caption: string, newId: string, more: seq<Card>)
    requires FindCardByTitle(HttpOk(cards), caption) == Ok(None)
    ensures FindCardByTitle(HttpOk(cards + [Card(newId, caption)] + more), caption) == Ok(Some(newId))
  {
    var p := (c: Card) => CardMatches(c, caption);
    var created := Card(newId, caption);
    IncludesSelf(Fold(caption));
    assert p(created);
    FirstIndexAppend(cards, [created] + more, p);
    assert FirstIndex([created] + more, p) == 0;
    assert cards + [created] + more == cards + ([created] + more);
    assert (cards + [created] + more)[|cards|] == created;
  }

  /** The card description written on creation. */
  function CardDescription(title: string, now: string): string {
    "Card criado automaticamente após receber a primeira mídia de " + title + " em " + now + "."
  }

  /** The description names the student and the moment of creation. */
  lemma CardDescriptionNamesTitleAndTime(title: string, now: string)
    ensures Includes(CardDescription(title, now), title)
    ensures Includes(CardDescription(title, now), now)
  {
    var head := "Card criado automaticamente após receber a primeira mídia de ";
    IncludesMiddle(head, title, " em " + now + ".");
    assert head + title + (" em " + now + ".") == CardDescription(title, now);
    IncludesMiddle(head + title + " em ", now, ".");
    assert head + title + " em " + now + "." == CardDescription(title, now);
  }

  /** `createCard(title)`: one creation request named exactly `title`;
      the new card's id, or the error built from status and body text. */
  function CreateCard(title: string, now: string, response: HttpResponse<string>): (st: Step<string>)
    ensures st.effects == [Effect.CreateCard(title, now)]
    ensures st.result.Ok? <==> response.HttpOk?
    ensures response.HttpOk? ==> st.result.value == response.body
    ensures response.HttpFailure? ==>
              st.result.message == "Erro ao criar Card: " + NatToString(response.status) + " - " + response.text
    ensures response.HttpRejected? ==> st.result.message == response.message
  {
    var request := Effect.CreateCard(title, now);
    match response
    case HttpOk(id) => Step([request], Ok(id))
    case HttpRejected(m) => Step([request], Err(m))
    case HttpFailure(status, _, text) =>
      Step([request], Err("Erro ao criar Card: " + NatToString(status) + " - " + text))
  }

  /** `attachUrlToCard(cardId, title, url)`: one attachment request. */
  function AttachUrlToCard(cardId: string, title: string, url: string, response: HttpResponse<()>): (st: Step<()>)
    ensures st.effects == [AttachUrl(cardId, title, url)]
    ensures st.result.Ok? <==> response.HttpOk?
    ensures response.HttpFailure? ==>
              st.result.message == "Erro ao anexar URL. Status: " + response.statusText
    ensures response.HttpRejected? ==> st.result.message == response.message
  {
    match response
    case HttpOk(_) => Step([AttachUrl(cardId, title, url)], Ok(()))
    case HttpRejected(m) => Step([AttachUrl(cardId, title, url)], Err(m))
    case HttpFailure(_, statusText, _) =>
      Step([AttachUrl(cardId, title, url)], Err("Erro ao anexar URL. Status: " + statusText))
  }
}
