/** Worked examples of the caption fold on short names, and the card
    match they give.

    Each lemma takes the string it is about as a parameter pinned by its
    `requires`, rather than writing the literal in its `ensures`: a literal
    in a postcondition makes the verifier unfold the recursive fold on it
    in every proof that can see the lemma, while a parameter keeps that
    unfolding inside the lemma's own proof. */
module FoldExamples {
  import opened Text
  import opened Normalize
  import opened Trello

  lemma FoldOfAccentedJose(s: string)
    requires s == "José"
    ensures Fold(s) == "jose"
  {
    var plain, accented := s[..3], s[3..];
    assert s == plain + accented;
    FoldOfJos(plain);
    FoldOfAccentedE(accented);
    FoldAppend(plain, accented);
  }

  lemma FoldOfJos(s: string)
    requires s == "Jos"
    ensures Fold(s) == "jos"
  {
    FoldOfAscii(s);
    LowerOfJos(s);
  }

  lemma LowerOfJos(s: string)
    requires s == "Jos"
    ensures ToLower(s) == "jos"
  {
  }

  lemma FoldOfAccentedE(s: string)
    requires s == "é"
    ensures Fold(s) == "e"
  {
    FoldOfAccented(s[0]);
    assert Decompose(s[0])[0] == 'e';
  }

  lemma LowerOfUpperJose(s: string)
    requires s == "JOSE"
    ensures ToLower(s) == "jose"
  {
  }

  lemma FoldOfUpperJose(s: string)
    requires s == "JOSE"
    ensures Fold(s) == "jose"
  {
    FoldOfAscii(s);
    LowerOfUpperJose(s);
  }

  lemma LowerOfUpperGroup(s: string)
    requires s == " - TURMA A"
    ensures ToLower(s) == " - turma a"
  {
  }

  lemma FoldOfUpperGroup(s: string)
    requires s == " - TURMA A"
    ensures Fold(s) == " - turma a"
  {
    GroupIsAscii(s);
    FoldOfAscii(s);
    LowerOfUpperGroup(s);
  }

  lemma GroupIsAscii(s: string)
    requires s == " - TURMA A"
    ensures forall k :: 0 <= k < |s| ==> s[k] as int < 0x80
  {
  }

  /** The folded card name, kept as two pieces. */
  lemma FoldOfCardName(first: string, rest: string)
    requires first == "JOSE" && rest == " - TURMA A"
    ensures Fold(first + rest) == "jose" + " - turma a"
  {
    FoldOfUpperJose(first);
    FoldOfUpperGroup(rest);
    FoldAppend(first, rest);
  }

  /** Accents and case do not matter: the caption "José" finds the card
      "JOSE - TURMA A". */
  lemma AccentedCaptionFindsPlainCard(card: Card, caption: string)
    requires card.name == "JOSE - TURMA A" && caption == "José"
    ensures CardMatches(card, caption)
  {
    var first, rest := "JOSE", " - TURMA A";
    assert card.name == first + rest;
    FoldOfCardName(first, rest);
    var foldedName := Fold(card.name);
    assert foldedName == "jose" + " - turma a";
    FoldOfAccentedJose(caption);
    var foldedCaption := Fold(caption);
    assert foldedCaption == "jose";
    IncludesMiddle("", "jose", " - turma a");
    assert "" + "jose" + " - turma a" == foldedName;
  }
}
