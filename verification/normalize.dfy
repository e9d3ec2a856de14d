/** The text folding the card lookup applies to both the caption and every
    card name: canonical decomposition (NFD), removal of the combining
    diacritical marks U+0300..U+036F, then `toLowerCase`.

    Decomposition and lower-casing are modelled for the Latin-1 Supplement
    letters (the accented letters of Portuguese and the other Western
    European languages) and ASCII; every other character is left as it is. */
module Normalize {

  const GRAVE := '\U{0300}'
  const ACUTE := '\U{0301}'
  const CIRCUMFLEX := '\U{0302}'
  const TILDE := '\U{0303}'
  const DIAERESIS := '\U{0308}'
  const RING := '\U{030A}'
  const CEDILLA := '\U{0327}'

  /** The block the fold deletes: Combining Diacritical Marks. */
  predicate IsCombiningMark(c: char) {
    0x300 <= c as int <= 0x36F
  }

  predicate IsAsciiLetter(c: char) {
    ('A' <= c <= 'Z') || ('a' <= c <= 'z')
  }

  /** The Latin-1 letters with a canonical decomposition: U+00C0..U+00FF
      except Æ, Ð, ×, Ø, Þ, ß, æ, ð, ÷, ø and þ. */
  predicate HasDecomposition(c: char) {
    var n := c as int;
    0xC0 <= n <= 0xFF
    && n != 0xC6 && n != 0xD0 && n != 0xD7 && n != 0xD8 && n != 0xDE && n != 0xDF
    && n != 0xE6 && n != 0xF0 && n != 0xF7 && n != 0xF8 && n != 0xFE
  }

  /** Canonical decomposition of one character: a precomposed Latin-1
      letter becomes its base letter followed by one combining mark; every
      other character stands for itself. */
  function Decompose(c: char): (d: seq<char>)
    ensures HasDecomposition(c) ==> |d| == 2 && IsAsciiLetter(d[0]) && IsCombiningMark(d[1])
    ensures !HasDecomposition(c) ==> d == [c]
  {
    match c
    case 'À' => ['A', GRAVE]      case 'à' => ['a', GRAVE]
    case 'Á' => ['A', ACUTE]      case 'á' => ['a', ACUTE]
    case 'Â' => ['A', CIRCUMFLEX] case 'â' => ['a', CIRCUMFLEX]
    case 'Ã' => ['A', TILDE]      case 'ã' => ['a', TILDE]
    case 'Ä' => ['A', DIAERESIS]  case 'ä' => ['a', DIAERESIS]
    case 'Å' => ['A', RING]       case 'å' => ['a', RING]
    case 'Ç' => ['C', CEDILLA]    case 'ç' => ['c', CEDILLA]
    case 'È' => ['E', GRAVE]      case 'è' => ['e', GRAVE]
    case 'É' => ['E', ACUTE]      case 'é' => ['e', ACUTE]
    case 'Ê' => ['E', CIRCUMFLEX] case 'ê' => ['e', CIRCUMFLEX]
    case 'Ë' => ['E', DIAERESIS]  case 'ë' => ['e', DIAERESIS]
    case 'Ì' => ['I', GRAVE]      case 'ì' => ['i', GRAVE]
    case 'Í' => ['I', ACUTE]      case 'í' => ['i', ACUTE]
    case 'Î' => ['I', CIRCUMFLEX] case 'î' => ['i', CIRCUMFLEX]
    case 'Ï' => ['I', DIAERESIS]  case 'ï' => ['i', DIAERESIS]
    case 'Ñ' => ['N', TILDE]      case 'ñ' => ['n', TILDE]
    case 'Ò' => ['O', GRAVE]      case 'ò' => ['o', GRAVE]
    case 'Ó' => ['O', ACUTE]      case 'ó' => ['o', ACUTE]
    case 'Ô' => ['O', CIRCUMFLEX] case 'ô' => ['o', CIRCUMFLEX]
    case 'Õ' => ['O', TILDE]      case 'õ' => ['o', TILDE]
    case 'Ö' => ['O', DIAERESIS]  case 'ö' => ['o', DIAERESIS]
    case 'Ù' => ['U', GRAVE]      case 'ù' => ['u', GRAVE]
    case 'Ú' => ['U', ACUTE]      case 'ú' => ['u', ACUTE]
    case 'Û' => ['U', CIRCUMFLEX] case 'û' => ['u', CIRCUMFLEX]
    case 'Ü' => ['U', DIAERESIS]  case 'ü' => ['u', DIAERESIS]
    case 'Ý' => ['Y', ACUTE]      case 'ý' => ['y', ACUTE]
    case 'ÿ' => ['y', DIAERESIS]
    case _ => [c]
  }

  /** `String.prototype.normalize("NFD")` on the modelled repertoire. */
  function Nfd(s: string): (r: string)
    ensures |s| <= |r| <= 2 * |s|
    ensures forall k :: 0 <= k < |r| ==> !HasDecomposition(r[k])
  {
    if |s| == 0 then "" else Decompose(s[0]) + Nfd(s[1..])
  }

  /** Global replacement of the range U+0300..U+036F by nothing: keeps, in
      order, exactly the characters that are not combining marks. */
  function StripCombiningMarks(s: string): (r: string)
    ensures |r| <= |s|
    ensures forall k :: 0 <= k < |r| ==> !IsCombiningMark(r[k]) && r[k] in s
    ensures (forall k :: 0 <= k < |s| ==> !IsCombiningMark(s[k])) ==> r == s
  {
    if |s| == 0 then ""
    else if IsCombiningMark(s[0]) then StripCombiningMarks(s[1..])
    else [s[0]] + StripCombiningMarks(s[1..])
  }

  /** JavaScript's lower-case mapping of one character: ASCII capitals and
      the Latin-1 capitals U+00C0..U+00DE (except the multiplication sign
      U+00D7) move up by 0x20. */
  function LowerChar(c: char): (l: char)
  {
    var n := c as int;
    if 'A' <= c <= 'Z' || (0xC0 <= n <= 0xDE && n != 0xD7) then (n + 0x20) as char else c
  }

  predicate IsLower(c: char) {
    LowerChar(c) == c
  }

  /** `toLowerCase()`: a character-by-character mapping that leaves no
      modelled capital behind and keeps the length. */
  function ToLower(s: string): (r: string)
    ensures |r| == |s|
    ensures forall k :: 0 <= k < |s| ==> r[k] == LowerChar(s[k]) && IsLower(r[k])
  {
    if |s| == 0 then "" else [LowerChar(s[0])] + ToLower(s[1..])
  }

  /** A character the fold leaves unchanged. */
  predicate IsFolded(c: char) {
    !HasDecomposition(c) && !IsCombiningMark(c) && IsLower(c)
  }

  /** Lower-casing a decomposed, unmarked character yields a folded one:
      the capitals without a decomposition (Æ, Ð, Ø, Þ) lower-case to
      letters that have none either. */
  lemma LowerOfDecomposedIsFolded(c: char)
    requires !HasDecomposition(c) && !IsCombiningMark(c)
    ensures IsFolded(LowerChar(c))
  {
  }

  /** The fold: NFD, strip combining marks, lower-case. */
  function Fold(s: string): string {
    ToLower(StripCombiningMarks(Nfd(s)))
  }

  /** Every character of a fold is one the fold leaves unchanged: no
      accented letter, no combining mark, no capital. */
  lemma FoldIsFolded(s: string)
    ensures forall k :: 0 <= k < |Fold(s)| ==> IsFolded(Fold(s)[k])
  {
    var stripped := StripCombiningMarks(Nfd(s));
    var r := ToLower(stripped);
    forall k | 0 <= k < |r|
      ensures IsFolded(r[k])
    {
      var c := stripped[k];
      assert c in Nfd(s);
      LowerOfDecomposedIsFolded(c);
    }
  }

  /** A string made of folded characters is its own fold. */
  lemma {:induction false} FoldOfFolded(s: string)
    requires forall k :: 0 <= k < |s| ==> IsFolded(s[k])
    ensures Fold(s) == s
  {
    NfdOfDecomposed(s);
    assert StripCombiningMarks(s) == s;
    ToLowerOfLower(s);
  }

  lemma {:induction false} NfdOfDecomposed(s: string)
    requires forall k :: 0 <= k < |s| ==> !HasDecomposition(s[k])
    ensures Nfd(s) == s
  {
    if |s| > 0 {
      NfdOfDecomposed(s[1..]);
      assert [s[0]] + s[1..] == s;
    }
  }

  lemma {:induction false} ToLowerOfLower(s: string)
    requires forall k :: 0 <= k < |s| ==> IsLower(s[k])
    ensures ToLower(s) == s
  {
    if |s| > 0 {
      ToLowerOfLower(s[1..]);
      assert [s[0]] + s[1..] == s;
    }
  }

  /** Folding is idempotent: a caption or card name that has already been
      folded compares the same as the original. */
  lemma FoldIdempotent(s: string)
    ensures Fold(Fold(s)) == Fold(s)
  {
    FoldIsFolded(s);
    FoldOfFolded(Fold(s));
  }

  lemma {:induction false} NfdAppend(a: string, b: string)
    ensures Nfd(a + b) == Nfd(a) + Nfd(b)
  {
    if |a| == 0 { assert a + b == b; }
    else {
      assert (a + b)[0] == a[0];
      assert (a + b)[1..] == a[1..] + b;
      NfdAppend(a[1..], b);
    }
  }
  lemma {:induction false} StripAppend(a: string, b: string)
    ensures StripCombiningMarks(a + b) == StripCombiningMarks(a) + StripCombiningMarks(b)
  {
    if |a| == 0 { assert a + b == b; }
    else {
      assert (a + b)[0] == a[0];
      assert (a + b)[1..] == a[1..] + b;
      StripAppend(a[1..], b);
    }
  }
  lemma {:induction false} ToLowerAppend(a: string, b: string)
    ensures ToLower(a + b) == ToLower(a) + ToLower(b)
  {
    if |a| == 0 { assert a + b == b; }
    else {
      assert (a + b)[0] == a[0];
      assert (a + b)[1..] == a[1..] + b;
      ToLowerAppend(a[1..], b);
    }
  }
  /** The fold works character by character, so it distributes over
      concatenation. */
  lemma FoldAppend(a: string, b: string)
    ensures Fold(a + b) == Fold(a) + Fold(b)
  {
    NfdAppend(a, b);
    StripAppend(Nfd(a), Nfd(b));
    ToLowerAppend(StripCombiningMarks(Nfd(a)), StripCombiningMarks(Nfd(b)));
  }

  /** On ASCII text the fold is plain lower-casing. */
  lemma FoldOfAscii(s: string)
    requires forall k :: 0 <= k < |s| ==> s[k] as int < 0x80
    ensures Fold(s) == ToLower(s)
  {
    NfdOfDecomposed(s);
  }

  /** An ASCII character folds to its lower-case form. */
  lemma FoldOfAsciiChar(c: char)
    requires c as int < 0x80
    ensures Fold([c]) == [LowerChar(c)]
  {
    FoldOfAscii([c]);
    assert [c][1..] == [];
  }

  /** The concatenation of a list of strings. */
  function Concat(pieces: seq<string>): string {
    if |pieces| == 0 then "" else pieces[0] + Concat(pieces[1..])
  }

  /** Folding a string piece by piece: the fold of the whole is the
      concatenation of the folds of the pieces. */
  lemma {:induction false} FoldPieces(pieces: seq<string>, folded: seq<string>)
    requires |pieces| == |folded|
    requires forall i :: 0 <= i < |pieces| ==> Fold(pieces[i]) == folded[i]
    ensures Fold(Concat(pieces)) == Concat(folded)
  {
    if |pieces| > 0 {
      FoldPieces(pieces[1..], folded[1..]);
      FoldAppend(pieces[0], Concat(pieces[1..]));
    }
  }

  /** An accented letter folds to its lower-case base letter. */
  lemma FoldOfAccented(c: char)
    requires HasDecomposition(c)
    ensures Fold([c]) == [LowerChar(Decompose(c)[0])]
  {
    var d := Decompose(c);
    assert [c][1..] == [];
    assert Nfd([c]) == d;
    assert d[1..] == [d[1]] && [d[1]][1..] == [];
    assert StripCombiningMarks([d[1]]) == [];
    assert StripCombiningMarks(d) == [d[0]];
    assert [d[0]][1..] == [];
    assert ToLower([d[0]]) == [LowerChar(d[0])];
  }

  /** Writing a letter with or without its accent makes no difference to
      the fold, wherever the letter stands. */
  lemma FoldIgnoresAccent(before: string, c: char, after: string)
    requires HasDecomposition(c)
    ensures Fold(before + [c] + after) == Fold(before + [Decompose(c)[0]] + after)
  {
    var base := Decompose(c)[0];
    FoldOfAccented(c);
    FoldOfAscii([base]);
    FoldAppend(before + [c], after);
    FoldAppend(before, [c]);
    FoldAppend(before + [base], after);
    FoldAppend(before, [base]);
  }
}
