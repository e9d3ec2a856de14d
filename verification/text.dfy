/** The JavaScript string operations the scripts rely on, over `string`
    (a sequence of Unicode scalar values).

    Each function mirrors one built-in (`trim`, `startsWith`, `includes`,
    `split`, `join`, the `length` property, and number-to-string
    conversion in template literals) and carries a contract that says what
    the built-in returns independently of how it is computed here. */
module Text {

  // ---------------------------------------------------------------------------
  // startsWith / includes
  // ---------------------------------------------------------------------------

  /** `s.startsWith(prefix)` */
  predicate StartsWith(s: string, prefix: string) {
    |prefix| <= |s| && s[..|prefix|] == prefix
  }

  /** `sub` occurs in `s` starting at position `i`. */
  predicate OccursAt(s: string, sub: string, i: nat) {
    i + |sub| <= |s| && s[i..i + |sub|] == sub
  }

  /** `s.includes(sub)`: a left-to-right scan trying every start position. */
  predicate Includes(s: string, sub: string)
    ensures Includes(s, sub) <==> exists i :: 0 <= i <= |s| && OccursAt(s, sub, i)
    decreases |s|
  {
    if StartsWith(s, sub) then
      assert OccursAt(s, sub, 0);
      true
    else if |s| == 0 then
      false
    else
      var found := Includes(s[1..], sub);
      if found then
        var j :| 0 <= j <= |s| - 1 && OccursAt(s[1..], sub, j);
        assert OccursAt(s, sub, j + 1) by {
          assert s[j + 1..j + 1 + |sub|] == s[1..][j..j + |sub|];
        }
        true
      else
        assert forall i :: 1 <= i <= |s| && OccursAt(s, sub, i) ==> OccursAt(s[1..], sub, i - 1) by {
          forall i | 1 <= i <= |s| && OccursAt(s, sub, i)
            ensures OccursAt(s[1..], sub, i - 1)
          {
            assert s[1..][i - 1..i - 1 + |sub|] == s[i..i + |sub|];
          }
        }
        assert !OccursAt(s, sub, 0);
        false
  }

  /** Every string includes itself (`s.includes(s)` is always true). */
  lemma IncludesSelf(s: string)
    ensures Includes(s, s)
  {
    assert OccursAt(s, s, 0);
  }

  /** A string includes every piece it was concatenated from. */
  lemma IncludesMiddle(a: string, b: string, c: string)
    ensures Includes(a + b + c, b)
  {
    var s := a + b + c;
    assert s[|a|..|a| + |b|] == b;
    assert OccursAt(s, b, |a|);
  }

  // ---------------------------------------------------------------------------
  // trim
  // ---------------------------------------------------------------------------

  /** The characters `String.prototype.trim` removes: ECMAScript WhiteSpace
      (tab, vertical tab, form feed, space, no-break space, zero width
      no-break space and the Unicode space separators) and LineTerminator
      (line feed, carriage return, line and paragraph separator). */
  predicate IsJsSpace(c: char) {
    var n := c as int;
    n == 0x09 || n == 0x0A || n == 0x0B || n == 0x0C || n == 0x0D || n == 0x20
    || n == 0xA0 || n == 0x1680 || (0x2000 <= n <= 0x200A)
    || n == 0x2028 || n == 0x2029 || n == 0x202F || n == 0x205F
    || n == 0x3000 || n == 0xFEFF
  }

  /** Drops leading white space: the result is the longest suffix of `s`
      that does not start with white space. */
  function TrimStart(s: string): (r: string)
    ensures |r| <= |s| && r == s[|s| - |r|..]
    ensures forall k :: 0 <= k < |s| - |r| ==> IsJsSpace(s[k])
    ensures r == [] || !IsJsSpace(r[0])
    decreases |s|
  {
    if |s| > 0 && IsJsSpace(s[0]) then TrimStart(s[1..]) else s
  }

  /** Drops trailing white space: the result is the longest prefix of `s`
      that does not end with white space. */
  function TrimEnd(s: string): (r: string)
    ensures |r| <= |s| && r == s[..|r|]
    ensures forall k :: |r| <= k < |s| ==> IsJsSpace(s[k])
    ensures r == [] || !IsJsSpace(r[|r| - 1])
    ensures r == [] || r[0] == s[0]
    decreases |s|
  {
    if |s| > 0 && IsJsSpace(s[|s| - 1]) then TrimEnd(s[..|s| - 1]) else s
  }

  /** `r` is the slice of `s` starting at `i` and everything around that
      slice is white space. */
  predicate SpaceFramedAt(s: string, r: string, i: nat) {
    i + |r| <= |s| && s[i..i + |r|] == r
    && (forall k :: 0 <= k < i ==> IsJsSpace(s[k]))
    && (forall k :: i + |r| <= k < |s| ==> IsJsSpace(s[k]))
  }

  /** `s.trim()`: white space removed at both ends. */
  function Trim(s: string): string {
    TrimEnd(TrimStart(s))
  }

  /** What trimming leaves is a slice of the input framed by white space
      on both sides. */
  lemma TrimIsFramed(s: string)
    ensures exists i :: 0 <= i <= |s| && SpaceFramedAt(s, Trim(s), i)
  {
    var t := TrimStart(s);
    var r := Trim(s);
    var i := |s| - |t|;
    assert s[i..i + |r|] == r by {
      assert t == s[i..] && r == TrimEnd(t) && r == t[..|r|];
    }
    assert forall k :: i + |r| <= k < |s| ==> IsJsSpace(s[k]) by {
      forall k | i + |r| <= k < |s|
        ensures IsJsSpace(s[k])
      {
        assert s[k] == t[k - i];
      }
    }
    assert SpaceFramedAt(s, r, i);
  }

  /** What trimming leaves neither starts nor ends with white space. */
  lemma TrimHasNoEdgeSpace(s: string)
    ensures var r := Trim(s);
            r == [] || (!IsJsSpace(r[0]) && !IsJsSpace(r[|r| - 1]))
  {
    var t := TrimStart(s);
    var r := TrimEnd(t);
    if r != [] {
      assert r[0] == t[0];
    }
  }

  /** Trimming twice is trimming once. */
  lemma TrimIdempotent(s: string)
    ensures Trim(Trim(s)) == Trim(s)
  {
    TrimHasNoEdgeSpace(s);
    var r := Trim(s);
    assert TrimStart(r) == r;
    assert TrimEnd(r) == r;
  }

  lemma {:induction false} TrimStartPadded(pad: string, t: string)
    requires forall k :: 0 <= k < |pad| ==> IsJsSpace(pad[k])
    requires t == [] || !IsJsSpace(t[0])
    ensures TrimStart(pad + t) == t
  {
    if |pad| > 0 {
      assert (pad + t)[1..] == pad[1..] + t;
      TrimStartPadded(pad[1..], t);
    } else {
      assert pad + t == t;
    }
  }

  lemma {:induction false} TrimEndPadded(t: string, pad: string)
    requires forall k :: 0 <= k < |pad| ==> IsJsSpace(pad[k])
    requires t == [] || !IsJsSpace(t[|t| - 1])
    ensures TrimEnd(t + pad) == t
  {
    if |pad| > 0 {
      assert (t + pad)[..|t + pad| - 1] == t + pad[..|pad| - 1];
      TrimEndPadded(t, pad[..|pad| - 1]);
    } else {
      assert t + pad == t;
    }
  }

  /** Trimming gives back exactly the text between white-space paddings,
      provided the text itself neither starts nor ends with white space. */
  lemma TrimOfPadded(before: string, core: string, after: string)
    requires forall k :: 0 <= k < |before| ==> IsJsSpace(before[k])
    requires forall k :: 0 <= k < |after| ==> IsJsSpace(after[k])
    requires |core| > 0 && !IsJsSpace(core[0]) && !IsJsSpace(core[|core| - 1])
    ensures Trim(before + core + after) == core
  {
    assert before + core + after == before + (core + after);
    assert (core + after)[0] == core[0];
    TrimStartPadded(before, core + after);
    TrimEndPadded(core, after);
  }

  // ---------------------------------------------------------------------------
  // length (UTF-16 code units)
  // ---------------------------------------------------------------------------

  /** Number of UTF-16 code units JavaScript uses for one scalar value:
      two (a surrogate pair) outside the Basic Multilingual Plane. */
  function Utf16Units(c: char): nat {
    if c as int >= 0x10000 then 2 else 1
  }

  /** The JavaScript `length` of a string. */
  function Utf16Length(s: string): (n: nat)
    ensures |s| <= n <= 2 * |s|
    ensures (forall k :: 0 <= k < |s| ==> s[k] as int < 0x10000) ==> n == |s|
  {
    if |s| == 0 then 0 else Utf16Units(s[0]) + Utf16Length(s[1..])
  }

  // ---------------------------------------------------------------------------
  // indexOf / split / join
  // ---------------------------------------------------------------------------

  /** `s.indexOf(c)`, except that a missing `c` yields `|s|` instead of -1. */
  function FirstIndexOf(s: string, c: char): (k: nat)
    ensures k <= |s|
    ensures k < |s| ==> s[k] == c
    ensures c !in s[..k]
    ensures k == |s| <==> c !in s
  {
    if |s| == 0 then 0
    else if s[0] == c then 0
    else
      var k := 1 + FirstIndexOf(s[1..], c);
      assert s[..k] == [s[0]] + s[1..][..k - 1];
      k
  }

  /** The first `c` of `a + [c] + b` is the one after `a` when `a` has none. */
  lemma {:induction false} FirstIndexOfAfter(a: string, c: char, b: string)
    requires c !in a
    ensures FirstIndexOf(a + [c] + b, c) == |a|
    decreases |a|
  {
    if |a| > 0 {
      assert (a + [c] + b)[0] == a[0];
      assert (a + [c] + b)[1..] == a[1..] + [c] + b;
      FirstIndexOfAfter(a[1..], c, b);
    }
  }

  /** The position of the last `c` before position `n`, or -1. */
  function LastIndexBelow(s: string, c: char, n: nat): (k: int)
    requires n <= |s|
    ensures -1 <= k < n
    ensures k >= 0 ==> s[k] == c
    ensures forall j :: k < j < n ==> s[j] != c
  {
    if n == 0 then -1
    else if s[n - 1] == c then n - 1
    else LastIndexBelow(s, c, n - 1)
  }

  /** `s.lastIndexOf(c)`: the position of the last `c`, or -1. */
  function LastIndexOf(s: string, c: char): (k: int)
    ensures -1 <= k < |s|
    ensures k >= 0 ==> s[k] == c
    ensures c !in s[k + 1..]
    ensures k == -1 <==> c !in s
  {
    var k := LastIndexBelow(s, c, |s|);
    var after := s[k + 1..];
    assert c !in after by {
      forall j | 0 <= j < |after|
        ensures after[j] != c
      {
        assert after[j] == s[k + 1 + j];
      }
    }
    k
  }

  /** The last `c` of `a + [c] + b` is the one after `a` when `b` has none. */
  lemma LastIndexOfBefore(a: string, c: char, b: string)
    requires c !in b
    ensures LastIndexOf(a + [c] + b, c) == |a|
  {
    var s := a + [c] + b;
    assert s[|a|] == c;
  }

  /** `s.split(sep)` for a one-character separator: the maximal
      separator-free pieces, in order. */
  function Split(s: string, sep: char): (parts: seq<string>)
    ensures |parts| >= 1
    ensures forall i :: 0 <= i < |parts| ==> sep !in parts[i]
    decreases |s|
  {
    if |s| == 0 then [""]
    else
      var rest := Split(s[1..], sep);
      if s[0] == sep then [""] + rest
      else [[s[0]] + rest[0]] + rest[1..]
  }

  /** `parts.join(sep)` */
  function Join(parts: seq<string>, sep: char): string
  {
    if |parts| == 0 then ""
    else if |parts| == 1 then parts[0]
    else parts[0] + [sep] + Join(parts[1..], sep)
  }

  /** Splitting and joining again gives back the original string. */
  lemma {:induction false} JoinSplit(s: string, sep: char)
    ensures Join(Split(s, sep), sep) == s
    decreases |s|
  {
    if |s| == 0 {
    } else {
      var rest := Split(s[1..], sep);
      JoinSplit(s[1..], sep);
      if s[0] == sep {
        assert ([""] + rest)[1..] == rest;
      } else if |rest| == 1 {
      } else {
        var parts := [[s[0]] + rest[0]] + rest[1..];
        assert parts[1..] == rest[1..];
        calc {
          Join(parts, sep);
          ([s[0]] + rest[0]) + [sep] + Join(rest[1..], sep);
          [s[0]] + (rest[0] + [sep] + Join(rest[1..], sep));
          [s[0]] + Join(rest, sep);
          [s[0]] + s[1..];
          s;
        }
      }
    }
  }

  /** A separator-free string is not split at all. */
  lemma {:induction false} SplitWithoutSeparator(s: string, sep: char)
    requires sep !in s
    ensures Split(s, sep) == [s]
    decreases |s|
  {
    if |s| > 0 {
      SplitWithoutSeparator(s[1..], sep);
      assert [s[0]] + s[1..] == s;
    }
  }

  /** Splitting cuts at the first separator and splits the rest. */
  lemma {:induction false} SplitAtFirst(s: string, sep: char)
    requires sep in s
    ensures var k := FirstIndexOf(s, sep);
            Split(s, sep) == [s[..k]] + Split(s[k + 1..], sep)
    decreases |s|
  {
    var k := FirstIndexOf(s, sep);
    if s[0] != sep {
      assert sep in s[1..];
      SplitAtFirst(s[1..], sep);
      assert k == 1 + FirstIndexOf(s[1..], sep);
      assert s[1..][k..] == s[k + 1..];
      assert [s[0]] + s[1..][..k - 1] == s[..k];
    }
  }

  /** The first piece of a split is everything before the first separator
      (the whole string when there is none). */
  lemma SplitHead(s: string, sep: char)
    ensures Split(s, sep)[0] == s[..FirstIndexOf(s, sep)]
  {
    if sep in s {
      SplitAtFirst(s, sep);
    } else {
      SplitWithoutSeparator(s, sep);
    }
  }

  /** The second piece of a split is what lies between the first and the
      second separator (or the end); there is none without a separator. */
  lemma SplitSecond(s: string, sep: char)
    ensures sep !in s ==> Split(s, sep) == [s]
    ensures sep in s ==>
              var rest := s[FirstIndexOf(s, sep) + 1..];
              |Split(s, sep)| >= 2 && Split(s, sep)[1] == rest[..FirstIndexOf(rest, sep)]
  {
    if sep in s {
      var rest := s[FirstIndexOf(s, sep) + 1..];
      SplitAtFirst(s, sep);
      SplitHead(rest, sep);
    } else {
      SplitWithoutSeparator(s, sep);
    }
  }

  /** Joining two or more pieces ends with the separator and the last piece. */
  lemma {:induction false} JoinLast(parts: seq<string>, sep: char)
    requires |parts| >= 2
    ensures Join(parts, sep) == Join(parts[..|parts| - 1], sep) + [sep] + parts[|parts| - 1]
    decreases |parts|
  {
    var n := |parts|;
    if n > 2 {
      JoinLast(parts[1..], sep);
      assert parts[1..][..n - 2] == parts[..n - 1][1..];
      assert parts[1..][n - 2] == parts[n - 1];
    }
  }

  /** `s.split(sep).slice(0, -1).join(sep)`: everything before the last
      separator, or the empty string when there is no separator. */
  lemma SplitDropLastJoin(s: string, sep: char)
    ensures var parts := Split(s, sep);
            Join(parts[..|parts| - 1], sep) == if sep in s then s[..LastIndexOf(s, sep)] else ""
  {
    if |Split(s, sep)| == 1 {
      SingleSplitDropLast(s, sep);
    } else {
      SplitDropLastBeforeSeparator(s, sep);
    }
  }

  lemma SingleSplitDropLast(s: string, sep: char)
    requires |Split(s, sep)| == 1
    ensures sep !in s && Join(Split(s, sep)[..0], sep) == ""
  {
    SingleSplitHasNoSeparator(s, sep);
    assert Split(s, sep)[..0] == [];
  }

  lemma SplitDropLastBeforeSeparator(s: string, sep: char)
    requires |Split(s, sep)| >= 2
    ensures var parts := Split(s, sep);
            sep in s && Join(parts[..|parts| - 1], sep) == s[..LastIndexOf(s, sep)]
  {
    var parts := Split(s, sep);
    var n := |parts|;
    var front, last := Join(parts[..n - 1], sep), parts[n - 1];
    assert s == front + [sep] + last by {
      JoinSplitLast(s, sep);
    }
    assert sep !in last;
    PrefixBeforeLast(front, sep, last);
  }

  lemma PrefixBeforeLast(front: string, sep: char, last: string)
    requires sep !in last
    ensures var s := front + [sep] + last;
            sep in s && LastIndexOf(s, sep) == |front| && s[..|front|] == front
  {
    var s := front + [sep] + last;
    LastIndexOfBefore(front, sep, last);
    assert s[|front|] == sep;
  }

  lemma SingleSplitHasNoSeparator(s: string, sep: char)
    requires |Split(s, sep)| == 1
    ensures sep !in s
  {
    JoinSplit(s, sep);
    assert Join(Split(s, sep), sep) == Split(s, sep)[0];
  }

  lemma JoinSplitLast(s: string, sep: char)
    requires |Split(s, sep)| >= 2
    ensures var parts := Split(s, sep);
            s == Join(parts[..|parts| - 1], sep) + [sep] + parts[|parts| - 1]
  {
    JoinSplit(s, sep);
    JoinLast(Split(s, sep), sep);
  }

  // ---------------------------------------------------------------------------
  // Decimal representation of natural numbers
  // ---------------------------------------------------------------------------

  predicate IsDigit(c: char) {
    '0' <= c <= '9'
  }

  predicate IsDigits(s: string) {
    forall k :: 0 <= k < |s| ==> IsDigit(s[k])
  }

  function DigitChar(d: nat): (c: char)
    requires d < 10
    ensures IsDigit(c) && c as int - '0' as int == d
  {
    ('0' as int + d) as char
  }

  /** The value of a string of decimal digits. */
  function DigitsValue(s: string): nat
    requires IsDigits(s)
  {
    if |s| == 0 then 0
    else DigitsValue(s[..|s| - 1]) * 10 + (s[|s| - 1] as int - '0' as int)
  }

  /** How a non-negative integer prints in a template literal: decimal
      digits, with no leading zero unless the number is zero. */
  function NatToString(n: nat): (s: string)
    ensures |s| >= 1 && IsDigits(s)
    ensures s[0] == '0' ==> n == 0 && |s| == 1
    decreases n
  {
    if n < 10 then [DigitChar(n)] else NatToString(n / 10) + [DigitChar(n % 10)]
  }

  /** Printing a number and reading its digits back gives the number. */
  lemma {:induction false} NatToStringRoundTrip(n: nat)
    ensures DigitsValue(NatToString(n)) == n
    decreases n
  {
    if n >= 10 {
      NatToStringRoundTrip(n / 10);
      var s := NatToString(n);
      assert s[..|s| - 1] == NatToString(n / 10);
    }
  }

  /** Different numbers print differently. */
  lemma NatToStringInjective(m: nat, n: nat)
    requires NatToString(m) == NatToString(n)
    ensures m == n
  {
    NatToStringRoundTrip(m);
    NatToStringRoundTrip(n);
  }
}
