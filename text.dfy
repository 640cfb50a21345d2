/**
 * The JavaScript string operations the handlers rely on: `trim`, `length` (in
 * UTF-16 code units), `split(' ')`, the case-insensitive match of a search
 * text, and the decimal form of a number (`toString`).
 */
module Text {
  import opened Wrappers

  /** Characters removed by JavaScript's `trim`: WhiteSpace and LineTerminator. */
  predicate IsWhite(c: char) {
    || c == '\t' || c == '\n' || c == '\U{000B}' || c == '\U{000C}' || c == '\r' || c == ' '
    || c == '\U{00A0}' || c == '\U{1680}' || ('\U{2000}' <= c <= '\U{200A}')
    || c == '\U{2028}' || c == '\U{2029}' || c == '\U{202F}' || c == '\U{205F}'
    || c == '\U{3000}' || c == '\U{FEFF}'
  }

  /** `s` with its leading white space removed. */
  function TrimStart(s: string): (r: string)
    ensures |r| <= |s| && r == s[|s| - |r|..]
    ensures forall k :: 0 <= k < |s| - |r| ==> IsWhite(s[k])
    ensures r == [] || !IsWhite(r[0])
  {
    if s != [] && IsWhite(s[0]) then TrimStart(s[1..]) else s
  }

  /** `s` with its trailing white space removed. */
  function TrimEnd(s: string): (r: string)
    ensures |r| <= |s| && r == s[..|r|]
    ensures forall k :: |r| <= k < |s| ==> IsWhite(s[k])
    ensures r == [] || !IsWhite(r[|r| - 1])
  {
    if s != [] && IsWhite(s[|s| - 1]) then TrimEnd(s[..|s| - 1]) else s
  }

  /**
   * `r` is the slice of `s` at `i`, and everything before and after that
   * slice is white space.
   */
  predicate StrippedAt(s: string, r: string, i: int) {
    && 0 <= i && i + |r| <= |s| && s[i..i + |r|] == r
    && (forall k :: 0 <= k < i ==> IsWhite(s[k]))
    && (forall k :: i + |r| <= k < |s| ==> IsWhite(s[k]))
  }

  /**
   * JavaScript's `s.trim()`, which the schemas apply to `username` and
   * `title`: `s` without its leading and trailing white space, and without
   * anything else.
   */
  function Trim(s: string): (r: string)
    ensures r == [] || (!IsWhite(r[0]) && !IsWhite(r[|r| - 1]))
    ensures exists i :: StrippedAt(s, r, i)
    ensures |r| <= |s|
  {
    var t := TrimStart(s);
    assert StrippedAt(s, TrimEnd(t), |s| - |t|) by {
      assert s[|s| - |t|..] == t;
    }
    TrimEnd(t)
  }

  predicate IsTrimmed(s: string) {
    s == [] || (!IsWhite(s[0]) && !IsWhite(s[|s| - 1]))
  }

  lemma TrimmedIsFixed(s: string)
    requires IsTrimmed(s)
    ensures Trim(s) == s
  {
  }

  lemma TrimIdempotent(s: string)
    ensures Trim(Trim(s)) == Trim(s)
  {
    TrimmedIsFixed(Trim(s));
  }

  /** A string made only of white space trims to the empty string. */
  lemma TrimAllWhite(s: string)
    requires forall k :: 0 <= k < |s| ==> IsWhite(s[k])
    ensures Trim(s) == []
  {
  }

  /** ASCII lower-casing, the case folding the model uses for `$options: 'i'`. */
  function Lower(c: char): char {
    if 'A' <= c <= 'Z' then (c as int + 32) as char else c
  }

  function Fold(s: string): (r: string)
    ensures |r| == |s|
    ensures forall k :: 0 <= k < |s| ==> r[k] == Lower(s[k])
  {
    seq(|s|, k requires 0 <= k < |s| => Lower(s[k]))
  }

  predicate OccursAt(needle: string, hay: string, i: int) {
    0 <= i && i + |needle| <= |hay| && hay[i..i + |needle|] == needle
  }

  /** `needle` occurs somewhere in `hay` as a contiguous piece. */
  predicate IsSubstring(needle: string, hay: string) {
    exists i :: 0 <= i <= |hay| - |needle| && OccursAt(needle, hay, i)
  }

  /** The piece of `hay` at `i` equals `needle` up to ASCII letter case. */
  predicate CaseVariantAt(hay: string, needle: string, i: int) {
    0 <= i && i + |needle| <= |hay| && Fold(hay[i..i + |needle|]) == Fold(needle)
  }

  /**
   * A case-insensitive match of a literal search text, as `{ $regex: search,
   * $options: 'i' }`: some piece of the text equals the search text up to
   * ASCII letter case.
   */
  function ContainsIgnoringCase(hay: string, needle: string): (r: bool)
    ensures r ==> |needle| <= |hay|
    ensures r <==> exists i :: CaseVariantAt(hay, needle, i)
  {
    MatchIsCaseVariant(hay, needle);
    IsSubstring(Fold(needle), Fold(hay))
  }

  lemma FoldSlice(s: string, i: nat, j: nat)
    requires i <= j <= |s|
    ensures Fold(s)[i..j] == Fold(s[i..j])
  {
  }

  lemma MatchIsCaseVariant(hay: string, needle: string)
    ensures IsSubstring(Fold(needle), Fold(hay)) <==> exists i :: CaseVariantAt(hay, needle, i)
  {
    if IsSubstring(Fold(needle), Fold(hay)) {
      var i :| 0 <= i <= |hay| - |needle| && OccursAt(Fold(needle), Fold(hay), i);
      FoldSlice(hay, i, i + |needle|);
      assert CaseVariantAt(hay, needle, i);
    }
    if exists i :: CaseVariantAt(hay, needle, i) {
      var i :| CaseVariantAt(hay, needle, i);
      FoldSlice(hay, i, i + |needle|);
      assert OccursAt(Fold(needle), Fold(hay), i);
    }
  }

  /** Folding is idempotent. */
  lemma FoldTwice(s: string)
    ensures Fold(Fold(s)) == Fold(s)
  {
  }

  /** The letter case of either side does not matter: folding the text or the search text first changes nothing. */
  lemma FoldEitherSide(hay: string, needle: string)
    ensures ContainsIgnoringCase(Fold(hay), needle) == ContainsIgnoringCase(hay, needle)
    ensures ContainsIgnoringCase(hay, Fold(needle)) == ContainsIgnoringCase(hay, needle)
  {
    FoldTwice(hay);
    FoldTwice(needle);
  }

  lemma FoldAppend(a: string, b: string)
    ensures Fold(a + b) == Fold(a) + Fold(b)
  {
  }

  /** Text that contains the search text in any letter case matches it. */
  lemma {:induction false} ContainsInAnyCase(pre: string, mid: string, post: string, needle: string)
    requires Fold(mid) == Fold(needle)
    ensures ContainsIgnoringCase(pre + mid + post, needle)
  {
    FoldAppend(pre + mid, post);
    FoldAppend(pre, mid);
    var h := Fold(pre + mid + post);
    assert h == Fold(pre) + Fold(mid) + Fold(post);
    assert h[|pre|..|pre| + |mid|] == Fold(mid);
    assert OccursAt(Fold(needle), h, |pre|);
  }

  /** The empty search text matches everything. */
  lemma EmptyMatchesAll(hay: string)
    ensures ContainsIgnoringCase(hay, "")
  {
    assert OccursAt(Fold(""), Fold(hay), 0);
  }

  /** JavaScript's `s.length`: characters outside the Basic Multilingual Plane count twice. */
  function Utf16Length(s: string): (n: nat)
    ensures |s| <= n <= 2 * |s|
  {
    if s == [] then 0 else (if s[0] as int >= 0x10000 then 2 else 1) + Utf16Length(s[1..])
  }

  lemma {:induction false} Utf16LengthOfBmp(s: string)
    requires forall k :: 0 <= k < |s| ==> s[k] as int < 0x10000
    ensures Utf16Length(s) == |s|
  {
    if s != [] {
      Utf16LengthOfBmp(s[1..]);
    }
  }

  predicate IsDigit(c: char) {
    '0' <= c <= '9'
  }

  predicate AllDigits(s: string) {
    forall k :: 0 <= k < |s| ==> IsDigit(s[k])
  }

  function DigitChar(d: int): (c: char)
    requires 0 <= d < 10
    ensures IsDigit(c) && c as int - '0' as int == d
  {
    ('0' as int + d) as char
  }

  /** The decimal digits of `n`, without leading zeros. */
  function NatToString(n: nat): (r: string)
    ensures |r| > 0 && AllDigits(r)
  {
    if n < 10 then [DigitChar(n)] else NatToString(n / 10) + [DigitChar(n % 10)]
  }

  /** JavaScript's `n.toString()` for an integer value. */
  function IntToString(n: int): (r: string)
    ensures |r| > 0
  {
    if n < 0 then "-" + NatToString(-n) else NatToString(n)
  }

  function Pow10(k: nat): (r: nat)
    ensures r >= 1
  {
    if k == 0 then 1 else 10 * Pow10(k - 1)
  }

  /** A number below `10^k` has at most `k` digits. */
  lemma {:induction false} NatToStringLength(n: nat, k: nat)
    requires 1 <= k && n < Pow10(k)
    ensures |NatToString(n)| <= k
  {
    if n >= 10 {
      assert Pow10(1) == 10;
      NatToStringLength(n / 10, k - 1);
    }
  }

  function ParseNat(s: string): nat
    requires AllDigits(s)
  {
    if s == [] then 0 else 10 * ParseNat(s[..|s| - 1]) + (s[|s| - 1] as int - '0' as int)
  }

  /** Reads back an optionally signed decimal integer. */
  function ParseInt(s: string): Option<int> {
    if s == [] then None
    else if s[0] == '-' then (if |s| > 1 && AllDigits(s[1..]) then Some(0 - ParseNat(s[1..])) else None)
    else if AllDigits(s) then Some(ParseNat(s))
    else None
  }

  lemma {:induction false} NatToStringRoundTrip(n: nat)
    ensures ParseNat(NatToString(n)) == n
  {
    if n >= 10 {
      NatToStringRoundTrip(n / 10);
      var r := NatToString(n);
      assert r[..|r| - 1] == NatToString(n / 10);
    }
  }

  lemma IntToStringRoundTrip(n: int)
    ensures ParseInt(IntToString(n)) == Some(n)
  {
    if n < 0 {
      NatToStringRoundTrip(-n);
      assert IntToString(n)[1..] == NatToString(-n);
    } else {
      NatToStringRoundTrip(n);
    }
  }

  /** The first position of `c` in `s`. */
  function IndexOf(s: string, c: char): (i: nat)
    requires c in s
    ensures i < |s| && s[i] == c && c !in s[..i]
  {
    if s[0] == c then 0 else 1 + IndexOf(s[1..], c)
  }

  /** JavaScript's `s.split(sep)` for a one-character separator: empty fields are kept. */
  function Split(s: string, sep: char): (r: seq<string>)
    ensures |r| >= 1
    ensures forall k :: 0 <= k < |r| ==> sep !in r[k]
    decreases |s|
  {
    if sep !in s then [s]
    else
      var i := IndexOf(s, sep);
      [s[..i]] + Split(s[i + 1..], sep)
  }

  function Join(ws: seq<string>, sep: char): string
    requires |ws| >= 1
  {
    if |ws| == 1 then ws[0] else ws[0] + [sep] + Join(ws[1..], sep)
  }

  lemma {:induction false} JoinSplit(s: string, sep: char)
    ensures Join(Split(s, sep), sep) == s
    decreases |s|
  {
    if sep in s {
      var i := IndexOf(s, sep);
      JoinSplit(s[i + 1..], sep);
      assert s == s[..i] + [sep] + s[i + 1..];
    }
  }

  lemma {:induction false} IndexOfAfterWord(w: string, sep: char, rest: string)
    requires sep !in w
    ensures IndexOf(w + [sep] + rest, sep) == |w|
  {
    if w != [] {
      assert (w + [sep] + rest)[1..] == w[1..] + [sep] + rest;
      IndexOfAfterWord(w[1..], sep, rest);
    }
  }

  lemma {:induction false} SplitJoin(ws: seq<string>, sep: char)
    requires |ws| >= 1
    requires forall k :: 0 <= k < |ws| ==> sep !in ws[k]
    ensures Split(Join(ws, sep), sep) == ws
  {
    if |ws| > 1 {
      var rest := Join(ws[1..], sep);
      var s := ws[0] + [sep] + rest;
      IndexOfAfterWord(ws[0], sep, rest);
      assert s[|ws[0]|] == sep;
      assert s[..|ws[0]|] == ws[0];
      assert s[|ws[0]| + 1..] == rest;
      assert Split(s, sep) == [ws[0]] + Split(rest, sep);
      SplitJoin(ws[1..], sep);
      assert ws == [ws[0]] + ws[1..];
    }
  }
}
