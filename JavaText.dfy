/**
 * The few pieces of java.lang that the organizer's parsing code relies on:
 * String.trim, String.isBlank, String.split with a one-character separator,
 * String.join, Long.parseLong, String.valueOf(long), Boolean.parseBoolean and
 * the character folding of String.CASE_INSENSITIVE_ORDER.
 */
module JavaText {
  import opened Wrappers

  // ---------------------------------------------------------------- trim

  /** String.trim() strips every character whose code is at most U+0020. */
  predicate IsTrimmable(c: char) {
    c <= ' '
  }

  /** s without its leading trimmable characters. */
  function TrimStart(s: string): (r: string)
    ensures |r| <= |s|
  {
    if s != [] && IsTrimmable(s[0]) then TrimStart(s[1..]) else s
  }

  /** s without its trailing trimmable characters. */
  function TrimEnd(s: string): (r: string)
    ensures |r| <= |s|
  {
    if s != [] && IsTrimmable(s[|s| - 1]) then TrimEnd(s[..|s| - 1]) else s
  }

  /** String.trim(): the leading, then the trailing, characters up to U+0020 removed. */
  function Trim(s: string): (r: string)
    ensures |r| <= |s|
  {
    TrimEnd(TrimStart(s))
  }

  /** TrimStart drops exactly the run of trimmable characters that begins s. */
  lemma {:induction false} TrimStartMeaning(s: string)
    ensures TrimStart(s) == s[|s| - |TrimStart(s)|..]
    ensures forall i :: 0 <= i < |s| - |TrimStart(s)| ==> IsTrimmable(s[i])
    ensures TrimStart(s) != [] ==> !IsTrimmable(TrimStart(s)[0])
  {
    if s != [] && IsTrimmable(s[0]) {
      TrimStartMeaning(s[1..]);
    }
  }

  /** TrimEnd drops exactly the run of trimmable characters that ends s. */
  lemma {:induction false} TrimEndMeaning(s: string)
    ensures TrimEnd(s) == s[..|TrimEnd(s)|]
    ensures forall i :: |TrimEnd(s)| <= i < |s| ==> IsTrimmable(s[i])
    ensures TrimEnd(s) != [] ==> !IsTrimmable(TrimEnd(s)[|TrimEnd(s)| - 1])
  {
    if s != [] && IsTrimmable(s[|s| - 1]) {
      TrimEndMeaning(s[..|s| - 1]);
    }
  }

  /** String.trim() returns the infix of s that lies between a trimmable
      prefix and a trimmable suffix and neither starts nor ends with a
      trimmable character; p is where it starts. */
  lemma TrimMeaning(s: string) returns (p: nat)
    ensures p + |Trim(s)| <= |s| && Trim(s) == s[p..p + |Trim(s)|]
    ensures forall i :: 0 <= i < p ==> IsTrimmable(s[i])
    ensures forall i :: p + |Trim(s)| <= i < |s| ==> IsTrimmable(s[i])
    ensures Trim(s) != [] ==> !IsTrimmable(Trim(s)[0]) && !IsTrimmable(Trim(s)[|Trim(s)| - 1])
  {
    var t := TrimStart(s);
    TrimStartMeaning(s);
    TrimEndMeaning(t);
    p := |s| - |t|;
    var r := Trim(s);
    assert r == t[..|r|];
    forall i | p + |r| <= i < |s|
      ensures IsTrimmable(s[i])
    {
      assert s[i] == t[i - p];
    }
    if r != [] {
      assert r[0] == t[0];
    }
  }

  /** Trimming gives "" exactly when every character is trimmable. */
  lemma TrimEmpty(s: string)
    ensures Trim(s) == [] <==> forall i :: 0 <= i < |s| ==> IsTrimmable(s[i])
  {
    var p := TrimMeaning(s);
    if Trim(s) != [] {
      assert s[p] == Trim(s)[0];
    }
  }

  /** A string that neither starts nor ends with a trimmable character is its own trim. */
  lemma TrimKeeps(s: string)
    requires s != [] && !IsTrimmable(s[0]) && !IsTrimmable(s[|s| - 1])
    ensures Trim(s) == s
  {
    assert TrimStart(s) == s;
  }

  // ------------------------------------------------------------- isBlank

  /** Character.isWhitespace: the Unicode space separators except the
      no-break ones, the line and paragraph separators, and the controls
      U+0009..U+000D and U+001C..U+001F. */
  predicate IsWhitespace(c: char) {
    || c == ' '
    || ('\t' <= c <= '\r')
    || ('\U{001C}' <= c <= '\U{001F}')
    || c == '\U{1680}'
    || ('\U{2000}' <= c <= '\U{2006}')
    || ('\U{2008}' <= c <= '\U{200A}')
    || c == '\U{2028}' || c == '\U{2029}'
    || c == '\U{205F}' || c == '\U{3000}'
  }

  /** String.isBlank(): empty, or whitespace only. */
  predicate IsBlank(s: string) {
    forall i :: 0 <= i < |s| ==> IsWhitespace(s[i])
  }

  // ------------------------------------------------------- split and join

  /** String.join(sep, pieces). */
  function Join(pieces: seq<string>, sep: char): string
  {
    if |pieces| == 0 then ""
    else if |pieces| == 1 then pieces[0]
    else pieces[0] + [sep] + Join(pieces[1..], sep)
  }

  /** Every piece between separators, empty ones included: one more piece than separators. */
  function SplitAll(s: string, sep: char): (pieces: seq<string>)
    ensures |pieces| >= 1
  {
    if s == [] then [""]
    else
      var rest := SplitAll(s[1..], sep);
      if s[0] == sep then [""] + rest
      else [[s[0]] + rest[0]] + rest[1..]
  }

  /** No piece holds the separator, and joining the pieces gives s back. */
  lemma {:induction false} SplitAllMeaning(s: string, sep: char)
    ensures forall i :: 0 <= i < |SplitAll(s, sep)| ==> sep !in SplitAll(s, sep)[i]
    ensures Join(SplitAll(s, sep), sep) == s
  {
    if s != [] {
      var rest := SplitAll(s[1..], sep);
      SplitAllMeaning(s[1..], sep);
      var pieces := SplitAll(s, sep);
      if s[0] == sep {
        assert pieces[1..] == rest;
        assert Join(pieces, sep) == [sep] + Join(rest, sep);
      } else {
        assert pieces[1..] == rest[1..];
        assert Join(pieces, sep) == [s[0]] + Join(rest, sep);
        assert sep !in pieces[0] by {
          assert pieces[0] == [s[0]] + rest[0];
        }
      }
      assert s == [s[0]] + s[1..];
    }
  }

  /** The removal of trailing empty strings that String.split performs. */
  function DropTrailingEmpty(pieces: seq<string>): (r: seq<string>)
    ensures |r| <= |pieces|
  {
    if pieces != [] && pieces[|pieces| - 1] == "" then DropTrailingEmpty(pieces[..|pieces| - 1])
    else pieces
  }

  /** Exactly the trailing run of empty pieces goes. */
  lemma {:induction false} DropTrailingEmptyMeaning(pieces: seq<string>)
    ensures DropTrailingEmpty(pieces) == pieces[..|DropTrailingEmpty(pieces)|]
    ensures DropTrailingEmpty(pieces) != [] ==> DropTrailingEmpty(pieces)[|DropTrailingEmpty(pieces)| - 1] != ""
    ensures forall i :: |DropTrailingEmpty(pieces)| <= i < |pieces| ==> pieces[i] == ""
  {
    if pieces != [] && pieces[|pieces| - 1] == "" {
      DropTrailingEmptyMeaning(pieces[..|pieces| - 1]);
    }
  }

  /** String.split on a one-character separator: without a separator the
      whole string is the only piece (also when it is empty); otherwise the
      pieces between separators with the trailing empty ones removed. */
  function Split(s: string, sep: char): seq<string> {
    if sep !in s then [s] else DropTrailingEmpty(SplitAll(s, sep))
  }

  /** No piece of a split holds the separator; a string without the
      separator is its own only piece; otherwise the last piece, if any, is
      not empty. */
  lemma SplitMeaning(s: string, sep: char)
    ensures forall i :: 0 <= i < |Split(s, sep)| ==> sep !in Split(s, sep)[i]
    ensures sep !in s ==> Split(s, sep) == [s]
    ensures sep in s ==> Split(s, sep) == [] || Split(s, sep)[|Split(s, sep)| - 1] != ""
  {
    if sep in s {
      SplitAllMeaning(s, sep);
      DropTrailingEmptyMeaning(SplitAll(s, sep));
      var all := SplitAll(s, sep);
      var r := Split(s, sep);
      forall i | 0 <= i < |r|
        ensures sep !in r[i]
      {
        assert r[i] == all[i];
      }
    }
  }

  lemma {:induction false} SplitAllPrefix(a: string, rest: string, sep: char)
    requires sep !in a
    ensures SplitAll(a + rest, sep) == [a + SplitAll(rest, sep)[0]] + SplitAll(rest, sep)[1..]
  {
    var pieces := SplitAll(rest, sep);
    if a == [] {
      assert a + rest == rest;
      assert a + pieces[0] == pieces[0];
      assert [pieces[0]] + pieces[1..] == pieces;
    } else {
      var x := a + rest;
      assert x[0] == a[0] && x[0] != sep;
      assert x[1..] == a[1..] + rest;
      SplitAllPrefix(a[1..], rest, sep);
      var inner := SplitAll(x[1..], sep);
      assert inner == [a[1..] + pieces[0]] + pieces[1..];
      assert SplitAll(x, sep) == [[a[0]] + inner[0]] + inner[1..];
      assert inner[1..] == pieces[1..];
      assert [a[0]] + (a[1..] + pieces[0]) == a + pieces[0];
    }
  }

  /** Splitting undoes joining when no piece holds the separator. */
  lemma {:induction false} SplitAllJoin(pieces: seq<string>, sep: char)
    requires |pieces| >= 1
    requires forall i :: 0 <= i < |pieces| ==> sep !in pieces[i]
    ensures SplitAll(Join(pieces, sep), sep) == pieces
  {
    if |pieces| == 1 {
      SplitAllPrefix(pieces[0], "", sep);
      assert pieces[0] + "" == pieces[0];
    } else {
      var tail := Join(pieces[1..], sep);
      SplitAllJoin(pieces[1..], sep);
      assert pieces[0] + [sep] + tail == pieces[0] + ([sep] + tail);
      SplitAllPrefix(pieces[0], [sep] + tail, sep);
      assert ([sep] + tail)[1..] == tail;
      assert pieces[0] + "" == pieces[0];
      assert pieces == [pieces[0]] + pieces[1..];
    }
  }

  lemma JoinContainsSeparator(pieces: seq<string>, sep: char)
    requires |pieces| >= 2
    ensures sep in Join(pieces, sep)
  {
    assert Join(pieces, sep)[|pieces[0]|] == sep;
  }

  /** String.split undoes String.join when no piece holds the separator and
      the last piece is not empty (or is the only one). */
  lemma SplitJoin(pieces: seq<string>, sep: char)
    requires |pieces| >= 1
    requires forall i :: 0 <= i < |pieces| ==> sep !in pieces[i]
    requires |pieces| == 1 || pieces[|pieces| - 1] != ""
    ensures Split(Join(pieces, sep), sep) == pieces
  {
    if |pieces| >= 2 {
      JoinContainsSeparator(pieces, sep);
      SplitAllJoin(pieces, sep);
      assert DropTrailingEmpty(pieces) == pieces;
    } else {
      assert Join(pieces, sep) == pieces[0];
    }
  }

  // ------------------------------------------------------------ numbers

  const LONG_MIN: int := -0x8000_0000_0000_0000
  const LONG_MAX: int := 0x7FFF_FFFF_FFFF_FFFF

  /** The values of Java's `long`. */
  predicate IsLong(n: int) {
    LONG_MIN <= n <= LONG_MAX
  }

  type Long = n: int | IsLong(n)

  predicate IsDigit(c: char) {
    '0' <= c <= '9'
  }

  predicate AllDigits(s: string) {
    forall i :: 0 <= i < |s| ==> IsDigit(s[i])
  }

  function DigitChar(d: nat): (c: char)
    requires d < 10
    ensures IsDigit(c) && c as int - '0' as int == d
  {
    ('0' as int + d) as char
  }

  /** The value of a string of decimal digits, leading zeros allowed. */
  function DigitsValue(s: string): nat
    requires AllDigits(s)
  {
    if s == [] then 0
    else DigitsValue(s[..|s| - 1]) * 10 + (s[|s| - 1] as int - '0' as int)
  }

  /** The decimal digits of n without leading zeros. */
  function Digits(n: nat): (s: string)
    ensures |s| >= 1 && AllDigits(s)
    ensures (s[0] == '0') <==> n == 0
  {
    if n < 10 then [DigitChar(n)] else Digits(n / 10) + [DigitChar(n % 10)]
  }

  lemma {:induction false} DigitsValueOfDigits(n: nat)
    ensures DigitsValue(Digits(n)) == n
  {
    if n >= 10 {
      DigitsValueOfDigits(n / 10);
      var s := Digits(n);
      assert s[..|s| - 1] == Digits(n / 10);
    }
  }

  /** String.valueOf(long): an optional minus sign, then the digits. */
  function FormatLong(n: int): (s: string)
    ensures |s| >= 1
    ensures forall i :: 0 <= i < |s| ==> IsDigit(s[i]) || (i == 0 && s[i] == '-')
    ensures s[0] == '-' <==> n < 0
  {
    if n < 0 then "-" + Digits(-n) else Digits(n)
  }

  /** Long.parseLong: an optional sign, at least one digit, nothing else,
      and a value in the range of `long`; None is a NumberFormatException. */
  function ParseLong(s: string): (r: Option<int>)
    ensures r.Some? ==> IsLong(r.value)
    ensures s == [] ==> r == None
    ensures s != [] && AllDigits(s) ==>
      r == (if IsLong(DigitsValue(s)) then Some(DigitsValue(s)) else None)
    ensures |s| >= 2 && s[0] == '+' && AllDigits(s[1..]) ==>
      r == (if IsLong(DigitsValue(s[1..])) then Some(DigitsValue(s[1..])) else None)
    ensures |s| >= 2 && s[0] == '-' && AllDigits(s[1..]) ==>
      r == (if IsLong(-(DigitsValue(s[1..]) as int)) then Some(-(DigitsValue(s[1..]) as int)) else None)
    ensures r.Some? ==> (s != [] && AllDigits(s)) || (|s| >= 2 && (s[0] == '+' || s[0] == '-') && AllDigits(s[1..]))
  {
    if s == [] then None
    else
      var signed := s[0] == '-' || s[0] == '+';
      var digits := if signed then s[1..] else s;
      if digits == [] || !AllDigits(digits) then None
      else
        var m: int := DigitsValue(digits);
        var v := if s[0] == '-' then -m else m;
        if IsLong(v) then Some(v)
        else None
  }

  /** Long.parseLong undoes String.valueOf(long). */
  lemma ParseFormatLong(n: int)
    requires IsLong(n)
    ensures ParseLong(FormatLong(n)) == Some(n)
  {
    var s := FormatLong(n);
    if n < 0 {
      DigitsValueOfDigits(-n);
      assert s[0] == '-' && s[1..] == Digits(-n);
    } else {
      DigitsValueOfDigits(n);
      assert s == Digits(n) && IsDigit(s[0]);
    }
  }

  // ------------------------------------------------------------ booleans

  /** The ASCII part of the case folding that Java's ignore-case comparisons use. */
  function FoldCase(c: char): (f: char)
    ensures 'A' <= c <= 'Z' ==> f as int == c as int + 32
    ensures !('A' <= c <= 'Z') ==> f == c
    ensures !('A' <= f <= 'Z')
  {
    if 'A' <= c <= 'Z' then (c as int + 32) as char else c
  }

  /** String.valueOf(boolean). */
  function FormatBoolean(b: bool): string {
    if b then "true" else "false"
  }

  /** Boolean.parseBoolean: "true" compared ignoring case; everything else is false. */
  function ParseBoolean(s: string): (b: bool)
    ensures b <==> |s| == 4 && forall i :: 0 <= i < 4 ==> FoldCase(s[i]) == "true"[i]
  {
    |s| == 4 && FoldCase(s[0]) == 't' && FoldCase(s[1]) == 'r'
    && FoldCase(s[2]) == 'u' && FoldCase(s[3]) == 'e'
  }

  lemma ParseFormatBoolean(b: bool)
    ensures ParseBoolean(FormatBoolean(b)) == b
  {
  }
}
