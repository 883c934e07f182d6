/**
 * The behaviour of Go's `len`, `strings` and `strconv` that the checks rely on,
 * stated over Dafny strings (sequences of Unicode scalar values).
 */
module Text {
  import opened Wrappers

  // ---------------------------------------------------------------------------
  // Byte length: Go's len(s) counts the bytes of the UTF-8 encoding.
  // ---------------------------------------------------------------------------

  /** Bytes that UTF-8 uses to encode one character. */
  function Utf8Width(c: char): (w: nat)
    ensures 1 <= w <= 4
    ensures w == 1 <==> c as int < 0x80
  {
    var n := c as int;
    if n < 0x80 then 1 else if n < 0x800 then 2 else if n < 0x1_0000 then 3 else 4
  }

  /** len(s) in Go: the number of bytes of the UTF-8 encoding of s. */
  function ByteLength(s: string): (n: nat)
    ensures |s| <= n <= 4 * |s|
    ensures n == 0 <==> s == []
  {
    if s == [] then 0 else Utf8Width(s[0]) + ByteLength(s[1..])
  }

  /** On ASCII text the byte length is the number of characters. */
  lemma {:induction false} AsciiByteLength(s: string)
    requires forall i :: 0 <= i < |s| ==> s[i] as int < 0x80
    ensures ByteLength(s) == |s|
  {
    if s != [] {
      AsciiByteLength(s[1..]);
    }
  }

  // ---------------------------------------------------------------------------
  // Searching: strings.Count with a one-character separator, and the first index.
  // ---------------------------------------------------------------------------

  /** strings.Count(s, string(c)): how many times c occurs in s. */
  function Count(s: string, c: char): (n: nat)
    ensures n <= |s|
    ensures n == 0 <==> c !in s
  {
    if s == [] then 0
    else
      assert s == [s[0]] + s[1..];
      (if s[0] == c then 1 else 0) + Count(s[1..], c)
  }

  lemma {:induction false} CountAppend(a: string, b: string, c: char)
    ensures Count(a + b, c) == Count(a, c) + Count(b, c)
  {
    if a == [] {
      assert a + b == b;
    } else {
      assert (a + b)[1..] == a[1..] + b;
      CountAppend(a[1..], b, c);
    }
  }

  /** strings.IndexByte: the first position of c in s, if any. */
  function IndexOf(s: string, c: char): (r: Option<nat>)
    ensures r.None? <==> c !in s
    ensures r.Some? ==> r.value < |s| && s[r.value] == c && c !in s[..r.value]
  {
    if s == [] then None
    else if s[0] == c then Some(0)
    else
      assert s == [s[0]] + s[1..];
      match IndexOf(s[1..], c)
      case None => None
      case Some(k) =>
        assert s[..k + 1] == [s[0]] + s[1..][..k];
        Some(k + 1)
  }

  // ---------------------------------------------------------------------------
  // strings.Split with a one-character separator, and its inverse strings.Join.
  // ---------------------------------------------------------------------------

  /** strings.Split(s, string(sep)): the maximal separator-free pieces, in order. */
  function Split(s: string, sep: char): (parts: seq<string>)
    ensures |parts| == Count(s, sep) + 1
    ensures forall i :: 0 <= i < |parts| ==> sep !in parts[i]
  {
    if s == [] then [""]
    else
      var rest := Split(s[1..], sep);
      if s[0] == sep then [""] + rest
      else [[s[0]] + rest[0]] + rest[1..]
  }

  /** strings.Join(parts, string(sep)). */
  function Join(parts: seq<string>, sep: char): string
    requires |parts| >= 1
  {
    if |parts| == 1 then parts[0] else parts[0] + [sep] + Join(parts[1..], sep)
  }

  /** Joining the pieces of a split gives the string back. */
  lemma {:induction false} JoinSplit(s: string, sep: char)
    ensures Join(Split(s, sep), sep) == s
  {
    if s != [] {
      var rest := Split(s[1..], sep);
      JoinSplit(s[1..], sep);
      if s[0] == sep {
        assert ([""] + rest)[1..] == rest;
      } else if |rest| > 1 {
        var parts := [[s[0]] + rest[0]] + rest[1..];
        assert parts[1..] == rest[1..];
        assert Join(rest, sep) == rest[0] + [sep] + Join(rest[1..], sep);
      }
    }
  }

  /**
   * The last piece of a split is the whole string when the separator does not
   * occur, and otherwise the suffix that follows the last separator.
   */
  lemma {:induction false} LastPiece(s: string, sep: char)
    ensures var parts := Split(s, sep);
            var d := parts[|parts| - 1];
            && (sep !in s ==> d == s)
            && (sep in s ==> |d| < |s| && s[|s| - |d| - 1] == sep && s[|s| - |d|..] == d)
  {
    if s != [] {
      var rest := Split(s[1..], sep);
      var d' := rest[|rest| - 1];
      LastPiece(s[1..], sep);
      assert s == [s[0]] + s[1..];
      if s[0] == sep {
        assert Split(s, sep)[|Split(s, sep)| - 1] == d';
      } else if |rest| == 1 {
        assert sep !in s[1..];
      } else {
        assert Split(s, sep)[|Split(s, sep)| - 1] == d';
        assert sep in s[1..];
      }
    }
  }

  // ---------------------------------------------------------------------------
  // "The text names this part": the part occurs somewhere in the text.
  // ---------------------------------------------------------------------------

  ghost predicate Mentions(text: string, part: string)
  {
    exists k :: 0 <= k <= |text| && part <= text[k..]
  }

  /** The part stands at position k of the text. */
  lemma MentionsAt(text: string, part: string, k: nat)
    requires k <= |text| && part <= text[k..]
    ensures Mentions(text, part)
  {
  }

  // ---------------------------------------------------------------------------
  // Decimal integers: strconv.Atoi (64-bit int) and fmt's %d.
  // ---------------------------------------------------------------------------

  const MinInt64: int := -0x8000_0000_0000_0000
  const MaxInt64: int := 0x7fff_ffff_ffff_ffff

  predicate IsDigit(c: char)
  {
    '0' <= c <= '9'
  }

  predicate AllDigits(s: string)
  {
    forall i :: 0 <= i < |s| ==> IsDigit(s[i])
  }

  /** The value of a string of decimal digits, most significant first. */
  function DigitsValue(s: string): nat
    requires AllDigits(s)
  {
    if s == [] then 0
    else DigitsValue(s[..|s| - 1]) * 10 + (s[|s| - 1] as int - '0' as int)
  }

  function Pow10(k: nat): (p: nat)
    ensures p >= 1
  {
    if k == 0 then 1 else 10 * Pow10(k - 1)
  }

  /** k digits never spell a number of k+1 digits. */
  lemma {:induction false} DigitsValueBound(s: string)
    requires AllDigits(s)
    ensures DigitsValue(s) < Pow10(|s|)
  {
    if s != [] {
      var init := s[..|s| - 1];
      DigitsValueBound(init);
      assert DigitsValue(s) == DigitsValue(init) * 10 + (s[|s| - 1] as int - '0' as int);
      assert DigitsValue(init) * 10 <= (Pow10(|init|) - 1) * 10;
    }
  }

  lemma Pow10Eighteen()
    ensures Pow10(18) == 1_000_000_000_000_000_000
  {
    assert Pow10(3) == 1_000;
    assert Pow10(6) == 1_000_000;
    assert Pow10(9) == 1_000_000_000;
    assert Pow10(12) == 1_000_000_000_000;
    assert Pow10(15) == 1_000_000_000_000_000;
  }

  lemma {:induction false} Pow10Monotone(j: nat, k: nat)
    requires j <= k
    ensures Pow10(j) <= Pow10(k)
  {
    if j < k {
      Pow10Monotone(j, k - 1);
    }
  }

  /**
   * strconv.Atoi on a 64-bit platform: an optional '+' or '-', then one or more
   * ASCII digits, whose value must lie in the int64 range; anything else is an error.
   */
  function Atoi(s: string): (r: Option<int>)
    ensures r.Some? ==> MinInt64 <= r.value <= MaxInt64
  {
    if |s| == 0 then None
    else
      var digits := if s[0] == '-' || s[0] == '+' then s[1..] else s;
      if |digits| == 0 || !AllDigits(digits) then None
      else
        var magnitude: int := DigitsValue(digits);
        var v: int := if s[0] == '-' then -magnitude else magnitude;
        if MinInt64 <= v <= MaxInt64 then Some(v) else None
  }

  /** The shape Atoi accepts: an optional sign followed by at least one digit. */
  ghost predicate SignedDigits(s: string)
  {
    || (|s| >= 1 && AllDigits(s))
    || (|s| >= 2 && (s[0] == '-' || s[0] == '+') && AllDigits(s[1..]))
  }

  /** Atoi rejects everything that is not a signed digit string. */
  lemma AtoiShape(s: string)
    ensures Atoi(s).Some? ==> SignedDigits(s)
  {
  }

  /** The value a signed digit string spells. */
  ghost function SignedValue(s: string): int
    requires SignedDigits(s)
  {
    if AllDigits(s) then DigitsValue(s)
    else if s[0] == '-' then 0 - (DigitsValue(s[1..]) as int)
    else DigitsValue(s[1..])
  }

  /**
   * Atoi accepts exactly the signed digit strings whose value lies in the int64
   * range, and returns that value.
   */
  lemma AtoiExact(s: string)
    ensures Atoi(s).Some? <==> SignedDigits(s) && MinInt64 <= SignedValue(s) <= MaxInt64
    ensures Atoi(s).Some? ==> SignedDigits(s) && Atoi(s).value == SignedValue(s)
  {
    if |s| > 0 && (s[0] == '-' || s[0] == '+') {
      assert !IsDigit(s[0]);
    }
  }

  /**
   * A signed digit string of at most 18 bytes always fits in an int64 (the
   * bound of Go's fast path in Atoi), so Atoi accepts it.
   */
  lemma ShortNumeralAccepted(s: string)
    requires SignedDigits(s) && |s| <= 18
    ensures Atoi(s).Some?
  {
    var digits := if s[0] == '-' || s[0] == '+' then s[1..] else s;
    assert AllDigits(digits);
    DigitsValueBound(digits);
    Pow10Monotone(|digits|, 18);
    Pow10Eighteen();
  }

  function DigitChar(d: nat): (c: char)
    requires d < 10
    ensures IsDigit(c) && c as int - '0' as int == d
  {
    ('0' as int + d) as char
  }

  /**
   * fmt's %d for a non-negative number: digits without a leading zero (except
   * for 0 itself) that spell n.
   */
  function NatDecimal(n: nat): (s: string)
    ensures |s| >= 1 && AllDigits(s)
    ensures DigitsValue(s) == n
    ensures n > 0 ==> s[0] != '0'
  {
    if n < 10 then [DigitChar(n)]
    else
      var s := NatDecimal(n / 10) + [DigitChar(n % 10)];
      assert s[..|s| - 1] == NatDecimal(n / 10);
      s
  }

  /** fmt's %d: a leading '-' exactly for negative numbers, then the digits of |n|. */
  function Decimal(n: int): (s: string)
    ensures |s| >= 1 && (s[0] == '-' <==> n < 0)
    ensures n < 0 ==> s[1..] == NatDecimal(-n)
    ensures n >= 0 ==> AllDigits(s) && DigitsValue(s) == n
  {
    if n < 0 then "-" + NatDecimal(-n) else NatDecimal(n)
  }

  /** Atoi reads back every int64 that %d prints. */
  lemma AtoiDecimal(n: int)
    requires MinInt64 <= n <= MaxInt64
    ensures Atoi(Decimal(n)) == Some(n)
  {
    var s := Decimal(n);
    if n < 0 {
      var d := NatDecimal(-n);
      assert s == "-" + d && s[0] == '-' && s[1..] == d;
      assert DigitsValue(d) == -n;
    } else {
      assert s[0] != '-' && s[0] != '+' by { assert IsDigit(s[0]); }
      assert DigitsValue(s) == n;
    }
  }
}
