/** String primitives the application relies on, stated once: the two flavours of
    whitespace trimming (Rust's `str::trim` and JavaScript's `String.prototype.trim`),
    first/last occurrence search, ASCII case mapping, and Rust's `u32` parser with
    its decimal inverse. Strings are sequences of Unicode scalar values; Rust's byte
    offsets coincide with these character offsets because every search below is for
    whole characters. */
module Text {
  import opened Wrappers

  /** Rust's `char::is_whitespace`: the Unicode White_Space property. */
  predicate IsRustSpace(c: char) {
    || ('\t' <= c <= '\r')
    || c == ' '
    || c == '\U{0085}'
    || c == '\U{00A0}'
    || c == '\U{1680}'
    || ('\U{2000}' <= c <= '\U{200A}')
    || c == '\U{2028}'
    || c == '\U{2029}'
    || c == '\U{202F}'
    || c == '\U{205F}'
    || c == '\U{3000}'
  }

  /** The characters JavaScript's `trim` removes: WhiteSpace and LineTerminator.
      Unlike Rust it removes U+FEFF and keeps U+0085. */
  predicate IsJsSpace(c: char) {
    || ('\t' <= c <= '\r')
    || c == ' '
    || c == '\U{00A0}'
    || c == '\U{1680}'
    || ('\U{2000}' <= c <= '\U{200A}')
    || c == '\U{2028}'
    || c == '\U{2029}'
    || c == '\U{202F}'
    || c == '\U{205F}'
    || c == '\U{3000}'
    || c == '\U{FEFF}'
  }

  /** Every character of `s` satisfies `p`. */
  predicate All(s: string, p: char -> bool) {
    forall i :: 0 <= i < |s| ==> p(s[i])
  }

  /** `s` neither starts nor ends with a character that `drop` matches. */
  predicate TrimmedBy(s: string, drop: char -> bool) {
    s == [] || (!drop(s[0]) && !drop(s[|s| - 1]))
  }

  /** Rust's `trim_start_matches` with a character set: the suffix left after the
      longest prefix of `drop` characters. */
  function TrimStartBy(s: string, drop: char -> bool): (r: string)
    ensures |r| <= |s| && r == s[|s| - |r|..]
    ensures forall i :: 0 <= i < |s| - |r| ==> drop(s[i])
    ensures r != [] ==> !drop(r[0])
    decreases |s|
  {
    if s != [] && drop(s[0]) then TrimStartBy(s[1..], drop) else s
  }

  /** The prefix left after the longest suffix of `drop` characters. */
  function TrimEndBy(s: string, drop: char -> bool): (r: string)
    ensures |r| <= |s| && r == s[..|r|]
    ensures forall i :: |r| <= i < |s| ==> drop(s[i])
    ensures r != [] ==> !drop(r[|r| - 1])
    decreases |s|
  {
    if s != [] && drop(s[|s| - 1]) then TrimEndBy(s[..|s| - 1], drop) else s
  }

  function TrimBy(s: string, drop: char -> bool): string {
    TrimEndBy(TrimStartBy(s, drop), drop)
  }

  /** Rust's `str::trim`. */
  function Trim(s: string): string {
    TrimBy(s, IsRustSpace)
  }

  /** JavaScript's `String.prototype.trim`. */
  function TrimJs(s: string): string {
    TrimBy(s, IsJsSpace)
  }

  /** A trimmed string neither starts nor ends with a `drop` character, and it
      is empty exactly when the input consists of `drop` characters only. */
  lemma TrimByShape(s: string, drop: char -> bool)
    ensures TrimmedBy(TrimBy(s, drop), drop)
    ensures TrimBy(s, drop) == [] <==> All(s, drop)
  {
    var t := TrimStartBy(s, drop);
    var r := TrimEndBy(t, drop);
    var a := |s| - |t|;
    if r == [] {
      assert t == s[a..];
    } else {
      assert r[0] == t[0] == s[a];
    }
  }

  /** Trimming a string that is already trimmed leaves it alone; in particular
      trimming is idempotent. */
  lemma TrimByOfTrimmed(s: string, drop: char -> bool)
    requires TrimmedBy(s, drop)
    ensures TrimBy(s, drop) == s
  {
  }

  lemma TrimByIdempotent(s: string, drop: char -> bool)
    ensures TrimBy(TrimBy(s, drop), drop) == TrimBy(s, drop)
  {
    TrimByShape(s, drop);
    TrimByOfTrimmed(TrimBy(s, drop), drop);
  }

  /** Padding a trimmed string with `drop` characters on both sides is undone by
      trimming. */
  lemma {:induction false} TrimByPadded(a: string, x: string, b: string, drop: char -> bool)
    requires All(a, drop) && All(b, drop) && TrimmedBy(x, drop) && x != []
    ensures TrimBy(a + x + b, drop) == x
  {
    TrimStartPadded(a, x + b, drop);
    assert a + x + b == a + (x + b);
    TrimEndPadded(x, b, drop);
  }

  lemma {:induction false} TrimStartPadded(a: string, y: string, drop: char -> bool)
    requires All(a, drop) && y != [] && !drop(y[0])
    ensures TrimStartBy(a + y, drop) == y
    decreases |a|
  {
    if a == [] {
      assert a + y == y;
    } else {
      var s := a + y;
      assert s[0] == a[0] && drop(s[0]);
      assert s[1..] == a[1..] + y;
      assert TrimStartBy(s, drop) == TrimStartBy(s[1..], drop);
      TrimStartPadded(a[1..], y, drop);
    }
  }

  lemma {:induction false} TrimEndPadded(x: string, b: string, drop: char -> bool)
    requires All(b, drop) && x != [] && !drop(x[|x| - 1])
    ensures TrimEndBy(x + b, drop) == x
    decreases |b|
  {
    if b == [] {
      assert x + b == x;
    } else {
      assert (x + b)[..|x + b| - 1] == x + b[..|b| - 1];
      TrimEndPadded(x, b[..|b| - 1], drop);
    }
  }

  /** Rust's `str::find` with a character pattern: the index of the first
      occurrence of `c`. */
  function FindChar(s: string, c: char): (r: Option<nat>)
    ensures r.Some? ==> r.value < |s| && s[r.value] == c
    ensures r.Some? ==> forall k :: 0 <= k < r.value ==> s[k] != c
    ensures r.None? <==> c !in s
  {
    if s == [] then None
    else if s[0] == c then Some(0)
    else match FindChar(s[1..], c)
      case None => None
      case Some(k) => Some(k + 1)
  }

  /** An index holding `c` with no earlier `c` is the first occurrence. */
  lemma FindCharAt(s: string, c: char, k: nat)
    requires k < |s| && s[k] == c
    requires forall j :: 0 <= j < k ==> s[j] != c
    ensures FindChar(s, c) == Some(k)
  {
    assert c in s;
  }

  /** Rust's `str::split_once` with a character pattern: the text before the
      first `c` and the text after it. */
  function SplitOnce(s: string, c: char): (r: Option<(string, string)>)
    ensures r.None? <==> c !in s
    ensures r.Some? ==> s == r.value.0 + [c] + r.value.1 && c !in r.value.0
  {
    match FindChar(s, c)
    case None => None
    case Some(k) =>
      assert s == s[..k] + [c] + s[k + 1..];
      Some((s[..k], s[k + 1..]))
  }

  /** The split at the first `c` is the only split with no `c` on the left. */
  lemma SplitOnceUnique(s: string, c: char, before: string, after: string)
    requires s == before + [c] + after && c !in before
    ensures SplitOnce(s, c) == Some((before, after))
  {
    var r := SplitOnce(s, c).value;
    assert forall j :: 0 <= j < |before| ==> s[j] == before[j];
    assert s[|before|] == c;
    assert forall j :: 0 <= j < |r.0| ==> s[j] == r.0[j];
    assert s[|r.0|] == c;
    assert |r.0| == |before|;
    assert r.0 == s[..|before|] == before;
    assert r.1 == s[|before| + 1..] == after;
  }

  /** `pat` occurs in `s` starting at index `k`. */
  predicate OccursAt(s: string, pat: string, k: nat) {
    k + |pat| <= |s| && s[k..k + |pat|] == pat
  }

  /** Rust's `str::find` with a string pattern (and JavaScript's `indexOf`): the
      index of the first occurrence of `pat`. */
  function IndexOf(s: string, pat: string): (r: Option<nat>)
    ensures r.Some? ==> OccursAt(s, pat, r.value)
    ensures r.Some? ==> forall k: nat :: k < r.value ==> !OccursAt(s, pat, k)
    ensures r.None? <==> forall k: nat :: !OccursAt(s, pat, k)
    decreases |s|
  {
    if |s| < |pat| then None
    else if s[..|pat|] == pat then Some(0)
    else
      OccursShift(s, pat);
      assert !OccursAt(s, pat, 0) by { assert s[0..|pat|] == s[..|pat|]; }
      match IndexOf(s[1..], pat)
      case None => None
      case Some(k) => Some(k + 1)
  }

  lemma OccursShift(s: string, pat: string)
    requires s != []
    ensures forall k: nat :: OccursAt(s[1..], pat, k) <==> OccursAt(s, pat, k + 1)
    ensures forall k: nat :: k >= 1 ==> (OccursAt(s, pat, k) <==> OccursAt(s[1..], pat, k - 1))
  {
    forall k: nat
      ensures OccursAt(s[1..], pat, k) <==> OccursAt(s, pat, k + 1)
    {
      if k + |pat| <= |s[1..]| {
        assert s[1..][k..k + |pat|] == s[k + 1..k + 1 + |pat|];
      }
    }
  }

  /** A position holding an occurrence, with no earlier position holding even
      the pattern's first character, is the first occurrence. */
  lemma IndexOfFirst(s: string, pat: string, k: nat)
    requires pat != [] && OccursAt(s, pat, k)
    requires forall j :: 0 <= j < k ==> s[j] != pat[0]
    ensures IndexOf(s, pat) == Some(k)
  {
    var r := IndexOf(s, pat);
    assert r.Some?;
    assert s[r.value..r.value + |pat|][0] == s[r.value];
  }

  /** Rust's `str::contains` and JavaScript's `includes`. */
  predicate Contains(s: string, pat: string) {
    IndexOf(s, pat).Some?
  }

  /** Rust's `str::starts_with` and JavaScript's `startsWith`. */
  predicate StartsWith(s: string, prefix: string) {
    |prefix| <= |s| && s[..|prefix|] == prefix
  }

  /** JavaScript's `lastIndexOf` with a one-character argument: the index of the
      last occurrence of `c`, or -1. */
  function LastIndexOf(s: string, c: char): (r: int)
    ensures -1 <= r < |s|
    ensures r >= 0 ==> s[r] == c && forall k :: r < k < |s| ==> s[k] != c
    ensures r == -1 <==> c !in s
  {
    if s == [] then -1
    else if s[|s| - 1] == c then |s| - 1
    else
      assert s == s[..|s| - 1] + [s[|s| - 1]];
      LastIndexOf(s[..|s| - 1], c)
  }

  function ToUpperChar(c: char): char {
    if 'a' <= c <= 'z' then (c as int - 32) as char else c
  }

  function ToLowerChar(c: char): char {
    if 'A' <= c <= 'Z' then (c as int + 32) as char else c
  }

  /** `toUpperCase` restricted to ASCII letters. */
  function ToUpper(s: string): string {
    seq(|s|, i requires 0 <= i < |s| => ToUpperChar(s[i]))
  }

  /** `toLowerCase` restricted to ASCII letters. */
  function ToLower(s: string): string {
    seq(|s|, i requires 0 <= i < |s| => ToLowerChar(s[i]))
  }

  /** Upper-casing forgets the original case: a lower-cased string upper-cases to
      the same text as the original. */
  lemma UpperOfLower(s: string)
    ensures ToUpper(ToLower(s)) == ToUpper(s)
  {
    assert forall i :: 0 <= i < |s| ==> ToUpperChar(ToLowerChar(s[i])) == ToUpperChar(s[i]);
  }

  lemma LowerOfUpper(s: string)
    ensures ToLower(ToUpper(s)) == ToLower(s)
  {
    assert forall i :: 0 <= i < |s| ==> ToLowerChar(ToUpperChar(s[i])) == ToLowerChar(s[i]);
  }

  // ---------------------------------------------------------------------------
  // Decimal numbers: Rust's `u32::from_str` and `u32::to_string`.

  const U32Limit: nat := 0x1_0000_0000

  predicate IsDigit(c: char) {
    '0' <= c <= '9'
  }

  function DigitValue(c: char): nat
    requires IsDigit(c)
  {
    c as int - '0' as int
  }

  function DigitChar(d: nat): char
    requires d < 10
  {
    ('0' as int + d) as char
  }

  /** The value of a string of decimal digits, most significant first. */
  function DigitsValue(s: string): nat
    requires All(s, IsDigit)
  {
    if s == [] then 0 else DigitsValue(s[..|s| - 1]) * 10 + DigitValue(s[|s| - 1])
  }

  /** `u32::from_str`: an optional `+`, then one or more ASCII digits whose value
      fits in 32 bits. Leading zeros are accepted; `-`, spaces and an empty digit
      string are not. */
  function ParseU32(s: string): (r: Option<nat>)
    ensures r.Some? ==> r.value < U32Limit
    ensures r.Some? ==> exists z: nat ::
      s == Zeros(z) + NatToDecimal(r.value) || s == "+" + Zeros(z) + NatToDecimal(r.value)
  {
    var digits := if s != [] && s[0] == '+' then s[1..] else s;
    if digits != [] && All(digits, IsDigit) && DigitsValue(digits) < U32Limit then
      SignedPadded(s, digits);
      Some(DigitsValue(digits))
    else None
  }

  /** The text of a parsed number: the digits, possibly after a `+`, are the
      value's spelling after some zeros. */
  lemma SignedPadded(s: string, digits: string)
    requires digits == if s != [] && s[0] == '+' then s[1..] else s
    requires digits != [] && All(digits, IsDigit)
    ensures exists z: nat ::
      s == Zeros(z) + NatToDecimal(DigitsValue(digits)) || s == "+" + Zeros(z) + NatToDecimal(DigitsValue(digits))
  {
    ZerosThenDecimal(digits);
    var d := NatToDecimal(DigitsValue(digits));
    var z: nat :| digits == Zeros(z) + d;
    if s != [] && s[0] == '+' {
      assert s == "+" + digits;
      PlusAssociates(Zeros(z), d);
      assert s == "+" + Zeros(z) + d;
    } else {
      assert s == Zeros(z) + d;
    }
  }

  lemma PlusAssociates(p: string, d: string)
    ensures "+" + (p + d) == "+" + p + d
  {
  }

  /** `n` zero digits. */
  function Zeros(n: nat): (r: string)
    ensures |r| == n && All(r, IsDigit)
  {
    if n == 0 then [] else "0" + Zeros(n - 1)
  }

  /** A digit string is its value's shortest spelling after some leading
      zeros. */
  lemma {:induction false} ZerosThenDecimal(t: string)
    requires t != [] && All(t, IsDigit)
    ensures exists z: nat :: t == Zeros(z) + NatToDecimal(DigitsValue(t))
    decreases |t|
  {
    if |t| > 1 && t[0] == '0' {
      var rest := t[1..];
      assert t == "0" + rest;
      PrependZero(rest);
      ZerosThenDecimal(rest);
      var z': nat :| rest == Zeros(z') + NatToDecimal(DigitsValue(rest));
      var d := NatToDecimal(DigitsValue(rest));
      assert d == NatToDecimal(DigitsValue(t));
      PrependZeros(z', d);
      assert t == Zeros(z' + 1) + d;
    } else {
      NoLeadingZeroIsDecimal(t);
      assert Zeros(0) + t == t;
    }
  }

  /** One more zero in front of a zero-padded text is one more padding zero. */
  lemma PrependZeros(z: nat, d: string)
    ensures "0" + (Zeros(z) + d) == Zeros(z + 1) + d
  {
    assert Zeros(z + 1) == "0" + Zeros(z);
  }

  /** A leading zero does not change the value. */
  lemma {:induction false} PrependZero(t: string)
    requires All(t, IsDigit)
    ensures DigitsValue("0" + t) == DigitsValue(t)
    decreases |t|
  {
    var u := "0" + t;
    if t != [] {
      var p := t[..|t| - 1];
      assert u[..|u| - 1] == "0" + p;
      PrependZero(p);
    } else {
      assert u[..|u| - 1] == [];
    }
  }

  /** The value of a digit string is at least its first digit's. */
  lemma {:induction false} DigitsValueAtLeastFirst(t: string)
    requires t != [] && All(t, IsDigit)
    ensures DigitsValue(t) >= DigitValue(t[0])
    decreases |t|
  {
    if |t| > 1 {
      var p := t[..|t| - 1];
      assert p[0] == t[0];
      DigitsValueAtLeastFirst(p);
    } else {
      assert t[..|t| - 1] == [];
    }
  }

  /** A digit string without a leading zero (or the single digit `0`) is the
      shortest spelling of its value. */
  lemma {:induction false} NoLeadingZeroIsDecimal(t: string)
    requires t != [] && All(t, IsDigit) && (|t| == 1 || t[0] != '0')
    ensures NatToDecimal(DigitsValue(t)) == t
    decreases |t|
  {
    var v := DigitsValue(t);
    var d := DigitValue(t[|t| - 1]);
    if |t| == 1 {
      assert t[..|t| - 1] == [];
      assert DigitsValue(t[..|t| - 1]) == 0;
      assert v == d;
      assert NatToDecimal(v) == [DigitChar(d)];
    } else {
      var p := t[..|t| - 1];
      assert p[0] == t[0];
      NoLeadingZeroIsDecimal(p);
      DigitsValueAtLeastFirst(p);
      assert v == DigitsValue(p) * 10 + d;
      assert v >= 10;
      assert v / 10 == DigitsValue(p) && v % 10 == d;
      assert NatToDecimal(v) == NatToDecimal(v / 10) + [DigitChar(v % 10)];
      assert t == p + [t[|t| - 1]];
    }
  }

  /** `to_string` of a natural number: its shortest decimal spelling. */
  function NatToDecimal(n: nat): (r: string)
    ensures r != [] && All(r, IsDigit)
  {
    if n < 10 then [DigitChar(n)] else NatToDecimal(n / 10) + [DigitChar(n % 10)]
  }

  lemma {:induction false} DecimalValue(n: nat)
    ensures DigitsValue(NatToDecimal(n)) == n
  {
    var s := NatToDecimal(n);
    if n >= 10 {
      DecimalValue(n / 10);
      assert s[..|s| - 1] == NatToDecimal(n / 10);
    }
  }

  /** Parsing the decimal spelling of a 32-bit number gives the number back, with
      or without a leading `+`. */
  lemma ParseU32OfDecimal(n: nat)
    requires n < U32Limit
    ensures ParseU32(NatToDecimal(n)) == Some(n)
    ensures ParseU32("+" + NatToDecimal(n)) == Some(n)
  {
    DecimalValue(n);
    var s := NatToDecimal(n);
    assert ("+" + s)[1..] == s;
  }

  /** Leading zeros do not change the value. */
  lemma {:induction false} ZerosValue(z: nat, t: string)
    requires All(t, IsDigit)
    ensures All(Zeros(z) + t, IsDigit) && DigitsValue(Zeros(z) + t) == DigitsValue(t)
    decreases z
  {
    if z > 0 {
      ZerosValue(z - 1, t);
      assert Zeros(z) + t == "0" + (Zeros(z - 1) + t);
      PrependZero(Zeros(z - 1) + t);
    } else {
      assert Zeros(z) + t == t;
    }
  }

  /** Any zero-padded spelling of a 32-bit number, with or without a leading
      `+`, parses to that number; with `ParseU32`'s own contract this is an
      exact description of the accepted texts. */
  lemma ParseU32OfPadded(z: nat, n: nat)
    requires n < U32Limit
    ensures ParseU32(Zeros(z) + NatToDecimal(n)) == Some(n)
    ensures ParseU32("+" + Zeros(z) + NatToDecimal(n)) == Some(n)
  {
    var t := Zeros(z) + NatToDecimal(n);
    UnsignedPadded(z, n);
    SignedOfUnsigned(t);
    assert "+" + Zeros(z) + NatToDecimal(n) == "+" + t;
  }

  lemma UnsignedPadded(z: nat, n: nat)
    requires n < U32Limit
    ensures ParseU32(Zeros(z) + NatToDecimal(n)) == Some(n)
  {
    var t := Zeros(z) + NatToDecimal(n);
    PaddedDigits(z, n);
    assert t[0] != '+' by { assert IsDigit(t[0]); }
  }

  /** A `+` in front of digits changes nothing. */
  lemma SignedOfUnsigned(t: string)
    requires t != [] && IsDigit(t[0])
    ensures ParseU32("+" + t) == ParseU32(t)
  {
    assert ("+" + t)[1..] == t;
  }

  lemma PaddedDigits(z: nat, n: nat)
    ensures var t := Zeros(z) + NatToDecimal(n);
      t != [] && All(t, IsDigit) && DigitsValue(t) == n
  {
    DecimalValue(n);
    ZerosValue(z, NatToDecimal(n));
  }

  /** A sign-less string that is not all digits, or a negative number, is
      rejected. */
  lemma ParseU32Rejects(s: string)
    ensures ParseU32("") == None
    ensures ParseU32("+") == None
    ensures ParseU32("-" + s) == None
    ensures s != [] && !IsDigit(s[0]) && s[0] != '+' ==> ParseU32(s) == None
  {
    assert !IsDigit(("-" + s)[0]);
  }
}
