/** Printing of integers in lib/memchan.c, and parsing of them in lib/string.c. */
module Numerals {
  import opened Arithmetic

  const LIMIT := 0x1_0000_0000_0000_0000

  // ---------------------------------------------------------------- characters

  predicate IsDigit(c: char) {
    '0' <= c <= '9'
  }

  predicate IsLower(c: char) {
    'a' <= c <= 'z'
  }

  predicate IsUpper(c: char) {
    'A' <= c <= 'Z'
  }

  predicate IsSpace(c: char) {
    c == ' ' || 9 as char <= c <= 13 as char
  }

  /** The characters that parsing in a base goes on with. */
  predicate Accepts(c: char, base: nat) {
    IsDigit(c) || (base > 10 && (IsLower(c) || IsUpper(c)))
  }

  function DigitValue(c: char): nat {
    if IsDigit(c) then (c - '0') as nat
    else if IsLower(c) then (c - 'a') as nat + 10
    else if IsUpper(c) then (c - 'A') as nat + 10
    else 0
  }

  function DigitChar(v: nat, caps: bool): (c: char)
    requires v < 16
    ensures DigitValue(c) == v && (v < 10 ==> IsDigit(c)) && (v >= 10 ==> if caps then IsUpper(c) else IsLower(c))
    ensures c == '0' <==> v == 0
  {
    if caps then "0123456789ABCDEF"[v] else "0123456789abcdef"[v]
  }

  // ---------------------------------------------------------------- printing

  /** The digits of a number; null has none. */
  function Digits(d: nat, base: nat, caps: bool): string
    requires 2 <= base <= 16
  {
    if d == 0 then [] else Digits(d / base, base, caps) + [DigitChar(d % base, caps)]
  }

  function Printed(d: nat, base: nat, caps: bool): string {
    if base < 2 || base > 16 then "<bad base>" else if d == 0 then "0" else Digits(d, base, caps)
  }

  function Power(base: nat, n: nat): nat {
    if n == 0 then 1 else base * Power(base, n - 1)
  }

  /** A number has at most `n` digits exactly when it is below the power. */
  lemma {:induction false} DigitCount(d: nat, base: nat, caps: bool, n: nat)
    requires 2 <= base <= 16
    ensures |Digits(d, base, caps)| <= n <==> d < Power(base, n)
  {
    if n == 0 {
    } else if d == 0 {
      PowerPositive(base, n);
    } else {
      DigitCount(d / base, base, caps, n - 1);
      Shorter(d, base, Power(base, n - 1));
    }
  }

  lemma {:induction false} PowerPositive(base: nat, n: nat)
    requires base > 0
    ensures Power(base, n) > 0
  {
    if n == 0 {
    } else {
      PowerPositive(base, n - 1);
    }
  }

  lemma Shorter(d: nat, base: nat, p: nat)
    requires base > 0
    ensures d / base < p <==> d < base * p
  {
    Quotient(d, base);
    if d / base < p {
      MulStrict(base, d / base, p);
    } else {
      MulMono(base, p, d / base);
    }
  }

  /** The buffer has room for 63 digits and the null character: enough for all 64-bit numbers but the larger half
      of them in base 2. */
  predicate FitsBuffer(d: nat, base: nat) {
    base != 2 || d < 0x8000_0000_0000_0000
  }

  lemma BufferFits(d: nat, base: nat, caps: bool)
    requires 2 <= base <= 16 && d < LIMIT
    ensures |Digits(d, base, caps)| <= 63 <==> FitsBuffer(d, base)
  {
    DigitCount(d, base, caps, 63);
    if base == 2 {
      PowersOfTwo();
    } else {
      PowersOfThree();
      PowerGrows(3, base, 63);
    }
  }

  lemma {:induction false} PowerAdd(base: nat, m: nat, n: nat)
    ensures Power(base, m + n) == Power(base, m) * Power(base, n)
  {
    if m == 0 {
    } else {
      PowerAdd(base, m - 1, n);
      MulSwap(base, Power(base, m - 1), Power(base, n));
    }
  }

  lemma PowersOfTwo()
    ensures Power(2, 63) == 0x8000_0000_0000_0000
  {
    assert Power(2, 7) == 128;
    PowerAdd(2, 7, 7);
    PowerAdd(2, 14, 7);
    PowerAdd(2, 21, 21);
    PowerAdd(2, 42, 21);
  }

  lemma PowersOfThree()
    ensures Power(3, 63) >= LIMIT
  {
    assert Power(3, 7) == 2187;
    PowerAdd(3, 7, 7);
    PowerAdd(3, 14, 7);
    PowerAdd(3, 21, 21);
    PowerAdd(3, 42, 21);
  }

  lemma {:induction false} PowerGrows(a: nat, b: nat, n: nat)
    requires a <= b
    ensures Power(a, n) <= Power(b, n)
  {
    if n == 0 {
    } else {
      PowerGrows(a, b, n - 1);
      MulMono(a, Power(a, n - 1), Power(b, n - 1));
      MulMono(Power(b, n - 1), a, b);
    }
  }

  // ---------------------------------------------------------------- parsing

  /** The first place from `i` on without a space, and without a digit. */
  function AfterSpaces(s: string, i: nat): (j: nat)
    requires i <= |s|
    ensures i <= j <= |s|
    decreases |s| - i
  {
    if i < |s| && IsSpace(s[i]) then AfterSpaces(s, i + 1) else i
  }

  function AfterDigits(s: string, i: nat, base: nat): (j: nat)
    requires i <= |s|
    ensures i <= j <= |s|
    decreases |s| - i
  {
    if i < |s| && Accepts(s[i], base) then AfterDigits(s, i + 1, base) else i
  }

  /** The number that digits stand for. */
  function Value(s: string, base: nat): nat {
    if s == [] then 0 else Value(s[..|s| - 1], base) * base + DigitValue(s[|s| - 1])
  }

  /** After the spaces there may be a sign, and a prefix that tells the base or repeats it. */
  function AfterSign(s: string): (j: nat)
    ensures j <= |s|
  {
    var i := AfterSpaces(s, 0);
    if i < |s| && (s[i] == '-' || s[i] == '+') then i + 1 else i
  }

  predicate Negative(s: string) {
    var i := AfterSpaces(s, 0);
    i < |s| && s[i] == '-'
  }

  /** Where the digits start, and their base. */
  function Prefix(s: string, i: nat, base: nat): (r: (nat, nat))
    requires i <= |s|
    ensures i <= r.0 <= |s|
  {
    if (base == 0 || base == 16) && i + 1 < |s| && s[i] == '0' && (s[i + 1] == 'x' || s[i + 1] == 'X') then (i + 2, 16)
    else if (base == 0 || base == 8) && i < |s| && s[i] == '0' then (i + 1, 8)
    else (i, if base == 0 then 10 else base)
  }

  /** The end of a number in a text, and its absolute value. */
  function NumberEnd(s: string, base: nat): (j: nat)
    ensures j <= |s|
  {
    var p := Prefix(s, AfterSign(s), base);
    AfterDigits(s, p.0, p.1)
  }

  function NumberValue(s: string, base: nat): nat {
    var p := Prefix(s, AfterSign(s), base);
    Value(s[p.0..AfterDigits(s, p.0, p.1)], p.1)
  }

  /** A 64-bit word as a signed number. */
  function Signed(x: int): (r: int)
    ensures -LIMIT / 2 <= r < LIMIT / 2 && (r - x) % LIMIT == 0
  {
    var w := x % LIMIT;
    if w < LIMIT / 2 then w else w - LIMIT
  }

  lemma WrapStep(v: nat, base: nat, d: nat)
    ensures (v % LIMIT * base % LIMIT + d) % LIMIT == (v * base + d) % LIMIT
  {
    var q, r := v / LIMIT, v % LIMIT;
    Quotient(v, LIMIT);
    Distribute(q * LIMIT, r, base);
    MulSwap(q, LIMIT, base);
    MulSwap(q, base, LIMIT);
    Wrapped(r * base, d);
    AddMultiple(r * base + d, q * base);
  }

  lemma AddMultiple(x: nat, k: nat)
    ensures (k * LIMIT + x) % LIMIT == x % LIMIT
  {
    var q := x / LIMIT;
    DivMod(k * LIMIT + x, LIMIT, k + q, x % LIMIT);
  }

  /** One more digit. */
  lemma OneMoreDigit(s: string, i: nat, j: nat, base: nat)
    requires i <= j < |s|
    ensures Value(s[i..j + 1], base) == Value(s[i..j], base) * base + DigitValue(s[j])
  {
    assert s[i..j + 1][..j - i] == s[i..j];
  }

  /** Reads past the spaces and the sign. */
  method SkipSign(s: string) returns (j: nat, minus: bool)
    ensures j == AfterSign(s) && minus == Negative(s)
  {
    j := 0;
    while j < |s| && IsSpace(s[j])
      invariant j <= |s| && AfterSpaces(s, 0) == AfterSpaces(s, j)
    {
      j := j + 1;
    }
    minus := false;
    if j < |s| && s[j] == '-' {
      minus := true;
      j := j + 1;
    } else if j < |s| && s[j] == '+' {
      j := j + 1;
    }
  }

  /** Reads the prefix. */
  method SkipPrefix(s: string, i: nat, base0: nat) returns (j: nat, base: nat)
    requires i <= |s|
    ensures (j, base) == Prefix(s, i, base0)
  {
    j, base := i, base0;
    if base == 0 || base == 16 {
      if j + 1 < |s| && s[j] == '0' && (s[j + 1] == 'x' || s[j + 1] == 'X') {
        j := j + 2;
        base := 16;
      }
    }
    if base == 0 || base == 8 {
      if j < |s| && s[j] == '0' {
        j := j + 1;
        base := 8;
      }
    }
    if base == 0 {
      base := 10;
    }
  }

  /** Reads the digits. */
  method ReadDigits(s: string, i: nat, base: nat) returns (total: nat, j: nat)
    requires i <= |s|
    ensures j == AfterDigits(s, i, base) && total == Value(s[i..j], base) % LIMIT
  {
    hide Value, Accepts, DigitValue;
    total, j := 0, i;
    assert s[i..i] == [];
    NoValue(base);
    while j < |s| && Accepts(s[j], base)
      invariant i <= j <= |s| && AfterDigits(s, i, base) == AfterDigits(s, j, base)
      invariant total == Value(s[i..j], base) % LIMIT
    {
      OneMoreDigit(s, i, j, base);
      WrapStep(Value(s[i..j], base), base, DigitValue(s[j]));
      total := (total * base % LIMIT + DigitValue(s[j])) % LIMIT;
      j := j + 1;
    }
  }

  lemma Wrapped(x: nat, d: nat)
    ensures (x % LIMIT + d) % LIMIT == (x + d) % LIMIT
  {
    AddMultiple(x % LIMIT + d, x / LIMIT);
  }

  /** Parses an unsigned number; words wrap around. */
  method Strtoul(s: string, base: nat) returns (value: nat, end: nat)
    ensures end == NumberEnd(s, base)
    ensures value == (if Negative(s) then -(NumberValue(s, base) as int) else NumberValue(s, base)) % LIMIT
  {
    var i, minus := SkipSign(s);
    var j, b := SkipPrefix(s, i, base);
    value, end := ReadDigits(s, j, b);
    if minus {
      NegativeWord(NumberValue(s, base));
      value := (LIMIT - value) % LIMIT;
    }
  }

  lemma NegativeWord(v: nat)
    ensures (LIMIT - v % LIMIT) % LIMIT == -(v as int) % LIMIT
  {
    var q, r := v / LIMIT, v % LIMIT;
    var x := -(v as int);
    assert x == -(q + 1) * LIMIT + (LIMIT - r);
    assert x % LIMIT == if r == 0 then 0 else LIMIT - r;
  }

  /** Parses a signed number. */
  method Strtol(s: string, base: nat) returns (value: int, end: nat)
    ensures end == NumberEnd(s, base)
    ensures value == Signed(if Negative(s) then -(NumberValue(s, base) as int) else NumberValue(s, base))
  {
    var i, minus := SkipSign(s);
    var j, b := SkipPrefix(s, i, base);
    var n;
    n, end := ReadDigits(s, j, b);
    SignedWords(NumberValue(s, base));
    value := if minus then Signed(LIMIT - n) else Signed(n);
  }

  lemma SignedWords(v: nat)
    ensures Signed(v % LIMIT) == Signed(v) && Signed(LIMIT - v % LIMIT) == Signed(-(v as int))
  {
    NegativeWord(v);
  }

  // ---------------------------------------------------------------- printing, then parsing

  lemma LastDigit(d: nat, base: nat, caps: bool) returns (q: nat, v: nat)
    requires 2 <= base <= 16 && d > 0
    ensures q == d / base && v == d % base && q < d && v < base && d == q * base + v
    ensures Digits(d, base, caps) == Digits(q, base, caps) + [DigitChar(v, caps)]
  {
    q, v := d / base, d % base;
    Quotient(d, base);
    MulMono(q, 2, base);
  }

  lemma NoDigits(base: nat, caps: bool)
    requires 2 <= base <= 16
    ensures Digits(0, base, caps) == []
  {
  }

  lemma {:induction false} DigitsAccepted(d: nat, base: nat, caps: bool)
    requires 2 <= base <= 16
    ensures forall i | 0 <= i < |Digits(d, base, caps)| :: Accepts(Digits(d, base, caps)[i], base)
  {
    hide Digits;
    if d == 0 {
      NoDigits(base, caps);
    } else {
      var q, v := LastDigit(d, base, caps);
      DigitsAccepted(q, base, caps);
    }
  }

  /** A number does not start with the digit null. */
  lemma {:induction false} FirstDigit(d: nat, base: nat, caps: bool)
    requires 2 <= base <= 16 && d > 0
    ensures Digits(d, base, caps) != [] && Digits(d, base, caps)[0] != '0'
  {
    hide Digits;
    var q, v := LastDigit(d, base, caps);
    if q == 0 {
      NoDigits(base, caps);
    } else {
      FirstDigit(q, base, caps);
    }
  }

  lemma {:induction false} ValueOfDigits(d: nat, base: nat, caps: bool)
    requires 2 <= base <= 16
    ensures Value(Digits(d, base, caps), base) == d
  {
    hide Digits;
    if d == 0 {
      NoDigits(base, caps);
    } else {
      var q, v := LastDigit(d, base, caps);
      ValueOfDigits(q, base, caps);
      OneMoreChar(Digits(q, base, caps), DigitChar(v, caps), base);
    }
  }

  lemma OneMoreChar(s: string, c: char, base: nat)
    ensures Value(s + [c], base) == Value(s, base) * base + DigitValue(c)
  {
    assert (s + [c])[..|s|] == s;
  }

  lemma {:induction false} AllDigits(s: string, i: nat, base: nat)
    requires i <= |s| && forall j | i <= j < |s| :: Accepts(s[j], base)
    ensures AfterDigits(s, i, base) == |s|
    decreases |s| - i
  {
    if i == |s| {
    } else {
      AllDigits(s, i + 1, base);
    }
  }

  /** The digit `i` places from the right is the one of the power `i` of the base. */
  lemma {:induction false} DigitAt(d: nat, base: nat, caps: bool, i: nat)
    requires 2 <= base <= 16 && i < |Digits(d, base, caps)|
    ensures Power(base, i) > 0
    ensures Digits(d, base, caps)[|Digits(d, base, caps)| - 1 - i] == DigitChar(d / Power(base, i) % base, caps)
  {
    hide Digits;
    PowerPositive(base, i);
    if d == 0 {
      NoDigits(base, caps);
    } else {
      var q, v := LastDigit(d, base, caps);
      if i > 0 {
        DigitAt(q, base, caps, i - 1);
        DivideTwice(d, base, Power(base, i - 1));
      }
    }
  }

  lemma DivideTwice(d: nat, a: nat, b: nat)
    requires a > 0 && b > 0
    ensures a * b > 0 && d / a / b == d / (a * b)
  {
    Quotient(d, a);
    Quotient(d / a, b);
    RestOfTwo(d, a, b, d / a, d % a, d / a / b, d / a % b);
    DivMod(d, a * b, d / a / b, d / a % b * a + d % a);
  }

  lemma RestOfTwo(d: nat, a: nat, b: nat, x: nat, r: nat, q: nat, s: nat)
    requires a > 0 && b > 0 && d == x * a + r && r < a && x == q * b + s && s < b
    ensures d == q * (a * b) + (s * a + r) && s * a + r < a * b
  {
    Distribute(q * b, s, a);
    MulSwap(q, b, a);
    assert b * a == a * b;
    MulStrict(a, s, b);
  }

  /** The text of a signed number. */
  function PrintedSigned(d: int, base: nat, caps: bool, plus: bool, space: bool): string {
    (if plus && d >= 0 then "+" else if !plus && space && d > 0 then " " else "") +
    (if d < 0 && 2 <= base <= 16 then "-" else "") + Printed(if d < 0 then -d else d, base, caps)
  }

  /** The prefix `u` is one that tells `base` when a number is parsed in base `asked`. */
  predicate Tells(u: string, asked: nat, base: nat) {
    || (u == "" && asked == base && (base == 8 || base == 10 || base == 16))
    || (u == "" && asked == 0 && base == 10)
    || (u == "0" && (asked == 0 || asked == 8) && base == 8)
    || ((u == "0x" || u == "0X") && (asked == 0 || asked == 16) && base == 16)
  }

  /** Some white space, an optional sign, and a prefix. */
  predicate Leads(blanks: string, sign: string, u: string, asked: nat, base: nat) {
    && (forall i | 0 <= i < |blanks| :: blanks[i] in {' ', '\t', '\n', 11 as char, 12 as char, '\r'})
    && (sign == "" || sign == "+" || sign == "-") && Tells(u, asked, base)
  }

  lemma {:induction false} SkipsBlanks(s: string, n: nat, i: nat)
    requires i <= n < |s| && (forall j | i <= j < n :: IsSpace(s[j])) && !IsSpace(s[n])
    ensures AfterSpaces(s, i) == n
    decreases n - i
  {
    if i < n {
      SkipsBlanks(s, n, i + 1);
    }
  }

  /** A text of white space, a sign, a prefix and the digits of a number is parsed as that number, in the base that the prefix
      tells. */
  lemma ParsedDigits(s: string, blanks: string, sign: string, u: string, d: nat, asked: nat, base: nat, caps: bool)
    requires Leads(blanks, sign, u, asked, base) && s == blanks + sign + u + Printed(d, base, caps)
    ensures NumberEnd(s, asked) == |s| && NumberValue(s, asked) == d && (Negative(s) <==> sign == "-")
  {
    hide Digits, Value, AfterDigits, AfterSpaces, Printed, AfterSign, Negative, Prefix;
    var p := Printed(d, base, caps);
    PrintedIs(d, base, caps);
    var m, n := |blanks| + |sign|, |blanks| + |sign| + |u|;
    assert s[m..] == u + p && s[n..] == p;
    LeadIn(s, blanks, sign, u + p);
    if d == 0 && u == "" && (asked == 0 || asked == 8) {
      NullRead(s, m, asked);
    } else {
      PrefixRead(s, m, u, p, asked, base);
      forall j | n <= j < |s| ensures Accepts(s[j], base) {
        assert s[j] == p[j - n];
      }
      AllDigits(s, n, base);
      assert s[n..|s|] == p;
    }
  }

  lemma LeadIn(s: string, blanks: string, sign: string, rest: string)
    requires s == blanks + sign + rest && (sign == "" || sign == "+" || sign == "-") && rest != []
    requires forall i | 0 <= i < |blanks| :: blanks[i] in {' ', '\t', '\n', 11 as char, 12 as char, '\r'}
    requires !IsSpace(rest[0]) && rest[0] != '-' && rest[0] != '+'
    ensures AfterSign(s) == |blanks| + |sign| && (Negative(s) <==> sign == "-")
  {
    hide AfterSpaces;
    assert s[|blanks| + |sign|] == rest[0];
    SkipsBlanks(s, |blanks|, 0);
  }

  /** The text of null has its one digit taken for the octal prefix. */
  lemma NullRead(s: string, m: nat, asked: nat)
    requires m < |s| && s[m..] == "0" && (asked == 0 || asked == 8)
    ensures Prefix(s, m, asked) == (m + 1, 8) && AfterDigits(s, m + 1, 8) == |s| && Value(s[m + 1..|s|], 8) == 0
  {
    assert s[m] == s[m..][0] && |s| == m + 1;
    assert s[m + 1..|s|] == [];
  }

  lemma PrefixRead(s: string, m: nat, u: string, p: string, asked: nat, base: nat)
    requires m <= |s| && s[m..] == u + p && Tells(u, asked, base) && p != []
    requires forall i | 0 <= i < |p| :: Accepts(p[i], base)
    requires p[0] != '0' || p == "0"
    requires p == "0" && u == "" ==> asked != 0 && asked != 8
    ensures Prefix(s, m, asked) == (m + |u|, base)
  {
    assert forall i | 0 <= i < |u + p| :: s[m + i] == (u + p)[i];
    assert forall i | 0 <= i < |p| :: (u + p)[|u| + i] == p[i];
    assert |s| == m + |u| + |p|;
    if |p| > 1 {
      assert Accepts(p[1], base);
    }
    assert Accepts(p[0], base);
  }

  lemma NoValue(base: nat)
    ensures Value([], base) == 0
  {
  }

  lemma PrintedIs(d: nat, base: nat, caps: bool)
    requires 2 <= base <= 16
    ensures var p := Printed(d, base, caps);
            && p != [] && (d > 0 ==> p[0] != '0') && (d == 0 ==> p == "0") && Value(p, base) == d
            && (forall i | 0 <= i < |p| :: Accepts(p[i], base))
            && !IsSpace(p[0]) && p[0] != '-' && p[0] != '+'
  {
    if d == 0 {
      OneMoreChar([], '0', base);
      assert "0" == [] + ['0'];
    } else {
      hide Digits, Value;
      DigitsAccepted(d, base, caps);
      ValueOfDigits(d, base, caps);
      FirstDigit(d, base, caps);
    }
    assert Accepts(Printed(d, base, caps)[0], base);
  }

  /** Printing and parsing is the identity for all 64-bit numbers: all of the text is read. */
  method RoundTrip(d: nat, base: nat, caps: bool) returns (value: nat, text: string, end: nat)
    requires d < LIMIT && (base == 8 || base == 10 || base == 16)
    ensures value == d && text == Printed(d, base, caps) && end == |text|
  {
    hide Digits, Value, NumberEnd, NumberValue, Negative, Printed;
    var mc := new MemChan();
    mc.PutUnsigned(d, base, caps);
    text := mc.buf[..mc.offset];
    assert text == "" + "" + "" + Printed(d, base, caps);
    ParsedDigits(text, "", "", "", d, base, base, caps);
    value, end := Strtoul(text, base);
  }

  method SignedRoundTrip(d: int, base: nat, caps: bool, plus: bool, space: bool)
    returns (value: int, text: string, end: nat)
    requires -LIMIT / 2 < d < LIMIT / 2 && (base == 8 || base == 10 || base == 16)
    ensures value == d && text == PrintedSigned(d, base, caps, plus, space) && end == |text|
  {
    hide Digits, Value, NumberEnd, NumberValue, Negative;
    var mc := new MemChan();
    mc.PutSigned(d, base, caps, plus, space);
    text := mc.buf[..mc.offset];
    var blanks := if !plus && space && d > 0 then " " else "";
    var sign := if plus && d >= 0 then "+" else if d < 0 then "-" else "";
    assert text == blanks + sign + "" + Printed(if d < 0 then -d else d, base, caps);
    ParsedDigits(text, blanks, sign, "", if d < 0 then -d else d, base, base, caps);
    value, end := Strtol(text, base);
  }

  // ---------------------------------------------------------------- what parsing takes for digits

  /** The first place from `i` on without a digit of the base. */
  function AfterOwnDigits(s: string, i: nat, base: nat): (j: nat)
    requires i <= |s|
    ensures i <= j <= |s|
    decreases |s| - i
  {
    if i < |s| && Accepts(s[i], base) && DigitValue(s[i]) < base then AfterOwnDigits(s, i + 1, base) else i
  }

  /** Parsing ends where the digits of the base end exactly when no character follows them that is a digit or, in
      bases above ten, a letter. */
  lemma {:induction false} EndsWithItsDigits(s: string, i: nat, base: nat)
    requires i <= |s|
    ensures AfterDigits(s, i, base) == AfterOwnDigits(s, i, base) <==>
              (var j := AfterOwnDigits(s, i, base); j == |s| || !Accepts(s[j], base))
    decreases |s| - i
  {
    if i < |s| && Accepts(s[i], base) && DigitValue(s[i]) < base {
      EndsWithItsDigits(s, i + 1, base);
    } else {
    }
  }

  /** The octal number 18 is taken for 16. */
  lemma NotAnOctalDigit()
    ensures AfterOwnDigits("18", 0, 8) == 1 && AfterDigits("18", 0, 8) == 2 && Value("18", 8) == 16
  {
    assert "18"[..1] == "1" && "1"[..0] == "";
  }

  // ---------------------------------------------------------------- memory channels

  /** A text that grows at its end. */
  class MemChan {
    var buf: array<char>
    var offset: nat
    ghost var Repr: set<object>

    ghost predicate Valid()
      reads this, Repr
    {
      Repr == {this, buf} && offset <= buf.Length
    }

    ghost function Text(): string
      requires Valid()
      reads this, Repr
    {
      buf[..offset]
    }

    constructor ()
      ensures Valid() && fresh(Repr) && Text() == ""
    {
      buf := new char[0];
      offset := 0;
      Repr := {this, buf};
    }

    /** Appends some characters.  The size doubles, in a 32-bit word, or is just large enough. */
    method Put(s: string)
      requires Valid() && offset + |s| < 0x1_0000_0000
      modifies Repr
      ensures Valid() && fresh(Repr - old(Repr)) && Text() == old(Text()) + s && offset == old(offset) + |s|
    {
      if offset + |s| > buf.Length {
        var size := buf.Length * 2 % 0x1_0000_0000;
        if offset + |s| > size {
          size := offset + |s|;
        }
        Reallocate(size);
      }
      forall i | 0 <= i < |s| {
        buf[offset + i] := s[i];
      }
      offset := offset + |s|;
    }

    method Reallocate(size: nat)
      requires Valid() && offset <= size
      modifies this
      ensures Valid() && fresh(buf) && fresh(Repr - old(Repr)) && buf.Length == size && offset == old(offset) && Text() == old(Text())
    {
      var to := new char[size];
      forall i | 0 <= i < offset {
        to[i] := buf[i];
      }
      buf := to;
      Repr := {this, buf};
      assert buf[..offset] == old(buf[..offset]);
    }

    /** Appends a number. */
    method PutUnsigned(d0: nat, base: nat, caps: bool)
      requires Valid() && d0 < LIMIT && FitsBuffer(d0, base) && offset + 64 < 0x1_0000_0000
      modifies Repr
      ensures Valid() && fresh(Repr - old(Repr)) && Text() == old(Text()) + Printed(d0, base, caps)
    {
      if base < 2 || base > 16 {
        Put("<bad base>");
        return;
      }
      if d0 == 0 {
        Put("0");
        return;
      }
      PutDigits(d0, base, caps);
    }

    /** Appends the digits of a number, which are put into a buffer of 64 characters from the end on. */
    method PutDigits(d: nat, base: nat, caps: bool)
      requires Valid() && 2 <= base <= 16 && d < LIMIT && FitsBuffer(d, base) && offset + 64 < 0x1_0000_0000
      modifies Repr
      ensures Valid() && fresh(Repr - old(Repr)) && Text() == old(Text()) + Digits(d, base, caps)
    {
      hide Digits;
      BufferFits(d, base, caps);
      var digits := FillBackwards(d, base, caps);
      Put(digits);
    }

    /** Appends a signed number. */
    method PutSigned(d: int, base: nat, caps: bool, plus: bool, space: bool)
      requires Valid() && -LIMIT / 2 < d < LIMIT / 2 && offset + 66 < 0x1_0000_0000
      modifies Repr
      ensures Valid() && fresh(Repr - old(Repr)) && Text() == old(Text()) + PrintedSigned(d, base, caps, plus, space)
    {
      hide Digits, Printed;
      PutSpace(d, plus, space);
      PutMagnitude(d, base, caps);
    }

    method PutMagnitude(d: int, base: nat, caps: bool)
      requires Valid() && -LIMIT / 2 < d < LIMIT / 2 && offset + 65 < 0x1_0000_0000
      modifies Repr
      ensures Valid() && fresh(Repr - old(Repr))
      ensures Text() == old(Text()) + (if d < 0 && 2 <= base <= 16 then "-" else "") + Printed(if d < 0 then -d else d, base, caps)
    {
      hide Digits;
      if base < 2 || base > 16 {
        Put("<bad base>");
        return;
      }
      if d == 0 {
        Put("0");
        return;
      }
      if d < 0 {
        Put("-");
      }
      PutDigits(if d < 0 then -d else d, base, caps);
    }

    /** What comes before a number that is not negative. */
    method PutSpace(d: int, plus: bool, space: bool)
      requires Valid() && offset + 1 < 0x1_0000_0000
      modifies Repr
      ensures Valid() && fresh(Repr - old(Repr)) && offset <= old(offset) + 1
      ensures Text() == old(Text()) + (if plus && d >= 0 then "+" else if !plus && space && d > 0 then " " else "")
    {
      if plus {
        if d >= 0 {
          Put("+");
        }
      } else if space {
        if d > 0 {
          Put(" ");
        }
      }
    }
  }

  /** The digits of a number, and the null character that ends them, fit a buffer of 64 characters. */
  method FillBackwards(d0: nat, base: nat, caps: bool) returns (digits: string)
    requires 2 <= base <= 16 && |Digits(d0, base, caps)| <= 63
    ensures digits == Digits(d0, base, caps)
  {
    hide Digits, DigitChar;
    var buf := new char[64];
    var p: nat, d: nat := 63, d0;
    buf[p] := 0 as char;
    while d != 0
      invariant p <= 63 && |Digits(d, base, caps)| <= p
      invariant Digits(d0, base, caps) == Digits(d, base, caps) + buf[p..63]
      decreases d
    {
      ghost var rest := buf[p..63];
      ghost var q, v := LastDigit(d, base, caps);
      p := p - 1;
      buf[p] := DigitChar(d % base, caps);
      assert buf[p..63] == [DigitChar(v, caps)] + rest;
      d := d / base;
    }
    NoDigits(base, caps);
    digits := buf[p..63];
  }
}
