// The texts bencoding is made of: decimal numbers and the order of keys.
module BencodeText {
  import opened Common
  import opened BencodeSpec

  // ----- the order of keys -----

  // The first place where they differ is n, and a is the smaller there.
  predicate SmallerAt(a: bytes, b: bytes, n: nat) {
    n < |a| && n < |b| && a[..n] == b[..n] && a[n] < b[n]
  }

  // Byte order: a key comes before its own extensions and before every key that has
  // a larger byte where they first differ, and before no other.
  lemma {:induction false} LessIsByteOrder(a: bytes, b: bytes)
    ensures Less(a, b) <==> (|a| < |b| && a == b[..|a|]) || exists n: nat :: SmallerAt(a, b, n)
  {
    if a == [] || b == [] {
    } else if a[0] != b[0] {
      if a[0] < b[0] {
        assert SmallerAt(a, b, 0);
      }
      forall n: nat | SmallerAt(a, b, n)
        ensures n == 0
      {
        FirstOfPrefix(a, b, n);
      }
    } else {
      LessIsByteOrder(a[1..], b[1..]);
      SameFirstByte(a, b);
    }
  }

  lemma {:induction false} FirstOfPrefix(a: bytes, b: bytes, n: nat)
    requires SmallerAt(a, b, n)
    ensures n > 0 ==> a[0] == b[0]
  {
    if n > 0 {
      assert a[..n][0] == b[..n][0];
    }
  }

  lemma {:induction false} SameFirstByte(a: bytes, b: bytes)
    requires a != [] && b != [] && a[0] == b[0]
    ensures (|a| < |b| && a == b[..|a|]) <==> (|a[1..]| < |b[1..]| && a[1..] == b[1..][..|a[1..]|])
    ensures (exists n: nat :: SmallerAt(a, b, n)) <==> exists n: nat :: SmallerAt(a[1..], b[1..], n)
  {
    assert a == [a[0]] + a[1..] && b == [b[0]] + b[1..];
    if |a| < |b| {
      assert b[..|a|] == [b[0]] + b[1..][..|a| - 1];
    }
    if n: nat :| SmallerAt(a, b, n) {
      assert n > 0;
      assert a[1..][..n - 1] == a[..n][1..] && b[1..][..n - 1] == b[..n][1..];
      assert SmallerAt(a[1..], b[1..], n - 1);
    }
    if n: nat :| SmallerAt(a[1..], b[1..], n) {
      assert a[..n + 1] == [a[0]] + a[1..][..n] && b[..n + 1] == [b[0]] + b[1..][..n];
      assert SmallerAt(a, b, n + 1);
    }
  }

  // ----- numbers -----

  function ZeroDigits(k: nat): (r: bytes)
    ensures |r| == k
  {
    seq(k, _ => '0' as int)
  }

  // Digits are zeros in front of the decimal text of their value.
  lemma {:induction false} DigitsAre(s: bytes)
    requires s != [] && AllDigits(s)
    ensures DecimalValue(s) >= 0
    ensures exists k: nat :: s == ZeroDigits(k) + Decimal(DecimalValue(s))
  {
    hide *;
    var before, digit := s[..|s| - 1], s[|s| - 1] - ZERO;
    LastDigit(s);
    if before == [] {
      NoZeros(digit);
    } else {
      DigitsAre(before);
      var k: nat :| before == ZeroDigits(k) + Decimal(DecimalValue(before));
      OneMoreDigit(k, DecimalValue(before), digit);
    }
  }

  lemma {:induction false} LastDigit(s: bytes)
    requires s != [] && AllDigits(s)
    ensures var before, digit := s[..|s| - 1], s[|s| - 1] - ZERO;
            && s == before + [ZERO + digit] && AllDigits(before) && 0 <= digit < 10
            && DecimalValue(s) == DecimalValue(before) * 10 + digit
  {
    assert IsDigit(s[|s| - 1]);
  }

  lemma {:induction false} NoZeros(digit: nat)
    requires digit < 10
    ensures [ZERO + digit] == ZeroDigits(0) + Decimal(digit) && DecimalValue([]) == 0
  {
  }

  lemma {:induction false} OneMoreDigit(k: nat, v: nat, digit: nat)
    requires digit < 10
    ensures exists m: nat :: ZeroDigits(k) + Decimal(v) + [ZERO + digit] == ZeroDigits(m) + Decimal(v * 10 + digit)
  {
    if v == 0 {
      assert ZeroDigits(k) + Decimal(0) + [ZERO + digit] == ZeroDigits(k + 1) + Decimal(digit);
    } else {
      assert Decimal(v * 10 + digit) == Decimal(v) + [ZERO + digit];
      assert ZeroDigits(k) + Decimal(v) + [ZERO + digit] == ZeroDigits(k) + Decimal(v * 10 + digit);
    }
  }

  lemma {:induction false} ZerosCountForNothing(k: nat, n: nat)
    ensures DecimalValue(ZeroDigits(k) + Decimal(n)) == n && AllDigits(ZeroDigits(k) + Decimal(n))
  {
    var s := ZeroDigits(k) + Decimal(n);
    if n < 10 {
      assert s[..|s| - 1] == ZeroDigits(k);
      ZerosAreZero(k);
    } else {
      ZerosCountForNothing(k, n / 10);
      assert s[..|s| - 1] == ZeroDigits(k) + Decimal(n / 10);
    }
  }

  lemma {:induction false} ZerosAreZero(k: nat)
    ensures DecimalValue(ZeroDigits(k)) == 0
  {
    if k > 0 {
      ZerosAreZero(k - 1);
      assert ZeroDigits(k)[..k - 1] == ZeroDigits(k - 1);
    }
  }

  // No text of a number but that of zero starts with a zero.
  lemma {:induction false} NoLeadingZero(n: nat)
    ensures Decimal(n)[0] == '0' as int <==> n == 0
    ensures n == 0 ==> Decimal(n) == ['0' as int]
  {
    if n >= 10 {
      NoLeadingZero(n / 10);
    }
  }

  // A number in base 10: a sign, zeros, and the digits of its magnitude.
  predicate NumberText(t: bytes, n: int, sign: bytes, k: nat) {
    && t == sign + ZeroDigits(k) + Decimal(if n < 0 then -n else n)
    && ((sign == [] && n >= 0) || (sign == ['+' as int] && n >= 0) || (sign == ['-' as int] && n <= 0))
  }

  // strconv.ParseInt accepts exactly those, if the number is in range.
  lemma {:induction false} ParseIntAccepts(t: bytes, limit: int, n: int)
    requires limit > 0
    ensures ParseInt(t, limit) == Some(n)
       <==> -limit <= n < limit && exists sign: bytes, k: nat :: NumberText(t, n, sign, k)
  {
    if ParseInt(t, limit) == Some(n) {
      ParsedIsNumber(t, limit, n);
    }
    if -limit <= n < limit {
      forall sign: bytes, k: nat | NumberText(t, n, sign, k)
        ensures ParseInt(t, limit) == Some(n)
      {
        NumberParses(t, limit, n, sign, k);
      }
    }
  }

  lemma {:induction false} ParsedIsNumber(t: bytes, limit: int, n: int)
    requires limit > 0 && ParseInt(t, limit) == Some(n)
    ensures -limit <= n < limit && exists sign: bytes, k: nat :: NumberText(t, n, sign, k)
  {
    hide *;
    ParsedParts(t, limit, n);
    var sign, digits := if IsSign(t[0]) then [t[0]] else [], if IsSign(t[0]) then t[1..] else t;
    DigitsAre(digits);
    var m := DecimalValue(digits);
    var k: nat :| digits == ZeroDigits(k) + Decimal(m);
    IsNumberText(t, n, m, k, sign, digits);
  }

  predicate IsSign(b: byte) {
    b == PLUS || b == MINUS
  }

  lemma {:induction false} ParsedParts(t: bytes, limit: int, n: int)
    requires limit > 0 && ParseInt(t, limit) == Some(n)
    ensures t != [] && -limit <= n < limit
    ensures var sign, digits := if IsSign(t[0]) then [t[0]] else [], if IsSign(t[0]) then t[1..] else t;
            && t == sign + digits && digits != [] && AllDigits(digits)
            && DecimalValue(digits) >= 0
            && (if sign == [MINUS] then n + DecimalValue(digits) == 0 else n == DecimalValue(digits))
            && (sign == [] || sign == [PLUS] || sign == [MINUS])
  {
    DigitsAre(if IsSign(t[0]) then t[1..] else t);
    hide DecimalValue, IsDigit;
  }

  lemma {:induction false} IsNumberText(t: bytes, n: int, m: nat, k: nat, sign: bytes, digits: bytes)
    requires t == sign + digits && digits == ZeroDigits(k) + Decimal(m)
    requires (sign == [] && n == m) || (sign == [PLUS] && n == m) || (sign == [MINUS] && n + m == 0)
    ensures NumberText(t, n, sign, k)
  {
    hide Decimal, ZeroDigits;
    assert sign + digits == sign + ZeroDigits(k) + Decimal(m);
  }

  lemma {:induction false} NumberParses(t: bytes, limit: int, n: int, sign: bytes, k: nat)
    requires limit > 0 && -limit <= n < limit && NumberText(t, n, sign, k)
    ensures ParseInt(t, limit) == Some(n)
  {
    var m := if n < 0 then -n else n;
    var digits := ZeroDigits(k) + Decimal(m);
    ZerosCountForNothing(k, m);
    hide Decimal, DecimalValue, ZeroDigits, AllDigits, ParseInt, NumberText;
    ParseIntOfDigits(digits, limit);
    SignAndDigits(t, n, sign, k);
  }

  lemma {:induction false} SignAndDigits(t: bytes, n: int, sign: bytes, k: nat)
    requires NumberText(t, n, sign, k)
    ensures var digits := ZeroDigits(k) + Decimal(if n < 0 then -n else n);
            (t == digits && n >= 0) || (t == [PLUS] + digits && n >= 0) || (t == [MINUS] + digits && n <= 0)
  {
    hide Decimal, ZeroDigits;
    var digits := ZeroDigits(k) + Decimal(if n < 0 then -n else n);
    assert t == sign + digits && [] + digits == digits;
  }

  lemma {:induction false} ParseIntOfDigits(digits: bytes, limit: int)
    requires digits != [] && AllDigits(digits)
    ensures var n := DecimalValue(digits);
            && ParseInt(digits, limit) == (if n < limit then Some(n) else None)
            && ParseInt([PLUS] + digits, limit) == (if n < limit then Some(n) else None)
            && ParseInt([MINUS] + digits, limit) == (if n <= limit then Some(-n) else None)
  {
    assert IsDigit(digits[0]);
    hide DecimalValue, AllDigits;
    assert ([PLUS] + digits)[1..] == digits && ([MINUS] + digits)[1..] == digits;
  }

  // The text an integer is written with is the shortest of them: a minus for the
  // negative ones only, and no zero in front of other digits.
  lemma {:induction false} IntTextIsCanonical(n: int)
    ensures IntText(n)[0] == '-' as int <==> n < 0
    ensures var digits := if n < 0 then IntText(n)[1..] else IntText(n);
            && digits != [] && AllDigits(digits) && DecimalValue(digits) == (if n < 0 then -n else n)
            && (digits[0] == '0' as int <==> n == 0) && (n == 0 ==> digits == ['0' as int])
  {
    var m := if n < 0 then -n else n;
    NoLeadingZero(m);
    DecimalRoundTrip(m);
    assert IsDigit(Decimal(m)[0]);
    hide Decimal, DecimalValue;
    if n < 0 {
      assert IntText(n)[1..] == Decimal(m);
    }
  }

  // ----- the length in front of a string -----

  // What the bytes in front of the colon stand for without any bound.
  function Unbounded(s: bytes): nat {
    if s == [] then 0 else Unbounded(s[..|s| - 1]) * 10 + (s[|s| - 1] - '0' as int) % 0x100
  }

  // Computing in 64 bits throughout gives that number wrapped round once.
  lemma {:induction false} LengthWrapsOnce(s: bytes)
    ensures HeaderLength(s) == Wrap64(Unbounded(s))
    ensures AllDigits(s) ==> Unbounded(s) == DecimalValue(s)
  {
    if s != [] {
      LengthWrapsOnce(s[..|s| - 1]);
      WrapTwice(Unbounded(s[..|s| - 1]), (s[|s| - 1] - ZERO) % 0x100);
      if AllDigits(s) {
        assert IsDigit(s[|s| - 1]);
      }
      hide Wrap64, IsDigit;
    }
  }

  lemma {:induction false} WrapTwice(u: nat, d: nat)
    ensures Wrap64(Wrap64(Wrap64(u) * 10) + d) == Wrap64(u * 10 + d)
  {
    var q := (u + INT64_LIMIT) / (2 * INT64_LIMIT);
    var v := u * 10;
    var r := (v + INT64_LIMIT) / (2 * INT64_LIMIT);
    WrapIs(u);
    WrapIs(v);
    WrapsRound(v, -q * 10);
    WrapsRound(v + d, -r);
    hide Wrap64;
    assert Wrap64(u) * 10 == v + 2 * INT64_LIMIT * (-q * 10);
    assert Wrap64(v) + d == v + d + 2 * INT64_LIMIT * -r;
  }

  lemma {:induction false} WrapIs(x: int)
    ensures Wrap64(x) == x - 2 * INT64_LIMIT * ((x + INT64_LIMIT) / (2 * INT64_LIMIT))
  {
  }

  lemma {:induction false} WrapsRound(x: int, m: int)
    ensures Wrap64(x + 2 * INT64_LIMIT * m) == Wrap64(x)
  {
  }
}
