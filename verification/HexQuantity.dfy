/** Hexadecimal quantities of the JSON-RPC interface. */
module HexQuantity {
  import opened Domain

  function DigitValue(c: char): Option<nat>
  {
    if '0' <= c <= '9' then Some((c - '0') as nat)
    else if 'a' <= c <= 'f' then Some((c - 'a') as nat + 10)
    else if 'A' <= c <= 'F' then Some((c - 'A') as nat + 10)
    else None
  }

  predicate AllDigits(s: string)
  {
    forall i :: 0 <= i < |s| ==> DigitValue(s[i]).Some?
  }

  /** The number a digit string denotes, without a bound. */
  function Value(s: string): nat
    requires AllDigits(s)
  {
    if s == [] then 0 else Value(s[..|s| - 1]) * 16 + DigitValue(s[|s| - 1]).value
  }

  /** Digit accumulation with checked multiplication and addition in 64 bits. */
  function Accumulate(s: string): Option<nat>
  {
    if s == [] then Some(0) else
    match Accumulate(s[..|s| - 1])
    case None => None
    case Some(high) =>
      match DigitValue(s[|s| - 1])
      case None => None
      case Some(d) => if high * 16 >= U64_LIMIT || high * 16 + d >= U64_LIMIT then None else Some(high * 16 + d)
  }

  /** `u64::from_str_radix(s, 16)`: a leading plus sign is accepted, a sign alone and the empty string are not. */
  function FromStrRadix(s: string): Option<nat>
  {
    if s == [] || s == "+" || s == "-" then None
    else if s[0] == '+' then Accumulate(s[1..])
    else Accumulate(s)
  }

  function Parse(s: string): Option<nat>
  {
    if |s| < 2 || s[..2] != "0x" then None
    else if s[2..] == [] then Some(0)
    else FromStrRadix(s[2..])
  }

  /** Checked accumulation yields the denoted number when it fits 64 bits, and nothing otherwise. */
  lemma {:induction false} AccumulateIsValue(s: string)
    ensures Accumulate(s) == if AllDigits(s) && Value(s) < U64_LIMIT then Some(Value(s)) else None
  {
    if s != [] {
      var front := s[..|s| - 1];
      AccumulateIsValue(front);
      if AllDigits(s) {
        assert AllDigits(front);
      } else if AllDigits(front) {
        assert DigitValue(s[|s| - 1]).None?;
      }
    }
  }

  /** Exactly which strings parse, and to what. */
  lemma {:induction false} ParseCharacterized(digits: string)
    requires digits != []
    ensures Parse("0x" + digits) ==
      var body := if digits[0] == '+' then digits[1..] else digits;
      if body != [] && AllDigits(body) && Value(body) < U64_LIMIT then Some(Value(body)) else None
  {
    assert ("0x" + digits)[..2] == "0x" && ("0x" + digits)[2..] == digits;
    AccumulateIsValue(digits);
    AccumulateIsValue(digits[1..]);
    if digits == "-" {
      assert DigitValue(digits[0]).None?;
    }
  }

  function HexDigit(d: nat): (c: char)
    requires d < 16
    ensures DigitValue(c) == Some(d)
  {
    if d < 10 then '0' + d as char else 'a' + (d - 10) as char
  }

  /** `{n:x}`: lower case, no leading zeros. */
  function Print(n: nat): string
  {
    if n < 16 then [HexDigit(n)] else Print(n / 16) + [HexDigit(n % 16)]
  }

  lemma {:induction false} PrintDenotes(n: nat)
    ensures Print(n) != [] && AllDigits(Print(n)) && Value(Print(n)) == n && Print(n)[0] != '+'
  {
    assert DigitValue('+').None?;
    if n < 16 {
      var s := [HexDigit(n)];
      assert s[..0] == [];
      assert Value(s) == n;
    } else {
      PrintDenotes(n / 16);
      var high := Print(n / 16);
      var s := high + [HexDigit(n % 16)];
      assert s[..|s| - 1] == high;
      assert Value(s) == Value(high) * 16 + n % 16;
    }
  }

  /** Parsing the printed form of any u64 returns it. */
  lemma {:induction false} RoundTrip(n: nat)
    requires n < U64_LIMIT
    ensures Parse("0x" + Print(n)) == Some(n)
  {
    PrintDenotes(n);
    ParseCharacterized(Print(n));
  }

  // ----- case, prefix and known quantities -----

  function LowerDigit(c: char): char
  {
    if 'A' <= c <= 'F' then c - 'A' + 'a' else c
  }

  function Lower(s: string): (r: string)
    ensures |r| == |s| && forall i :: 0 <= i < |s| ==> r[i] == LowerDigit(s[i])
  {
    seq(|s|, i requires 0 <= i < |s| => LowerDigit(s[i]))
  }

  lemma {:induction false} LowerDenotesSame(s: string)
    ensures AllDigits(Lower(s)) <==> AllDigits(s)
    ensures AllDigits(s) ==> Value(Lower(s)) == Value(s)
  {
    assert forall i :: 0 <= i < |s| ==> DigitValue(Lower(s)[i]) == DigitValue(s[i]);
    if AllDigits(s) && s != [] {
      var n := |s| - 1;
      assert Lower(s)[..n] == Lower(s[..n]);
      LowerDenotesSame(s[..n]);
    }
  }

  /** What is left of a quantity after its prefix and an optional plus sign. */
  function Body(digits: string): string
    requires digits != []
  {
    if digits[0] == '+' then digits[1..] else digits
  }

  lemma {:induction false} LowerBody(digits: string)
    requires digits != []
    ensures Body(Lower(digits)) == Lower(Body(digits))
  {
    assert Lower(digits)[0] == '+' <==> digits[0] == '+';
    assert Lower(digits)[1..] == Lower(digits[1..]);
  }

  lemma {:induction false} ParsesBody(digits: string)
    requires digits != []
    ensures Parse("0x" + digits) ==
      if Body(digits) != [] && AllDigits(Body(digits)) && Value(Body(digits)) < U64_LIMIT then Some(Value(Body(digits)))
      else None
  {
    ParseCharacterized(digits);
  }

  /** Upper-case and lower-case digits parse alike, whether to a value or to a rejection. */
  lemma {:induction false} CaseDoesNotMatter(digits: string)
    ensures Parse("0x" + Lower(digits)) == Parse("0x" + digits)
  {
    if digits != [] {
      ParsesBody(digits);
      ParsesBody(Lower(digits));
      LowerBody(digits);
      LowerDenotesSame(Body(digits));
    } else {
      assert Lower(digits) == [];
    }
  }

  /** Any string whose lower-case form is the printed form of a u64 parses to it. */
  lemma {:induction false} RoundTripAnyCase(n: nat, digits: string)
    requires n < U64_LIMIT && Lower(digits) == Print(n)
    ensures Parse("0x" + digits) == Some(n)
  {
    CaseDoesNotMatter(digits);
    RoundTrip(n);
  }

  /** The printed form has no leading zero. */
  lemma {:induction false} PrintIsShortest(n: nat)
    ensures n > 0 ==> Print(n)[0] != '0'
  {
    if n >= 16 {
      PrintIsShortest(n / 16);
      PrintDenotes(n / 16);
    }
  }

  /** The prefix alone denotes zero, and nothing without the prefix is accepted. */
  lemma {:induction false} PrefixDecides(s: string)
    ensures s == "0x" ==> Parse(s) == Some(0)
    ensures |s| < 2 || s[0] != '0' || s[1] != 'x' ==> Parse(s) == None
  {
    if |s| >= 2 {
      assert s[..2] == [s[0], s[1]];
    }
  }

  /** The sixteen digits in either case, in order of their values. */
  lemma {:induction false} DigitsInOrder(d: nat)
    requires d < 16
    ensures DigitValue("0123456789abcdef"[d]) == Some(d) && DigitValue("0123456789ABCDEF"[d]) == Some(d)
  {
  }

  function Pow16(n: nat): nat
  {
    if n == 0 then 1 else 16 * Pow16(n - 1)
  }

  lemma {:induction false} ValueAppend(s: string, c: char)
    requires AllDigits(s) && DigitValue(c).Some?
    ensures AllDigits(s + [c]) && Value(s + [c]) == Value(s) * 16 + DigitValue(c).value
  {
    assert (s + [c])[..|s|] == s;
  }

  /** The first digit weighs most, and each digit sixteen times the next. */
  lemma {:induction false} FirstDigitWeighsMost(c: char, rest: string)
    requires DigitValue(c).Some? && AllDigits(rest)
    ensures AllDigits([c] + rest) && Value([c] + rest) == DigitValue(c).value * Pow16(|rest|) + Value(rest)
  {
    if rest == [] {
      ValueAppend([], c);
      assert [c] + rest == [] + [c];
    } else {
      var n := |rest| - 1;
      var front, last := rest[..n], rest[n];
      FirstDigitWeighsMost(c, front);
      ValueAppend([c] + front, last);
      ValueAppend(front, last);
      assert rest == front + [last] && [c] + rest == ([c] + front) + [last];
      Shifted(DigitValue(c).value, Pow16(n), Value(front), DigitValue(last).value);
    }
  }

  lemma {:induction false} Shifted(d: nat, p: nat, v: nat, x: nat)
    ensures (d * p + v) * 16 + x == d * (16 * p) + (v * 16 + x)
  {
  }

  lemma {:induction false} KnownValue()
    ensures AllDigits("1312D00") && Value("1312D00") == 20_000_000
  {
    ValueAppend("", '1');
    assert "" + ['1'] == "1" && "1" + ['3'] == "13" && "13" + ['1'] == "131" && "131" + ['2'] == "1312";
    assert "1312" + ['D'] == "1312D" && "1312D" + ['0'] == "1312D0" && "1312D0" + ['0'] == "1312D00";
    ValueAppend("1", '3');
    ValueAppend("13", '1');
    ValueAppend("131", '2');
    ValueAppend("1312", 'D');
    ValueAppend("1312D", '0');
    ValueAppend("1312D0", '0');
  }

  /** The block number of the repository's own test. */
  lemma {:induction false} KnownQuantity()
    ensures Parse("0x" + "1312D00") == Some(20_000_000)
  {
    KnownValue();
    ParseCharacterized("1312D00");
  }

  lemma {:induction false} LeadingZero(s: string)
    requires AllDigits(s)
    ensures AllDigits("0" + s) && Value("0" + s) == Value(s)
  {
    if s == [] {
      assert ("0" + s)[..0] == [];
    } else {
      LeadingZero(s[..|s| - 1]);
      assert ("0" + s)[..|"0" + s| - 1] == "0" + s[..|s| - 1];
    }
  }

  function Zeros(k: nat): string
  {
    if k == 0 then "" else "0" + Zeros(k - 1)
  }

  lemma {:induction false} ZerosDenoteNothing(k: nat, s: string)
    requires AllDigits(s)
    ensures AllDigits(Zeros(k) + s) && Value(Zeros(k) + s) == Value(s)
  {
    if k == 0 {
      assert Zeros(k) + s == s;
    } else {
      ZerosDenoteNothing(k - 1, s);
      LeadingZero(Zeros(k - 1) + s);
      assert Zeros(k) + s == "0" + (Zeros(k - 1) + s);
    }
  }

  /** Any number of leading zeros leaves the result unchanged, whether a value or a rejection. */
  lemma {:induction false} LeadingZerosIgnored(k: nat, digits: string)
    requires digits != [] && AllDigits(digits)
    ensures Parse("0x" + Zeros(k) + digits) == Parse("0x" + digits)
    ensures Value(digits) >= U64_LIMIT ==> Parse("0x" + Zeros(k) + digits) == None
  {
    var all := Zeros(k) + digits;
    ZerosDenoteNothing(k, digits);
    assert DigitValue('+').None?;
    assert all[0] != '+' && digits[0] != '+';
    ParseCharacterized(all);
    ParseCharacterized(digits);
    assert "0x" + Zeros(k) + digits == "0x" + all;
  }
}
