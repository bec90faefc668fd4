/** Amounts of WAL as text: the parser of the delegate endpoint and the balance printer, over
    unsigned 64-bit counts of frost (10^9 frost to the WAL). */
module WalAmount {
  import opened Words

  const WAL: nat := 1_000_000_000

  datatype ParseError = Empty | InvalidDigit | TooLarge | TooManyDecimals | AmountOverflow | InvalidFormat

  datatype Result = Ok(value: nat) | Err(error: ParseError)

  // ----- Decimal numerals, and what they mean -----

  predicate IsDigit(c: char) { '0' <= c <= '9' }

  predicate AllDigits(s: string) { forall i :: 0 <= i < |s| ==> IsDigit(s[i]) }

  function DigitValue(c: char): nat
    requires IsDigit(c)
  {
    c as int - '0' as int
  }

  /** The number a string of digits denotes. */
  function Val(s: string): nat
    requires AllDigits(s)
  {
    if s == "" then 0 else 10 * Val(s[..|s| - 1]) + DigitValue(s[|s| - 1])
  }

  function Pow10(k: nat): nat { if k == 0 then 1 else 10 * Pow10(k - 1) }

  function Zeros(k: nat): (z: string)
    ensures |z| == k && forall i :: 0 <= i < k ==> z[i] == '0'
  {
    if k == 0 then "" else Zeros(k - 1) + ['0']
  }

  lemma ValPush(s: string, c: char)
    requires AllDigits(s) && IsDigit(c)
    ensures AllDigits(s + [c]) && Val(s + [c]) == 10 * Val(s) + DigitValue(c)
  {
    assert (s + [c])[..|s|] == s;
  }

  lemma {:induction false} ValGrows(s: string, t: string)
    requires AllDigits(s) && AllDigits(t)
    ensures AllDigits(s + t) && Val(s) <= Val(s + t)
    decreases |t|
  {
    if t == "" {
      assert s + t == s;
    } else {
      var u := t[..|t| - 1];
      ValGrows(s, u);
      ValPush(s + u, t[|t| - 1]);
      assert s + t == s + u + [t[|t| - 1]];
    }
  }

  lemma {:induction false} ValZeros(s: string, k: nat)
    requires AllDigits(s)
    ensures AllDigits(s + Zeros(k)) && Val(s + Zeros(k)) == Val(s) * Pow10(k)
  {
    if k == 0 {
      assert s + Zeros(0) == s;
    } else {
      ValZeros(s, k - 1);
      ValPush(s + Zeros(k - 1), '0');
      assert s + Zeros(k) == s + Zeros(k - 1) + ['0'];
    }
  }

  lemma {:induction false} ZerosVal(k: nat, s: string)
    requires AllDigits(s)
    ensures AllDigits(Zeros(k) + s) && Val(Zeros(k) + s) == Val(s)
    decreases k, |s|
  {
    if s == "" {
      assert Zeros(k) + s == "" + Zeros(k);
      ValZeros("", k);
    } else {
      var u := s[..|s| - 1];
      ZerosVal(k, u);
      ValPush(Zeros(k) + u, s[|s| - 1]);
      assert Zeros(k) + s == Zeros(k) + u + [s[|s| - 1]];
    }
  }

  lemma {:induction false} ValBound(s: string)
    requires AllDigits(s)
    ensures Val(s) < Pow10(|s|)
  {
    if s != "" { ValBound(s[..|s| - 1]); }
  }

  // ----- Reading an unsigned 64-bit number -----

  function StripPlus(s: string): string { if s != "" && s[0] == '+' then s[1..] else s }

  function ParseDigits(s: string, acc: nat): Result
    decreases |s|
  {
    if s == "" then Ok(acc)
    else if !IsDigit(s[0]) then Err(InvalidDigit)
    else if 10 * acc + DigitValue(s[0]) > U64_MAX then Err(TooLarge)
    else ParseDigits(s[1..], 10 * acc + DigitValue(s[0]))
  }

  function ParseU64(s: string): Result {
    if s == "" then Err(Empty)
    else if s == "+" || s == "-" then Err(InvalidDigit)
    else ParseDigits(StripPlus(s), 0)
  }

  /** An optional plus sign and at least one digit. */
  predicate Numeral(s: string) { StripPlus(s) != "" && AllDigits(StripPlus(s)) }

  lemma {:induction false} ParseDigitsFrom(p: string, t: string)
    requires AllDigits(p) && Val(p) <= U64_MAX
    ensures ParseDigits(t, Val(p)).Ok? <==> AllDigits(p + t) && Val(p + t) <= U64_MAX
    ensures ParseDigits(t, Val(p)).Ok? ==> ParseDigits(t, Val(p)).value == Val(p + t)
    ensures AllDigits(p + t) && Val(p + t) > U64_MAX ==> ParseDigits(t, Val(p)) == Err(TooLarge)
    decreases |t|
  {
    if t == "" {
      assert p + t == p;
    } else if !IsDigit(t[0]) {
      assert (p + t)[|p|] == t[0];
    } else {
      var q, u := p + [t[0]], t[1..];
      ValPush(p, t[0]);
      assert p + t == q + u;
      if Val(q) <= U64_MAX {
        ParseDigitsFrom(q, u);
      } else if AllDigits(q + u) {
        assert AllDigits(u) by { assert forall i :: 0 <= i < |u| ==> u[i] == (q + u)[|q| + i]; }
        ValGrows(q, u);
      }
    }
  }

  lemma ParseDigitsFromStart(t: string)
    ensures ParseDigits(t, 0).Ok? <==> AllDigits(t) && Val(t) <= U64_MAX
    ensures ParseDigits(t, 0).Ok? ==> ParseDigits(t, 0).value == Val(t)
    ensures AllDigits(t) && Val(t) > U64_MAX ==> ParseDigits(t, 0) == Err(TooLarge)
  {
    var none: string := "";
    assert none + t == t;
    ParseDigitsFrom(none, t);
  }

  /** The number parser accepts exactly the numerals that fit, and returns what they denote. */
  lemma ParseU64Exactly(s: string)
    ensures ParseU64(s).Ok? <==> Numeral(s) && Val(StripPlus(s)) <= U64_MAX
    ensures ParseU64(s).Ok? ==> ParseU64(s).value == Val(StripPlus(s))
    ensures Numeral(s) && Val(StripPlus(s)) > U64_MAX ==> ParseU64(s) == Err(TooLarge)
  {
    var t := StripPlus(s);
    if s == "-" {
      assert !IsDigit(t[0]);
    } else if t != "" {
      ParseDigitsFromStart(t);
    }
  }

  // ----- Parsing an amount -----

  /** The pieces between the points; one more than there are points. */
  function Split(s: string): (parts: seq<string>)
    ensures |parts| >= 1
  {
    if s == "" then [""]
    else
      var rest := Split(s[1..]);
      if s[0] == '.' then [""] + rest else [[s[0]] + rest[0]] + rest[1..]
  }

  /** Fill up with zeros on the right, to nine characters. */
  function PadRight(s: string): string { s + Zeros(if |s| < 9 then 9 - |s| else 0) }

  function SaturatingFrost(whole: nat): nat { if whole * WAL > U64_MAX then U64_MAX else whole * WAL }

  function CheckedSum(a: nat, b: nat): Result { if a + b > U64_MAX then Err(AmountOverflow) else Ok(a + b) }

  function ParseWhole(s: string): Result {
    match ParseU64(s)
    case Err(e) => Err(e)
    case Ok(n) => Ok(SaturatingFrost(n))
  }

  function ParseParts(integer: string, frac: string): Result {
    match ParseU64(integer)
    case Err(e) => Err(e)
    case Ok(n) =>
      if |frac| > 9 then Err(TooManyDecimals)
      else
        match ParseU64(PadRight(frac))
        case Err(e) => Err(e)
        case Ok(f) => CheckedSum(SaturatingFrost(n), f)
  }

  function ParseWalAmount(s: string): Result {
    var parts := Split(s);
    if |parts| == 1 then ParseWhole(parts[0])
    else if |parts| == 2 then ParseParts(parts[0], parts[1])
    else Err(InvalidFormat)
  }

  // ----- Printing a balance -----

  function Decimal(n: nat): (s: string)
    ensures s != "" && AllDigits(s)
  {
    if n < 10 then [('0' as int + n) as char] else Decimal(n / 10) + [('0' as int + n % 10) as char]
  }

  function PadLeft(s: string): string { Zeros(if |s| < 9 then 9 - |s| else 0) + s }

  function PrintBalance(balance: nat): string {
    Decimal(balance / WAL) + "." + PadLeft(Decimal(balance % WAL))
  }

  // ----- Splitting -----

  predicate NoPoint(s: string) { forall i :: 0 <= i < |s| ==> s[i] != '.' }

  lemma {:induction false} SplitWhole(s: string)
    ensures Split(s) == [s] <==> NoPoint(s)
    ensures |Split(s)| == 1 ==> Split(s) == [s]
  {
    if s != "" {
      SplitWhole(s[1..]);
      assert s == [s[0]] + s[1..];
    }
  }

  lemma {:induction false} SplitAtPoint(i: string, rest: string)
    requires NoPoint(i)
    ensures Split(i + "." + rest) == [i] + Split(rest)
    decreases |i|
  {
    var s := i + "." + rest;
    if i == "" {
      assert s[1..] == rest;
    } else {
      SplitAtPoint(i[1..], rest);
      assert s[1..] == i[1..] + "." + rest && s[0] == i[0];
      assert [i[0]] + i[1..] == i;
    }
  }

  /** Two pieces are the text before and after its only point. */
  lemma {:induction false} SplitInTwo(s: string)
    requires |Split(s)| == 2
    ensures s == Split(s)[0] + "." + Split(s)[1] && NoPoint(Split(s)[0]) && NoPoint(Split(s)[1])
  {
    var rest := s[1..];
    assert s == [s[0]] + rest;
    if s[0] == '.' {
      SplitWhole(rest);
    } else {
      SplitInTwo(rest);
    }
  }

  lemma DigitsHaveNoPoint(s: string)
    requires AllDigits(StripPlus(s))
    ensures NoPoint(s)
  {
    if s != "" && s[0] == '+' { assert s == ['+'] + s[1..]; }
  }

  // ----- What the parser accepts -----

  /** At most nine characters: digits, or a plus sign and digits; the plus sign takes a place. */
  predicate Fraction(f: string) { |f| <= 9 && AllDigits(StripPlus(f)) }

  /** The frost a fraction stands for. */
  function FractionFrost(f: string): nat
    requires Fraction(f)
  {
    Val(StripPlus(f)) * Pow10(9 - |f|)
  }

  lemma StripAppend(f: string, z: string)
    requires z == "" || z[0] != '+'
    ensures StripPlus(f + z) == StripPlus(f) + z
  {
    if f == "" {
      assert f + z == z;
    } else {
      assert (f + z)[1..] == f[1..] + z;
    }
  }

  lemma FractionBound(f: string)
    requires Fraction(f)
    ensures FractionFrost(f) < WAL
  {
    var d, k := StripPlus(f), 9 - |f|;
    ValZeros(d, k);
    ValBound(d + Zeros(k));
    PowMonotone(|d| + k, 9);
    assert Pow10(9) == WAL;
  }

  lemma {:induction false} PowMonotone(a: nat, b: nat)
    requires a <= b
    ensures Pow10(a) <= Pow10(b)
  {
    if a < b { PowMonotone(a, b - 1); }
  }

  /** The padded fraction parses exactly when it is one, to the frost it stands for. */
  lemma ParsePadded(f: string)
    requires |f| <= 9
    ensures ParseU64(PadRight(f)).Ok? <==> Fraction(f)
    ensures Fraction(f) ==> ParseU64(PadRight(f)) == Ok(FractionFrost(f))
  {
    var d, z := StripPlus(f), Zeros(9 - |f|);
    StripAppend(f, z);
    ParseU64Exactly(PadRight(f));
    if AllDigits(d) {
      ValZeros(d, 9 - |f|);
      FractionBound(f);
    } else {
      var i :| 0 <= i < |d| && !IsDigit(d[i]);
      assert (d + z)[i] == d[i];
    }
  }

  /** One numeral, standing for whole WAL. */
  predicate ReadsWhole(s: string, v: nat) {
    Numeral(s) && Val(StripPlus(s)) <= U64_MAX && v == SaturatingFrost(Val(StripPlus(s)))
  }

  /** A numeral, a point and a fraction. */
  predicate ReadsParts(s: string, i: string, f: string, v: nat) {
    && s == i + "." + f && Numeral(i) && Fraction(f) && Val(StripPlus(i)) <= U64_MAX
    && v == SaturatingFrost(Val(StripPlus(i))) + FractionFrost(f) && v <= U64_MAX
  }

  lemma PartsExactly(i: string, f: string, v: nat)
    ensures ParseParts(i, f) == Ok(v) <==> ReadsParts(i + "." + f, i, f, v)
  {
    ParseU64Exactly(i);
    if |f| <= 9 { ParsePadded(f); }
  }

  /** For every text: the parser returns v exactly when the text is a numeral, or a numeral, a
      point and a fraction, that stands for v. */
  lemma AcceptsExactly(s: string, v: nat)
    ensures ParseWalAmount(s) == Ok(v) <==> ReadsWhole(s, v) || exists i, f :: ReadsParts(s, i, f, v)
  {
    if ReadsWhole(s, v) {
      DigitsHaveNoPoint(s);
      SplitWhole(s);
      ParseU64Exactly(s);
    }
    if i, f :| ReadsParts(s, i, f, v) {
      DigitsHaveNoPoint(i);
      DigitsHaveNoPoint(f);
      SplitAtPoint(i, f);
      SplitWhole(f);
      PartsExactly(i, f, v);
    }
    if ParseWalAmount(s) == Ok(v) {
      var parts := Split(s);
      if |parts| == 1 {
        SplitWhole(s);
        ParseU64Exactly(s);
      } else {
        SplitInTwo(s);
        PartsExactly(parts[0], parts[1], v);
        assert ReadsParts(s, parts[0], parts[1], v);
      }
    }
  }

  // ----- Exact amounts, and when the parser misses them -----

  /** The amount that digits I.F write down, in frost. */
  function Exact(i: string, f: string): nat
    requires AllDigits(i) && AllDigits(f) && |f| <= 9
  {
    Val(i) * WAL + Val(f) * Pow10(9 - |f|)
  }

  lemma PlainStrip(s: string)
    requires AllDigits(s)
    ensures StripPlus(s) == s
  {
  }

  lemma ParsePlain(i: string, f: string)
    requires AllDigits(i) && i != "" && AllDigits(f) && |f| <= 9
    ensures FractionFrost(f) == Val(f) * Pow10(9 - |f|) < WAL
    ensures ParseWalAmount(i + "." + f) ==
            if Val(i) > U64_MAX then Err(TooLarge) else CheckedSum(SaturatingFrost(Val(i)), FractionFrost(f))
  {
    PlainStrip(i);
    PlainStrip(f);
    SplitAtPoint(i, f);
    SplitWhole(f);
    ParseU64Exactly(i);
    ParsePadded(f);
    FractionBound(f);
  }

  /** The parser is meant to return the exact amount or an error. It returns another amount
      exactly when the whole part alone is too many frost, but itself fits 64 bits, and the
      fraction is zero: then it returns the largest amount there is. */
  lemma MissesExactlyWhenSaturated(i: string, f: string)
    requires AllDigits(i) && i != "" && AllDigits(f) && |f| <= 9
    ensures var r := ParseWalAmount(i + "." + f);
            && (Exact(i, f) <= U64_MAX ==> r == Ok(Exact(i, f)))
            && (Exact(i, f) > U64_MAX ==>
                  r == if U64_MAX / WAL < Val(i) <= U64_MAX && Val(f) == 0 then Ok(U64_MAX)
                       else Err(if Val(i) > U64_MAX then TooLarge else AmountOverflow))
  {
    ParsePlain(i, f);
    var power := Pow10(9 - |f|);
    PowPositive(9 - |f|);
    SaturatedSum(Val(i), Val(f), power, FractionFrost(f));
  }

  lemma SaturatedSum(n: nat, v: nat, power: nat, frost: nat)
    requires power > 0 && frost == v * power < WAL
    ensures var exact, r := n * WAL + v * power,
            if n > U64_MAX then Err(TooLarge) else CheckedSum(SaturatingFrost(n), frost);
            && (exact <= U64_MAX ==> r == Ok(exact))
            && (exact > U64_MAX ==>
                  r == if U64_MAX / WAL < n <= U64_MAX && v == 0 then Ok(U64_MAX)
                       else Err(if n > U64_MAX then TooLarge else AmountOverflow))
  {
    ZeroProduct(v, power);
  }

  lemma {:induction false} PowPositive(k: nat)
    ensures Pow10(k) > 0
  {
    if k > 0 { PowPositive(k - 1); }
  }

  lemma ZeroProduct(a: nat, b: nat)
    requires b > 0
    ensures a * b == 0 <==> a == 0
  {
    if a > 0 { assert a * b >= b; }
  }

  /** The same for an amount without a point. */
  lemma WholeMissesExactlyWhenSaturated(i: string)
    requires AllDigits(i) && i != ""
    ensures ParseWalAmount(i) ==
            if Val(i) > U64_MAX then Err(TooLarge)
            else if Val(i) > U64_MAX / WAL then Ok(U64_MAX)
            else Ok(Val(i) * WAL)
  {
    PlainStrip(i);
    SplitWhole(i);
    ParseU64Exactly(i);
  }

  /** A plus sign after the point takes a decimal place: 1.+5 reads as 1.05. */
  lemma PlusTakesAPlace()
    ensures ParseWalAmount("1.+5") == Ok(1_050_000_000)
  {
    var i, f := "1", "+5";
    assert "1.+5" == i + "." + f;
    assert StripPlus(f) == "5" && Val("5") == 5 && Val("1") == 1;
    assert Pow10(7) == 10_000_000;
    assert ReadsParts("1.+5", i, f, 1_050_000_000);
    AcceptsExactly("1.+5", 1_050_000_000);
  }

  // ----- The round trip -----

  lemma {:induction false} DecimalVal(n: nat)
    ensures Val(Decimal(n)) == n
  {
    if n >= 10 {
      DecimalVal(n / 10);
      ValPush(Decimal(n / 10), ('0' as int + n % 10) as char);
    } else {
      ValPush("", ('0' as int + n) as char);
      assert "" + Decimal(n) == Decimal(n);
    }
  }

  /** Inputs that miss: every whole amount of more than U64_MAX / WAL that fits 64 bits. */
  lemma SaturatedExample(n: nat)
    requires U64_MAX / WAL < n <= U64_MAX
    ensures ParseWalAmount(Decimal(n) + "." + "0") == Ok(U64_MAX)
    ensures Exact(Decimal(n), "0") > U64_MAX
  {
    DecimalVal(n);
    assert Val("0") == 0;
    MissesExactlyWhenSaturated(Decimal(n), "0");
  }

  lemma {:induction false} DecimalLength(n: nat, k: nat)
    requires k > 0 && n < Pow10(k)
    ensures |Decimal(n)| <= k
    decreases k
  {
    if n >= 10 { DecimalLength(n / 10, k - 1); }
  }

  /** The printed fraction always has nine digits. */
  lemma PrintedFraction(n: nat)
    requires n < WAL
    ensures var f := PadLeft(Decimal(n)); |f| == 9 && AllDigits(f) && Val(f) == n
  {
    assert Pow10(9) == WAL;
    DecimalLength(n, 9);
    DecimalVal(n);
    ZerosVal(9 - |Decimal(n)|, Decimal(n));
  }

  /** Every balance, printed and parsed again, is the same balance. */
  lemma PrintParse(balance: nat)
    requires balance <= U64_MAX
    ensures ParseWalAmount(PrintBalance(balance)) == Ok(balance)
  {
    var i, f := Decimal(balance / WAL), PadLeft(Decimal(balance % WAL));
    DecimalVal(balance / WAL);
    PrintedFraction(balance % WAL);
    MissesExactlyWhenSaturated(i, f);
    assert Exact(i, f) == balance;
  }

  lemma {:induction false} NoLeadingZero(n: nat)
    ensures Decimal(n) == "0" || Decimal(n)[0] != '0'
  {
    if n >= 10 {
      NoLeadingZero(n / 10);
      DecimalVal(n / 10);
    }
  }

  /** What is printed: the whole WAL without leading zeros, a point, and nine digits of frost. */
  lemma PrintedForm(balance: nat) returns (whole: string, frost: string)
    ensures PrintBalance(balance) == whole + "." + frost
    ensures AllDigits(whole) && whole != "" && (whole == "0" || whole[0] != '0')
    ensures AllDigits(frost) && |frost| == 9
    ensures Val(whole) == balance / 1_000_000_000 && Val(frost) == balance % 1_000_000_000
  {
    whole, frost := Decimal(balance / WAL), PadLeft(Decimal(balance % WAL));
    NoLeadingZero(balance / WAL);
    DecimalVal(balance / WAL);
    PrintedFraction(balance % WAL);
  }

  // ----- The errors -----

  /** Some digits at the front alone are too many. */
  ghost predicate TooManyDigits(t: string) {
    exists k :: 0 <= k <= |t| && AllDigits(t[..k]) && Val(t[..k]) > U64_MAX
  }

  lemma {:induction false} DigitsError(p: string, t: string)
    requires AllDigits(p) && Val(p) <= U64_MAX && ParseDigits(t, Val(p)).Err?
    ensures ParseDigits(t, Val(p)) == Err(TooLarge) || ParseDigits(t, Val(p)) == Err(InvalidDigit)
    ensures ParseDigits(t, Val(p)) == Err(TooLarge) <==> TooManyDigits(p + t)
    decreases |t|
  {
    var all := p + t;
    if !IsDigit(t[0]) {
      forall k | |p| < k <= |all| ensures !AllDigits(all[..k]) { assert all[..k][|p|] == t[0]; }
      forall k | 0 <= k <= |p| ensures AllDigits(all[..k]) && Val(all[..k]) <= Val(p) { PrefixSmall(p, all, k); }
    } else {
      var q := p + [t[0]];
      ValPush(p, t[0]);
      assert all == q + t[1..];
      if Val(q) > U64_MAX {
        assert all[..|q|] == q;
      } else {
        DigitsError(q, t[1..]);
      }
    }
  }

  lemma PrefixSmall(p: string, all: string, k: nat)
    requires AllDigits(p) && p <= all && k <= |p|
    ensures AllDigits(all[..k]) && Val(all[..k]) <= Val(p)
  {
    assert all[..k] == p[..k] && p == p[..k] + p[k..];
    ValGrows(p[..k], p[k..]);
  }

  /** Why a number does not parse: it is empty; or its leading digits alone are too many; or it
      has something that is no digit before that, or nothing but a sign. */
  lemma NumberErrors(s: string)
    requires ParseU64(s).Err?
    ensures ParseU64(s).error ==
            if s == "" then Empty else if TooManyDigits(StripPlus(s)) then TooLarge else InvalidDigit
  {
    if s == "-" {
      assert StripPlus(s) == s && s[..1] == s && !IsDigit(s[0]);
    } else if s != "" && s != "+" {
      var none: string := "";
      assert none + StripPlus(s) == StripPlus(s);
      DigitsError(none, StripPlus(s));
    }
  }

  lemma {:induction false} SplitCounts(s: string)
    ensures |Split(s)| == 1 + Points(s)
  {
    if s != "" { SplitCounts(s[1..]); }
  }

  function Points(s: string): nat {
    if s == "" then 0 else (if s[0] == '.' then 1 else 0) + Points(s[1..])
  }

  /** Why an amount does not parse, in the order the reasons are looked at: more than one point;
      the number before it; more than nine places after it; the number they make; the sum. */
  lemma AmountErrors(s: string)
    requires ParseWalAmount(s).Err?
    ensures Points(s) > 1 ==> ParseWalAmount(s) == Err(InvalidFormat)
    ensures Points(s) == 0 ==> ParseWalAmount(s) == ParseU64(s)
    ensures Points(s) == 1 ==> exists i, f :: s == JoinAtPoint(i, f) && ParseWalAmount(s) == Err(WhyNot(i, f))
  {
    SplitCounts(s);
    if Points(s) == 0 {
      SplitWhole(s);
    } else if Points(s) == 1 {
      SplitInTwo(s);
      assert s == JoinAtPoint(Split(s)[0], Split(s)[1]);
    }
  }

  function JoinAtPoint(i: string, f: string): string { i + "." + f }

  function WhyNot(i: string, f: string): ParseError {
    if ParseU64(i).Err? then ParseU64(i).error
    else if |f| > 9 then TooManyDecimals
    else if ParseU64(PadRight(f)).Err? then ParseU64(PadRight(f)).error
    else AmountOverflow
  }
}
