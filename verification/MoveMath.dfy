/** Checked u64 and u128 arithmetic of the Move contracts, and the fixed point
    helper `mul_div` every share price goes through. */
module MoveMath {
  import opened Division
  import opened Words

  const U128_MAX: nat := 340282366920938463463374607431768211455

  type u64 = n: nat | n <= U64_MAX
  type u128 = n: nat | n <= U128_MAX

  /** Why a transaction aborted. The constructors follow the error constants of the
      modules; ArithmeticError is the virtual machine's own check on `+`, `-`, `*`,
      and InvalidInput stands for a transaction naming an object it cannot use. */
  datatype AbortReason =
    | ArithmeticError
    | MulDivError
    | ZeroAmount
    | ZeroShares
    | WrongVault
    | InvalidCommission
    | NotVaultOwner
    | NoEarnings
    | AlreadyRegistered
    | InsufficientBond
    | InsufficientStake
    | BelowMinStake
    | NotPeerOwner
    | DuplicateKey
    | InvalidInput

  datatype Outcome<+T> = Ok(value: T) | Abort(reason: AbortReason) {
    predicate IsFailure() { Abort? }
    function PropagateFailure<U>(): Outcome<U> requires Abort? { Abort(reason) }
    function Extract(): T requires Ok? { value }
  }

  function CheckedU64(n: int): Outcome<u64> {
    if 0 <= n <= U64_MAX then Ok(n) else Abort(ArithmeticError)
  }

  function CheckedU128(n: int): Outcome<u128> {
    if 0 <= n <= U128_MAX then Ok(n) else Abort(ArithmeticError)
  }

  /** `big / c * small + big % c * small / c`, every step checked to fit 128 bits. */
  function SplitQuotient(big: nat, small: nat, c: nat): Outcome<u128>
    requires c > 0
  {
    var whole :- CheckedU128(big / c * small);
    var scaled :- CheckedU128(big % c * small);
    CheckedU128(whole + scaled / c)
  }

  /** Divides the larger operand first. */
  function U128MulDiv(a: u128, b: u128, c: u128): Outcome<u128> {
    if c == 0 then Abort(MulDivError)
    else if a >= b then SplitQuotient(a, b, c)
    else SplitQuotient(b, a, c)
  }

  function MulDiv(a: u64, b: u64, c: u64): Outcome<u64> {
    var r :- U128MulDiv(a, b, c);
    if r <= U64_MAX then Ok(r) else Abort(MulDivError)
  }

  // ----- The split form is exact -----

  /** Splitting the larger operand by c before multiplying loses nothing. */
  lemma SplitDivision(big: nat, small: nat, c: nat)
    requires c > 0
    ensures big / c * small + big % c * small / c == big * small / c
  {
    var q, r := big / c, big % c;
    var rest := r * small;
    DivBounds(big, c);
    DivBounds(rest, c);
    var x := q * small + rest / c;
    calc {
      big * small;
      (q * c + r) * small;
      q * small * c + rest;
    }
    assert x * c == q * small * c + rest / c * c;
    DivUnique(big * small, c, x);
  }

  lemma U64Product(a: u64, b: u64)
    ensures a * b <= U64_MAX * U64_MAX < U128_MAX
  {
    MulLe(a, U64_MAX, b);
    MulLe(b, U64_MAX, U64_MAX);
  }

  /** Neither product of the split form is larger than the full product. */
  lemma SplitProducts(big: nat, small: nat, c: nat)
    requires c > 0
    ensures 0 <= big / c * small <= big * small
    ensures 0 <= big % c * small <= big * small
    ensures big * small / c <= big * small
  {
    DivBounds(big, c);
    DivLe(big, c);
    MulLe(0, big / c, small);
    MulLe(big / c, big, small);
    MulLe(0, big % c, small);
    MulLe(big % c, big, small);
    DivLe(big * small, c);
  }

  lemma SplitQuotientExact(big: nat, small: nat, c: nat)
    requires c > 0 && big * small <= U128_MAX
    ensures SplitQuotient(big, small, c) == Ok(big * small / c)
  {
    SplitDivision(big, small, c);
    SplitProducts(big, small, c);
  }

  /** On u64 inputs the split form is the exact quotient: it never overflows 128 bits,
      and it aborts only on a zero divisor or a quotient that needs more than 64 bits. */
  lemma MulDivExact(a: u64, b: u64, c: u64)
    ensures c == 0 ==> MulDiv(a, b, c) == Abort(MulDivError)
    ensures c > 0 && a * b / c <= U64_MAX ==> MulDiv(a, b, c) == Ok(a * b / c)
    ensures c > 0 && a * b / c > U64_MAX ==> MulDiv(a, b, c) == Abort(MulDivError)
  {
    if c > 0 {
      U64Product(a, b);
      SplitQuotientExact(a, b, c);
      SplitQuotientExact(b, a, c);
    }
  }

  // ----- Shares of a reserve, over plain integers -----

  /** `part` out of `whole` shares of `reserve`, rounded down. */
  function Portion(part: nat, reserve: nat, whole: nat): nat
    requires whole > 0
  {
    MulNonNegative(part, reserve);
    part * reserve / whole
  }

  lemma PortionBounds(part: nat, reserve: nat, whole: nat)
    requires whole > 0
    ensures Portion(part, reserve, whole) * whole <= part * reserve < Portion(part, reserve, whole) * whole + whole
  {
    MulNonNegative(part, reserve);
    DivBounds(part * reserve, whole);
  }

  /** If the price reserve/whole does not fall, no portion falls. */
  lemma PortionMonotone(part: nat, reserve: nat, whole: nat, reserve': nat, whole': nat)
    requires whole > 0 && whole' > 0 && reserve * whole' <= reserve' * whole
    ensures Portion(part, reserve, whole) <= Portion(part, reserve', whole')
  {
    var x := Portion(part, reserve, whole);
    PortionBounds(part, reserve, whole);
    MulNonNegative(part, reserve');
    assert x * whole' <= part * reserve' by {
      calc {
        x * whole' * whole;
        x * whole * whole';
      <= { MulLe(x * whole, part * reserve, whole'); }
        part * reserve * whole';
        reserve * whole' * part;
      <= { MulLe(reserve * whole', reserve' * whole, part); }
        reserve' * whole * part;
        part * reserve' * whole;
      }
      CancelLe(x * whole', part * reserve', whole);
    }
    DivAtLeast(part * reserve', whole', x);
  }

  /** With reserve >= whole a portion is at least its face value, at most the reserve,
      and those left behind keep at least their face value and the price. */
  lemma PortionOfSoundReserve(part: nat, reserve: nat, whole: nat)
    requires 0 < whole <= reserve && part <= whole
    ensures part <= Portion(part, reserve, whole) <= reserve
    ensures whole - part <= reserve - Portion(part, reserve, whole)
    ensures reserve * (whole - part) <= (reserve - Portion(part, reserve, whole)) * whole
  {
    var x := Portion(part, reserve, whole);
    PortionBounds(part, reserve, whole);
    MulLe(whole, reserve, part);
    MulNonNegative(part, reserve);
    DivAtLeast(part * reserve, whole, part);
    MulLe(part, whole, reserve);
    CancelLe(x, reserve, whole);
    assert reserve * (whole - part) == reserve * whole - part * reserve;
    assert (reserve - x) * whole == reserve * whole - x * whole;
    MulLe(whole, reserve, whole - part);
    CancelLe(whole - part, reserve - x, whole);
  }

  /** Shares minted for a deposit at the current price: at most the deposit, and the
      price does not fall. */
  lemma MintAtPrice(deposit: nat, whole: nat, reserve: nat)
    requires 0 < whole <= reserve
    ensures Portion(deposit, whole, reserve) <= deposit
    ensures reserve * (whole + Portion(deposit, whole, reserve)) <= (reserve + deposit) * whole
  {
    var s := Portion(deposit, whole, reserve);
    PortionBounds(deposit, whole, reserve);
    MulLe(whole, reserve, deposit);
    CancelLe(s, deposit, reserve);
    assert reserve * (whole + s) == reserve * whole + s * reserve;
    assert (reserve + deposit) * whole == reserve * whole + deposit * whole;
  }

  /** Minting for a deposit and burning what was minted. */
  lemma MintThenBurn(deposit: nat, whole: nat, reserve: nat)
    requires 0 < whole <= reserve
    ensures var s := Portion(deposit, whole, reserve);
            var back := Portion(s, reserve + deposit, whole + s);
            && back <= deposit
            && (deposit - back) * (whole + s) < reserve + whole + s
  {
    var s := Portion(deposit, whole, reserve);
    var back := Portion(s, reserve + deposit, whole + s);
    PortionBounds(deposit, whole, reserve);
    PortionBounds(s, reserve + deposit, whole + s);
    var lost := deposit * whole - s * reserve;
    assert s * (reserve + deposit) == s * reserve + s * deposit;
    assert deposit * (whole + s) == deposit * whole + s * deposit;
    assert s * (reserve + deposit) == deposit * (whole + s) - lost;
    CancelLe(back, deposit, whole + s);
    assert (deposit - back) * (whole + s) == deposit * (whole + s) - back * (whole + s);
  }

  // ----- The client's estimate of a certificate's value -----

  function SaturatingMulU128(a: u128, b: u128): u128 {
    if a * b <= U128_MAX then a * b else U128_MAX
  }

  /** What the wallet shows for a certificate: 128-bit product, quotient, then a cast
      that keeps the low 64 bits. */
  function EstimatedValue(shares: u64, reserves: u64, totalShares: u64): u64 {
    if totalShares > 0 then
      var divisor := if totalShares > 1 then totalShares else 1;
      SaturatingMulU128(shares, reserves) / divisor % (U64_MAX + 1)
    else 0
  }

  /** The product never saturates, and the estimate is the contract's own payout exactly when
      the contract pays at all. */
  lemma EstimateIsExact(shares: u64, reserves: u64, totalShares: u64)
    requires totalShares > 0
    ensures EstimatedValue(shares, reserves, 0) == 0
    ensures shares * reserves <= U128_MAX && SaturatingMulU128(shares, reserves) == shares * reserves
    ensures MulDiv(shares, reserves, totalShares) == Ok(EstimatedValue(shares, reserves, totalShares))
            <==> shares * reserves / totalShares <= U64_MAX
  {
    MulDivExact(shares, reserves, totalShares);
    U64Product(shares, reserves);
    if shares * reserves / totalShares <= U64_MAX {
      assert SaturatingMulU128(shares, reserves) == shares * reserves;
    }
  }
}
