/** Per-peer vaults: shares minted and burnt against a growing WAL reserve. */
module PeerVaults {
  import opened Division
  import opened Words
  import opened MoveMath

  type Id = nat
  type Address = nat

  const BPS: nat := 10000

  datatype Vault = Vault(owner: Address, reserves: u64, totalShares: u64, commissionBps: u64, earnings: u64)

  datatype Certificate = Certificate(vaultId: Id, shares: u64)

  // ----- What each entry point computes -----

  function CreateVault(owner: Address, commissionBps: u64): Outcome<Vault> {
    if commissionBps <= BPS then Ok(Vault(owner, 0, 0, commissionBps, 0)) else Abort(InvalidCommission)
  }

  function MintedShares(v: Vault, wal: u64): Outcome<u64> {
    var shares :- if v.totalShares == 0 then Ok(wal) else MulDiv(wal, v.totalShares, v.reserves);
    if shares > 0 then Ok(shares) else Abort(ZeroShares)
  }

  function Delegate(v: Vault, wal: u64): Outcome<(Vault, u64)> {
    if wal == 0 then Abort(ZeroAmount) else
    var shares :- MintedShares(v, wal);
    var reserves :- CheckedU64(v.reserves + wal);
    var total :- CheckedU64(v.totalShares + shares);
    Ok((v.(reserves := reserves, totalShares := total), shares))
  }

  function Undelegate(id: Id, v: Vault, cert: Certificate): Outcome<(Vault, u64)> {
    if cert.vaultId != id then Abort(WrongVault)
    else if cert.shares == 0 then Abort(ZeroAmount) else
    var wal :- MulDiv(cert.shares, v.reserves, v.totalShares);
    var total :- CheckedU64(v.totalShares - cert.shares);
    var reserves :- CheckedU64(v.reserves - wal);
    Ok((v.(reserves := reserves, totalShares := total), wal))
  }

  function CollectRewards(v: Vault, amount: u64): Outcome<Vault> {
    if amount == 0 then Abort(ZeroAmount) else
    var commission :- MulDiv(amount, v.commissionBps, BPS);
    var rest :- CheckedU64(amount - commission);
    var earnings :- CheckedU64(v.earnings + commission);
    var reserves :- CheckedU64(v.reserves + rest);
    Ok(v.(reserves := reserves, earnings := earnings))
  }

  function ClaimEarnings(v: Vault, sender: Address): Outcome<(Vault, u64)> {
    if sender != v.owner then Abort(NotVaultOwner)
    else if v.earnings == 0 then Abort(NoEarnings)
    else Ok((v.(earnings := 0), v.earnings))
  }

  const RATE_SCALE: nat := 1_000_000_000

  function ExchangeRate(v: Vault): Outcome<u64> {
    if v.totalShares == 0 then Ok(RATE_SCALE) else MulDiv(v.reserves, RATE_SCALE, v.totalShares)
  }

  // ----- The vault object, updated in place -----

  class PeerVault {
    const id: Id
    const peerAddress: Address
    const commissionBps: u64
    var reserves: u64
    var totalShares: u64
    var peerEarnings: u64

    function Value(): Vault
      reads this
    {
      Vault(peerAddress, reserves, totalShares, commissionBps, peerEarnings)
    }

    constructor (id: Id, peerAddress: Address, commissionBps: u64)
      ensures this.id == id
      ensures Value() == Vault(peerAddress, 0, 0, commissionBps, 0)
    {
      this.id := id;
      this.peerAddress := peerAddress;
      this.commissionBps := commissionBps;
      reserves, totalShares, peerEarnings := 0, 0, 0;
    }

    /** A commission above 100% is refused. */
    static method Create(id: Id, peerAddress: Address, commissionBps: u64) returns (r: Outcome<PeerVault>)
      ensures r.Ok? ==>
                && fresh(r.value) && r.value.id == id
                && CreateVault(peerAddress, commissionBps) == Ok(r.value.Value())
      ensures r.Abort? ==> CreateVault(peerAddress, commissionBps) == Abort(r.reason)
    {
      if commissionBps > BPS { return Abort(InvalidCommission); }
      var vault := new PeerVault(id, peerAddress, commissionBps);
      r := Ok(vault);
    }

    method Deposit(wal: u64) returns (r: Outcome<Certificate>)
      modifies this
      ensures match Delegate(old(Value()), wal)
              case Ok((v, shares)) => Value() == v && r == Ok(Certificate(id, shares))
              case Abort(why) => Value() == old(Value()) && r == Abort(why)
    {
      if wal == 0 { return Abort(ZeroAmount); }
      var shares := wal;
      if totalShares != 0 {
        var minted := MulDiv(wal, totalShares, reserves);
        if minted.Abort? { return Abort(minted.reason); }
        shares := minted.value;
      }
      if shares == 0 { return Abort(ZeroShares); }
      var joined := CheckedU64(reserves + wal);
      var total := CheckedU64(totalShares + shares);
      if joined.Abort? || total.Abort? { return Abort(ArithmeticError); }
      reserves := joined.value;
      totalShares := total.value;
      r := Ok(Certificate(id, shares));
    }

    method Redeem(cert: Certificate) returns (r: Outcome<u64>)
      modifies this
      ensures match Undelegate(id, old(Value()), cert)
              case Ok((v, wal)) => Value() == v && r == Ok(wal)
              case Abort(why) => Value() == old(Value()) && r == Abort(why)
    {
      if cert.vaultId != id { return Abort(WrongVault); }
      if cert.shares == 0 { return Abort(ZeroAmount); }
      r := MulDiv(cert.shares, reserves, totalShares);
      if r.Abort? { return; }
      var total := CheckedU64(totalShares - cert.shares);
      var left := CheckedU64(reserves - r.value);
      if total.Abort? || left.Abort? { return Abort(ArithmeticError); }
      totalShares := total.value;
      reserves := left.value;
    }

    method Collect(amount: u64) returns (r: Outcome<()>)
      modifies this
      ensures match CollectRewards(old(Value()), amount)
              case Ok(v) => Value() == v && r == Ok(())
              case Abort(why) => Value() == old(Value()) && r == Abort(why)
    {
      if amount == 0 { return Abort(ZeroAmount); }
      var commission := MulDiv(amount, commissionBps, BPS);
      if commission.Abort? { return Abort(commission.reason); }
      var rest := CheckedU64(amount - commission.value);
      if rest.Abort? { return Abort(ArithmeticError); }
      var earned := CheckedU64(peerEarnings + commission.value);
      var grown := CheckedU64(reserves + rest.value);
      if earned.Abort? || grown.Abort? { return Abort(ArithmeticError); }
      peerEarnings := earned.value;
      reserves := grown.value;
      r := Ok(());
    }

    method Claim(sender: Address) returns (r: Outcome<u64>)
      modifies this`peerEarnings
      ensures match ClaimEarnings(old(Value()), sender)
              case Ok((v, wal)) => Value() == v && r == Ok(wal)
              case Abort(why) => Value() == old(Value()) && r == Abort(why)
    {
      if sender != peerAddress { return Abort(NotVaultOwner); }
      if peerEarnings == 0 { return Abort(NoEarnings); }
      r := Ok(peerEarnings);
      peerEarnings := 0;
    }
  }

  // ----- The invariant and what every operation does to the price -----

  predicate Sound(v: Vault) {
    v.totalShares <= v.reserves && v.commissionBps <= BPS
  }

  /** What `shares` of the vault are worth, rounded down. */
  function Worth(v: Vault, shares: nat): nat
    requires v.totalShares > 0
  {
    Portion(shares, v.reserves, v.totalShares)
  }

  /** The price of a share does not fall from v to w (cross-multiplied). */
  predicate PriceKept(v: Vault, w: Vault) {
    v.reserves * w.totalShares <= w.reserves * v.totalShares
  }

  lemma WorthMonotone(v: Vault, w: Vault, shares: nat)
    requires v.totalShares > 0 && w.totalShares > 0 && PriceKept(v, w)
    ensures Worth(v, shares) <= Worth(w, shares)
  {
    PortionMonotone(shares, v.reserves, v.totalShares, w.reserves, w.totalShares);
  }

  /** What a deposit buys: 1:1 in a vault without shares, else at the price of the moment. */
  function SharesFor(v: Vault, wal: nat): nat
    requires Sound(v)
  {
    if v.totalShares == 0 then wal else Portion(wal, v.totalShares, v.reserves)
  }

  /** A deposit goes through exactly when it buys a share and the reserve can hold it;
      it never buys more shares than frost. */
  lemma DelegateExact(v: Vault, wal: u64)
    requires Sound(v)
    ensures SharesFor(v, wal) <= wal
    ensures Delegate(v, wal).Ok? <==> SharesFor(v, wal) > 0 && v.reserves + wal <= U64_MAX
    ensures Delegate(v, wal).Ok? ==>
              Delegate(v, wal).value ==
              (v.(reserves := v.reserves + wal, totalShares := v.totalShares + SharesFor(v, wal)), SharesFor(v, wal))
  {
    if v.totalShares > 0 {
      MintAtPrice(wal, v.totalShares, v.reserves);
      MulDivExact(wal, v.totalShares, v.reserves);
    }
  }

  lemma DelegateKeepsPrice(v: Vault, wal: u64)
    requires Sound(v) && Delegate(v, wal).Ok?
    ensures Sound(Delegate(v, wal).value.0)
    ensures v.totalShares > 0 ==> PriceKept(v, Delegate(v, wal).value.0)
  {
    DelegateExact(v, wal);
    if v.totalShares > 0 { MintAtPrice(wal, v.totalShares, v.reserves); }
  }

  /** A certificate of at most all the shares always redeems, for exactly its worth, which
      is at least its face value. */
  lemma UndelegateExact(id: Id, v: Vault, cert: Certificate)
    requires Sound(v) && cert.vaultId == id && 0 < cert.shares <= v.totalShares
    ensures cert.shares <= Worth(v, cert.shares) <= v.reserves
    ensures Undelegate(id, v, cert) ==
            Ok((v.(reserves := v.reserves - Worth(v, cert.shares), totalShares := v.totalShares - cert.shares),
                Worth(v, cert.shares)))
  {
    PortionOfSoundReserve(cert.shares, v.reserves, v.totalShares);
    MulDivExact(cert.shares, v.reserves, v.totalShares);
  }

  lemma UndelegateKeepsPrice(id: Id, v: Vault, cert: Certificate)
    requires Sound(v) && cert.vaultId == id && 0 < cert.shares <= v.totalShares
    ensures Undelegate(id, v, cert).Ok?
    ensures Sound(Undelegate(id, v, cert).value.0)
    ensures PriceKept(v, Undelegate(id, v, cert).value.0)
  {
    UndelegateExact(id, v, cert);
    PortionOfSoundReserve(cert.shares, v.reserves, v.totalShares);
  }

  function Commission(v: Vault, amount: nat): nat {
    Portion(amount, v.commissionBps, BPS)
  }

  /** Commission never exceeds the payment, and the split loses nothing. */
  lemma CollectExact(v: Vault, amount: u64)
    requires Sound(v)
    ensures Commission(v, amount) <= amount
    ensures CollectRewards(v, amount).Ok? <==>
            && amount > 0
            && v.earnings + Commission(v, amount) <= U64_MAX
            && v.reserves + (amount - Commission(v, amount)) <= U64_MAX
    ensures CollectRewards(v, amount).Ok? ==>
              CollectRewards(v, amount).value ==
              v.(reserves := v.reserves + (amount - Commission(v, amount)),
                 earnings := v.earnings + Commission(v, amount))
  {
    PortionBounds(amount, v.commissionBps, BPS);
    MulLe(v.commissionBps, BPS, amount);
    MulDivExact(amount, v.commissionBps, BPS);
  }

  lemma CollectKeepsPrice(v: Vault, amount: u64)
    requires Sound(v) && CollectRewards(v, amount).Ok?
    ensures Sound(CollectRewards(v, amount).value)
    ensures PriceKept(v, CollectRewards(v, amount).value)
  {
    CollectExact(v, amount);
    MulLe(v.reserves, CollectRewards(v, amount).value.reserves, v.totalShares);
  }

  // ----- A deposit and its way back -----

  /** Redeeming straight after a deposit into a vault that has shareholders never pays
      more than was put in, and the loss is less than one frost plus the price of a share. */
  lemma DepositThenRedeem(v: Vault, wal: u64)
    requires Sound(v) && v.totalShares > 0 && Delegate(v, wal).Ok?
    ensures var (after, shares) := Delegate(v, wal).value;
            && after.totalShares == v.totalShares + shares
            && Worth(after, shares) <= wal
            && (wal - Worth(after, shares)) * (v.totalShares + shares) < v.reserves + v.totalShares + shares
  {
    DelegateExact(v, wal);
    MintThenBurn(wal, v.totalShares, v.reserves);
  }

  /** With no shares out, the first depositor also owns whatever rewards already came in. */
  lemma FirstDepositTakesStrayRewards(v: Vault, wal: u64)
    requires Sound(v) && v.totalShares == 0 && Delegate(v, wal).Ok?
    ensures var (after, shares) := Delegate(v, wal).value;
            shares == wal && after.totalShares == wal && Worth(after, shares) == v.reserves + wal
  {
    DelegateExact(v, wal);
    MulNonNegative(wal, v.reserves + wal);
    DivUnique(wal * (v.reserves + wal), wal, v.reserves + wal);
  }

  /** Why a deposit is refused: it is nothing, or buys no share, or the reserve would not fit. */
  lemma DelegateReasons(v: Vault, wal: u64)
    requires Sound(v)
    ensures Delegate(v, wal).Abort? ==>
              Delegate(v, wal).reason ==
              if wal == 0 then ZeroAmount else if SharesFor(v, wal) == 0 then ZeroShares else ArithmeticError
  {
    if v.totalShares > 0 {
      MulDivExact(wal, v.totalShares, v.reserves);
      MintAtPrice(wal, v.totalShares, v.reserves);
    }
  }

  /** Why a certificate is refused: it is of another vault. With the right one of a sound vault
      nothing is. And earnings are the owner's alone, if there are any. */
  lemma OtherReasons(id: Id, v: Vault, cert: Certificate, sender: Address)
    requires Sound(v) && 0 < cert.shares <= v.totalShares
    ensures Undelegate(id, v, cert).Abort? <==> cert.vaultId != id
    ensures cert.vaultId != id ==> Undelegate(id, v, cert) == Abort(WrongVault)
    ensures ClaimEarnings(v, sender).Abort? <==> sender != v.owner || v.earnings == 0
    ensures sender != v.owner ==> ClaimEarnings(v, sender) == Abort(NotVaultOwner)
    ensures sender == v.owner && v.earnings == 0 ==> ClaimEarnings(v, sender) == Abort(NoEarnings)
    ensures forall bps: u64 :: CreateVault(sender, bps).Abort? <==> bps > 10_000
    ensures forall bps: u64 :: bps > 10_000 ==> CreateVault(sender, bps) == Abort(InvalidCommission)
  {
    if cert.vaultId == id { UndelegateExact(id, v, cert); }
  }

  /** Why a payment is refused: it is nothing, or one of the two balances would not fit. */
  lemma CollectReasons(v: Vault, amount: u64)
    requires Sound(v)
    ensures CollectRewards(v, amount).Abort? ==>
              CollectRewards(v, amount).reason == if amount == 0 then ZeroAmount else ArithmeticError
  {
    CollectExact(v, amount);
    MulDivExact(amount, v.commissionBps, BPS);
  }

  /** The price view is one to one without shares, and the price scaled by 10^9 and rounded
      down with them; it aborts exactly when that needs more than 64 bits. */
  lemma ExchangeRateDefined(v: Vault)
    ensures v.totalShares == 0 ==> ExchangeRate(v) == Ok(1_000_000_000)
    ensures v.totalShares > 0 ==>
              var rate := v.reserves * 1_000_000_000 / v.totalShares;
              ExchangeRate(v) == if rate <= U64_MAX then Ok(rate) else Abort(MulDivError)
    ensures ExchangeRate(v).Ok? <==> v.totalShares == 0 || Portion(v.reserves, RATE_SCALE, v.totalShares) <= U64_MAX
  {
    if v.totalShares > 0 { MulDivExact(v.reserves, RATE_SCALE, v.totalShares); }
  }

  /** One share against 18.45 WAL, reached by one deposit and one payment, already aborts. */
  lemma ExchangeRateCanAbort()
    ensures exists wal: u64, paid: u64 ::
              var start := Vault(0, 0, 0, 1000, 0);
              && Delegate(start, wal).Ok?
              && CollectRewards(Delegate(start, wal).value.0, paid).Ok?
              && ExchangeRate(CollectRewards(Delegate(start, wal).value.0, paid).value).Abort?
  {
    var start := Vault(0, 0, 0, 1000, 0);
    var wal: u64, paid: u64 := 1, 20_500_000_000;
    DelegateExact(start, wal);
    var held := Delegate(start, wal).value.0;
    CollectExact(held, paid);
    assert Commission(held, paid) == 2_050_000_000;
    var rich := CollectRewards(held, paid).value;
    assert rich.reserves == 18_450_000_001 && rich.totalShares == 1;
    MulDivExact(rich.reserves, RATE_SCALE, 1);
    assert ExchangeRate(rich).Abort?;
  }
}
