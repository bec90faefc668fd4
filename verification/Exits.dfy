/** Everybody leaves a vault, in any order. */
module Exits {
  import opened Division
  import opened MoveMath
  import opened MapSums
  import opened PeerVaults
  import opened Ledger
  import opened LedgerTheorems

  function Total(ns: seq<nat>): nat {
    if ns == [] then 0 else ns[0] + Total(ns[1..])
  }

  /** Redeeming one certificate after another, and what each one paid. */
  function RedeemAll(id: Id, v: Vault, shares: seq<u64>): Outcome<(Vault, seq<nat>)>
    decreases |shares|
  {
    if shares == [] then Ok((v, [])) else
    var (left, paid) :- PeerVaults.Undelegate(id, v, Certificate(id, shares[0]));
    var (last, rest) :- RedeemAll(id, left, shares[1..]);
    Ok((last, [paid] + rest))
  }

  // ----- One exit, measured against the price at which the exodus began -----

  /** How far the price R/T is above R0/T0, cross-multiplied. */
  function Gap(R: int, T: int, R0: int, T0: int): int { R * T0 - T * R0 }

  lemma GapAfterExit(part: int, x: int, R: int, T: int, R0: int, T0: int)
    ensures Gap(R - x, T - part, R0, T0) * T == Gap(R, T, R0, T0) * (T - part) + (part * R - x * T) * T0
  {
  }

  /** The gap never closes, and one rounding opens it by less than T0. */
  lemma ExitGap(part: nat, R: nat, T: nat, R0: nat, T0: nat)
    requires 0 < T0 && 0 < T && part <= T && 0 <= Gap(R, T, R0, T0)
    ensures 0 <= Gap(R - Portion(part, R, T), T - part, R0, T0) <= Gap(R, T, R0, T0) + T0
  {
    var x := Portion(part, R, T);
    PortionBounds(part, R, T);
    GapAfterExit(part, x, R, T, R0, T0);
    GapBetween(Gap(R, T, R0, T0), Gap(R - x, T - part, R0, T0), T, T - part, part * R - x * T, T0);
  }

  lemma GapBetween(g: nat, g': int, T: nat, stay: nat, rounding: nat, T0: nat)
    requires g' * T == g * stay + rounding * T0 && stay <= T && rounding < T
    ensures 0 <= g' <= g + T0
  {
    MulNonNegative(g, stay);
    MulNonNegative(rounding, T0);
    CancelLe(0, g', T);
    MulLe(stay, T, g);
    MulLe(rounding, T, T0);
    assert g' * T <= g * T + T0 * T == (g + T0) * T;
    CancelLe(g', g + T0, T);
  }

  lemma PayoutAgainstGap(part: int, R: int, T: int, R0: int, T0: int)
    ensures part * R * T0 == part * R0 * T + Gap(R, T, R0, T0) * part
  {
  }

  /** A payout while the gap is at most k * T0: at least the fair floor, and above the exact
      fair share by at most k. */
  lemma ExitPayout(part: nat, R: nat, T: nat, R0: nat, T0: nat, k: nat)
    requires 0 < T0 && 0 < T && part <= T && 0 <= Gap(R, T, R0, T0) <= k * T0
    ensures Portion(part, R0, T0) <= Portion(part, R, T)
    ensures Portion(part, R, T) * T0 <= part * R0 + k * T0
  {
    PortionMonotone(part, R0, T0, R, T);
    PortionBounds(part, R, T);
    PayoutAgainstGap(part, R, T, R0, T0);
    PayoutBetween(part, Portion(part, R, T), part * R, T, part * R0, T0, Gap(R, T, R0, T0), k * T0);
  }

  lemma PayoutBetween(part: nat, x: nat, partR: nat, T: nat, partR0: int, T0: nat, g: nat, slack: nat)
    requires T > 0 && part <= T && g <= slack && x * T <= partR && partR * T0 == partR0 * T + g * part
    ensures x * T0 <= partR0 + slack
  {
    MulLe(x * T, partR, T0);
    MulLe(part, T, g);
    MulLe(g, slack, T);
    assert x * T0 * T == x * T * T0;
    assert (partR0 + slack) * T == partR0 * T + slack * T;
    CancelLe(x * T0, partR0 + slack, T);
  }

  // ----- All the exits -----

  /** A payout is at least the rounded-down share of the reserve R0 the exodus began with,
      and exceeds the exact share by at most `earlier` frost. */
  predicate Fair(part: nat, paid: nat, R0: nat, T0: nat, earlier: nat)
    requires T0 > 0
  {
    Portion(part, R0, T0) <= paid && paid * T0 <= part * R0 + earlier * T0
  }

  ghost predicate FairPayouts(shares: seq<u64>, paid: seq<nat>, R0: nat, T0: nat, earlier: nat)
    requires T0 > 0
  {
    |paid| == |shares| && forall i :: 0 <= i < |paid| ==> Fair(shares[i], paid[i], R0, T0, earlier + i)
  }

  predicate WithinGap(v: Vault, R0: nat, T0: nat, earlier: nat) {
    0 <= Gap(v.reserves, v.totalShares, R0, T0) <= earlier * T0
  }

  /** What is left after the whole or a part of the shares was redeemed. */
  lemma ExitState(id: Id, v: Vault, part: u64)
    requires Sound(v) && 0 < part <= v.totalShares
    ensures var r := PeerVaults.Undelegate(id, v, Certificate(id, part));
            && r.Ok? && r.value.1 == Portion(part, v.reserves, v.totalShares) <= v.reserves
            && r.value.0 == v.(reserves := v.reserves - r.value.1, totalShares := v.totalShares - part)
            && Sound(r.value.0)
            && (part == v.totalShares ==> r.value.1 == v.reserves)
  {
    UndelegateExact(id, v, Certificate(id, part));
    UndelegateKeepsPrice(id, v, Certificate(id, part));
    if part == v.totalShares {
      MulNonNegative(part, v.reserves);
      DivUnique(part * v.reserves, part, v.reserves);
    }
  }

  lemma NextGap(part: nat, R: nat, T: nat, R0: nat, T0: nat, earlier: nat)
    requires 0 < T0 && 0 < T && part <= T && 0 <= Gap(R, T, R0, T0) <= earlier * T0
    ensures 0 <= Gap(R - Portion(part, R, T), T - part, R0, T0) <= (earlier + 1) * T0
  {
    ExitGap(part, R, T, R0, T0);
    assert (earlier + 1) * T0 == earlier * T0 + T0;
  }

  lemma OneExit(id: Id, v: Vault, part: u64, R0: nat, T0: nat, earlier: nat)
    requires Sound(v) && 0 < part <= v.totalShares && 0 < T0 && WithinGap(v, R0, T0, earlier)
    ensures PeerVaults.Undelegate(id, v, Certificate(id, part)).Ok?
    ensures Fair(part, PeerVaults.Undelegate(id, v, Certificate(id, part)).value.1, R0, T0, earlier)
    ensures WithinGap(PeerVaults.Undelegate(id, v, Certificate(id, part)).value.0, R0, T0, earlier + 1)
  {
    ExitState(id, v, part);
    ExitPayout(part, v.reserves, v.totalShares, R0, T0, earlier);
    NextGap(part, v.reserves, v.totalShares, R0, T0, earlier);
  }

  lemma {:induction false} ExitInvariant(id: Id, v: Vault, shares: seq<u64>, R0: nat, T0: nat, earlier: nat)
    requires Sound(v) && Total(shares) == v.totalShares && (forall i :: 0 <= i < |shares| ==> shares[i] > 0)
    requires T0 > 0 && WithinGap(v, R0, T0, earlier)
    ensures var r := RedeemAll(id, v, shares);
            && r.Ok?
            && FairPayouts(shares, r.value.1, R0, T0, earlier)
            && (shares != [] ==> r.value.0 == v.(reserves := 0, totalShares := 0) && Total(r.value.1) == v.reserves)
    decreases |shares|
  {
    if shares != [] {
      ExitState(id, v, shares[0]);
      OneExit(id, v, shares[0], R0, T0, earlier);
      var (left, paid) := PeerVaults.Undelegate(id, v, Certificate(id, shares[0])).value;
      ExitInvariant(id, left, shares[1..], R0, T0, earlier + 1);
      var rest := RedeemAll(id, left, shares[1..]).value.1;
      var all := [paid] + rest;
      assert all[1..] == rest;
      forall i | 0 <= i < |all|
        ensures Fair(shares[i], all[i], R0, T0, earlier + i)
      {
        if i > 0 { assert Fair(shares[1..][i - 1], rest[i - 1], R0, T0, earlier + 1 + (i - 1)); }
      }
    }
  }

  /** All the holders of a vault leave, in whatever order: everybody is paid, the payouts
      add up to the whole reserve and nothing stays behind; nobody gets less than the
      rounded-down share of the reserve the exodus began with, and the i-th to leave gets
      at most i frost more than the exact share. */
  lemma ExitFairness(id: Id, v: Vault, shares: seq<u64>)
    requires Sound(v) && 0 < v.totalShares == Total(shares) && (forall i :: 0 <= i < |shares| ==> shares[i] > 0)
    ensures var r := RedeemAll(id, v, shares);
            && r.Ok?
            && r.value.0 == v.(reserves := 0, totalShares := 0)
            && Total(r.value.1) == v.reserves
            && FairPayouts(shares, r.value.1, v.reserves, v.totalShares, 0)
  {
    ExitInvariant(id, v, shares, v.reserves, v.totalShares, 0);
  }

  // ----- The same on the chain, for the certificates that are live there -----

  /** `order` lists every live certificate of the vault once. */
  ghost predicate ListsHolders(s: State, vault: Id, order: seq<Id>) {
    && (forall i :: 0 <= i < |order| ==> order[i] in s.certs && s.certs[order[i]].cert.vaultId == vault)
    && (forall i, j :: 0 <= i < j < |order| ==> order[i] != order[j])
    && (forall c :: c in s.certs && s.certs[c].cert.vaultId == vault ==> c in order)
  }

  function SharesOf(s: State, order: seq<Id>): seq<u64>
    requires forall c :: c in order ==> c in s.certs
  {
    seq(|order|, i requires 0 <= i < |order| => s.certs[order[i]].cert.shares)
  }

  function ExitTxs(s: State, vault: Id, order: seq<Id>): seq<Tx>
    requires forall c :: c in order ==> c in s.certs
  {
    seq(|order|, i requires 0 <= i < |order| => Tx.Undelegate(s.certs[order[i]].holder, vault, order[i]))
  }

  /** The shares listed are all the shares. */
  lemma {:induction false} SharesAddUp(s: State, certs: map<Id, Held>, vault: Id, order: seq<Id>)
    requires ListsHolders(s.(certs := certs), vault, order)
    requires forall c :: c in order ==> c in s.certs && s.certs[c] == certs[c]
    ensures Total(SharesOf(s, order)) == MapSum(certs, SharesIn(vault))
    decreases |order|
  {
    if order == [] {
      MapSumZero(certs, SharesIn(vault));
    } else {
      MapSumRemove(certs, SharesIn(vault), order[0]);
      SharesAddUp(s, certs - {order[0]}, vault, order[1..]);
      assert SharesOf(s, order)[1..] == SharesOf(s, order[1..]);
    }
  }

  /** Who holds the certificates listed. */
  function HoldersOf(s: State, order: seq<Id>): seq<Address>
    requires forall c :: c in order ==> c in s.certs
  {
    seq(|order|, i requires 0 <= i < |order| => s.certs[order[i]].holder)
  }

  /** What address a gets of these payouts, one to each holder. */
  function PaidTo(a: Address, holders: seq<Address>, paid: seq<nat>): nat {
    if holders == [] || paid == [] then 0
    else (if holders[0] == a then paid[0] else 0) + PaidTo(a, holders[1..], paid[1..])
  }

  /** The state after the certificates of `holders` are cashed in for `paid`, one by one. */
  ghost predicate CashedIn(s: State, t: State, vault: Id, left: Vault, holders: seq<Address>, paid: seq<nat>) {
    && vault in t.vaults && t.vaults[vault] == left
    && t.vaults - {vault} == s.vaults - {vault}
    && t.certs == (map c | c in s.certs && s.certs[c].cert.vaultId != vault :: s.certs[c])
    && MapSum(t.wallets, Coins) == MapSum(s.wallets, Coins) + Total(paid)
    && (forall a :: Balance(t, a) == Balance(s, a) + PaidTo(a, holders, paid))
  }

  lemma CashInState(s: State, holder: Address, vault: Id, cert: Id, left: Vault, paid: u64)
    requires vault in s.vaults && cert in s.certs && s.certs[cert].cert.vaultId == vault
             && s.certs[cert].holder == holder
    requires PeerVaults.Undelegate(vault, s.vaults[vault], s.certs[cert].cert) == Ok((left, paid))
    ensures var t := Step(s, Undelegate(holder, vault, cert));
            t == s.(wallets := Credit(s, holder, paid).wallets,
                    vaults := s.vaults[vault := left],
                    certs := s.certs - {cert})
  {
  }

  lemma CashInOne(s: State, vault: Id, cert: Id)
    requires Inv(s) && vault in s.vaults && cert in s.certs && s.certs[cert].cert.vaultId == vault
    requires PeerVaults.Undelegate(vault, s.vaults[vault], s.certs[cert].cert).Ok?
    ensures var t := Step(s, Undelegate(s.certs[cert].holder, vault, cert));
            var (left, paid) := PeerVaults.Undelegate(vault, s.vaults[vault], s.certs[cert].cert).value;
            && Inv(t) && t.vaults == s.vaults[vault := left] && t.certs == s.certs - {cert}
            && MapSum(t.wallets, Coins) == MapSum(s.wallets, Coins) + paid
            && forall a :: Balance(t, a) == Balance(s, a) + (if a == s.certs[cert].holder then paid else 0)
  {
    var holder := s.certs[cert].holder;
    var (left, paid) := PeerVaults.Undelegate(vault, s.vaults[vault], s.certs[cert].cert).value;
    CashInState(s, holder, vault, cert, left, paid);
    StepInv(s, Undelegate(holder, vault, cert));
    CreditSum(s, holder, paid);
  }

  /** What is still to do after the first certificate of the list was cashed in. */
  lemma RestOfHolders(s: State, t: State, vault: Id, order: seq<Id>)
    requires order != [] && ListsHolders(s, vault, order) && t.certs == s.certs - {order[0]}
    ensures ListsHolders(t, vault, order[1..])
    ensures SharesOf(s, order)[1..] == SharesOf(t, order[1..])
    ensures ExitTxs(s, vault, order)[1..] == ExitTxs(t, vault, order[1..])
    ensures HoldersOf(s, order)[1..] == HoldersOf(t, order[1..])
  {
    var rest := order[1..];
    forall c | c in t.certs && t.certs[c].cert.vaultId == vault
      ensures c in rest
    {
      assert c in order;
    }
    assert forall i :: 0 <= i < |rest| ==> rest[i] == order[i + 1];
    assert SharesOf(s, order)[1..] == SharesOf(t, rest);
    assert ExitTxs(s, vault, order)[1..] == ExitTxs(t, vault, rest);
    assert HoldersOf(s, order)[1..] == HoldersOf(t, rest);
  }

  lemma CashedInThen(s: State, t: State, u: State, vault: Id, cert: Id, middle: Vault, left: Vault,
                     holders: seq<Address>, paid: seq<nat>)
    requires vault in s.vaults && t.vaults == s.vaults[vault := middle] && cert in s.certs
             && t.certs == s.certs - {cert}
    requires s.certs[cert].cert.vaultId == vault && holders != [] && paid != []
    requires MapSum(t.wallets, Coins) == MapSum(s.wallets, Coins) + paid[0]
    requires forall a :: Balance(t, a) == Balance(s, a) + (if a == holders[0] then paid[0] else 0)
    requires CashedIn(t, u, vault, left, holders[1..], paid[1..])
    ensures CashedIn(s, u, vault, left, holders, paid)
  {
    assert (map k | k in s.certs && s.certs[k].cert.vaultId != vault :: s.certs[k])
        == (map k | k in t.certs && t.certs[k].cert.vaultId != vault :: t.certs[k]);
    assert t.vaults - {vault} == s.vaults - {vault};
  }

  lemma NobodyLeft(s: State, vault: Id)
    requires vault in s.vaults && ListsHolders(s, vault, [])
    ensures CashedIn(s, s, vault, s.vaults[vault], [], [])
  {
    assert s.certs == (map c | c in s.certs && s.certs[c].cert.vaultId != vault :: s.certs[c]);
  }

  /** The transactions pay out what RedeemAll says, and touch no other vault or certificate. */
  lemma {:induction false} ExitTxsRedeemAll(s: State, vault: Id, order: seq<Id>)
    requires Inv(s) && vault in s.vaults && ListsHolders(s, vault, order)
    requires RedeemAll(vault, s.vaults[vault], SharesOf(s, order)).Ok?
    ensures var r := RedeemAll(vault, s.vaults[vault], SharesOf(s, order)).value;
            CashedIn(s, Run(s, ExitTxs(s, vault, order)), vault, r.0, HoldersOf(s, order), r.1)
    decreases |order|
  {
    if order == [] {
      NobodyLeft(s, vault);
    } else {
      var c, txs, shares := order[0], ExitTxs(s, vault, order), SharesOf(s, order);
      assert s.certs[c].cert == Certificate(vault, shares[0]);
      CashInOne(s, vault, c);
      var t := Step(s, txs[0]);
      RestOfHolders(s, t, vault, order);
      ExitTxsRedeemAll(t, vault, order[1..]);
      var first := PeerVaults.Undelegate(vault, s.vaults[vault], s.certs[c].cert).value;
      var rest := RedeemAll(vault, first.0, shares[1..]).value;
      var paid := [first.1] + rest.1;
      assert paid[1..] == rest.1;
      CashedInThen(s, t, Run(t, txs[1..]), vault, c, first.0, rest.0, HoldersOf(s, order), paid);
    }
  }

  /** On the chain: if every live certificate of a vault is cashed in, in any order, all of
      them succeed, every wallet gains exactly the fair payouts of the certificates it held,
      the wallets together gain exactly the reserve, and the vault ends with no shares, no
      reserve and no certificate. */
  lemma EverybodyLeaves(s: State, vault: Id, order: seq<Id>)
    requires Inv(s) && vault in s.vaults && s.vaults[vault].totalShares > 0 && ListsHolders(s, vault, order)
    ensures var v := s.vaults[vault];
            var t := Run(s, ExitTxs(s, vault, order));
            var r := RedeemAll(vault, v, SharesOf(s, order));
            && r.Ok? && FairPayouts(SharesOf(s, order), r.value.1, v.reserves, v.totalShares, 0)
            && vault in t.vaults && t.vaults[vault] == v.(reserves := 0, totalShares := 0)
            && (forall c :: c in t.certs ==> t.certs[c].cert.vaultId != vault)
            && MapSum(t.wallets, Coins) == MapSum(s.wallets, Coins) + v.reserves
            && (forall a :: Balance(t, a) == Balance(s, a) + PaidTo(a, HoldersOf(s, order), r.value.1))
  {
    SharesAddUp(s, s.certs, vault, order);
    ExitFairness(vault, s.vaults[vault], SharesOf(s, order));
    ExitTxsRedeemAll(s, vault, order);
  }
}
