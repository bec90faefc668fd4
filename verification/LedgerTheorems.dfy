/** What the contracts promise over whole runs: WAL is conserved, nothing overflows, and
    no certificate loses value through what other users do. */
module LedgerTheorems {
  import opened Division
  import opened Words
  import opened MoveMath
  import opened MapSums
  import opened PeerVaults
  import opened Ledger
  import S = Staking

  // ----- Conservation -----

  function Coins(n: nat): nat { n }
  function Reserves(v: Vault): nat { v.reserves }
  function Earnings(v: Vault): nat { v.earnings }
  function Bond(p: S.Bonded): nat { p.bond }

  /** All WAL the chain holds: wallets, bonds, reserves and unclaimed commission. */
  ghost function Supply(s: State): nat {
    MapSum(s.wallets, Coins) + MapSum(s.peers, Bond) + MapSum(s.vaults, Reserves) + MapSum(s.vaults, Earnings)
  }

  /** Setting one wallet moves the sum of the wallets by the difference. */
  lemma SetWallet(s: State, a: Address, amount: nat)
    ensures MapSum(s.wallets[a := amount], Coins) + Balance(s, a) == MapSum(s.wallets, Coins) + amount
    ensures Balance(s, a) <= MapSum(s.wallets, Coins)
  {
    if a in s.wallets { MapSumUpdate(s.wallets, Coins, a, amount); } else { MapSumInsert(s.wallets, Coins, a, amount); }
  }

  lemma DebitSum(s: State, a: Address, wal: u64)
    requires Debit(s, a, wal).Ok?
    ensures MapSum(Debit(s, a, wal).value.wallets, Coins) + wal == MapSum(s.wallets, Coins)
  {
    SetWallet(s, a, Balance(s, a) - wal);
  }

  lemma CreditSum(s: State, a: Address, wal: nat)
    ensures MapSum(Credit(s, a, wal).wallets, Coins) == MapSum(s.wallets, Coins) + wal
  {
    SetWallet(s, a, Balance(s, a) + wal);
  }

  lemma SetVault(s: State, vault: Id, v: Vault)
    requires vault in s.vaults
    ensures MapSum(s.vaults[vault := v], Reserves) + s.vaults[vault].reserves == MapSum(s.vaults, Reserves) + v.reserves
    ensures MapSum(s.vaults[vault := v], Earnings) + s.vaults[vault].earnings == MapSum(s.vaults, Earnings) + v.earnings
    ensures s.vaults[vault].reserves <= MapSum(s.vaults, Reserves)
    ensures s.vaults[vault].earnings <= MapSum(s.vaults, Earnings)
  {
    MapSumUpdate(s.vaults, Reserves, vault, v);
    MapSumUpdate(s.vaults, Earnings, vault, v);
  }

  lemma AddVaultConserves(s: State, v: Vault)
    requires s.nextId !in s.vaults && v.reserves == 0 && v.earnings == 0
    ensures Supply(AddVault(s, v)) == Supply(s)
  {
    MapSumInsert(s.vaults, Reserves, s.nextId, v);
    MapSumInsert(s.vaults, Earnings, s.nextId, v);
  }

  /** A vault changes and a wallet takes or gives the difference. */
  lemma VaultAndWalletChanged(s: State, t: State, vault: Id, a: Address)
    requires vault in s.vaults && vault in t.vaults && a in t.wallets
    requires t.peers == s.peers && t.vaults == s.vaults[vault := t.vaults[vault]]
             && t.wallets == s.wallets[a := t.wallets[a]]
    requires t.vaults[vault].reserves + t.vaults[vault].earnings + t.wallets[a] ==
             s.vaults[vault].reserves + s.vaults[vault].earnings + Balance(s, a)
    ensures Supply(t) == Supply(s)
  {
    SetVault(s, vault, t.vaults[vault]);
    SetWallet(s, a, t.wallets[a]);
  }

  lemma DelegateConserves(s: State, sender: Address, vault: Id, wal: u64)
    requires Inv(s) && ApplyDelegate(s, sender, vault, wal).Ok?
    ensures Supply(ApplyDelegate(s, sender, vault, wal).value) == Supply(s)
  {
    DelegateExact(s.vaults[vault], wal);
    VaultAndWalletChanged(s, ApplyDelegate(s, sender, vault, wal).value, vault, sender);
  }

  lemma UndelegateConserves(s: State, sender: Address, vault: Id, cert: Id)
    requires Inv(s) && ApplyUndelegate(s, sender, vault, cert).Ok?
    ensures Supply(ApplyUndelegate(s, sender, vault, cert).value) == Supply(s)
  {
    var t := ApplyUndelegate(s, sender, vault, cert).value;
    VaultAndWalletChanged(s, t, vault, sender);
  }

  lemma PayConserves(s: State, sender: Address, vault: Id, wal: u64)
    requires Inv(s) && ApplyPay(s, sender, vault, wal).Ok?
    ensures Supply(ApplyPay(s, sender, vault, wal).value) == Supply(s)
  {
    CollectExact(s.vaults[vault], wal);
    VaultAndWalletChanged(s, ApplyPay(s, sender, vault, wal).value, vault, sender);
  }

  lemma ClaimConserves(s: State, sender: Address, vault: Id)
    requires Inv(s) && ApplyClaim(s, sender, vault).Ok?
    ensures Supply(ApplyClaim(s, sender, vault).value) == Supply(s)
  {
    VaultAndWalletChanged(s, ApplyClaim(s, sender, vault).value, vault, sender);
  }

  lemma VaultTxConserves(s: State, tx: Tx)
    requires Inv(s) && TouchesVaults(tx) && Apply(s, tx).Ok?
    ensures Supply(Apply(s, tx).value) == Supply(s)
  {
    match tx
    case CreateVault(peer, bps) => AddVaultConserves(s, PeerVaults.CreateVault(peer, bps).value);
    case NewVault(sender) =>
      var named := s.(vaultOf := s.vaultOf[sender := s.nextId]);
      assert Supply(named) == Supply(s);
      AddVaultConserves(named, Vault(sender, 0, 0, 1000, 0));
    case Delegate(sender, vault, wal) => DelegateConserves(s, sender, vault, wal);
    case Undelegate(sender, vault, cert) => UndelegateConserves(s, sender, vault, cert);
    case Pay(sender, vault, wal) => PayConserves(s, sender, vault, wal);
    case ClaimEarnings(sender, vault) => ClaimConserves(s, sender, vault);
    case SendCert(_, _, _) =>
  }

  /** A bond changes and a wallet takes or gives the difference. */
  lemma BondChanged(s: State, t: State, peer: Id, a: Address)
    requires peer in s.peers && peer in t.peers && a in t.wallets
    requires t.vaults == s.vaults && t.peers == s.peers[peer := t.peers[peer]]
             && t.wallets == s.wallets[a := t.wallets[a]]
    requires t.peers[peer].bond + t.wallets[a] == s.peers[peer].bond + Balance(s, a)
    ensures Supply(t) == Supply(s)
  {
    MapSumUpdate(s.peers, Bond, peer, t.peers[peer]);
    SetWallet(s, a, t.wallets[a]);
  }

  lemma RegisterConserves(s: State, sender: Address, wal: u64)
    requires Inv(s) && ApplyRegister(s, sender, wal).Ok?
    ensures Supply(ApplyRegister(s, sender, wal).value) == Supply(s)
  {
    DebitSum(s, sender, wal);
    MapSumInsert(s.peers, Bond, s.nextId, S.Bonded(sender, wal));
  }

  lemma StakeTxConserves(s: State, tx: Tx)
    requires Inv(s) && !TouchesVaults(tx) && Apply(s, tx).Ok?
    ensures Supply(Apply(s, tx).value) == Supply(s)
  {
    match tx
    case Register(sender, wal) => RegisterConserves(s, sender, wal);
    case AddStake(sender, peer, wal) => BondChanged(s, ApplyAddStake(s, sender, peer, wal).value, peer, sender);
    case Unstake(sender, peer, wal) => BondChanged(s, ApplyUnstake(s, sender, peer, wal).value, peer, sender);
    case Slash(admin, peer, wal) => BondChanged(s, ApplySlash(s, admin, peer, wal).value, peer, admin);
    case SendWal(sender, recipient, wal) =>
      DebitSum(s, sender, wal);
      CreditSum(Debit(s, sender, wal).value, recipient, wal);
  }

  lemma StepConserves(s: State, tx: Tx)
    requires Inv(s)
    ensures Supply(Step(s, tx)) == Supply(s)
  {
    if Apply(s, tx).Ok? {
      if TouchesVaults(tx) { VaultTxConserves(s, tx); } else { StakeTxConserves(s, tx); }
    }
  }

  lemma {:induction false} RunConserves(s: State, txs: seq<Tx>)
    requires Inv(s)
    ensures Inv(Run(s, txs)) && Supply(Run(s, txs)) == Supply(s)
    decreases |txs|
  {
    if txs != [] {
      StepInv(s, txs[0]);
      StepConserves(s, txs[0]);
      RunConserves(Step(s, txs[0]), txs[1..]);
    }
  }

  // ----- Exactly when a transaction succeeds -----

  /** What a user can check before sending, with no arithmetic limits in it. */
  predicate Enabled(s: State, tx: Tx)
    requires Inv(s)
  {
    match tx
    case CreateVault(_, bps) => bps <= BPS
    case NewVault(sender) => sender !in s.vaultOf
    case Delegate(sender, vault, wal) =>
      vault in s.vaults && wal <= Balance(s, sender) && SharesFor(s.vaults[vault], wal) > 0
    case Undelegate(sender, vault, cert) =>
      cert in s.certs && s.certs[cert].holder == sender && s.certs[cert].cert.vaultId == vault
    case Pay(sender, vault, wal) => vault in s.vaults && 0 < wal <= Balance(s, sender)
    case ClaimEarnings(sender, vault) =>
      vault in s.vaults && sender == s.vaults[vault].owner && s.vaults[vault].earnings > 0
    case Register(sender, wal) => sender !in s.registered && S.MIN_STAKE <= wal <= Balance(s, sender)
    case AddStake(sender, peer, wal) => peer in s.peers && wal <= Balance(s, sender)
    case Unstake(sender, peer, wal) =>
      peer in s.peers && sender == s.peers[peer].owner && wal + S.MIN_STAKE <= s.peers[peer].bond
    case Slash(_, peer, wal) => peer in s.peers && wal <= s.peers[peer].bond
    case SendWal(sender, _, wal) => wal <= Balance(s, sender)
    case SendCert(sender, _, cert) => cert in s.certs && s.certs[cert].holder == sender
  }

  lemma VaultTxEnabled(s: State, tx: Tx)
    requires Inv(s) && Supply(s) <= U64_MAX && TouchesVaults(tx)
    ensures Apply(s, tx).Ok? <==> Enabled(s, tx)
  {
    match tx
    case Delegate(sender, vault, wal) =>
      if vault in s.vaults {
        SetWallet(s, sender, 0);
        SetVault(s, vault, s.vaults[vault]);
        DelegateExact(s.vaults[vault], wal);
      }
    case Undelegate(sender, vault, cert) =>
      if cert in s.certs && s.certs[cert].holder == sender && s.certs[cert].cert.vaultId == vault {
        CertWithinVault(s, cert);
        UndelegateExact(vault, s.vaults[vault], s.certs[cert].cert);
      }
    case Pay(sender, vault, wal) =>
      if vault in s.vaults {
        SetWallet(s, sender, 0);
        SetVault(s, vault, s.vaults[vault]);
        CollectExact(s.vaults[vault], wal);
      }
    case _ =>
  }

  lemma StakeTxEnabled(s: State, tx: Tx)
    requires Inv(s) && Supply(s) <= U64_MAX && !TouchesVaults(tx)
    ensures Apply(s, tx).Ok? <==> Enabled(s, tx)
  {
    match tx
    case AddStake(sender, peer, wal) =>
      if peer in s.peers {
        SetWallet(s, sender, 0);
        MapSumUpdate(s.peers, Bond, peer, s.peers[peer]);
      }
    case _ =>
  }

  /** While the supply fits 64 bits, no transaction of any run aborts on arithmetic: it
      succeeds exactly when its plain business conditions hold. In particular a live
      certificate can always be redeemed by its holder. */
  lemma SucceedsExactlyWhenEnabled(wallets: map<Address, nat>, past: seq<Tx>, tx: Tx)
    requires MapSum(wallets, Coins) <= U64_MAX
    ensures var s := Run(Genesis(wallets), past);
            Inv(s) && (Apply(s, tx).Ok? <==> Enabled(s, tx))
  {
    var start := Genesis(wallets);
    GenesisInv(wallets);
    assert Supply(start) == MapSum(wallets, Coins);
    RunConserves(start, past);
    var s := Run(start, past);
    if TouchesVaults(tx) { VaultTxEnabled(s, tx); } else { StakeTxEnabled(s, tx); }
  }

  function CertWorth(s: State, cert: Id): nat
    requires Inv(s) && cert in s.certs
  {
    CertWithinVault(s, cert);
    Worth(s.vaults[s.certs[cert].cert.vaultId], s.certs[cert].cert.shares)
  }

  // ----- Who gains and who pays -----

  /** What a successful transaction changes in the wallet of `a`. */
  function Gain(s: State, tx: Tx, a: Address): int
    requires Inv(s)
  {
    match tx
    case Delegate(sender, _, wal) => if a == sender then 0 - wal else 0
    case Undelegate(sender, _, cert) => if a == sender && cert in s.certs then CertWorth(s, cert) else 0
    case Pay(sender, _, wal) => if a == sender then 0 - wal else 0
    case ClaimEarnings(sender, vault) => if a == sender && vault in s.vaults then s.vaults[vault].earnings else 0
    case Register(sender, wal) => if a == sender then 0 - wal else 0
    case AddStake(sender, _, wal) => if a == sender then 0 - wal else 0
    case Unstake(sender, _, wal) => if a == sender then wal else 0
    case Slash(admin, _, wal) => if a == admin then wal else 0
    case SendWal(sender, recipient, wal) => (if a == recipient then wal else 0) - (if a == sender then wal else 0)
    case _ => 0
  }

  /** Every wallet changes by exactly that; nobody who is not a party gains or loses. */
  lemma WalletsChangeExactly(s: State, tx: Tx, a: Address)
    requires Inv(s) && Apply(s, tx).Ok?
    ensures Balance(Apply(s, tx).value, a) == Balance(s, a) + Gain(s, tx, a)
  {
    if TouchesVaults(tx) { VaultTxWallets(s, tx, a); }
  }

  lemma VaultTxWallets(s: State, tx: Tx, a: Address)
    requires Inv(s) && Apply(s, tx).Ok? && TouchesVaults(tx)
    ensures Balance(Apply(s, tx).value, a) == Balance(s, a) + Gain(s, tx, a)
  {
    if tx.Undelegate? {
      var c := s.certs[tx.cert].cert;
      CertWithinVault(s, tx.cert);
      UndelegateExact(tx.vault, s.vaults[tx.vault], c);
    }
  }

  // ----- No dilution -----

  lemma DelegatePrice(s: State, sender: Address, target: Id, wal: u64, vault: Id)
    requires Inv(s) && vault in s.vaults && s.vaults[vault].totalShares > 0
    ensures ApplyDelegate(s, sender, target, wal).Ok? ==>
              PriceKept(s.vaults[vault], ApplyDelegate(s, sender, target, wal).value.vaults[vault])
  {
    if target == vault && ApplyDelegate(s, sender, target, wal).Ok? { DelegateKeepsPrice(s.vaults[vault], wal); }
  }

  lemma UndelegatePrice(s: State, sender: Address, target: Id, cert: Id, vault: Id)
    requires Inv(s) && vault in s.vaults && ApplyUndelegate(s, sender, target, cert).Ok?
    ensures PriceKept(s.vaults[vault], ApplyUndelegate(s, sender, target, cert).value.vaults[vault])
  {
    if target == vault {
      CertWithinVault(s, cert);
      UndelegateKeepsPrice(vault, s.vaults[vault], s.certs[cert].cert);
    }
  }

  lemma PayPrice(s: State, sender: Address, target: Id, wal: u64, vault: Id)
    requires Inv(s) && vault in s.vaults && ApplyPay(s, sender, target, wal).Ok?
    ensures PriceKept(s.vaults[vault], ApplyPay(s, sender, target, wal).value.vaults[vault])
  {
    if target == vault { CollectKeepsPrice(s.vaults[vault], wal); }
  }

  lemma OtherTxPrice(s: State, tx: Tx, vault: Id)
    requires Inv(s) && vault in s.vaults && Apply(s, tx).Ok?
    requires !tx.Delegate? && !tx.Undelegate? && !tx.Pay?
    ensures vault in Apply(s, tx).value.vaults
    ensures Apply(s, tx).value.vaults[vault] == s.vaults[vault].(earnings := Apply(s, tx).value.vaults[vault].earnings)
  {
    if !TouchesVaults(tx) { OtherTxFrame(s, tx); }
  }

  lemma SamePrice(v: Vault, w: Vault)
    requires v.reserves == w.reserves && v.totalShares == w.totalShares
    ensures PriceKept(v, w)
  {
  }

  /** One transaction on one vault that has shares out: the price does not fall. */
  lemma StepKeepsPrice(s: State, tx: Tx, vault: Id)
    requires Inv(s) && vault in s.vaults && s.vaults[vault].totalShares > 0
    ensures vault in Step(s, tx).vaults && PriceKept(s.vaults[vault], Step(s, tx).vaults[vault])
  {
    if Apply(s, tx).Abort? {
      SamePrice(s.vaults[vault], s.vaults[vault]);
    } else if tx.Delegate? {
      DelegatePrice(s, tx.sender, tx.vault, tx.wal, vault);
    } else if tx.Undelegate? {
      UndelegatePrice(s, tx.sender, tx.vault, tx.cert, vault);
    } else if tx.Pay? {
      PayPrice(s, tx.sender, tx.vault, tx.wal, vault);
    } else {
      OtherTxPrice(s, tx, vault);
      SamePrice(s.vaults[vault], Apply(s, tx).value.vaults[vault]);
    }
  }

  /** A certificate's vault and shares never change, and a burnt id never comes back. */
  lemma StepKeepsCert(s: State, tx: Tx, cert: Id)
    requires Inv(s) && cert < s.nextId
    ensures s.nextId <= Step(s, tx).nextId
    ensures cert in Step(s, tx).certs ==> cert in s.certs && Step(s, tx).certs[cert].cert == s.certs[cert].cert
  {
    if Apply(s, tx).Ok? {
      if TouchesVaults(tx) { VaultTxKeepsCert(s, tx, cert); } else { OtherTxFrame(s, tx); }
    }
  }

  lemma VaultTxKeepsCert(s: State, tx: Tx, cert: Id)
    requires Inv(s) && cert < s.nextId && TouchesVaults(tx) && Apply(s, tx).Ok?
    ensures var t := Apply(s, tx).value;
            s.nextId <= t.nextId && (cert in t.certs ==> cert in s.certs && t.certs[cert].cert == s.certs[cert].cert)
  {
  }

  lemma {:induction false} RunKeepsCert(s: State, txs: seq<Tx>, cert: Id)
    requires Inv(s) && cert < s.nextId
    ensures cert in Run(s, txs).certs ==> cert in s.certs && Run(s, txs).certs[cert].cert == s.certs[cert].cert
    decreases |txs|
  {
    if txs != [] {
      StepInv(s, txs[0]);
      StepKeepsCert(s, txs[0], cert);
      RunKeepsCert(Step(s, txs[0]), txs[1..], cert);
    }
  }

  /** Whatever anybody does for however long, a certificate that is still live is worth at
      least what it was worth before. */
  lemma {:induction false} NoDilution(s: State, txs: seq<Tx>, cert: Id)
    requires Inv(s) && cert in s.certs && cert in Run(s, txs).certs
    ensures Inv(Run(s, txs)) && CertWorth(s, cert) <= CertWorth(Run(s, txs), cert)
    decreases |txs|
  {
    if txs != [] {
      var t := Step(s, txs[0]);
      StepInv(s, txs[0]);
      StepKeepsCert(s, txs[0], cert);
      RunKeepsCert(t, txs[1..], cert);
      CertWithinVault(s, cert);
      CertWithinVault(t, cert);
      var vault := s.certs[cert].cert.vaultId;
      StepKeepsPrice(s, txs[0], vault);
      WorthMonotone(s.vaults[vault], t.vaults[vault], s.certs[cert].cert.shares);
      NoDilution(t, txs[1..], cert);
    }
  }

  /** Cashing the certificate in succeeds now, and pays its holder `wal`. */
  predicate CashesInFor(s: State, cert: Id, wal: nat) {
    && cert in s.certs
    && var h := s.certs[cert];
       var r := Apply(s, Undelegate(h.holder, h.cert.vaultId, cert));
       r.Ok? && Balance(r.value, h.holder) == Balance(s, h.holder) + wal
  }

  /** The holder of a live certificate can always cash it in, for exactly its worth. */
  lemma LiveCertRedeems(s: State, cert: Id)
    requires Inv(s) && cert in s.certs
    ensures CashesInFor(s, cert, CertWorth(s, cert))
  {
    var h := s.certs[cert];
    CertWithinVault(s, cert);
    UndelegateExact(h.cert.vaultId, s.vaults[h.cert.vaultId], h.cert);
  }

  /** `got` falls short of `wal` by less than one frost plus the price of a share. */
  predicate ShortByRounding(wal: nat, got: nat, before: Vault, after: Vault) {
    got >= wal || (wal - got) * after.totalShares < before.reserves + after.totalShares
  }

  lemma ShortByLess(wal: nat, got: nat, more: nat, before: Vault, after: Vault)
    requires ShortByRounding(wal, got, before, after) && got <= more
    ensures ShortByRounding(wal, more, before, after)
  {
    if more < wal { MulLe(wal - more, wal - got, after.totalShares); }
  }

  /** A deposit adds one certificate, with the shares minted, to the vault it changed. */
  lemma FreshCert(s: State, sender: Address, vault: Id, wal: u64)
    requires Apply(s, Delegate(sender, vault, wal)).Ok?
    ensures var t := Step(s, Delegate(sender, vault, wal));
            && vault in s.vaults && PeerVaults.Delegate(s.vaults[vault], wal).Ok?
            && var (v, shares) := PeerVaults.Delegate(s.vaults[vault], wal).value;
            && vault in t.vaults && t.vaults[vault] == v
            && s.nextId in t.certs && t.certs[s.nextId].cert == Certificate(vault, shares)
  {
  }

  /** What a fresh certificate is worth right after the deposit. */
  lemma DepositRounding(s: State, sender: Address, vault: Id, wal: u64)
    requires Inv(s) && Apply(s, Delegate(sender, vault, wal)).Ok?
    ensures var t := Step(s, Delegate(sender, vault, wal));
            && Inv(t) && s.nextId in t.certs && vault in t.vaults && t.certs[s.nextId].cert.vaultId == vault
            && ShortByRounding(wal, CertWorth(t, s.nextId), s.vaults[vault], t.vaults[vault])
  {
    StepInv(s, Delegate(sender, vault, wal));
    FreshCert(s, sender, vault, wal);
    FreshWorth(s.vaults[vault], wal);
  }

  lemma FreshWorth(v: Vault, wal: u64)
    requires Sound(v) && PeerVaults.Delegate(v, wal).Ok?
    ensures var (after, shares) := PeerVaults.Delegate(v, wal).value;
            ShortByRounding(wal, Worth(after, shares), v, after)
  {
    if v.totalShares > 0 { DepositThenRedeem(v, wal); } else { FirstDepositTakesStrayRewards(v, wal); }
  }

  /** The whole life of a deposit: put in, any run of anybody's transactions, cashed in.
      The holder gets back all but the rounding of the day of the deposit, at the least. */
  lemma DepositIsSafe(s: State, sender: Address, vault: Id, wal: u64, txs: seq<Tx>)
    requires Inv(s) && Apply(s, Delegate(sender, vault, wal)).Ok?
    requires s.nextId in Run(Step(s, Delegate(sender, vault, wal)), txs).certs
    ensures var mid := Step(s, Delegate(sender, vault, wal));
            var t := Run(mid, txs);
            && Inv(t) && vault in s.vaults && vault in mid.vaults && t.certs[s.nextId].cert.vaultId == vault
            && CashesInFor(t, s.nextId, CertWorth(t, s.nextId))
            && ShortByRounding(wal, CertWorth(t, s.nextId), s.vaults[vault], mid.vaults[vault])
  {
    var mid, cert := Step(s, Delegate(sender, vault, wal)), s.nextId;
    DepositRounding(s, sender, vault, wal);
    WorthKept(mid, txs, cert);
    var t := Run(mid, txs);
    LiveCertRedeems(t, cert);
    ShortByLess(wal, CertWorth(mid, cert), CertWorth(t, cert), s.vaults[vault], mid.vaults[vault]);
  }

  lemma WorthKept(s: State, txs: seq<Tx>, cert: Id)
    requires Inv(s) && cert in s.certs && cert in Run(s, txs).certs
    ensures var t := Run(s, txs);
            Inv(t) && t.certs[cert].cert == s.certs[cert].cert && CertWorth(s, cert) <= CertWorth(t, cert)
  {
    NoDilution(s, txs, cert);
    CertWithinVault(s, cert);
    RunKeepsCert(s, txs, cert);
  }

  /** What the wallet shows for a live certificate is exactly what redeeming it would pay. */
  lemma EstimateMatchesPayout(s: State, cert: Id)
    requires Inv(s) && cert in s.certs
    ensures var c := s.certs[cert].cert;
            var v := s.vaults[c.vaultId];
            && PeerVaults.Undelegate(c.vaultId, v, c).Ok?
            && PeerVaults.Undelegate(c.vaultId, v, c).value.1 == EstimatedValue(c.shares, v.reserves, v.totalShares)
            && EstimatedValue(c.shares, v.reserves, v.totalShares) >= c.shares
  {
    var c := s.certs[cert].cert;
    var v := s.vaults[c.vaultId];
    CertWithinVault(s, cert);
    UndelegateExact(c.vaultId, v, c);
    EstimateIsExact(c.shares, v.reserves, v.totalShares);
  }
}
