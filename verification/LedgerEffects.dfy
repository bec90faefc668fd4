/** What each transaction does to every vault, certificate and peer on the chain, over plain
    numbers; and what follows for a depositor by name. */
module LedgerEffects {
  import opened Words
  import opened MoveMath
  import opened PeerVaults
  import opened Ledger
  import opened LedgerTheorems
  import S = Staking

  // ----- Vaults -----

  /** What a successful transaction makes of a vault that was there. */
  function VaultAfter(s: State, tx: Tx, v: Id): (r: (int, int, int))
    requires Inv(s) && v in s.vaults
  {
    var w := s.vaults[v];
    match tx
    case Delegate(_, vault, wal) =>
      if vault == v then (w.reserves + wal, w.totalShares + SharesFor(w, wal), w.earnings)
      else (w.reserves, w.totalShares, w.earnings)
    case Undelegate(_, vault, cert) =>
      if vault == v && cert in s.certs
      then (w.reserves - CertWorth(s, cert), w.totalShares - s.certs[cert].cert.shares, w.earnings)
      else (w.reserves, w.totalShares, w.earnings)
    case Pay(_, vault, wal) =>
      if vault == v
      then (w.reserves + (wal - Commission(w, wal)), w.totalShares, w.earnings + Commission(w, wal))
      else (w.reserves, w.totalShares, w.earnings)
    case ClaimEarnings(_, vault) => (w.reserves, w.totalShares, if vault == v then 0 else w.earnings)
    case _ => (w.reserves, w.totalShares, w.earnings)
  }

  predicate Holds(w: Vault, numbers: (int, int, int)) { (w.reserves, w.totalShares, w.earnings) == numbers }

  lemma DelegateEffect(s: State, tx: Tx, v: Id)
    requires Inv(s) && v in s.vaults && tx.Delegate? && Apply(s, tx).Ok?
    ensures v in Apply(s, tx).value.vaults && Holds(Apply(s, tx).value.vaults[v], VaultAfter(s, tx, v))
  {
    DelegateExact(s.vaults[tx.vault], tx.wal);
  }

  lemma UndelegateEffect(s: State, tx: Tx, v: Id)
    requires Inv(s) && v in s.vaults && tx.Undelegate?
    ensures Apply(s, tx).Ok? ==>
              v in Apply(s, tx).value.vaults && Holds(Apply(s, tx).value.vaults[v], VaultAfter(s, tx, v))
  {
    if Apply(s, tx).Ok? {
      CertWithinVault(s, tx.cert);
      UndelegateExact(tx.vault, s.vaults[tx.vault], s.certs[tx.cert].cert);
    }
  }

  lemma PayEffect(s: State, tx: Tx, v: Id)
    requires Inv(s) && v in s.vaults && tx.Pay? && Apply(s, tx).Ok?
    ensures v in Apply(s, tx).value.vaults && Holds(Apply(s, tx).value.vaults[v], VaultAfter(s, tx, v))
  {
    CollectExact(s.vaults[tx.vault], tx.wal);
  }

  lemma OtherEffect(s: State, tx: Tx, v: Id)
    requires Inv(s) && v in s.vaults && !tx.Delegate? && !tx.Undelegate? && !tx.Pay? && Apply(s, tx).Ok?
    ensures v in Apply(s, tx).value.vaults && Holds(Apply(s, tx).value.vaults[v], VaultAfter(s, tx, v))
  {
    if !TouchesVaults(tx) { OtherTxFrame(s, tx); }
  }

  /** Every vault that was there has exactly the numbers the transaction is for; vaults it does
      not name keep theirs. */
  lemma VaultsChangeExactly(s: State, tx: Tx, v: Id)
    requires Inv(s) && v in s.vaults && Apply(s, tx).Ok?
    ensures v in Apply(s, tx).value.vaults && Holds(Apply(s, tx).value.vaults[v], VaultAfter(s, tx, v))
  {
    if tx.Delegate? { DelegateEffect(s, tx, v); }
    else if tx.Undelegate? { UndelegateEffect(s, tx, v); }
    else if tx.Pay? { PayEffect(s, tx, v); }
    else { OtherEffect(s, tx, v); }
  }

  /** A vault comes about only by one of the two ways to create one, empty, at the next id, with
      the owner and commission asked for. */
  lemma VaultsAddedExactly(s: State, tx: Tx, v: Id)
    requires Inv(s) && v !in s.vaults && Apply(s, tx).Ok?
    ensures v in Apply(s, tx).value.vaults <==> v == s.nextId && (tx.CreateVault? || tx.NewVault?)
    ensures tx.CreateVault? ==> Apply(s, tx).value.vaults[s.nextId] == Vault(tx.peer, 0, 0, tx.commissionBps, 0)
    ensures tx.NewVault? ==> Apply(s, tx).value.vaults[s.nextId] == Vault(tx.sender, 0, 0, 1000, 0)
  {
    if !TouchesVaults(tx) { OtherTxFrame(s, tx); }
  }

  // ----- Certificates -----

  /** Who has a certificate next, if it is still there. */
  function HolderAfter(s: State, tx: Tx, cert: Id): Address
    requires cert in s.certs
  {
    if tx.SendCert? && tx.cert == cert then tx.recipient else s.certs[cert].holder
  }

  /** The certificate after a transaction, if it was there before. */
  predicate CertFollows(s: State, tx: Tx, t: State, cert: Id)
    requires cert in s.certs
  {
    && (cert !in t.certs <==> tx == Undelegate(s.certs[cert].holder, s.certs[cert].cert.vaultId, cert))
    && (cert in t.certs ==> t.certs[cert] == Held(s.certs[cert].cert, HolderAfter(s, tx, cert)))
    && (tx.SendCert? && tx.cert == cert ==> tx.sender == s.certs[cert].holder)
  }

  lemma MovingTx(s: State, tx: Tx, cert: Id)
    requires Inv(s) && cert in s.certs && (tx.Delegate? || tx.Undelegate? || tx.SendCert?)
    ensures Apply(s, tx).Ok? ==> CertFollows(s, tx, Apply(s, tx).value, cert)
  {
    if tx.Delegate? && Apply(s, tx).Ok? { DepositCert(s, tx.sender, tx.vault, tx.wal); }
  }

  lemma OtherVaultTx(s: State, tx: Tx)
    requires TouchesVaults(tx) && Apply(s, tx).Ok? && !tx.Delegate? && !tx.Undelegate? && !tx.SendCert?
    ensures Apply(s, tx).value.certs == s.certs
  {
  }

  /** A live certificate dies only when its holder cashes it in, and changes hands only when
      its holder sends it, to whom he says. */
  lemma CertsChangeExactly(s: State, tx: Tx, cert: Id)
    requires Inv(s) && cert in s.certs && Apply(s, tx).Ok?
    ensures CertFollows(s, tx, Apply(s, tx).value, cert)
  {
    if tx.Delegate? || tx.Undelegate? || tx.SendCert? { MovingTx(s, tx, cert); }
    else if TouchesVaults(tx) { OtherVaultTx(s, tx); }
    else { OtherTxFrame(s, tx); }
  }

  /** A deposit makes one certificate: the depositor's, with exactly the shares it buys. */
  lemma DepositCert(s: State, sender: Address, vault: Id, wal: u64)
    requires Inv(s) && Apply(s, Delegate(sender, vault, wal)).Ok?
    ensures var t := Apply(s, Delegate(sender, vault, wal)).value;
            && vault in s.vaults
            && s.nextId in t.certs
            && var held := t.certs[s.nextId];
            && t.certs == s.certs[s.nextId := held]
            && held.holder == sender
            && held.cert.vaultId == vault
            && held.cert.shares == SharesFor(s.vaults[vault], wal) > 0
  {
    DelegateExact(s.vaults[vault], wal);
  }

  /** A certificate comes about only by a deposit. */
  lemma CertsAddedExactly(s: State, tx: Tx, cert: Id)
    requires Inv(s) && cert !in s.certs && Apply(s, tx).Ok?
    ensures cert in Apply(s, tx).value.certs <==> tx.Delegate? && cert == s.nextId
  {
    if tx.Delegate? { DepositCert(s, tx.sender, tx.vault, tx.wal); }
    else if tx.Undelegate? || tx.SendCert? { }
    else if TouchesVaults(tx) { OtherVaultTx(s, tx); }
    else { OtherTxFrame(s, tx); }
  }

  // ----- Peers -----

  function BondAfter(s: State, tx: Tx, p: Id): int
    requires p in s.peers
  {
    if tx.AddStake? && tx.peer == p then s.peers[p].bond + tx.wal
    else if (tx.Unstake? || tx.Slash?) && tx.peer == p then s.peers[p].bond - tx.wal
    else s.peers[p].bond
  }

  /** A peer keeps its owner, and its bond changes by exactly what is staked, withdrawn or
      slashed of it. */
  lemma PeersChangeExactly(s: State, tx: Tx, p: Id)
    requires Inv(s) && p in s.peers && Apply(s, tx).Ok?
    ensures p in Apply(s, tx).value.peers
    ensures Apply(s, tx).value.peers[p].owner == s.peers[p].owner
    ensures Apply(s, tx).value.peers[p].bond == BondAfter(s, tx, p)
  {
  }

  /** A peer comes about only by a registration: its owner is who registered, its bond what he
      paid, and he is registered with it. */
  lemma PeersAddedExactly(s: State, tx: Tx, p: Id)
    requires Inv(s) && p !in s.peers && Apply(s, tx).Ok?
    ensures p in Apply(s, tx).value.peers <==> tx.Register? && p == s.nextId
    ensures tx.Register? ==>
              && Apply(s, tx).value.peers[s.nextId] == S.Bonded(tx.sender, tx.wal)
              && Apply(s, tx).value.registered == s.registered[tx.sender := s.nextId]
  {
  }

  // ----- A depositor by name -----

  /** The holder neither sends nor cashes in his certificate. */
  ghost predicate KeepsIt(txs: seq<Tx>, holder: Address, cert: Id) {
    forall i :: 0 <= i < |txs| ==>
      && !(txs[i].SendCert? && txs[i].sender == holder && txs[i].cert == cert)
      && !(txs[i].Undelegate? && txs[i].sender == holder && txs[i].cert == cert)
  }

  /** Whatever everybody else does, a certificate that its holder neither sends nor cashes in
      stays live, and stays his. */
  lemma {:induction false} RunKeepsHolder(s: State, txs: seq<Tx>, cert: Id)
    requires Inv(s) && cert in s.certs && KeepsIt(txs, s.certs[cert].holder, cert)
    ensures Inv(Run(s, txs)) && cert in Run(s, txs).certs && Run(s, txs).certs[cert] == s.certs[cert]
    decreases |txs|
  {
    if txs != [] {
      var t := Step(s, txs[0]);
      StepInv(s, txs[0]);
      if Apply(s, txs[0]).Ok? { CertsChangeExactly(s, txs[0], cert); }
      assert t.certs[cert] == s.certs[cert];
      assert forall i :: 0 <= i < |txs| - 1 ==> txs[1..][i] == txs[i + 1];
      RunKeepsHolder(t, txs[1..], cert);
    }
  }

  /** The deposit of anybody, by name: after any run of everybody's transactions in which the
      depositor neither sends nor cashes in his certificate, he can cash it in, is paid its
      whole worth, and that is short of the deposit by the rounding of its day at the most. */
  lemma DepositorIsSafe(s: State, sender: Address, vault: Id, wal: u64, txs: seq<Tx>)
    requires Inv(s) && Apply(s, Delegate(sender, vault, wal)).Ok? && KeepsIt(txs, sender, s.nextId)
    ensures var mid := Step(s, Delegate(sender, vault, wal));
            var t := Run(mid, txs);
            var r := Apply(t, Undelegate(sender, vault, s.nextId));
            && Inv(t) && vault in s.vaults && vault in mid.vaults && s.nextId in t.certs
            && r.Ok? && Balance(r.value, sender) == Balance(t, sender) + CertWorth(t, s.nextId)
            && ShortByRounding(wal, CertWorth(t, s.nextId), s.vaults[vault], mid.vaults[vault])
  {
    var mid := Step(s, Delegate(sender, vault, wal));
    StepInv(s, Delegate(sender, vault, wal));
    DepositCert(s, sender, vault, wal);
    RunKeepsHolder(mid, txs, s.nextId);
    DepositIsSafe(s, sender, vault, wal, txs);
  }
}
