/** The three contract modules over one chain state: every entry point as a transaction,
    an aborted transaction leaving the state as it was. */
module Ledger {
  import opened MoveMath
  import opened MapSums
  import opened PeerVaults
  import S = Staking

  datatype Held = Held(cert: Certificate, holder: Address)

  /** Object ids come from the counter `nextId`, so no id is ever given out twice. */
  datatype State = State(
    vaults: map<Id, Vault>,
    certs: map<Id, Held>,
    peers: map<Id, S.Bonded>,
    registered: map<Address, Id>,
    vaultOf: map<Address, Id>,
    wallets: map<Address, nat>,
    nextId: Id)

  datatype Tx =
    | CreateVault(peer: Address, commissionBps: u64)
    | NewVault(sender: Address)
    | Delegate(sender: Address, vault: Id, wal: u64)
    | Undelegate(sender: Address, vault: Id, cert: Id)
    | Pay(sender: Address, vault: Id, wal: u64)
    | ClaimEarnings(sender: Address, vault: Id)
    | Register(sender: Address, wal: u64)
    | AddStake(sender: Address, peer: Id, wal: u64)
    | Unstake(sender: Address, peer: Id, wal: u64)
    | Slash(admin: Address, peer: Id, wal: u64)
    | SendWal(sender: Address, recipient: Address, wal: u64)
    | SendCert(sender: Address, recipient: Address, cert: Id)

  // ----- Wallets -----

  function Balance(s: State, a: Address): nat {
    if a in s.wallets then s.wallets[a] else 0
  }

  /** The coin handed to a transaction has to be in the sender's wallet. */
  function Debit(s: State, a: Address, wal: u64): Outcome<State> {
    if wal <= Balance(s, a) then Ok(s.(wallets := s.wallets[a := Balance(s, a) - wal])) else Abort(InvalidInput)
  }

  function Credit(s: State, a: Address, wal: nat): State {
    s.(wallets := s.wallets[a := Balance(s, a) + wal])
  }

  // ----- Transactions -----

  function AddVault(s: State, v: Vault): State {
    s.(vaults := s.vaults[s.nextId := v], nextId := s.nextId + 1)
  }

  function ApplyNewVault(s: State, sender: Address): Outcome<State> {
    if sender in s.vaultOf then Abort(DuplicateKey)
    else Ok(AddVault(s.(vaultOf := s.vaultOf[sender := s.nextId]), Vault(sender, 0, 0, 1000, 0)))
  }

  function ApplyDelegate(s: State, sender: Address, vault: Id, wal: u64): Outcome<State> {
    if vault !in s.vaults then Abort(InvalidInput) else
    var paid :- Debit(s, sender, wal);
    var (v, shares) :- PeerVaults.Delegate(s.vaults[vault], wal);
    Ok(paid.(vaults := s.vaults[vault := v],
             certs := s.certs[s.nextId := Held(Certificate(vault, shares), sender)],
             nextId := s.nextId + 1))
  }

  function ApplyUndelegate(s: State, sender: Address, vault: Id, cert: Id): Outcome<State> {
    if vault !in s.vaults || cert !in s.certs || s.certs[cert].holder != sender then Abort(InvalidInput) else
    var (v, wal) :- PeerVaults.Undelegate(vault, s.vaults[vault], s.certs[cert].cert);
    Ok(Credit(s.(vaults := s.vaults[vault := v], certs := s.certs - {cert}), sender, wal))
  }

  function ApplyPay(s: State, sender: Address, vault: Id, wal: u64): Outcome<State> {
    if vault !in s.vaults then Abort(InvalidInput) else
    var paid :- Debit(s, sender, wal);
    var v :- CollectRewards(s.vaults[vault], wal);
    Ok(paid.(vaults := s.vaults[vault := v]))
  }

  function ApplyClaim(s: State, sender: Address, vault: Id): Outcome<State> {
    if vault !in s.vaults then Abort(InvalidInput) else
    var (v, wal) :- PeerVaults.ClaimEarnings(s.vaults[vault], sender);
    Ok(Credit(s.(vaults := s.vaults[vault := v]), sender, wal))
  }

  function ApplyRegister(s: State, sender: Address, wal: u64): Outcome<State> {
    var paid :- Debit(s, sender, wal);
    var p :- S.Register(sender in s.registered, sender, wal);
    Ok(paid.(peers := s.peers[s.nextId := p], registered := s.registered[sender := s.nextId], nextId := s.nextId + 1))
  }

  function ApplyAddStake(s: State, sender: Address, peer: Id, wal: u64): Outcome<State> {
    if peer !in s.peers then Abort(InvalidInput) else
    var paid :- Debit(s, sender, wal);
    var p :- S.AddStake(s.peers[peer], wal);
    Ok(paid.(peers := s.peers[peer := p]))
  }

  function ApplyUnstake(s: State, sender: Address, peer: Id, wal: u64): Outcome<State> {
    if peer !in s.peers then Abort(InvalidInput) else
    var p :- S.Unstake(s.peers[peer], sender, wal);
    Ok(Credit(s.(peers := s.peers[peer := p]), sender, wal))
  }

  function ApplySlash(s: State, admin: Address, peer: Id, wal: u64): Outcome<State> {
    if peer !in s.peers then Abort(InvalidInput) else
    var p :- S.Slash(s.peers[peer], wal);
    Ok(Credit(s.(peers := s.peers[peer := p]), admin, wal))
  }

  function ApplySendCert(s: State, sender: Address, recipient: Address, cert: Id): Outcome<State> {
    if cert !in s.certs || s.certs[cert].holder != sender then Abort(InvalidInput)
    else Ok(s.(certs := s.certs[cert := s.certs[cert].(holder := recipient)]))
  }

  function Apply(s: State, tx: Tx): Outcome<State> {
    match tx
    case CreateVault(peer, bps) => var v :- PeerVaults.CreateVault(peer, bps); Ok(AddVault(s, v))
    case NewVault(sender) => ApplyNewVault(s, sender)
    case Delegate(sender, vault, wal) => ApplyDelegate(s, sender, vault, wal)
    case Undelegate(sender, vault, cert) => ApplyUndelegate(s, sender, vault, cert)
    case Pay(sender, vault, wal) => ApplyPay(s, sender, vault, wal)
    case ClaimEarnings(sender, vault) => ApplyClaim(s, sender, vault)
    case Register(sender, wal) => ApplyRegister(s, sender, wal)
    case AddStake(sender, peer, wal) => ApplyAddStake(s, sender, peer, wal)
    case Unstake(sender, peer, wal) => ApplyUnstake(s, sender, peer, wal)
    case Slash(admin, peer, wal) => ApplySlash(s, admin, peer, wal)
    case SendWal(sender, recipient, wal) => var paid :- Debit(s, sender, wal); Ok(Credit(paid, recipient, wal))
    case SendCert(sender, recipient, cert) => ApplySendCert(s, sender, recipient, cert)
  }

  function Step(s: State, tx: Tx): State {
    match Apply(s, tx)
    case Ok(t) => t
    case Abort(_) => s
  }

  function Run(s: State, txs: seq<Tx>): State
    decreases |txs|
  {
    if txs == [] then s else Run(Step(s, txs[0]), txs[1..])
  }

  /** The chain before any of the contracts' entry points was called. */
  function Genesis(wallets: map<Address, nat>): State {
    State(map[], map[], map[], map[], map[], wallets, 0)
  }

  // ----- The invariant -----

  function SharesIn(vault: Id): Held -> nat {
    (h: Held) => if h.cert.vaultId == vault then h.cert.shares else 0
  }

  ghost predicate Inv(s: State) {
    && (forall v :: v in s.vaults ==> v < s.nextId && Sound(s.vaults[v]))
    && (forall v :: v in s.vaults ==> s.vaults[v].totalShares == MapSum(s.certs, SharesIn(v)))
    && (forall c :: c in s.certs ==> c < s.nextId && s.certs[c].cert.vaultId in s.vaults && s.certs[c].cert.shares > 0)
    && (forall p :: p in s.peers ==> p < s.nextId)
  }

  lemma GenesisInv(wallets: map<Address, nat>)
    ensures Inv(Genesis(wallets))
  {
  }

  /** A live certificate is part of its vault's shares. */
  lemma CertWithinVault(s: State, cert: Id)
    requires Inv(s) && cert in s.certs
    ensures var v := s.certs[cert].cert.vaultId;
            0 < s.certs[cert].cert.shares <= s.vaults[v].totalShares
  {
    MapSumRemove(s.certs, SharesIn(s.certs[cert].cert.vaultId), cert);
  }

  /** A vault whose numbers changed keeps the invariant if the certificates follow. */
  lemma VaultChanged(s: State, t: State, vault: Id)
    requires Inv(s) && vault in s.vaults && vault in t.vaults
    requires t.vaults == s.vaults[vault := t.vaults[vault]] && Sound(t.vaults[vault])
    requires t.peers == s.peers && t.nextId >= s.nextId
    requires t.vaults[vault].totalShares == MapSum(t.certs, SharesIn(vault))
    requires forall v :: v in s.vaults && v != vault ==> MapSum(t.certs, SharesIn(v)) == MapSum(s.certs, SharesIn(v))
    requires forall c :: c in t.certs ==>
               c < t.nextId && t.certs[c].cert.vaultId in s.vaults && t.certs[c].cert.shares > 0
    ensures Inv(t)
  {
    forall v | v in t.vaults
      ensures v < t.nextId && Sound(t.vaults[v]) && t.vaults[v].totalShares == MapSum(t.certs, SharesIn(v))
    {
    }
  }

  lemma DelegateInv(s: State, sender: Address, vault: Id, wal: u64)
    requires Inv(s) && ApplyDelegate(s, sender, vault, wal).Ok?
    ensures Inv(ApplyDelegate(s, sender, vault, wal).value)
  {
    var t := ApplyDelegate(s, sender, vault, wal).value;
    DelegateExact(s.vaults[vault], wal);
    DelegateKeepsPrice(s.vaults[vault], wal);
    forall v | v in s.vaults
      ensures MapSum(t.certs, SharesIn(v)) == MapSum(s.certs, SharesIn(v)) + SharesIn(v)(t.certs[s.nextId])
    {
      MapSumInsert(s.certs, SharesIn(v), s.nextId, t.certs[s.nextId]);
    }
    VaultChanged(s, t, vault);
  }

  lemma UndelegateInv(s: State, sender: Address, vault: Id, cert: Id)
    requires Inv(s) && ApplyUndelegate(s, sender, vault, cert).Ok?
    ensures Inv(ApplyUndelegate(s, sender, vault, cert).value)
  {
    var t := ApplyUndelegate(s, sender, vault, cert).value;
    CertWithinVault(s, cert);
    UndelegateExact(vault, s.vaults[vault], s.certs[cert].cert);
    UndelegateKeepsPrice(vault, s.vaults[vault], s.certs[cert].cert);
    forall v | v in s.vaults
      ensures MapSum(s.certs, SharesIn(v)) == MapSum(t.certs, SharesIn(v)) + SharesIn(v)(s.certs[cert])
    {
      MapSumRemove(s.certs, SharesIn(v), cert);
    }
    VaultChanged(s, t, vault);
  }

  lemma AddVaultInv(s: State, v: Vault)
    requires Inv(s) && Sound(v) && v.totalShares == 0
    ensures Inv(AddVault(s, v))
  {
    var t := AddVault(s, v);
    MapSumZero(s.certs, SharesIn(s.nextId));
    forall w | w in t.vaults
      ensures w < t.nextId && Sound(t.vaults[w]) && t.vaults[w].totalShares == MapSum(t.certs, SharesIn(w))
    {
    }
  }

  lemma SendCertInv(s: State, sender: Address, recipient: Address, cert: Id)
    requires Inv(s) && ApplySendCert(s, sender, recipient, cert).Ok?
    ensures Inv(ApplySendCert(s, sender, recipient, cert).value)
  {
    var t := ApplySendCert(s, sender, recipient, cert).value;
    forall v | v in s.vaults
      ensures MapSum(t.certs, SharesIn(v)) == MapSum(s.certs, SharesIn(v))
    {
      SendKeepsShares(s, recipient, cert, v);
    }
  }

  lemma SendKeepsShares(s: State, recipient: Address, cert: Id, vault: Id)
    requires cert in s.certs
    ensures MapSum(s.certs[cert := s.certs[cert].(holder := recipient)], SharesIn(vault)) ==
            MapSum(s.certs, SharesIn(vault))
  {
    MapSumUpdate(s.certs, SharesIn(vault), cert, s.certs[cert].(holder := recipient));
  }

  lemma PayInv(s: State, sender: Address, vault: Id, wal: u64)
    requires Inv(s) && ApplyPay(s, sender, vault, wal).Ok?
    ensures Inv(ApplyPay(s, sender, vault, wal).value)
  {
    CollectExact(s.vaults[vault], wal);
    CollectKeepsPrice(s.vaults[vault], wal);
    VaultChanged(s, ApplyPay(s, sender, vault, wal).value, vault);
  }

  lemma ClaimInv(s: State, sender: Address, vault: Id)
    requires Inv(s) && ApplyClaim(s, sender, vault).Ok?
    ensures Inv(ApplyClaim(s, sender, vault).value)
  {
    VaultChanged(s, ApplyClaim(s, sender, vault).value, vault);
  }

  predicate TouchesVaults(tx: Tx) {
    tx.CreateVault? || tx.NewVault? || tx.Delegate? || tx.Undelegate? || tx.Pay? || tx.ClaimEarnings? || tx.SendCert?
  }

  /** Bonds and plain transfers leave vaults and certificates alone. */
  lemma OtherTxFrame(s: State, tx: Tx)
    requires !TouchesVaults(tx) && Apply(s, tx).Ok?
    ensures var t := Apply(s, tx).value;
            t.vaults == s.vaults && t.certs == s.certs && t.nextId >= s.nextId
    ensures forall p :: p in Apply(s, tx).value.peers ==> p in s.peers || p < Apply(s, tx).value.nextId
  {
  }

  lemma VaultTxInv(s: State, tx: Tx)
    requires Inv(s) && TouchesVaults(tx) && Apply(s, tx).Ok?
    ensures Inv(Apply(s, tx).value)
  {
    match tx
    case CreateVault(peer, bps) => AddVaultInv(s, PeerVaults.CreateVault(peer, bps).value);
    case NewVault(sender) =>
      var named := s.(vaultOf := s.vaultOf[sender := s.nextId]);
      assert Inv(named);
      AddVaultInv(named, Vault(sender, 0, 0, 1000, 0));
    case Delegate(sender, vault, wal) => DelegateInv(s, sender, vault, wal);
    case Undelegate(sender, vault, cert) => UndelegateInv(s, sender, vault, cert);
    case Pay(sender, vault, wal) => PayInv(s, sender, vault, wal);
    case ClaimEarnings(sender, vault) => ClaimInv(s, sender, vault);
    case SendCert(sender, recipient, cert) => SendCertInv(s, sender, recipient, cert);
  }

  /** Every transaction keeps the invariant: shares out equal the live certificates, and
      every reserve covers its shares. */
  lemma StepInv(s: State, tx: Tx)
    requires Inv(s)
    ensures Inv(Step(s, tx))
  {
    if Apply(s, tx).Ok? {
      if TouchesVaults(tx) { VaultTxInv(s, tx); } else { OtherTxFrame(s, tx); }
    }
  }

  lemma {:induction false} RunInv(s: State, txs: seq<Tx>)
    requires Inv(s)
    ensures Inv(Run(s, txs))
    decreases |txs|
  {
    if txs != [] {
      StepInv(s, txs[0]);
      RunInv(Step(s, txs[0]), txs[1..]);
    }
  }
}
