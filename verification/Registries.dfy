/** What the registries keep over every run: one peer and one registered vault an address, and
    no bond below the minimum but by slashing. */
module Registries {
  import opened MoveMath
  import opened PeerVaults
  import opened Ledger
  import S = Staking

  /** The registry and the peers name each other. */
  ghost predicate RegistryKept(s: State) {
    && (forall a :: a in s.registered ==> s.registered[a] in s.peers && s.peers[s.registered[a]].owner == a)
    && (forall p :: p in s.peers ==> s.peers[p].owner in s.registered && s.registered[s.peers[p].owner] == p)
  }

  ghost predicate BondsFull(s: State, slashed: set<Id>) {
    forall p :: p in s.peers && p !in slashed ==> s.peers[p].bond >= S.MIN_STAKE
  }

  /** The peer that a transaction takes bond from as a punishment, in the state it meets. */
  function SlashedBy(s: State, tx: Tx): set<Id> {
    if tx.Slash? && tx.wal > 0 && Apply(s, tx).Ok? then {tx.peer} else {}
  }

  function SlashedIn(s: State, txs: seq<Tx>): set<Id>
    decreases |txs|
  {
    if txs == [] then {} else SlashedBy(s, txs[0]) + SlashedIn(Step(s, txs[0]), txs[1..])
  }

  lemma VaultTxKeepsPeers(s: State, tx: Tx)
    requires TouchesVaults(tx) && Apply(s, tx).Ok?
    ensures Apply(s, tx).value.peers == s.peers && Apply(s, tx).value.registered == s.registered
  {
  }

  lemma StepKeepsBonds(s: State, tx: Tx, slashed: set<Id>)
    requires Inv(s) && RegistryKept(s) && BondsFull(s, slashed)
    ensures RegistryKept(Step(s, tx)) && BondsFull(Step(s, tx), slashed + SlashedBy(s, tx))
  {
    if Apply(s, tx).Ok? {
      if TouchesVaults(tx) {
        VaultTxKeepsPeers(s, tx);
      } else if tx.Register? {
        RegisterKeepsBonds(s, tx.sender, tx.wal, slashed);
      } else {
        PeerTxKeepsBonds(s, tx, slashed);
      }
    }
  }

  lemma PeerTxKeepsBonds(s: State, tx: Tx, slashed: set<Id>)
    requires RegistryKept(s) && BondsFull(s, slashed)
    requires Apply(s, tx).Ok? && !TouchesVaults(tx) && !tx.Register?
    ensures RegistryKept(Apply(s, tx).value) && BondsFull(Apply(s, tx).value, slashed + SlashedBy(s, tx))
  {
    if tx.SendWal? { assert Apply(s, tx).value.peers == s.peers; }
  }

  lemma RegisterKeepsBonds(s: State, sender: Address, wal: u64, slashed: set<Id>)
    requires Inv(s) && RegistryKept(s) && BondsFull(s, slashed) && ApplyRegister(s, sender, wal).Ok?
    ensures RegistryKept(ApplyRegister(s, sender, wal).value)
    ensures BondsFull(ApplyRegister(s, sender, wal).value, slashed)
  {
  }

  lemma {:induction false} RunKeepsBonds(s: State, txs: seq<Tx>, slashed: set<Id>)
    requires Inv(s) && RegistryKept(s) && BondsFull(s, slashed)
    ensures RegistryKept(Run(s, txs)) && BondsFull(Run(s, txs), slashed + SlashedIn(s, txs))
    decreases |txs|
  {
    if txs == [] {
      assert slashed + SlashedIn(s, txs) == slashed;
    } else {
      StepInv(s, txs[0]);
      StepKeepsBonds(s, txs[0], slashed);
      var t, now := Step(s, txs[0]), SlashedBy(s, txs[0]);
      RunKeepsBonds(t, txs[1..], slashed + now);
      assert slashed + SlashedIn(s, txs) == slashed + now + SlashedIn(t, txs[1..]);
    }
  }

  /** After every run of anybody's transactions: an address has at most one peer, which it
      owns, every peer is its owner's, and a bond is below the minimum only if a slash of
      that peer succeeded and took something. */
  lemma BondsNeverDropBelowMinimum(wallets: map<Address, nat>, txs: seq<Tx>)
    ensures var s := Run(Genesis(wallets), txs);
            RegistryKept(s) && BondsFull(s, SlashedIn(Genesis(wallets), txs))
  {
    GenesisInv(wallets);
    RunKeepsBonds(Genesis(wallets), txs, {});
    assert {} + SlashedIn(Genesis(wallets), txs) == SlashedIn(Genesis(wallets), txs);
  }

  // ----- The vault registry -----

  /** A registered vault is its address's own, at the commission every registered vault gets. */
  ghost predicate VaultsKept(s: State) {
    forall a :: a in s.vaultOf ==>
      && s.vaultOf[a] in s.vaults
      && s.vaults[s.vaultOf[a]].owner == a
      && s.vaults[s.vaultOf[a]].commissionBps == 1000
  }

  /** Whoever a transaction is from: vaults stay, with their owner and commission, and so does
      what is registered. */
  lemma StepKeepsVaults(s: State, tx: Tx)
    requires Inv(s)
    ensures forall v :: v in s.vaults ==> SameTerms(s, Step(s, tx), v)
  {
    if Apply(s, tx).Ok? {
      forall v | v in s.vaults ensures SameTerms(s, Apply(s, tx).value, v) {
        if TouchesVaults(tx) { VaultTxKeepsTerms(s, tx, v); } else { OtherTxFrame(s, tx); }
      }
    }
  }

  predicate SameTerms(s: State, t: State, v: Id)
    requires v in s.vaults
  {
    v in t.vaults && t.vaults[v].owner == s.vaults[v].owner && t.vaults[v].commissionBps == s.vaults[v].commissionBps
  }

  lemma VaultTxKeepsTerms(s: State, tx: Tx, v: Id)
    requires Inv(s) && v in s.vaults && TouchesVaults(tx) && Apply(s, tx).Ok?
    ensures SameTerms(s, Apply(s, tx).value, v)
  {
    if tx.CreateVault? || tx.NewVault? { NewVaultKeepsTerms(s, tx, v); } else { OldVaultKeepsTerms(s, tx, v); }
  }

  lemma OldVaultKeepsTerms(s: State, tx: Tx, v: Id)
    requires v in s.vaults && TouchesVaults(tx) && !tx.CreateVault? && !tx.NewVault? && Apply(s, tx).Ok?
    ensures SameTerms(s, Apply(s, tx).value, v)
  {
  }

  lemma NewVaultKeepsTerms(s: State, tx: Tx, v: Id)
    requires Inv(s) && v in s.vaults && (tx.CreateVault? || tx.NewVault?) && Apply(s, tx).Ok?
    ensures SameTerms(s, Apply(s, tx).value, v)
  {
    assert v != s.nextId;
  }

  lemma StepKeepsRegistered(s: State, tx: Tx)
    ensures forall a :: a in s.vaultOf ==> a in Step(s, tx).vaultOf && Step(s, tx).vaultOf[a] == s.vaultOf[a]
    ensures forall a :: a in Step(s, tx).vaultOf && a !in s.vaultOf ==>
              tx == NewVault(a) && Step(s, tx) == ApplyNewVault(s, a).value
  {
  }

  lemma {:induction false} RunKeepsVaults(s: State, txs: seq<Tx>)
    requires Inv(s) && VaultsKept(s)
    ensures VaultsKept(Run(s, txs))
    ensures forall a :: a in s.vaultOf ==> a in Run(s, txs).vaultOf && Run(s, txs).vaultOf[a] == s.vaultOf[a]
    decreases |txs|
  {
    if txs != [] {
      StepInv(s, txs[0]);
      StepKeepsVaults(s, txs[0]);
      StepKeepsRegistered(s, txs[0]);
      RunKeepsVaults(Step(s, txs[0]), txs[1..]);
    }
  }

  /** After every run an address has registered at most one vault, which is its own, at 10%
      commission; a second registration aborts, and the first one is for good. */
  lemma RegisteredVaultsKept(wallets: map<Address, nat>, txs: seq<Tx>, more: seq<Tx>, a: Address)
    ensures var s := Run(Genesis(wallets), txs);
            && VaultsKept(s)
            && (a in s.vaultOf ==>
                  && Apply(s, NewVault(a)) == Abort(DuplicateKey)
                  && a in Run(s, more).vaultOf && Run(s, more).vaultOf[a] == s.vaultOf[a])
            && (a !in s.vaultOf ==>
                  var t := Step(s, NewVault(a));
                  a in t.vaultOf && t.vaultOf[a] !in s.vaults && t.vaults[t.vaultOf[a]] == Vault(a, 0, 0, 1000, 0))
  {
    var s := Run(Genesis(wallets), txs);
    GenesisInv(wallets);
    RunInv(Genesis(wallets), txs);
    RunKeepsVaults(Genesis(wallets), txs);
    RunKeepsVaults(s, more);
  }
}
