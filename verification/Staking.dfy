/** Registered peers and their bonds. */
module Staking {
  import opened MoveMath
  import opened PeerVaults

  const MIN_STAKE: u64 := 1_000_000_000

  datatype Bonded = Bonded(owner: Address, bond: u64)

  function Register(known: bool, sender: Address, bond: u64): Outcome<Bonded> {
    if known then Abort(AlreadyRegistered)
    else if bond < MIN_STAKE then Abort(InsufficientBond)
    else Ok(Bonded(sender, bond))
  }

  function AddStake(p: Bonded, amount: u64): Outcome<Bonded> {
    var bond :- CheckedU64(p.bond + amount);
    Ok(p.(bond := bond))
  }

  function Unstake(p: Bonded, sender: Address, amount: u64): Outcome<Bonded> {
    if sender != p.owner then Abort(NotPeerOwner)
    else if p.bond < amount then Abort(InsufficientStake)
    else if p.bond - amount < MIN_STAKE then Abort(BelowMinStake)
    else Ok(p.(bond := p.bond - amount))
  }

  function Slash(p: Bonded, amount: u64): Outcome<Bonded> {
    if p.bond < amount then Abort(InsufficientStake) else Ok(p.(bond := p.bond - amount))
  }

  /** Why staking is refused, the reasons in the order they are looked at. */
  lemma Refusals(p: Bonded, known: bool, sender: Address, amount: u64)
    ensures Register(known, sender, amount).Abort? <==> known || amount < 1_000_000_000
    ensures known ==> Register(known, sender, amount) == Abort(AlreadyRegistered)
    ensures !known && amount < 1_000_000_000 ==> Register(known, sender, amount) == Abort(InsufficientBond)
    ensures Unstake(p, sender, amount).Abort? <==> sender != p.owner || p.bond < amount + 1_000_000_000
    ensures sender != p.owner ==> Unstake(p, sender, amount) == Abort(NotPeerOwner)
    ensures sender == p.owner && p.bond < amount ==> Unstake(p, sender, amount) == Abort(InsufficientStake)
    ensures sender == p.owner && amount <= p.bond < amount + 1_000_000_000 ==>
              Unstake(p, sender, amount) == Abort(BelowMinStake)
    ensures Slash(p, amount).Abort? <==> p.bond < amount
    ensures p.bond < amount ==> Slash(p, amount) == Abort(InsufficientStake)
  {
  }

  class Peer {
    const suiAddress: Address
    var bond: u64

    function Value(): Bonded
      reads this
    {
      Bonded(suiAddress, bond)
    }

    constructor (suiAddress: Address, bond: u64)
      ensures Value() == Bonded(suiAddress, bond)
    {
      this.suiAddress := suiAddress;
      this.bond := bond;
    }

    method Add(amount: u64) returns (r: Outcome<()>)
      modifies this
      ensures match AddStake(old(Value()), amount)
              case Ok(p) => Value() == p && r == Ok(())
              case Abort(why) => Value() == old(Value()) && r == Abort(why)
    {
      var joined := CheckedU64(bond + amount);
      if joined.Abort? { return Abort(ArithmeticError); }
      bond := joined.value;
      r := Ok(());
    }

    method Withdraw(sender: Address, amount: u64) returns (r: Outcome<u64>)
      modifies this
      ensures match Unstake(old(Value()), sender, amount)
              case Ok(p) => Value() == p && r == Ok(amount)
              case Abort(why) => Value() == old(Value()) && r == Abort(why)
    {
      if sender != suiAddress { return Abort(NotPeerOwner); }
      if bond < amount { return Abort(InsufficientStake); }
      if bond - amount < MIN_STAKE { return Abort(BelowMinStake); }
      bond := bond - amount;
      r := Ok(amount);
    }

    method Punish(amount: u64) returns (r: Outcome<u64>)
      modifies this
      ensures match Slash(old(Value()), amount)
              case Ok(p) => Value() == p && r == Ok(amount)
              case Abort(why) => Value() == old(Value()) && r == Abort(why)
    {
      if bond < amount { return Abort(InsufficientStake); }
      bond := bond - amount;
      r := Ok(amount);
    }
  }

  class Registry {
    var peers: map<Address, Peer>

    constructor ()
      ensures peers == map[]
    {
      peers := map[];
    }

    method Enrol(sender: Address, bond: u64) returns (r: Outcome<Peer>)
      modifies this
      ensures match Register(sender in old(peers), sender, bond)
              case Ok(p) => r.Ok? && fresh(r.value) && r.value.Value() == p && peers == old(peers)[sender := r.value]
              case Abort(why) => r == Abort(why) && peers == old(peers)
    {
      if sender in peers { return Abort(AlreadyRegistered); }
      if bond < MIN_STAKE { return Abort(InsufficientBond); }
      var peer := new Peer(sender, bond);
      peers := peers[sender := peer];
      r := Ok(peer);
    }
  }
}
