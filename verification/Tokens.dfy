/** The two tokens, ENERGY and CORE, as the contracts keep them: balances, supply and admin,
    with Solidity's checked 256-bit arithmetic and revert. */
module Tokens {

  type Address = nat

  const TWO256 := 0x1_0000_0000_0000_0000_0000_0000_0000_0000_0000_0000_0000_0000_0000_0000_0000_0000

  const ETHER := 1_000_000_000_000_000_000

  /** 1_000_000_000 ether */
  const CAP := 1_000_000_000 * ETHER

  // ---------------------------------------------------------------- balances

  /** Solidity mappings read 0 where nothing was written. */
  function Bal(m: map<Address, nat>, a: Address): nat { if a in m then m[a] else 0 }

  ghost function Sum(m: map<Address, nat>): nat
    decreases |m|
  {
    if m == map[] then 0
    else
      var k :| k in m;
      m[k] + Sum(m - {k})
  }

  lemma {:induction false} SumRemove(m: map<Address, nat>, k: Address)
    requires k in m
    ensures Sum(m) == m[k] + Sum(m - {k})
    decreases |m|
  {
    var j :| j in m && Sum(m) == m[j] + Sum(m - {j});
    if j != k {
      SumRemove(m - {j}, k);
      SumRemove(m - {k}, j);
      assert m - {j} - {k} == m - {k} - {j};
    }
  }

  lemma SumUpdate(m: map<Address, nat>, k: Address, v: nat)
    ensures Sum(m[k := v]) == Sum(m) - Bal(m, k) + v
  {
    SumRemove(m[k := v], k);
    assert m[k := v] - {k} == m - {k};
    if k in m {
      SumRemove(m, k);
    } else {
      assert m - {k} == m;
    }
  }

  lemma BalAtMostSum(m: map<Address, nat>, k: Address)
    ensures Bal(m, k) <= Sum(m)
  {
    if k in m {
      SumRemove(m, k);
    }
  }

  // ---------------------------------------------------------------- token operations

  datatype Token = Token(admin: Address, balances: map<Address, nat>, supply: nat)

  datatype Outcome = Revert | Done(next: Token)

  /** Add to one balance and to the supply, reverting on overflow. */
  function Credit(t: Token, to: Address, amount: nat): Outcome {
    if Bal(t.balances, to) + amount >= TWO256 || t.supply + amount >= TWO256 then Revert
    else Done(t.(balances := t.balances[to := Bal(t.balances, to) + amount], supply := t.supply + amount))
  }

  function EnergyMint(t: Token, sender: Address, to: Address, amount: nat): Outcome {
    if sender != t.admin then Revert else Credit(t, to, amount)
  }

  function CoreMint(t: Token, sender: Address, to: Address, amount: nat): Outcome {
    if sender != t.admin || t.supply + amount > CAP then Revert else Credit(t, to, amount)
  }

  /** Take from one balance and from the supply. */
  function Debit(t: Token, from: Address, amount: nat): Outcome {
    if Bal(t.balances, from) < amount || t.supply < amount then Revert
    else Done(t.(balances := t.balances[from := Bal(t.balances, from) - amount], supply := t.supply - amount))
  }

  function BurnFrom(t: Token, sender: Address, from: Address, amount: nat): Outcome {
    if sender != t.admin then Revert else Debit(t, from, amount)
  }

  /** Subtract from one balance, then add to the other (which may be the same). */
  function Move(t: Token, from: Address, to: Address, amount: nat): Outcome {
    if Bal(t.balances, from) < amount then Revert
    else
      var less := t.balances[from := Bal(t.balances, from) - amount];
      if Bal(less, to) + amount >= TWO256 then Revert
      else Done(t.(balances := less[to := Bal(less, to) + amount]))
  }

  function SetAdmin(t: Token, sender: Address, newAdmin: Address): Outcome {
    if sender != t.admin then Revert else Done(t.(admin := newAdmin))
  }

  // ---------------------------------------------------------------- supply is backed by balances

  ghost predicate Backed(t: Token) { Sum(t.balances) == t.supply && t.supply < TWO256 }

  lemma CreditKeepsBacked(t: Token, to: Address, amount: nat)
    requires Backed(t)
    ensures Credit(t, to, amount).Done? <==> t.supply + amount < TWO256
    ensures Credit(t, to, amount).Done? ==> Backed(Credit(t, to, amount).next)
  {
    BalAtMostSum(t.balances, to);
    SumUpdate(t.balances, to, Bal(t.balances, to) + amount);
  }

  lemma DebitKeepsBacked(t: Token, from: Address, amount: nat)
    requires Backed(t)
    ensures Debit(t, from, amount).Done? <==> amount <= Bal(t.balances, from)
    ensures Debit(t, from, amount).Done? ==> Backed(Debit(t, from, amount).next)
  {
    BalAtMostSum(t.balances, from);
    if amount <= Bal(t.balances, from) {
      SumUpdate(t.balances, from, Bal(t.balances, from) - amount);
    }
  }

  /** A transfer succeeds exactly when the sender has the amount, moves exactly that amount, and
      changes no other balance; a transfer to oneself changes nothing. */
  lemma MoveIsExact(t: Token, from: Address, to: Address, amount: nat)
    requires Backed(t)
    ensures Move(t, from, to, amount).Done? <==> amount <= Bal(t.balances, from)
    ensures Move(t, from, to, amount).Done? ==>
              var next := Move(t, from, to, amount).next;
              && Backed(next) && next.supply == t.supply && next.admin == t.admin
              && (forall a: Address :: a != from && a != to ==> Bal(next.balances, a) == Bal(t.balances, a))
              && (from != to ==> (Bal(next.balances, from) == Bal(t.balances, from) - amount &&
                                  Bal(next.balances, to) == Bal(t.balances, to) + amount))
              && (from == to ==> Bal(next.balances, from) == Bal(t.balances, from))
  {
    if amount <= Bal(t.balances, from) {
      var less := t.balances[from := Bal(t.balances, from) - amount];
      SumUpdate(t.balances, from, Bal(t.balances, from) - amount);
      BalAtMostSum(less, to);
      BalAtMostSum(t.balances, from);
      SumUpdate(less, to, Bal(less, to) + amount);
    }
  }

  /** On any token, backed or not: the sender must have the amount, and the receiver room for it
      after the sender has paid. */
  lemma MoveGoesThroughExactly(t: Token, from: Address, to: Address, amount: nat)
    ensures Move(t, from, to, amount).Done? <==>
              && amount <= Bal(t.balances, from)
              && (if from == to then Bal(t.balances, from) else Bal(t.balances, to) + amount) < TWO256
  {}

  /** On any token, backed or not: a mint must leave room in the balance and in the supply, a burn
      must be covered by both. */
  lemma MintAndBurnExactly(t: Token, sender: Address, who: Address, amount: nat)
    ensures EnergyMint(t, sender, who, amount).Done? <==>
              sender == t.admin && Bal(t.balances, who) + amount < TWO256 && t.supply + amount < TWO256
    ensures CoreMint(t, sender, who, amount).Done? <==>
              EnergyMint(t, sender, who, amount).Done? && t.supply + amount <= 1_000_000_000_000_000_000_000_000_000
    ensures BurnFrom(t, sender, who, amount).Done? <==>
              sender == t.admin && amount <= Bal(t.balances, who) && amount <= t.supply
  {}

  // ---------------------------------------------------------------- every history of calls

  /** The external calls on a token; `Spend` exists on ENERGY only.  A successful `transferFrom`
      of CORE changes the token as a `TransferCall` of the owner (`Core.TransferFrom`). */
  datatype Call =
    | MintCall(sender: Address, to: Address, amount: nat)
    | BurnCall(sender: Address, from: Address, amount: nat)
    | SpendCall(sender: Address, amount: nat)
    | TransferCall(sender: Address, to: Address, amount: nat)
    | AdminCall(sender: Address, newAdmin: Address)

  function Attempt(t: Token, isCore: bool, c: Call): Outcome {
    match c
    case MintCall(sender, to, amount) =>
      if isCore then CoreMint(t, sender, to, amount) else EnergyMint(t, sender, to, amount)
    case BurnCall(sender, from, amount) => BurnFrom(t, sender, from, amount)
    case SpendCall(sender, amount) => if isCore then Revert else Debit(t, sender, amount)
    case TransferCall(sender, to, amount) => Move(t, sender, to, amount)
    case AdminCall(sender, newAdmin) => SetAdmin(t, sender, newAdmin)
  }

  /** A reverted call leaves the token as it was. */
  function Apply(t: Token, isCore: bool, c: Call): Token {
    match Attempt(t, isCore, c)
    case Revert => t
    case Done(next) => next
  }

  function History(t: Token, isCore: bool, calls: seq<Call>): Token
    decreases |calls|
  {
    if calls == [] then t else History(Apply(t, isCore, calls[0]), isCore, calls[1..])
  }

  function Deployed(admin: Address): Token { Token(admin, map[], 0) }

  lemma CallKeepsBacked(t: Token, isCore: bool, c: Call)
    requires Backed(t) && (isCore ==> t.supply <= CAP)
    ensures Backed(Apply(t, isCore, c)) && (isCore ==> Apply(t, isCore, c).supply <= CAP)
  {
    match c
    case MintCall(sender, to, amount) => CreditKeepsBacked(t, to, amount);
    case BurnCall(sender, from, amount) => DebitKeepsBacked(t, from, amount);
    case SpendCall(sender, amount) => DebitKeepsBacked(t, sender, amount);
    case TransferCall(sender, to, amount) => MoveIsExact(t, sender, to, amount);
    case AdminCall(sender, newAdmin) =>
  }

  lemma {:induction false} HistoryKeepsBacked(t: Token, isCore: bool, calls: seq<Call>)
    requires Backed(t) && (isCore ==> t.supply <= CAP)
    ensures Backed(History(t, isCore, calls)) && (isCore ==> History(t, isCore, calls).supply <= CAP)
    decreases |calls|
  {
    hide Backed, Apply;
    if calls != [] {
      CallKeepsBacked(t, isCore, calls[0]);
      HistoryKeepsBacked(Apply(t, isCore, calls[0]), isCore, calls[1..]);
    }
  }

  /** After any calls by anybody the balances add up to the supply, and CORE stays within CAP. */
  lemma SupplyAlwaysBacked(admin: Address, isCore: bool, calls: seq<Call>)
    ensures var t := History(Deployed(admin), isCore, calls);
            Sum(t.balances) == t.supply && (isCore ==> t.supply <= 1_000_000_000_000_000_000_000_000_000)
  {
    assert Sum(map[]) == 0;
    HistoryKeepsBacked(Deployed(admin), isCore, calls);
  }

  // ---------------------------------------------------------------- authority

  /** Minting, burning and handing over are the admin's alone: from anybody else the call reverts
      and nothing changes. */
  lemma OnlyAdmin(t: Token, isCore: bool, c: Call)
    requires (c.MintCall? || c.BurnCall? || c.AdminCall?) && c.sender != t.admin
    ensures Attempt(t, isCore, c) == Revert && Apply(t, isCore, c) == t
  {}

  /** The largest supply a mint may reach: CORE is capped, ENERGY only by the width of the word. */
  function MostAfterMint(isCore: bool): nat {
    if isCore then 1_000_000_000_000_000_000_000_000_000
    else 0xFFFF_FFFF_FFFF_FFFF_FFFF_FFFF_FFFF_FFFF_FFFF_FFFF_FFFF_FFFF_FFFF_FFFF_FFFF_FFFF
  }

  /** When the calls of the admin and of holders go through. */
  lemma CallGoesThroughExactly(t: Token, isCore: bool, c: Call)
    requires Backed(t)
    ensures Attempt(t, isCore, c).Done? <==>
              match c
              case MintCall(sender, to, amount) => sender == t.admin && t.supply + amount <= MostAfterMint(isCore)
              case BurnCall(sender, from, amount) => sender == t.admin && amount <= Bal(t.balances, from)
              case SpendCall(sender, amount) => !isCore && amount <= Bal(t.balances, sender)
              case TransferCall(sender, to, amount) => amount <= Bal(t.balances, sender)
              case AdminCall(sender, newAdmin) => sender == t.admin
  {
    match c
    case MintCall(sender, to, amount) => CreditKeepsBacked(t, to, amount);
    case BurnCall(sender, from, amount) => DebitKeepsBacked(t, from, amount);
    case SpendCall(sender, amount) => DebitKeepsBacked(t, sender, amount);
    case TransferCall(sender, to, amount) => MoveIsExact(t, sender, to, amount);
    case AdminCall(sender, newAdmin) =>
  }

  /** What a call adds to and takes from the balance of an address. */
  function Gained(c: Call, a: Address): nat {
    if (c.MintCall? || c.TransferCall?) && c.to == a then c.amount else 0
  }

  function Lost(c: Call, a: Address): nat {
    match c
    case BurnCall(_, from, amount) => if from == a then amount else 0
    case SpendCall(sender, amount) => if sender == a then amount else 0
    case TransferCall(sender, _, amount) => if sender == a then amount else 0
    case _ => 0
  }

  /** What a call that goes through does: every balance by what it gained and lost, the supply by
      what was minted, burned or spent, and the admin only by handing over. */
  lemma CallEffect(t: Token, isCore: bool, c: Call, a: Address)
    requires Backed(t) && Attempt(t, isCore, c).Done?
    ensures var next := Apply(t, isCore, c);
            && Bal(next.balances, a) == Bal(t.balances, a) + Gained(c, a) - Lost(c, a)
            && next.supply == t.supply + (if c.MintCall? then c.amount else 0)
                              - (if c.BurnCall? || c.SpendCall? then c.amount else 0)
            && next.admin == (if c.AdminCall? then c.newAdmin else t.admin)
  {
    if c.TransferCall? {
      MoveIsExact(t, c.sender, c.to, c.amount);
    }
  }

  /** What the transfers among the calls send to an address. */
  function Received(calls: seq<Call>, a: Address): nat {
    if calls == [] then 0
    else (if calls[0].TransferCall? && calls[0].to == a then calls[0].amount else 0) + Received(calls[1..], a)
  }

  /** While the admin sends no call, nothing is minted and nobody becomes admin: the supply never
      rises, and no balance grows by more than the transfers to it. */
  lemma {:induction false} WithoutAdmin(t: Token, isCore: bool, calls: seq<Call>, a: Address)
    requires Backed(t) && (isCore ==> t.supply <= CAP)
    requires forall k | 0 <= k < |calls| :: calls[k].sender != t.admin
    ensures var last := History(t, isCore, calls);
            && last.admin == t.admin && last.supply <= t.supply
            && Bal(last.balances, a) <= Bal(t.balances, a) + Received(calls, a)
    decreases |calls|
  {
    hide Attempt, Backed, Bal;
    if calls != [] {
      var c := calls[0];
      var next := Apply(t, isCore, c);
      CallKeepsBacked(t, isCore, c);
      if Attempt(t, isCore, c).Done? {
        CallGoesThroughExactly(t, isCore, c);
        CallEffect(t, isCore, c, a);
      }
      WithoutAdmin(next, isCore, calls[1..], a);
    }
  }

  // ---------------------------------------------------------------- the contracts

  /** The ENERGY contract.  Each call reports whether it went through; a reverted call leaves
      every field as it was. */
  class Energy {
    var admin: Address
    var totalSupply: nat
    var balanceOf: map<Address, nat>

    ghost function View(): Token
      reads this
    {
      Token(admin, balanceOf, totalSupply)
    }

    constructor (sender: Address)
      ensures View() == Deployed(sender) && admin == sender && totalSupply == 0 && balanceOf == map[]
    {
      admin, totalSupply, balanceOf := sender, 0, map[];
    }

    method SetAdmin(sender: Address, newAdmin: Address) returns (ok: bool)
      modifies this
      ensures ok == Attempt(old(View()), false, AdminCall(sender, newAdmin)).Done?
      ensures View() == Apply(old(View()), false, AdminCall(sender, newAdmin))
    {
      if sender != admin {
        return false;
      }
      admin := newAdmin;
      ok := true;
    }

    method Mint(sender: Address, to: Address, amount: nat) returns (ok: bool)
      modifies this
      ensures ok == Attempt(old(View()), false, MintCall(sender, to, amount)).Done?
      ensures View() == Apply(old(View()), false, MintCall(sender, to, amount))
    {
      if sender != admin || Bal(balanceOf, to) + amount >= TWO256 || totalSupply + amount >= TWO256 {
        return false;
      }
      balanceOf := balanceOf[to := Bal(balanceOf, to) + amount];
      totalSupply := totalSupply + amount;
      ok := true;
    }

    method BurnFrom(sender: Address, from: Address, amount: nat) returns (ok: bool)
      modifies this
      ensures ok == Attempt(old(View()), false, BurnCall(sender, from, amount)).Done?
      ensures View() == Apply(old(View()), false, BurnCall(sender, from, amount))
    {
      if sender != admin || Bal(balanceOf, from) < amount || totalSupply < amount {
        return false;
      }
      balanceOf := balanceOf[from := Bal(balanceOf, from) - amount];
      totalSupply := totalSupply - amount;
      ok := true;
    }

    method Spend(sender: Address, amount: nat) returns (ok: bool)
      modifies this
      ensures ok == Attempt(old(View()), false, SpendCall(sender, amount)).Done?
      ensures View() == Apply(old(View()), false, SpendCall(sender, amount))
    {
      if Bal(balanceOf, sender) < amount || totalSupply < amount {
        return false;
      }
      balanceOf := balanceOf[sender := Bal(balanceOf, sender) - amount];
      totalSupply := totalSupply - amount;
      ok := true;
    }

    method Transfer(sender: Address, to: Address, amount: nat) returns (ok: bool)
      modifies this
      ensures ok == Attempt(old(View()), false, TransferCall(sender, to, amount)).Done?
      ensures View() == Apply(old(View()), false, TransferCall(sender, to, amount))
    {
      if Bal(balanceOf, sender) < amount {
        return false;
      }
      var less := balanceOf[sender := Bal(balanceOf, sender) - amount];
      if Bal(less, to) + amount >= TWO256 {
        return false;
      }
      balanceOf := less[to := Bal(less, to) + amount];
      ok := true;
    }
  }

  /** The CORE contract: a capped supply and allowances. */
  class Core {
    var admin: Address
    var totalSupply: nat
    var balanceOf: map<Address, nat>
    var allowance: map<(Address, Address), nat>

    ghost function View(): Token
      reads this
    {
      Token(admin, balanceOf, totalSupply)
    }

    function Allowed(owner: Address, spender: Address): nat
      reads this
    {
      if (owner, spender) in allowance then allowance[(owner, spender)] else 0
    }

    constructor (sender: Address)
      ensures View() == Deployed(sender) && admin == sender && totalSupply == 0 && balanceOf == map[]
      ensures allowance == map[]
    {
      admin, totalSupply, balanceOf, allowance := sender, 0, map[], map[];
    }

    method Mint(sender: Address, to: Address, amount: nat) returns (ok: bool)
      modifies this
      ensures ok == Attempt(old(View()), true, MintCall(sender, to, amount)).Done?
      ensures View() == Apply(old(View()), true, MintCall(sender, to, amount)) && allowance == old(allowance)
    {
      if sender != admin || totalSupply + amount > CAP {
        return false;
      }
      if Bal(balanceOf, to) + amount >= TWO256 || totalSupply + amount >= TWO256 {
        return false;
      }
      balanceOf := balanceOf[to := Bal(balanceOf, to) + amount];
      totalSupply := totalSupply + amount;
      ok := true;
    }

    method BurnFrom(sender: Address, from: Address, amount: nat) returns (ok: bool)
      modifies this
      ensures ok == Attempt(old(View()), true, BurnCall(sender, from, amount)).Done?
      ensures View() == Apply(old(View()), true, BurnCall(sender, from, amount)) && allowance == old(allowance)
    {
      if sender != admin || Bal(balanceOf, from) < amount || totalSupply < amount {
        return false;
      }
      balanceOf := balanceOf[from := Bal(balanceOf, from) - amount];
      totalSupply := totalSupply - amount;
      ok := true;
    }

    method Approve(sender: Address, spender: Address, amount: nat)
      modifies this`allowance
      ensures allowance == old(allowance)[(sender, spender) := amount]
    {
      allowance := allowance[(sender, spender) := amount];
    }

    method Transfer(sender: Address, to: Address, amount: nat) returns (ok: bool)
      modifies this
      ensures ok == Attempt(old(View()), true, TransferCall(sender, to, amount)).Done?
      ensures View() == Apply(old(View()), true, TransferCall(sender, to, amount)) && allowance == old(allowance)
    {
      if Bal(balanceOf, sender) < amount {
        return false;
      }
      var less := balanceOf[sender := Bal(balanceOf, sender) - amount];
      if Bal(less, to) + amount >= TWO256 {
        return false;
      }
      balanceOf := less[to := Bal(less, to) + amount];
      ok := true;
    }

    /** The owner's tokens move as in a transfer by the owner, and the allowance of the sender
        shrinks by the amount moved. */
    method TransferFrom(sender: Address, from: Address, to: Address, amount: nat) returns (ok: bool)
      modifies this
      ensures ok <==> && Attempt(old(View()), true, TransferCall(from, to, amount)).Done?
                      && old(Allowed(from, sender)) >= amount
      ensures var granted := if (from, sender) in old(allowance) then old(allowance)[(from, sender)] else 0;
              && (ok ==> amount <= granted && allowance == old(allowance)[(from, sender) := granted - amount])
              && (amount <= granted && Attempt(old(View()), true, TransferCall(from, to, amount)).Done? ==> ok)
      ensures ok ==> View() == Apply(old(View()), true, TransferCall(from, to, amount))
      ensures ok ==> allowance == old(allowance)[(from, sender) := old(Allowed(from, sender)) - amount]
      ensures !ok ==> View() == old(View()) && allowance == old(allowance)
    {
      if Bal(balanceOf, from) < amount {
        return false;
      }
      var allowed := Allowed(from, sender);
      if allowed < amount {
        return false;
      }
      var less := balanceOf[from := Bal(balanceOf, from) - amount];
      if Bal(less, to) + amount >= TWO256 {
        return false;
      }
      allowance := allowance[(from, sender) := allowed - amount];
      balanceOf := less[to := Bal(less, to) + amount];
      ok := true;
    }
  }
}
