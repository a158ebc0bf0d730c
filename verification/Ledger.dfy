/** A token ledger with ERC-20 balances and allowances, ERC-4626 vaults and the YO gateway, as far
    as a rebalance batch touches them. A call that reverts yields None. */
module Ledger {
  import opened Wrappers

  type Address = string

  /** Balances by token and holder, allowances by token, owner and spender; absent is zero. */
  datatype Chain = Chain(balances: map<(Address, Address), nat>, allowances: map<(Address, Address, Address), nat>)

  /** The contracts and what they do in this batch: the token behind each vault, the assets a
      redeem pays and the shares a deposit mints. */
  datatype Env = Env(gateway: Address, assetOf: map<Address, Address>, paid: nat, minted: nat)

  datatype Operation =
    | Approve(spender: Address, amount: nat)
    | Redeem(shares: nat, receiver: Address, owner: Address)
    | Deposit(assets: nat, receiver: Address)
    | GatewayRedeem(vault: Address, shares: nat, minAssets: nat, receiver: Address, partner: int)
    | GatewayDeposit(vault: Address, assets: nat, minShares: nat, receiver: Address, partner: int)

  datatype Call = Call(to: Address, op: Operation, value: nat)

  function Balance(c: Chain, token: Address, holder: Address): nat {
    if (token, holder) in c.balances then c.balances[(token, holder)] else 0
  }

  function Allowance(c: Chain, token: Address, owner: Address, spender: Address): nat {
    if (token, owner, spender) in c.allowances then c.allowances[(token, owner, spender)] else 0
  }

  function Credit(c: Chain, token: Address, holder: Address, amount: nat): Chain {
    c.(balances := c.balances[(token, holder) := Balance(c, token, holder) + amount])
  }

  function Debit(c: Chain, token: Address, holder: Address, amount: nat): Option<Chain> {
    if Balance(c, token, holder) < amount then None
    else Some(c.(balances := c.balances[(token, holder) := Balance(c, token, holder) - amount]))
  }

  function Transfer(c: Chain, token: Address, from: Address, to: Address, amount: nat): Option<Chain> {
    match Debit(c, token, from, amount)
    case None => None
    case Some(c') => Some(Credit(c', token, to, amount))
  }

  function Spend(c: Chain, token: Address, owner: Address, spender: Address, amount: nat): Option<Chain> {
    if Allowance(c, token, owner, spender) < amount then None
    else Some(c.(allowances := c.allowances[(token, owner, spender) := Allowance(c, token, owner, spender) - amount]))
  }

  function TransferFrom(c: Chain, token: Address, spender: Address, from: Address, to: Address, amount: nat): Option<Chain> {
    match Spend(c, token, from, spender, amount)
    case None => None
    case Some(c') => Transfer(c', token, from, to, amount)
  }

  /** A vault burns shares of `owner` and pays `receiver`. */
  function VaultRedeem(e: Env, c: Chain, vault: Address, caller: Address, shares: nat, receiver: Address, owner: Address): Option<Chain> {
    if vault !in e.assetOf then None
    else
      match if caller == owner then Some(c) else Spend(c, vault, owner, caller, shares)
      case None => None
      case Some(c1) =>
        match Debit(c1, vault, owner, shares)
        case None => None
        case Some(c2) => Transfer(c2, e.assetOf[vault], vault, receiver, e.paid)
  }

  /** A vault pulls assets from its caller and mints shares to `receiver`. */
  function VaultDeposit(e: Env, c: Chain, vault: Address, caller: Address, assets: nat, receiver: Address): Option<Chain> {
    if vault !in e.assetOf then None
    else
      match TransferFrom(c, e.assetOf[vault], vault, caller, vault, assets)
      case None => None
      case Some(c') => Some(Credit(c', vault, receiver, e.minted))
  }

  function ApplyCall(e: Env, c: Chain, sender: Address, call: Call): Option<Chain> {
    match call.op
    case Approve(spender, amount) => Some(c.(allowances := c.allowances[(call.to, sender, spender) := amount]))
    case Redeem(shares, receiver, owner) => VaultRedeem(e, c, call.to, sender, shares, receiver, owner)
    case Deposit(assets, receiver) => VaultDeposit(e, c, call.to, sender, assets, receiver)
    case GatewayRedeem(vault, shares, minAssets, receiver, _) =>
      if call.to != e.gateway || e.paid < minAssets then None
      else
        (match TransferFrom(c, vault, e.gateway, sender, e.gateway, shares)
         case None => None
         case Some(c') => VaultRedeem(e, c', vault, e.gateway, shares, receiver, e.gateway))
    case GatewayDeposit(vault, assets, minShares, receiver, _) =>
      if call.to != e.gateway || e.minted < minShares || vault !in e.assetOf then None
      else
        match TransferFrom(c, e.assetOf[vault], e.gateway, sender, e.gateway, assets)
        case None => None
        case Some(c') =>
          var approved := c'.(allowances := c'.allowances[(e.assetOf[vault], e.gateway, vault) := assets]);
          VaultDeposit(e, approved, vault, e.gateway, assets, receiver)
  }

  /** A batch is atomic: if one call reverts, all do. */
  function RunBatch(e: Env, c: Chain, sender: Address, calls: seq<Call>): Option<Chain>
    decreases |calls|
  {
    if calls == [] then Some(c)
    else
      match ApplyCall(e, c, sender, calls[0])
      case None => None
      case Some(c') => RunBatch(e, c', sender, calls[1..])
  }

  // ---- Totals ----

  /** The sum of all balances of a token. */
  ghost function Total(balances: map<(Address, Address), nat>, token: Address): nat {
    if balances == map[] then 0
    else
      var k :| k in balances;
      Total(balances - {k}, token) + (if k.0 == token then balances[k] else 0)
  }

  /** Any entry can be taken out of the sum. */
  lemma {:induction false} TotalWithout(balances: map<(Address, Address), nat>, token: Address, k: (Address, Address))
    requires k in balances
    ensures Total(balances, token) == Total(balances - {k}, token) + (if k.0 == token then balances[k] else 0)
    decreases |balances|
  {
    var picked :| picked in balances
      && Total(balances, token) == Total(balances - {picked}, token) + (if picked.0 == token then balances[picked] else 0);
    if picked != k {
      TotalWithout(balances - {picked}, token, k);
      TotalWithout(balances - {k}, token, picked);
      assert (balances - {picked}) - {k} == (balances - {k}) - {picked};
    }
  }

  function At(balances: map<(Address, Address), nat>, k: (Address, Address)): nat {
    if k in balances then balances[k] else 0
  }

  lemma TotalUpdate(balances: map<(Address, Address), nat>, token: Address, k: (Address, Address), amount: nat)
    ensures Total(balances[k := amount], token) + (if k.0 == token then At(balances, k) else 0)
         == Total(balances, token) + (if k.0 == token then amount else 0)
  {
    var updated := balances[k := amount];
    TotalWithout(updated, token, k);
    if k in balances {
      TotalWithout(balances, token, k);
      assert updated - {k} == balances - {k};
    } else {
      assert updated - {k} == balances;
    }
  }

  ghost function TotalOf(c: Chain, token: Address): nat {
    Total(c.balances, token)
  }

  lemma TransferConserves(c: Chain, token: Address, from: Address, to: Address, amount: nat, t: Address)
    requires Transfer(c, token, from, to, amount).Some?
    ensures TotalOf(Transfer(c, token, from, to, amount).value, t) == TotalOf(c, t)
  {
    var c' := Debit(c, token, from, amount).value;
    TotalUpdate(c.balances, t, (token, from), Balance(c, token, from) - amount);
    TotalUpdate(c'.balances, t, (token, to), Balance(c', token, to) + amount);
  }

  /** What a call changes in the total of a token: shares burned and minted, and nothing else. */
  function Supplied(e: Env, call: Call, t: Address): int {
    match call.op
    case Approve(_, _) => 0
    case Redeem(shares, _, _) => if call.to == t then -(shares as int) else 0
    case GatewayRedeem(vault, shares, _, _, _) => if vault == t then -(shares as int) else 0
    case Deposit(_, _) => if call.to == t then e.minted else 0
    case GatewayDeposit(vault, _, _, _, _) => if vault == t then e.minted else 0
  }

  lemma RedeemTotals(e: Env, c: Chain, vault: Address, caller: Address, shares: nat, receiver: Address, owner: Address, t: Address)
    requires VaultRedeem(e, c, vault, caller, shares, receiver, owner).Some?
    ensures TotalOf(VaultRedeem(e, c, vault, caller, shares, receiver, owner).value, t)
         == TotalOf(c, t) - (if vault == t then shares else 0)
  {
    var c1 := if caller == owner then c else Spend(c, vault, owner, caller, shares).value;
    var c2 := Debit(c1, vault, owner, shares).value;
    TotalUpdate(c1.balances, t, (vault, owner), Balance(c1, vault, owner) - shares);
    TransferConserves(c2, e.assetOf[vault], vault, receiver, e.paid, t);
  }

  lemma DepositTotals(e: Env, c: Chain, vault: Address, caller: Address, assets: nat, receiver: Address, t: Address)
    requires VaultDeposit(e, c, vault, caller, assets, receiver).Some?
    ensures TotalOf(VaultDeposit(e, c, vault, caller, assets, receiver).value, t)
         == TotalOf(c, t) + (if vault == t then e.minted else 0)
  {
    var c1 := Spend(c, e.assetOf[vault], caller, vault, assets).value;
    TransferConserves(c1, e.assetOf[vault], caller, vault, assets, t);
    var c2 := Transfer(c1, e.assetOf[vault], caller, vault, assets).value;
    TotalUpdate(c2.balances, t, (vault, receiver), Balance(c2, vault, receiver) + e.minted);
  }

  lemma CallTotals(e: Env, c: Chain, sender: Address, call: Call, t: Address)
    requires ApplyCall(e, c, sender, call).Some?
    ensures TotalOf(ApplyCall(e, c, sender, call).value, t) == TotalOf(c, t) + Supplied(e, call, t)
  {
    match call.op
    case Approve(_, _) =>
    case Redeem(shares, receiver, owner) => RedeemTotals(e, c, call.to, sender, shares, receiver, owner, t);
    case Deposit(assets, receiver) => DepositTotals(e, c, call.to, sender, assets, receiver, t);
    case GatewayRedeem(vault, shares, _, receiver, _) =>
      var c1 := Spend(c, vault, sender, e.gateway, shares).value;
      TransferConserves(c1, vault, sender, e.gateway, shares, t);
      RedeemTotals(e, Transfer(c1, vault, sender, e.gateway, shares).value, vault, e.gateway, shares, receiver, e.gateway, t);
    case GatewayDeposit(vault, assets, _, receiver, _) =>
      var asset := e.assetOf[vault];
      var c1 := Spend(c, asset, sender, e.gateway, assets).value;
      TransferConserves(c1, asset, sender, e.gateway, assets, t);
      var c2 := Transfer(c1, asset, sender, e.gateway, assets).value;
      DepositTotals(e, c2.(allowances := c2.allowances[(asset, e.gateway, vault) := assets]), vault, e.gateway, assets, receiver, t);
  }

  function SuppliedBy(e: Env, calls: seq<Call>, t: Address): int {
    if calls == [] then 0 else Supplied(e, calls[0], t) + SuppliedBy(e, calls[1..], t)
  }

  /** No batch of any calls creates or destroys anything but the shares its vaults burn and mint. */
  lemma {:induction false} BatchTotals(e: Env, c: Chain, sender: Address, calls: seq<Call>, t: Address)
    requires RunBatch(e, c, sender, calls).Some?
    ensures TotalOf(RunBatch(e, c, sender, calls).value, t) == TotalOf(c, t) + SuppliedBy(e, calls, t)
    decreases |calls|
  {
    if calls != [] {
      CallTotals(e, c, sender, calls[0], t);
      BatchTotals(e, ApplyCall(e, c, sender, calls[0]).value, sender, calls[1..], t);
    }
  }
}
