/** lib/agent/rebalance-executor.ts: the call batch that moves a position from one vault to
    another, over the four pairs of protocols. */
module RebalanceBatch {
  import opened Wrappers
  import opened Protocols
  import opened Ledger

  datatype Params = Params(fromVault: Address, toVault: Address, shares: nat, user: Address,
                           fromProtocol: Option<Protocol>, toProtocol: Option<Protocol>, underlying: Option<Address>)

  /** The addresses and the partner id the builder takes from its configuration. */
  datatype Setup = Setup(gateway: Address, usdc: Address, partner: int)

  /** The answers of the on-chain quotes. */
  datatype Quotes = Quotes(previewRedeem: nat, gatewayRedeem: nat, gatewayDeposit: nat -> nat)

  datatype Error = PreviewRedeemZero

  const YO_SLIPPAGE_BPS := 50

  /** `applyYoSlippage` (lib/yo/constants.ts) */
  function ApplyYoSlippage(value: nat): nat {
    value * (10000 - YO_SLIPPAGE_BPS) / 10000
  }

  /** The two ways of writing "less half a percent" agree, and never exceed the quote. */
  lemma SlippageAgrees(value: nat)
    ensures ApplyYoSlippage(value) == value * 995 / 1000 <= value
    ensures value > 1 ==> ApplyYoSlippage(value) > 0
  {
    assert value * 9950 / 10000 == value * 995 / 1000;
  }

  function FromOf(p: Params): Protocol { if p.fromProtocol.Some? then p.fromProtocol.value else Morpho }
  function ToOf(p: Params): Protocol { if p.toProtocol.Some? then p.toProtocol.value else Morpho }
  function UnderlyingOf(s: Setup, p: Params): Address { if p.underlying.Some? then p.underlying.value else s.usdc }

  /** The assets the batch relies on the redeem to deliver. */
  function RedeemAmount(p: Params, q: Quotes): nat {
    if FromOf(p) == Morpho then q.previewRedeem * 995 / 1000 else ApplyYoSlippage(q.gatewayRedeem)
  }

  function MinSharesOut(p: Params, q: Quotes): nat {
    ApplyYoSlippage(q.gatewayDeposit(RedeemAmount(p, q)))
  }

  function RedeemCalls(s: Setup, p: Params, q: Quotes): seq<Call> {
    if FromOf(p) == Morpho then [Call(p.fromVault, Redeem(p.shares, p.user, p.user), 0)]
    else [Call(p.fromVault, Approve(s.gateway, p.shares), 0),
          Call(s.gateway, GatewayRedeem(p.fromVault, p.shares, RedeemAmount(p, q), p.user, s.partner), 0)]
  }

  function DepositCalls(s: Setup, p: Params, q: Quotes): seq<Call> {
    if ToOf(p) == Morpho then
      [Call(UnderlyingOf(s, p), Approve(p.toVault, RedeemAmount(p, q)), 0),
       Call(p.toVault, Deposit(RedeemAmount(p, q), p.user), 0)]
    else
      [Call(UnderlyingOf(s, p), Approve(s.gateway, RedeemAmount(p, q)), 0),
       Call(s.gateway, GatewayDeposit(p.toVault, RedeemAmount(p, q), MinSharesOut(p, q), p.user, s.partner), 0)]
  }

  function Plan(s: Setup, p: Params, q: Quotes): Result<seq<Call>, Error> {
    if RedeemAmount(p, q) == 0 then Err(PreviewRedeemZero) else Ok(RedeemCalls(s, p, q) + DepositCalls(s, p, q))
  }

  method BuildRebalanceCalls(s: Setup, p: Params, q: Quotes) returns (r: Result<seq<Call>, Error>)
    ensures r == Plan(s, p, q)
  {
    var fromProtocol, toProtocol := FromOf(p), ToOf(p);
    var underlying := UnderlyingOf(s, p);
    var calls: seq<Call> := [];
    var redeemAmount: nat;
    if fromProtocol == Morpho {
      redeemAmount := q.previewRedeem * 995 / 1000;
      calls := calls + [Call(p.fromVault, Redeem(p.shares, p.user, p.user), 0)];
    } else {
      redeemAmount := ApplyYoSlippage(q.gatewayRedeem);
      calls := calls + [Call(p.fromVault, Approve(s.gateway, p.shares), 0)];
      calls := calls + [Call(s.gateway, GatewayRedeem(p.fromVault, p.shares, redeemAmount, p.user, s.partner), 0)];
    }
    assert calls == RedeemCalls(s, p, q);
    if redeemAmount == 0 {
      return Err(PreviewRedeemZero);
    }
    if toProtocol == Morpho {
      calls := calls + [Call(underlying, Approve(p.toVault, redeemAmount), 0)];
      calls := calls + [Call(p.toVault, Deposit(redeemAmount, p.user), 0)];
    } else {
      var minShares := ApplyYoSlippage(q.gatewayDeposit(redeemAmount));
      calls := calls + [Call(underlying, Approve(s.gateway, redeemAmount), 0)];
      calls := calls + [Call(s.gateway, GatewayDeposit(p.toVault, redeemAmount, minShares, p.user, s.partner), 0)];
    }
    assert calls == RedeemCalls(s, p, q) + DepositCalls(s, p, q);
    return Ok(calls);
  }

  /** There is a batch unless the quote of the redeem is too small to lose half a percent. */
  lemma PlanExactly(s: Setup, p: Params, q: Quotes)
    ensures Plan(s, p, q).Ok? <==> (if p.fromProtocol == Some(Yo) then q.gatewayRedeem else q.previewRedeem) >= 2
  {
    SlippageAgrees(q.gatewayRedeem);
    SlippageAgrees(q.previewRedeem);
    ThousandthsExactly(q.gatewayRedeem);
    ThousandthsExactly(q.previewRedeem);
  }

  lemma ThousandthsExactly(value: nat)
    ensures value * 995 / 1000 > 0 <==> value >= 2
  {
  }

  /** Every call of a batch sends no ether, the gateway's carry the partner id, and all money and shares are
      for the user. */
  lemma CallsMarked(s: Setup, p: Params, q: Quotes, call: Call)
    requires Plan(s, p, q).Ok? && call in Plan(s, p, q).value
    ensures call.value == 0
    ensures match call.op
            case Approve(spender, _) => spender in {p.toVault, s.gateway} && call.to in {p.fromVault, UnderlyingOf(s, p)}
            case Redeem(shares, receiver, owner) => call.to == p.fromVault && shares == p.shares && receiver == p.user == owner
            case Deposit(_, receiver) => call.to == p.toVault && receiver == p.user
            case GatewayRedeem(vault, shares, _, receiver, partner) =>
              call.to == s.gateway && vault == p.fromVault && shares == p.shares && receiver == p.user && partner == s.partner
            case GatewayDeposit(vault, _, _, receiver, partner) =>
              call.to == s.gateway && vault == p.toVault && receiver == p.user && partner == s.partner
  {
  }

  // ---- Running the batch ----

  /** Both vaults hold the underlying the batch names, and the contracts and the user are different
      accounts. */
  predicate WellPosed(s: Setup, p: Params, e: Env) {
    var u := UnderlyingOf(s, p);
    && e.gateway == s.gateway
    && p.fromVault in e.assetOf && p.toVault in e.assetOf
    && e.assetOf[p.fromVault] == u && e.assetOf[p.toVault] == u
    && u != p.fromVault && u != p.toVault
    && p.user != p.fromVault && p.user != p.toVault && p.user != s.gateway
    && s.gateway != p.fromVault && s.gateway != p.toVault
  }

  /** The redeem goes through: the user has the shares, the vault has the assets, and a gateway
      redeem pays its minimum. */
  predicate Redeemable(s: Setup, p: Params, q: Quotes, e: Env, c: Chain) {
    && Balance(c, p.fromVault, p.user) >= p.shares
    && Balance(c, UnderlyingOf(s, p), p.fromVault) >= e.paid
    && (FromOf(p) == Yo ==> e.paid >= RedeemAmount(p, q))
  }

  /** The ledger after the redeem half, cell by cell. */
  ghost predicate AfterRedeem(s: Setup, p: Params, e: Env, c: Chain, c': Chain) {
    RedeemedBalances(s, p, e, c, c') && RedeemedAllowances(s, p, c, c')
  }

  ghost predicate RedeemedBalances(s: Setup, p: Params, e: Env, c: Chain, c': Chain) {
    var u := UnderlyingOf(s, p);
    && Balance(c', p.fromVault, p.user) == Balance(c, p.fromVault, p.user) - p.shares
    && Balance(c', u, p.user) == Balance(c, u, p.user) + e.paid
    && Balance(c', u, p.fromVault) == Balance(c, u, p.fromVault) - e.paid
    && (forall t, h :: (t, h) !in {(p.fromVault, p.user), (u, p.user), (u, p.fromVault)} ==> Balance(c', t, h) == Balance(c, t, h))
  }

  ghost predicate RedeemedAllowances(s: Setup, p: Params, c: Chain, c': Chain) {
    && (FromOf(p) == Yo ==> Allowance(c', p.fromVault, p.user, s.gateway) == 0)
    && (forall t, o, h :: !(FromOf(p) == Yo && (t, o, h) == (p.fromVault, p.user, s.gateway)) ==>
          Allowance(c', t, o, h) == Allowance(c, t, o, h))
  }

  lemma RunSplit(e: Env, c: Chain, sender: Address, a: seq<Call>, b: seq<Call>)
    ensures RunBatch(e, c, sender, a + b)
         == match RunBatch(e, c, sender, a) { case None => None case Some(c') => RunBatch(e, c', sender, b) }
    decreases |a|
  {
    if a == [] {
      assert a + b == b;
    } else {
      assert (a + b)[1..] == a[1..] + b;
      if ApplyCall(e, c, sender, a[0]).Some? {
        RunSplit(e, ApplyCall(e, c, sender, a[0]).value, sender, a[1..], b);
      }
    }
  }

  lemma RunOne(e: Env, c: Chain, sender: Address, call: Call)
    ensures RunBatch(e, c, sender, [call]) == ApplyCall(e, c, sender, call)
  {
  }

  lemma RunTwo(e: Env, c: Chain, sender: Address, first: Call, second: Call)
    ensures RunBatch(e, c, sender, [first, second])
         == match ApplyCall(e, c, sender, first) { case None => None case Some(c') => ApplyCall(e, c', sender, second) }
  {
    RunSplit(e, c, sender, [first], [second]);
    assert [first] + [second] == [first, second];
  }

  /** A redeem straight from the vault ... */
  lemma DirectRedeem(s: Setup, p: Params, q: Quotes, e: Env, c: Chain)
    requires WellPosed(s, p, e) && FromOf(p) == Morpho
    ensures var r := ApplyCall(e, c, p.user, RedeemCalls(s, p, q)[0]);
            (r.Some? <==> Redeemable(s, p, q, e, c)) && (r.Some? ==> AfterRedeem(s, p, e, c, r.value))
  {
  }

  /** The ledger between the two calls of a gateway redeem. */
  function Approved(c: Chain, token: Address, owner: Address, spender: Address, amount: nat): Chain {
    c.(allowances := c.allowances[(token, owner, spender) := amount])
  }

  lemma GatewayRedeemSucceeds(s: Setup, p: Params, q: Quotes, e: Env, c: Chain)
    requires WellPosed(s, p, e) && FromOf(p) == Yo
    ensures var c1 := Approved(c, p.fromVault, p.user, s.gateway, p.shares);
            && ApplyCall(e, c, p.user, RedeemCalls(s, p, q)[0]) == Some(c1)
            && (ApplyCall(e, c1, p.user, RedeemCalls(s, p, q)[1]).Some? <==> Redeemable(s, p, q, e, c))
  {
  }

  function GatewayRedeemed(s: Setup, p: Params, q: Quotes, e: Env, c: Chain): Option<Chain> {
    if FromOf(p) == Morpho then None
    else ApplyCall(e, Approved(c, p.fromVault, p.user, s.gateway, p.shares), p.user, RedeemCalls(s, p, q)[1])
  }

  /** ... and one through the gateway: first its balances ... */
  lemma GatewayRedeemBalances(s: Setup, p: Params, q: Quotes, e: Env, c: Chain)
    requires WellPosed(s, p, e) && GatewayRedeemed(s, p, q, e, c).Some?
    ensures RedeemedBalances(s, p, e, c, GatewayRedeemed(s, p, q, e, c).value)
  {
  }

  /** ... then its allowances. */
  lemma GatewayRedeemAllowances(s: Setup, p: Params, q: Quotes, e: Env, c: Chain)
    requires WellPosed(s, p, e) && GatewayRedeemed(s, p, q, e, c).Some?
    ensures RedeemedAllowances(s, p, c, GatewayRedeemed(s, p, q, e, c).value)
  {
  }

  lemma RedeemHalf(s: Setup, p: Params, q: Quotes, e: Env, c: Chain)
    requires WellPosed(s, p, e)
    ensures var r := RunBatch(e, c, p.user, RedeemCalls(s, p, q));
            && (r.Some? <==> Redeemable(s, p, q, e, c))
            && (r.Some? ==> AfterRedeem(s, p, e, c, r.value))
  {
    var calls := RedeemCalls(s, p, q);
    if FromOf(p) == Morpho {
      DirectRedeem(s, p, q, e, c);
      RunOne(e, c, p.user, calls[0]);
      assert [calls[0]] == calls;
    } else {
      GatewayRedeemSucceeds(s, p, q, e, c);
      if GatewayRedeemed(s, p, q, e, c).Some? {
        GatewayRedeemBalances(s, p, q, e, c);
        GatewayRedeemAllowances(s, p, q, e, c);
      }
      RunTwo(e, c, p.user, calls[0], calls[1]);
      assert [calls[0], calls[1]] == calls;
    }
  }

  predicate Depositable(s: Setup, p: Params, q: Quotes, e: Env, c: Chain) {
    && Balance(c, UnderlyingOf(s, p), p.user) >= RedeemAmount(p, q)
    && (ToOf(p) == Yo ==> e.minted >= MinSharesOut(p, q))
  }

  /** Whom the user allows to take the underlying. */
  function SpenderOf(s: Setup, p: Params): Address {
    if ToOf(p) == Morpho then p.toVault else s.gateway
  }

  /** The ledger after the deposit half, cell by cell. The gateway's own allowance to the vault is
      granted and used up inside its deposit. */
  ghost predicate AfterDeposit(s: Setup, p: Params, q: Quotes, e: Env, c: Chain, c': Chain) {
    DepositedBalances(s, p, q, e, c, c') && DepositedAllowances(s, p, c, c')
  }

  ghost predicate DepositedBalances(s: Setup, p: Params, q: Quotes, e: Env, c: Chain, c': Chain) {
    var u := UnderlyingOf(s, p);
    && Balance(c', u, p.user) == Balance(c, u, p.user) - RedeemAmount(p, q)
    && Balance(c', u, p.toVault) == Balance(c, u, p.toVault) + RedeemAmount(p, q)
    && Balance(c', p.toVault, p.user) == Balance(c, p.toVault, p.user) + e.minted
    && (forall t, h :: (t, h) !in {(u, p.user), (u, p.toVault), (p.toVault, p.user)} ==> Balance(c', t, h) == Balance(c, t, h))
  }

  ghost predicate DepositedAllowances(s: Setup, p: Params, c: Chain, c': Chain) {
    var u := UnderlyingOf(s, p);
    && Allowance(c', u, p.user, SpenderOf(s, p)) == 0
    && (forall t, o, h :: (t, o, h) != (u, p.user, SpenderOf(s, p)) && !(ToOf(p) == Yo && (t, o, h) == (u, s.gateway, p.toVault)) ==>
          Allowance(c', t, o, h) == Allowance(c, t, o, h))
    && (ToOf(p) == Yo ==> Allowance(c', u, s.gateway, p.toVault) == 0)
  }

  /** The approval the batch gives for the deposit. */
  function ForDeposit(s: Setup, p: Params, q: Quotes, c: Chain): Chain {
    Approved(c, UnderlyingOf(s, p), p.user, SpenderOf(s, p), RedeemAmount(p, q))
  }

  function Deposited(s: Setup, p: Params, q: Quotes, e: Env, c: Chain): Option<Chain> {
    ApplyCall(e, ForDeposit(s, p, q, c), p.user, DepositCalls(s, p, q)[1])
  }

  lemma DepositApproves(s: Setup, p: Params, q: Quotes, e: Env, c: Chain)
    ensures ApplyCall(e, c, p.user, DepositCalls(s, p, q)[0]) == Some(ForDeposit(s, p, q, c))
  {
  }

  lemma DepositSucceeds(s: Setup, p: Params, q: Quotes, e: Env, c: Chain)
    requires WellPosed(s, p, e)
    ensures Deposited(s, p, q, e, c).Some? <==> Depositable(s, p, q, e, c)
  {
  }

  /** A deposit straight into the vault ... */
  lemma DirectDeposit(s: Setup, p: Params, q: Quotes, e: Env, c: Chain)
    requires WellPosed(s, p, e) && ToOf(p) == Morpho && Deposited(s, p, q, e, c).Some?
    ensures AfterDeposit(s, p, q, e, c, Deposited(s, p, q, e, c).value)
  {
  }

  /** ... and one through the gateway: first its balances ... */
  lemma GatewayDepositBalances(s: Setup, p: Params, q: Quotes, e: Env, c: Chain)
    requires WellPosed(s, p, e) && ToOf(p) == Yo && Deposited(s, p, q, e, c).Some?
    ensures DepositedBalances(s, p, q, e, c, Deposited(s, p, q, e, c).value)
  {
    var u, c' := UnderlyingOf(s, p), Deposited(s, p, q, e, c).value;
    GatewayDepositCells(s, p, q, e, c);
    forall t, h | (t, h) !in {(u, p.user), (u, p.toVault), (p.toVault, p.user)} ensures Balance(c', t, h) == Balance(c, t, h) {
      GatewayDepositFrame(s, p, q, e, c, t, h);
    }
  }

  lemma GatewayDepositCells(s: Setup, p: Params, q: Quotes, e: Env, c: Chain)
    requires WellPosed(s, p, e) && ToOf(p) == Yo && Deposited(s, p, q, e, c).Some?
    ensures var c', u := Deposited(s, p, q, e, c).value, UnderlyingOf(s, p);
            && Balance(c', u, p.user) == Balance(c, u, p.user) - RedeemAmount(p, q)
            && Balance(c', u, p.toVault) == Balance(c, u, p.toVault) + RedeemAmount(p, q)
            && Balance(c', p.toVault, p.user) == Balance(c, p.toVault, p.user) + e.minted
  {
  }

  lemma GatewayDepositFrame(s: Setup, p: Params, q: Quotes, e: Env, c: Chain, t: Address, h: Address)
    requires WellPosed(s, p, e) && ToOf(p) == Yo && Deposited(s, p, q, e, c).Some?
    requires var u := UnderlyingOf(s, p); (t, h) !in {(u, p.user), (u, p.toVault), (p.toVault, p.user)}
    ensures Balance(Deposited(s, p, q, e, c).value, t, h) == Balance(c, t, h)
  {
  }

  /** ... then its allowances. */
  lemma GatewayDepositAllowances(s: Setup, p: Params, q: Quotes, e: Env, c: Chain)
    requires WellPosed(s, p, e) && ToOf(p) == Yo && Deposited(s, p, q, e, c).Some?
    ensures DepositedAllowances(s, p, c, Deposited(s, p, q, e, c).value)
  {
  }

  lemma DepositHalf(s: Setup, p: Params, q: Quotes, e: Env, c: Chain)
    requires WellPosed(s, p, e)
    ensures var r := RunBatch(e, c, p.user, DepositCalls(s, p, q));
            && (r.Some? <==> Depositable(s, p, q, e, c))
            && (r.Some? ==> AfterDeposit(s, p, q, e, c, r.value))
  {
    var calls := DepositCalls(s, p, q);
    DepositApproves(s, p, q, e, c);
    DepositSucceeds(s, p, q, e, c);
    RunTwo(e, c, p.user, calls[0], calls[1]);
    assert [calls[0], calls[1]] == calls;
    if Deposited(s, p, q, e, c).Some? {
      if ToOf(p) == Morpho {
        DirectDeposit(s, p, q, e, c);
      } else {
        GatewayDepositBalances(s, p, q, e, c);
        GatewayDepositAllowances(s, p, q, e, c);
      }
    }
  }

  /** For every pair of protocols and every quote: the batch goes through if and only if the user has
      the shares, the source vault can pay, a YO redeem pays at least `redeemAmount`, the user then
      has `redeemAmount` of the underlying, and a YO deposit mints at least its minimum. */
  lemma BatchSucceedsExactly(s: Setup, p: Params, q: Quotes, e: Env, c: Chain)
    requires WellPosed(s, p, e) && Plan(s, p, q).Ok?
    ensures RunBatch(e, c, p.user, Plan(s, p, q).value).Some? <==>
              && Redeemable(s, p, q, e, c)
              && Balance(c, UnderlyingOf(s, p), p.user) + e.paid >= RedeemAmount(p, q)
              && (ToOf(p) == Yo ==> e.minted >= MinSharesOut(p, q))
  {
    RunSplit(e, c, p.user, RedeemCalls(s, p, q), DepositCalls(s, p, q));
    RedeemHalf(s, p, q, e, c);
    var r := RunBatch(e, c, p.user, RedeemCalls(s, p, q));
    if r.Some? {
      DepositHalf(s, p, q, e, r.value);
    }
  }

  /** The on-chain quote of the redeem. */
  function Quoted(p: Params, q: Quotes): nat {
    if FromOf(p) == Morpho then q.previewRedeem else q.gatewayRedeem
  }

  /** On every path the amount moved, and the shares asked for, are the quote less half a percent,
      rounded down; so a redeem that pays its quote (as EIP-4626 requires of `previewRedeem`) pays
      enough. */
  lemma LessHalfAPercent(p: Params, q: Quotes)
    ensures RedeemAmount(p, q) == Quoted(p, q) * 995 / 1000 <= Quoted(p, q)
    ensures MinSharesOut(p, q) == q.gatewayDeposit(Quoted(p, q) * 995 / 1000) * 995 / 1000
  {
    SlippageAgrees(q.gatewayRedeem);
    SlippageAgrees(q.previewRedeem);
    SlippageAgrees(q.gatewayDeposit(RedeemAmount(p, q)));
  }

  /** In particular it never reverts when the redeem pays at least `redeemAmount` and a YO deposit
      mints its minimum. */
  lemma BatchNeverReverts(s: Setup, p: Params, q: Quotes, e: Env, c: Chain)
    requires WellPosed(s, p, e) && Plan(s, p, q).Ok?
    requires Balance(c, p.fromVault, p.user) >= p.shares && Balance(c, UnderlyingOf(s, p), p.fromVault) >= e.paid
    requires e.paid >= RedeemAmount(p, q)
    requires ToOf(p) == Yo ==> e.minted >= MinSharesOut(p, q)
    ensures RunBatch(e, c, p.user, Plan(s, p, q).value).Some?
  {
    BatchSucceedsExactly(s, p, q, e, c);
  }

  /** What the batch does to the ledger: it burns exactly `shares` of the source vault, moves
      `redeemAmount` into the target vault against the minted shares, leaves the rest of what was
      paid with the user, and touches no other balance. */
  lemma BatchEffect(s: Setup, p: Params, q: Quotes, e: Env, c: Chain)
    requires WellPosed(s, p, e) && Plan(s, p, q).Ok? && RunBatch(e, c, p.user, Plan(s, p, q).value).Some?
    ensures var c', u := RunBatch(e, c, p.user, Plan(s, p, q).value).value, UnderlyingOf(s, p);
            var same := p.fromVault == p.toVault;
            && Balance(c', p.fromVault, p.user) == Balance(c, p.fromVault, p.user) - p.shares + (if same then e.minted else 0)
            && Balance(c', p.toVault, p.user) == Balance(c, p.toVault, p.user) + e.minted - (if same then p.shares else 0)
            && Balance(c', u, p.user) == Balance(c, u, p.user) + (e.paid - RedeemAmount(p, q))
            && Balance(c', u, p.fromVault) == Balance(c, u, p.fromVault) - e.paid + (if same then RedeemAmount(p, q) else 0)
            && Balance(c', u, p.toVault) == Balance(c, u, p.toVault) + RedeemAmount(p, q) - (if same then e.paid else 0)
            && (forall t, h :: (t, h) !in {(p.fromVault, p.user), (p.toVault, p.user), (u, p.user), (u, p.fromVault), (u, p.toVault)} ==>
                  Balance(c', t, h) == Balance(c, t, h))
  {
    RunSplit(e, c, p.user, RedeemCalls(s, p, q), DepositCalls(s, p, q));
    RedeemHalf(s, p, q, e, c);
    DepositHalf(s, p, q, e, RunBatch(e, c, p.user, RedeemCalls(s, p, q)).value);
  }

  /** Every allowance the batch grants is used up, and it touches no other. */
  lemma BatchAllowances(s: Setup, p: Params, q: Quotes, e: Env, c: Chain)
    requires WellPosed(s, p, e) && Plan(s, p, q).Ok? && RunBatch(e, c, p.user, Plan(s, p, q).value).Some?
    ensures var c', u := RunBatch(e, c, p.user, Plan(s, p, q).value).value, UnderlyingOf(s, p);
            && Allowance(c', u, p.user, SpenderOf(s, p)) == 0
            && (FromOf(p) == Yo ==> Allowance(c', p.fromVault, p.user, s.gateway) == 0)
            && (ToOf(p) == Yo ==> Allowance(c', u, s.gateway, p.toVault) == 0)
            && (forall t, o, h ::
                  && (t, o, h) != (u, p.user, SpenderOf(s, p))
                  && !(FromOf(p) == Yo && (t, o, h) == (p.fromVault, p.user, s.gateway))
                  && !(ToOf(p) == Yo && (t, o, h) == (u, s.gateway, p.toVault))
                  ==> Allowance(c', t, o, h) == Allowance(c, t, o, h))
  {
    RunSplit(e, c, p.user, RedeemCalls(s, p, q), DepositCalls(s, p, q));
    RedeemHalf(s, p, q, e, c);
    DepositHalf(s, p, q, e, RunBatch(e, c, p.user, RedeemCalls(s, p, q)).value);
  }

  lemma SuppliedHalves(s: Setup, p: Params, q: Quotes, e: Env, t: Address)
    ensures SuppliedBy(e, RedeemCalls(s, p, q), t) == if t == p.fromVault then -(p.shares as int) else 0
    ensures SuppliedBy(e, DepositCalls(s, p, q), t) == if t == p.toVault then e.minted else 0
  {
    var a, b := RedeemCalls(s, p, q), DepositCalls(s, p, q);
    if FromOf(p) == Yo {
      SuppliedTwo(e, a[0], a[1], t);
      assert a == [a[0], a[1]];
    }
    SuppliedTwo(e, b[0], b[1], t);
    assert b == [b[0], b[1]];
  }

  /** The batch conserves the total of every token, but for the shares burned and minted. */
  lemma BatchConserves(s: Setup, p: Params, q: Quotes, e: Env, c: Chain, t: Address)
    requires Plan(s, p, q).Ok? && RunBatch(e, c, p.user, Plan(s, p, q).value).Some?
    ensures TotalOf(RunBatch(e, c, p.user, Plan(s, p, q).value).value, t)
         == TotalOf(c, t) - (if t == p.fromVault then p.shares else 0) + (if t == p.toVault then e.minted else 0)
  {
    BatchTotals(e, c, p.user, Plan(s, p, q).value, t);
    SuppliedSplit(e, RedeemCalls(s, p, q), DepositCalls(s, p, q), t);
    SuppliedHalves(s, p, q, e, t);
  }

  lemma SuppliedTwo(e: Env, first: Call, second: Call, t: Address)
    ensures SuppliedBy(e, [first, second], t) == Supplied(e, first, t) + Supplied(e, second, t)
  {
    assert [first, second] == [first] + [second];
    SuppliedSplit(e, [first], [second], t);
  }

  lemma {:induction false} SuppliedSplit(e: Env, a: seq<Call>, b: seq<Call>, t: Address)
    ensures SuppliedBy(e, a + b, t) == SuppliedBy(e, a, t) + SuppliedBy(e, b, t)
  {
    if a == [] {
      assert a + b == b;
    } else {
      assert (a + b)[1..] == a[1..] + b;
      SuppliedSplit(e, a[1..], b, t);
    }
  }

  // ---- Sent by any account: the cron job sends an ERC-4337 session's batch from its smart wallet,
  //      while owner and receiver stay the user ----

  predicate SenderApart(s: Setup, p: Params, sender: Address) {
    sender != p.fromVault && sender != p.toVault && sender != s.gateway
  }

  /** The redeem goes through for this sender: a vault's redeem burns the user's shares on the user's
      allowance, a gateway redeem takes the sender's own shares. */
  predicate RedeemableBy(s: Setup, p: Params, q: Quotes, e: Env, c: Chain, sender: Address) {
    && Balance(c, UnderlyingOf(s, p), p.fromVault) >= e.paid
    && (FromOf(p) == Morpho ==>
          && Balance(c, p.fromVault, p.user) >= p.shares
          && (sender != p.user ==> Allowance(c, p.fromVault, p.user, sender) >= p.shares))
    && (FromOf(p) == Yo ==> Balance(c, p.fromVault, sender) >= p.shares && e.paid >= RedeemAmount(p, q))
  }

  /** What the sender and the user hold of the underlying after the redeem: it pays the user. */
  predicate PaidToUser(s: Setup, p: Params, e: Env, c: Chain, c': Chain, sender: Address) {
    var u := UnderlyingOf(s, p);
    && Balance(c', u, p.user) == Balance(c, u, p.user) + e.paid
    && (sender != p.user ==> Balance(c', u, sender) == Balance(c, u, sender))
  }

  lemma DirectRedeemBy(s: Setup, p: Params, q: Quotes, e: Env, c: Chain, sender: Address)
    requires WellPosed(s, p, e) && SenderApart(s, p, sender) && FromOf(p) == Morpho
    ensures var r := ApplyCall(e, c, sender, RedeemCalls(s, p, q)[0]);
            (r.Some? <==> RedeemableBy(s, p, q, e, c, sender)) && (r.Some? ==> PaidToUser(s, p, e, c, r.value, sender))
  {
  }

  lemma GatewayRedeemBy(s: Setup, p: Params, q: Quotes, e: Env, c: Chain, sender: Address)
    requires WellPosed(s, p, e) && SenderApart(s, p, sender) && FromOf(p) == Yo
    ensures var r := ApplyCall(e, Approved(c, p.fromVault, sender, s.gateway, p.shares), sender, RedeemCalls(s, p, q)[1]);
            (r.Some? <==> RedeemableBy(s, p, q, e, c, sender)) && (r.Some? ==> PaidToUser(s, p, e, c, r.value, sender))
  {
  }

  lemma RedeemHalfBy(s: Setup, p: Params, q: Quotes, e: Env, c: Chain, sender: Address)
    requires WellPosed(s, p, e) && SenderApart(s, p, sender)
    ensures var r := RunBatch(e, c, sender, RedeemCalls(s, p, q));
            (r.Some? <==> RedeemableBy(s, p, q, e, c, sender)) && (r.Some? ==> PaidToUser(s, p, e, c, r.value, sender))
  {
    var calls := RedeemCalls(s, p, q);
    if FromOf(p) == Morpho {
      DirectRedeemBy(s, p, q, e, c, sender);
      RunOne(e, c, sender, calls[0]);
      assert [calls[0]] == calls;
    } else {
      GatewayRedeemBy(s, p, q, e, c, sender);
      RunTwo(e, c, sender, calls[0], calls[1]);
      assert [calls[0], calls[1]] == calls;
    }
  }

  predicate DepositableBy(s: Setup, p: Params, q: Quotes, e: Env, c: Chain, sender: Address) {
    && Balance(c, UnderlyingOf(s, p), sender) >= RedeemAmount(p, q)
    && (ToOf(p) == Yo ==> e.minted >= MinSharesOut(p, q))
  }

  /** The deposit takes the sender's underlying. */
  predicate PaidBySender(s: Setup, p: Params, q: Quotes, e: Env, c: Chain, c': Chain, sender: Address) {
    var u := UnderlyingOf(s, p);
    && Balance(c', u, sender) == Balance(c, u, sender) - RedeemAmount(p, q)
    && (sender != p.user ==> Balance(c', u, p.user) == Balance(c, u, p.user))
  }

  /** The sender's deposit call, after its approval. */
  function DepositedBy(s: Setup, p: Params, q: Quotes, e: Env, c: Chain, sender: Address): Option<Chain> {
    ApplyCall(e, Approved(c, UnderlyingOf(s, p), sender, SpenderOf(s, p), RedeemAmount(p, q)), sender, DepositCalls(s, p, q)[1])
  }

  lemma DepositSucceedsBy(s: Setup, p: Params, q: Quotes, e: Env, c: Chain, sender: Address)
    requires WellPosed(s, p, e) && SenderApart(s, p, sender)
    ensures DepositedBy(s, p, q, e, c, sender).Some? <==> DepositableBy(s, p, q, e, c, sender)
  {
  }

  lemma DirectDepositPaid(s: Setup, p: Params, q: Quotes, e: Env, c: Chain, sender: Address)
    requires WellPosed(s, p, e) && SenderApart(s, p, sender) && ToOf(p) == Morpho && DepositedBy(s, p, q, e, c, sender).Some?
    ensures PaidBySender(s, p, q, e, c, DepositedBy(s, p, q, e, c, sender).value, sender)
  {
  }

  lemma GatewayDepositPaid(s: Setup, p: Params, q: Quotes, e: Env, c: Chain, sender: Address)
    requires WellPosed(s, p, e) && SenderApart(s, p, sender) && ToOf(p) == Yo && DepositedBy(s, p, q, e, c, sender).Some?
    ensures PaidBySender(s, p, q, e, c, DepositedBy(s, p, q, e, c, sender).value, sender)
  {
  }

  lemma DepositHalfBy(s: Setup, p: Params, q: Quotes, e: Env, c: Chain, sender: Address)
    requires WellPosed(s, p, e) && SenderApart(s, p, sender)
    ensures var r := RunBatch(e, c, sender, DepositCalls(s, p, q));
            (r.Some? <==> DepositableBy(s, p, q, e, c, sender)) && (r.Some? ==> PaidBySender(s, p, q, e, c, r.value, sender))
  {
    var calls := DepositCalls(s, p, q);
    DepositSucceedsBy(s, p, q, e, c, sender);
    RunTwo(e, c, sender, calls[0], calls[1]);
    assert [calls[0], calls[1]] == calls;
    if DepositedBy(s, p, q, e, c, sender).Some? {
      if ToOf(p) == Morpho {
        DirectDepositPaid(s, p, q, e, c, sender);
      } else {
        GatewayDepositPaid(s, p, q, e, c, sender);
      }
    }
  }

  /** The batch goes through if and only if this sender's redeem does and the sender then has
      `redeemAmount` of the underlying: what was paid counts only if the sender is the user. */
  lemma BatchSucceedsExactlyBy(s: Setup, p: Params, q: Quotes, e: Env, c: Chain, sender: Address)
    requires WellPosed(s, p, e) && SenderApart(s, p, sender) && Plan(s, p, q).Ok?
    ensures RunBatch(e, c, sender, Plan(s, p, q).value).Some? <==>
              && RedeemableBy(s, p, q, e, c, sender)
              && Balance(c, UnderlyingOf(s, p), sender) + (if sender == p.user then e.paid else 0) >= RedeemAmount(p, q)
              && (ToOf(p) == Yo ==> e.minted >= MinSharesOut(p, q))
  {
    RunSplit(e, c, sender, RedeemCalls(s, p, q), DepositCalls(s, p, q));
    RedeemHalfBy(s, p, q, e, c, sender);
    var r := RunBatch(e, c, sender, RedeemCalls(s, p, q));
    if r.Some? {
      DepositHalfBy(s, p, q, e, r.value, sender);
    }
  }

  /** A sender other than the user pays for the deposit itself: the user keeps all that the redeem paid. */
  lemma OtherSenderPays(s: Setup, p: Params, q: Quotes, e: Env, c: Chain, sender: Address)
    requires WellPosed(s, p, e) && SenderApart(s, p, sender) && sender != p.user
    requires Plan(s, p, q).Ok? && RunBatch(e, c, sender, Plan(s, p, q).value).Some?
    ensures var c', u := RunBatch(e, c, sender, Plan(s, p, q).value).value, UnderlyingOf(s, p);
            && Balance(c', u, sender) == Balance(c, u, sender) - RedeemAmount(p, q)
            && Balance(c', u, p.user) == Balance(c, u, p.user) + e.paid
  {
    RunSplit(e, c, sender, RedeemCalls(s, p, q), DepositCalls(s, p, q));
    RedeemHalfBy(s, p, q, e, c, sender);
    DepositHalfBy(s, p, q, e, RunBatch(e, c, sender, RedeemCalls(s, p, q)).value, sender);
  }
}
