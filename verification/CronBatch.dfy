/** lib/agent/cron-orchestration-service.ts: the batch the cron builds for a decision. It passes
    vaults, shares and user on, but neither the protocols nor the underlying token. */
module CronBatch {
  import opened Wrappers
  import opened Protocols
  import opened Text
  import opened RebalanceBatch
  import Decisions = DecisionEngine

  /** Everything the decision says about the move. */
  function DecidedParams(d: Decisions.Decision, user: string): Params
    requires d.current.Some? && d.target.Some?
  {
    var p, v := d.current.value.position, d.target.value;
    Params(p.vault, v.address, p.shares, user, Some(p.protocol), Some(v.protocol), Some(p.underlying))
  }

  /** What reaches the batch builder. */
  function CronParams(p: Params): Params {
    p.(fromProtocol := None, toProtocol := None, underlying := None)
  }

  /** Quotes that pay and mint what is asked of them. */
  function SomeQuotes(): Quotes {
    Quotes(1000, 1000, (n: nat) => n)
  }

  /** For every move: leaving protocols and underlying out builds the same batch, whatever the quotes, if
      and only if both vaults are Morpho vaults of USDC. */
  lemma DefaultsMatchExactly(s: Setup, p: Params)
    ensures (forall q :: Plan(s, CronParams(p), q) == Plan(s, p, q))
       <==> FromOf(p) == Morpho && ToOf(p) == Morpho && UnderlyingOf(s, p) == s.usdc
  {
    var q := SomeQuotes();
    var cron, decided := Plan(s, CronParams(p), q), Plan(s, p, q);
    assert RedeemAmount(CronParams(p), q) == 995 && RedeemAmount(p, q) == 995;
    assert cron.value[0].op.Redeem? && cron.value[1].to == s.usdc && cron.value[2].op.Deposit?;
    if FromOf(p) == Yo {
      assert decided.value[0].op.Approve?;
    } else if ToOf(p) == Yo {
      assert decided.value[2].op.GatewayDeposit?;
    } else {
      assert decided.value[1].to == UnderlyingOf(s, p);
    }
  }

  /** For every decision to move: the cron builds the batch that was decided, whatever the quotes, if
      and only if the money moves from one Morpho vault to another. */
  lemma CronFollowsExactly(s: Setup, m: Decisions.Market, h: Decisions.Holdings, targeted: Option<seq<string>>, user: string)
    requires Decisions.Evaluate(m, h, targeted).shouldRebalance && s.usdc == m.usdc
    ensures var d := Decisions.Evaluate(m, h, targeted);
            d.current.Some? && d.target.Some? &&
            ((forall q :: Plan(s, CronParams(DecidedParams(d, user)), q) == Plan(s, DecidedParams(d, user), q))
             <==> d.current.value.position.protocol == Morpho && d.target.value.protocol == Morpho)
  {
    Decisions.DecisionSource(m, h, targeted);
    Decisions.DecisionSound(m, h, targeted);
    var d := Decisions.Evaluate(m, h, targeted);
    DefaultsMatchExactly(s, DecidedParams(d, user));
  }

  // ---- Such decisions are made ----

  /** A market of one Morpho vault at 1 % and one YO vault of USDC at 5 %. */
  function TwoVaults(usdc: string): Decisions.Market {
    Decisions.Market([Decisions.MorphoVault("m", Some(0.01), None, Some(200000.0))],
                     [Decisions.YoVault("y", 0.05, 200000.0, "USDC", usdc)], usdc, map[], None)
  }

  const ONE_POSITION := Decisions.Holdings([Decisions.MorphoPosition("m", 1, Some(100.0))], [])

  lemma OnlyYoAcceptable(usdc: string, v: Decisions.Vault)
    requires v in Decisions.Listed(TwoVaults(usdc))
    ensures Decisions.Acceptable(TwoVaults(usdc), Decisions.Slot(Morpho, "m"), v) <==> v.protocol == Yo
  {
    var all := Decisions.Listed(TwoVaults(usdc));
    assert ToLower("m")[0] == 'm' && ToLower("y")[0] == 'y';
    assert all == [Decisions.Vault(Morpho, "m", 0.01, 200000.0, "USDC", usdc), Decisions.Vault(Yo, "y", 0.05, 200000.0, "USDC", usdc)];
  }

  /** The engine sends money in the Morpho vault to the YO vault, and the cron builds another batch
      than the one decided. */
  lemma CronMissesYo(s: Setup, user: string)
    ensures var d := Decisions.Evaluate(TwoVaults(s.usdc), ONE_POSITION, None);
            && d.shouldRebalance && d.current.Some? && d.target.Some? && d.target.value.protocol == Yo
            && exists q :: Plan(s, CronParams(DecidedParams(d, user)), q) != Plan(s, DecidedParams(d, user), q)
  {
    var m := TwoVaults(s.usdc);
    var ps := Decisions.Positions(m, ONE_POSITION);
    assert ps == [Decisions.Position(Morpho, "m", 1, 100.0, "USDC", s.usdc)];
    var from := Decisions.Slot(Morpho, "m");
    assert Decisions.PositionSlot(ps[0]) == from;
    var yo := Decisions.Listed(m)[1];
    OnlyYoAcceptable(s.usdc, yo);
    assert Decisions.ApyAt(m, from) == Some(0.01);
    assert Decisions.CanImprove(m, from, 0.005);
    Decisions.DecisionExact(m, ONE_POSITION, None);
    Decisions.DecisionSound(m, ONE_POSITION, None);
    Decisions.DecisionSource(m, ONE_POSITION, None);
    var d := Decisions.Evaluate(m, ONE_POSITION, None);
    OnlyYoAcceptable(s.usdc, d.target.value);
    CronFollowsExactly(s, m, ONE_POSITION, None, user);
  }
}
