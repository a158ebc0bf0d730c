/** The decision engine, over the fields of what its clients return: every decision it can make, with the
    position, the target and the reason, and no other. */
module DecisionLaws {
  import opened Wrappers
  import opened Protocols
  import opened Text
  import opened Seqs
  import opened DecisionEngine

  // ---- What a user holds and what is on offer, field by field ----

  /** A Morpho vault pays its average net APY, or for want of that its net APY, or nothing. */
  ghost predicate Pays(v: MorphoVault, apy: real) {
    || v.avgNetApy == Some(apy)
    || (v.avgNetApy == None && v.netApy == Some(apy))
    || (v.avgNetApy == None && v.netApy == None && apy == 0.0)
  }

  ghost predicate Worth(usd: Option<real>, amount: real) {
    usd == Some(amount) || (usd == None && amount == 0.0)
  }

  /** The k-th YO vault is the last of this address. */
  ghost predicate LastNamed(m: Market, address: string, k: int) {
    && 0 <= k < |m.yo| && SameUpToCase(m.yo[k].address, address)
    && forall j :: k < j < |m.yo| ==> !SameUpToCase(m.yo[j].address, address)
  }

  /** The symbol and the underlying token of a YO position. */
  ghost predicate YoDenominated(m: Market, address: string, symbol: string, underlying: string) {
    || (exists k :: LastNamed(m, address, k) && symbol == m.yo[k].symbol && underlying == m.yo[k].underlying)
    || ((forall k :: 0 <= k < |m.yo| ==> !SameUpToCase(m.yo[k].address, address)) && symbol == "USDC" && underlying == m.usdc)
  }

  /** The i-th position, Morpho positions first. */
  ghost predicate Holds(m: Market, h: Holdings, i: int, p: Position) {
    if 0 <= i < |h.morpho| then
      && p.protocol == Morpho && p.vault == h.morpho[i].vault && p.shares == h.morpho[i].shares
      && Worth(h.morpho[i].assetsUsd, p.assetsUsd) && p.symbol == "USDC" && p.underlying == m.usdc
    else if 0 <= i - |h.morpho| < |h.yo| then
      var y := h.yo[i - |h.morpho|];
      && p.protocol == Yo && p.vault == y.vault && p.shares == y.shares && p.assetsUsd == y.assetsUsd
      && YoDenominated(m, y.vault, p.symbol, p.underlying)
    else false
  }

  /** The i-th vault on offer, Morpho vaults first. */
  ghost predicate Offers(m: Market, i: int, v: Vault) {
    if 0 <= i < |m.morpho| then
      && v.protocol == Morpho && v.address == m.morpho[i].address && Pays(m.morpho[i], v.apy)
      && Worth(m.morpho[i].totalAssetsUsd, v.liquidityUsd) && v.symbol == "USDC" && v.underlying == m.usdc
    else if 0 <= i - |m.morpho| < |m.yo| then
      var y := m.yo[i - |m.morpho|];
      v == Vault(Yo, y.address, y.apy, y.tvlUsd, y.symbol, y.underlying)
    else false
  }

  ghost predicate FirstMorphoAt(m: Market, address: string, k: int) {
    && 0 <= k < |m.morpho| && SameUpToCase(m.morpho[k].address, address)
    && forall j :: 0 <= j < k ==> !SameUpToCase(m.morpho[j].address, address)
  }

  ghost predicate FirstYoAt(m: Market, address: string, k: int) {
    && 0 <= k < |m.yo| && SameUpToCase(m.yo[k].address, address)
    && forall j :: 0 <= j < k ==> !SameUpToCase(m.yo[j].address, address)
  }

  /** The text in lower case. */
  ghost predicate LowerOf(key: string, text: string) {
    SameUpToCase(key, text) && forall i :: 0 <= i < |key| ==> !('A' <= key[i] <= 'Z')
  }

  /** What a position earns: at the first listed vault of its address, or, for an unlisted Morpho vault, at
      the one fetched; an unlisted YO vault earns nothing. */
  ghost predicate Earns(m: Market, p: Position, apy: real) {
    match p.protocol
    case Morpho =>
      || (exists k :: FirstMorphoAt(m, p.vault, k) && Pays(m.morpho[k], apy))
      || ((forall k :: 0 <= k < |m.morpho| ==> !SameUpToCase(m.morpho[k].address, p.vault))
          && exists key :: key in m.fetched && LowerOf(key, p.vault) && Pays(m.fetched[key], apy))
    case Yo =>
      || (exists k :: FirstYoAt(m, p.vault, k) && apy == m.yo[k].apy)
      || ((forall k :: 0 <= k < |m.yo| ==> !SameUpToCase(m.yo[k].address, p.vault)) && apy == 0.0)
  }

  ghost predicate RedeemsPaused(m: Market, address: string) {
    m.pauses.Some? && exists key :: key in m.pauses.value && LowerOf(key, address) && m.pauses.value[key].redeemPaused
  }

  ghost predicate DepositsPaused(m: Market, address: string) {
    m.pauses.Some? && exists key :: key in m.pauses.value && LowerOf(key, address) && m.pauses.value[key].depositPaused
  }

  // ---- The decision ----

  /** The first of the positions worth most. */
  ghost predicate LargestHolding(m: Market, h: Holdings, i: int, p: Position) {
    && Holds(m, h, i, p)
    && forall k, q :: Holds(m, h, k, q) ==> q.assetsUsd <= p.assetsUsd && (k < i ==> q.assetsUsd < p.assetsUsd)
  }

  /** A vault the money may move to: holding at least 100000 dollars, at another address, of the same
      symbol, and open for deposits. */
  ghost predicate Choosable(m: Market, p: Position, j: int, v: Vault) {
    && Offers(m, j, v) && v.liquidityUsd >= 100000.0
    && !SameUpToCase(v.address, p.vault) && SameUpToCase(v.symbol, p.symbol) && !DepositsPaused(m, v.address)
  }

  /** The first of those that pay most. */
  ghost predicate FirstBest(m: Market, p: Position, j: int, v: Vault) {
    && Choosable(m, p, j, v)
    && forall k, w :: Choosable(m, p, k, w) ==> w.apy <= v.apy && (k < j ==> w.apy < v.apy)
  }

  ghost predicate Targets(targeted: Option<seq<string>>, address: string) {
    targeted.Some? && exists i :: 0 <= i < |targeted.value| && SameUpToCase(targeted.value[i], address)
  }

  /** Half a percent is enough to move, or a tenth of one if the position's vault is targeted. */
  ghost function Judged(p: Position, apy: real, v: Vault, targeted: Option<seq<string>>): Decision {
    var gain, aim := v.apy - apy, Targets(targeted, p.vault);
    if gain >= (if aim then 0.001 else 0.005)
    then Decision(true, Improves(aim), Some(Current(p, apy)), Some(v), gain, p.assetsUsd * gain)
    else Decision(false, TooSmall, Some(Current(p, apy)), None, gain, p.assetsUsd * gain)
  }

  ghost predicate AnswersAt(m: Market, p: Position, apy: real, targeted: Option<seq<string>>, d: Decision) {
    if RedeemsPaused(m, p.vault) then d == Decision(false, SourcePaused, Some(Current(p, apy)), None, 0.0, 0.0)
    else if forall j, v :: !Choosable(m, p, j, v) then d == Decision(false, NoAlternative, Some(Current(p, apy)), None, 0.0, 0.0)
    else exists j, v :: FirstBest(m, p, j, v) && d == Judged(p, apy, v, targeted)
  }

  ghost predicate AnswersFor(m: Market, p: Position, targeted: Option<seq<string>>, d: Decision) {
    if forall apy :: !Earns(m, p, apy) then d == Decision(false, NoVaultDetails, None, None, 0.0, 0.0)
    else exists apy :: Earns(m, p, apy) && AnswersAt(m, p, apy, targeted, d)
  }

  /** The whole decision. */
  ghost predicate Answers(m: Market, h: Holdings, targeted: Option<seq<string>>, d: Decision) {
    if h.morpho == [] && h.yo == [] then d == Decision(false, NoPositions, None, None, 0.0, 0.0)
    else exists i, p :: LargestHolding(m, h, i, p) && AnswersFor(m, p, targeted, d)
  }

  // ---- The engine's own reading of the fields ----

  lemma PaysExactly(v: MorphoVault, apy: real)
    ensures Pays(v, apy) <==> apy == MorphoApy(v)
  {
  }

  lemma LowerOfExactly(key: string, text: string)
    ensures LowerOf(key, text) <==> key == ToLower(text)
  {
    LowerExactly(text, key);
  }

  lemma {:induction false} FindMorphoExactly(vaults: seq<MorphoVault>, address: string) returns (k: nat)
    ensures match FindMorpho(vaults, ToLower(address))
            case Some(v) =>
              && k < |vaults| && v == vaults[k] && SameUpToCase(vaults[k].address, address)
              && forall j :: 0 <= j < k ==> !SameUpToCase(vaults[j].address, address)
            case None => forall j :: 0 <= j < |vaults| ==> !SameUpToCase(vaults[j].address, address)
  {
    k := 0;
    if vaults != [] {
      LowerSameExactly(vaults[0].address, address);
      if !SameUpToCase(vaults[0].address, address) {
        var rest := FindMorphoExactly(vaults[1..], address);
        k := rest + 1;
      }
    }
  }

  lemma {:induction false} FindYoExactly(vaults: seq<YoVault>, address: string) returns (k: nat)
    ensures match FindYo(vaults, ToLower(address))
            case Some(v) =>
              && k < |vaults| && v == vaults[k] && SameUpToCase(vaults[k].address, address)
              && forall j :: 0 <= j < k ==> !SameUpToCase(vaults[j].address, address)
            case None => forall j :: 0 <= j < |vaults| ==> !SameUpToCase(vaults[j].address, address)
  {
    k := 0;
    if vaults != [] {
      LowerSameExactly(vaults[0].address, address);
      if !SameUpToCase(vaults[0].address, address) {
        var rest := FindYoExactly(vaults[1..], address);
        k := rest + 1;
      }
    }
  }

  lemma {:induction false} LastYoExactly(vaults: seq<YoVault>, address: string) returns (k: nat)
    ensures match LastYo(vaults, ToLower(address))
            case Some(v) =>
              && k < |vaults| && v == vaults[k] && SameUpToCase(vaults[k].address, address)
              && forall j :: k < j < |vaults| ==> !SameUpToCase(vaults[j].address, address)
            case None => forall j :: 0 <= j < |vaults| ==> !SameUpToCase(vaults[j].address, address)
  {
    k := 0;
    if vaults != [] {
      var n := |vaults| - 1;
      LowerSameExactly(vaults[n].address, address);
      if SameUpToCase(vaults[n].address, address) {
        k := n;
      } else {
        k := LastYoExactly(vaults[..n], address);
      }
    }
  }

  lemma EarnsExactly(m: Market, p: Position, apy: real)
    ensures Earns(m, p, apy) <==> ApyAt(m, PositionSlot(p)) == Some(apy)
  {
    if p.protocol == Morpho {
      var k := FindMorphoExactly(m.morpho, p.vault);
      forall v ensures Pays(v, apy) <==> apy == MorphoApy(v) { PaysExactly(v, apy); }
      forall key ensures LowerOf(key, p.vault) <==> key == ToLower(p.vault) { LowerOfExactly(key, p.vault); }
      if FindMorpho(m.morpho, ToLower(p.vault)).Some? {
        assert FirstMorphoAt(m, p.vault, k);
      }
    } else {
      var k := FindYoExactly(m.yo, p.vault);
      if FindYo(m.yo, ToLower(p.vault)).Some? {
        assert FirstYoAt(m, p.vault, k);
      }
    }
  }

  lemma YoDenominatedExactly(m: Market, address: string, symbol: string, underlying: string)
    ensures YoDenominated(m, address, symbol, underlying)
       <==> symbol == SymbolAt(m, Slot(Yo, ToLower(address))) && underlying == UnderlyingAt(m, Slot(Yo, ToLower(address)))
  {
    var k := LastYoExactly(m.yo, address);
    if LastYo(m.yo, ToLower(address)).Some? {
      assert LastNamed(m, address, k);
    }
  }

  lemma HoldsExactly(m: Market, h: Holdings, i: int, p: Position)
    ensures Holds(m, h, i, p) <==> 0 <= i < |Positions(m, h)| && Positions(m, h)[i] == p
  {
    if |h.morpho| <= i < |h.morpho| + |h.yo| {
      YoDenominatedExactly(m, h.yo[i - |h.morpho|].vault, p.symbol, p.underlying);
    }
  }

  lemma OffersExactly(m: Market, i: int, v: Vault)
    ensures Offers(m, i, v) <==> 0 <= i < |Listed(m)| && Listed(m)[i] == v
  {
    if 0 <= i < |m.morpho| {
      PaysExactly(m.morpho[i], v.apy);
    }
  }

  lemma PausesExactly(m: Market, address: string)
    ensures DepositsPaused(m, address) <==> m.pauses.Some? && DepositPaused(m.pauses.value, ToLower(address))
    ensures RedeemsPaused(m, address) <==> RedeemPaused(m, Slot(Morpho, ToLower(address)))
    ensures RedeemsPaused(m, address) <==> RedeemPaused(m, Slot(Yo, ToLower(address)))
  {
    forall key ensures LowerOf(key, address) <==> key == ToLower(address) { LowerOfExactly(key, address); }
  }

  lemma TargetsExactly(targeted: Option<seq<string>>, p: Position)
    ensures Targets(targeted, p.vault) <==> IsTargeted(targeted, PositionSlot(p))
  {
    forall t ensures SameUpToCase(t, p.vault) <==> ToLower(t) == ToLower(p.vault) { LowerSameExactly(t, p.vault); }
  }

  /** The vaults the engine chooses from, as one filter of the list. */
  ghost function Open(m: Market, p: Position): Vault -> bool {
    (v: Vault) => Candidate(PositionSlot(p), p.symbol)(v) && !(m.pauses.Some? && DepositPaused(m.pauses.value, ToLower(v.address)))
  }

  lemma EligibleOpen(m: Market, p: Position)
    ensures Eligible(m, PositionSlot(p), p.symbol) == Select(Listed(m), Open(m, p))
  {
    var candidate := Candidate(PositionSlot(p), p.symbol);
    if m.pauses.None? {
      SelectAll(Select(Listed(m), candidate), (v: Vault) => true);
      SelectTwice(Listed(m), candidate, (v: Vault) => true, Open(m, p));
    } else {
      SelectTwice(Listed(m), candidate, (v: Vault) => !DepositPaused(m.pauses.value, ToLower(v.address)), Open(m, p));
    }
  }

  lemma ChoosableExactly(m: Market, p: Position, j: int, v: Vault)
    ensures Choosable(m, p, j, v) <==> 0 <= j < |Listed(m)| && Listed(m)[j] == v && Open(m, p)(v)
  {
    OffersExactly(m, j, v);
    PausesExactly(m, v.address);
    LowerSameExactly(v.address, p.vault);
    UpperSameExactly(v.symbol, p.symbol);
    assert Candidate(PositionSlot(p), p.symbol)(v) <==>
             v.liquidityUsd >= 100000.0 && !SameUpToCase(v.address, p.vault) && SameUpToCase(v.symbol, p.symbol);
    assert Open(m, p)(v) <==> Candidate(PositionSlot(p), p.symbol)(v) && !DepositsPaused(m, v.address);
  }

  /** The head of the sorted list is the first best in the order of the offers. */
  lemma HeadIsFirstBest(m: Market, p: Position) returns (j: int)
    requires Eligible(m, PositionSlot(p), p.symbol) != []
    ensures FirstBest(m, p, j, ByApy(Eligible(m, PositionSlot(p), p.symbol))[0])
  {
    var all, eligible := Listed(m), Eligible(m, PositionSlot(p), p.symbol);
    EligibleOpen(m, p);
    var at := SelectPicks(all, Open(m, p));
    var k := HeadIsFirstMaximum(eligible);
    var best := eligible[k];
    j := at[k];
    assert j in at;
    ChoosableExactly(m, p, j, best);
    forall i, w | Choosable(m, p, i, w) ensures w.apy <= best.apy && (i < j ==> w.apy < best.apy) {
      ChoosableExactly(m, p, i, w);
      assert i in at;
      var n :| 0 <= n < |at| && at[n] == i;
      assert eligible[n] == w;
      assert k < n ==> at[k] < at[n];
    }
  }

  lemma NothingEligible(m: Market, p: Position)
    ensures Eligible(m, PositionSlot(p), p.symbol) == [] <==> forall j, v :: !Choosable(m, p, j, v)
  {
    var all := Listed(m);
    EligibleOpen(m, p);
    SelectMembers(all, Open(m, p));
    if Eligible(m, PositionSlot(p), p.symbol) == [] {
      forall j, v ensures !Choosable(m, p, j, v) {
        ChoosableExactly(m, p, j, v);
      }
    } else {
      var j := HeadIsFirstBest(m, p);
    }
  }

  // ---- Main results ----

  lemma EngineAnswersAt(m: Market, p: Position, apy: real, targeted: Option<seq<string>>, d: Decision)
    requires d == (if RedeemPaused(m, PositionSlot(p)) then Stay(SourcePaused, Some(Current(p, apy)))
                   else if Eligible(m, PositionSlot(p), p.symbol) == [] then Stay(NoAlternative, Some(Current(p, apy)))
                   else Judged(p, apy, ByApy(Eligible(m, PositionSlot(p), p.symbol))[0], targeted))
    ensures AnswersAt(m, p, apy, targeted, d)
  {
    PausesExactly(m, p.vault);
    NothingEligible(m, p);
    if !RedeemPaused(m, PositionSlot(p)) && Eligible(m, PositionSlot(p), p.symbol) != [] {
      var j := HeadIsFirstBest(m, p);
    }
  }

  lemma LargestIsHolding(m: Market, h: Holdings) returns (i: int)
    requires Positions(m, h) != []
    ensures var ps := Positions(m, h); LargestHolding(m, h, i, Largest(ps[0], ps[1..]))
  {
    var ps := Positions(m, h);
    i := LargestIsFirstMaximum(ps);
    forall k, q ensures Holds(m, h, k, q) <==> 0 <= k < |ps| && ps[k] == q { HoldsExactly(m, h, k, q); }
  }

  /** What the engine makes of the position it has picked. */
  function DecisionAbout(m: Market, p: Position, targeted: Option<seq<string>>): Decision {
    match ApyAt(m, PositionSlot(p))
    case None => Stay(NoVaultDetails, None)
    case Some(apy) =>
      if RedeemPaused(m, PositionSlot(p)) then Stay(SourcePaused, Some(Current(p, apy)))
      else if Eligible(m, PositionSlot(p), p.symbol) == [] then Stay(NoAlternative, Some(Current(p, apy)))
      else
        var best, aim := ByApy(Eligible(m, PositionSlot(p), p.symbol))[0], IsTargeted(targeted, PositionSlot(p));
        var improvement := best.apy - apy;
        var should := improvement >= Threshold(targeted, PositionSlot(p));
        Decision(should, if should then Improves(aim) else TooSmall, Some(Current(p, apy)),
                 if should then Some(best) else None, improvement, p.assetsUsd * improvement)
  }

  lemma EngineDecides(m: Market, h: Holdings, targeted: Option<seq<string>>)
    requires Positions(m, h) != []
    ensures var ps := Positions(m, h); Evaluate(m, h, targeted) == DecisionAbout(m, Largest(ps[0], ps[1..]), targeted)
  {
  }

  lemma EngineJudges(m: Market, p: Position, apy: real, targeted: Option<seq<string>>)
    requires ApyAt(m, PositionSlot(p)) == Some(apy)
    ensures DecisionAbout(m, p, targeted)
         == (if RedeemPaused(m, PositionSlot(p)) then Stay(SourcePaused, Some(Current(p, apy)))
             else if Eligible(m, PositionSlot(p), p.symbol) == [] then Stay(NoAlternative, Some(Current(p, apy)))
             else Judged(p, apy, ByApy(Eligible(m, PositionSlot(p), p.symbol))[0], targeted))
  {
    TargetsExactly(targeted, p);
  }

  lemma EngineAnswersFor(m: Market, p: Position, targeted: Option<seq<string>>)
    ensures AnswersFor(m, p, targeted, DecisionAbout(m, p, targeted))
  {
    forall apy ensures Earns(m, p, apy) <==> ApyAt(m, PositionSlot(p)) == Some(apy) { EarnsExactly(m, p, apy); }
    if ApyAt(m, PositionSlot(p)).Some? {
      var apy := ApyAt(m, PositionSlot(p)).value;
      EngineJudges(m, p, apy, targeted);
      EngineAnswersAt(m, p, apy, targeted, DecisionAbout(m, p, targeted));
      assert Earns(m, p, apy);
    }
  }

  /** What the engine decides is such an answer ... */
  lemma EngineAnswers(m: Market, h: Holdings, targeted: Option<seq<string>>)
    ensures Answers(m, h, targeted, Evaluate(m, h, targeted))
  {
    var ps := Positions(m, h);
    if ps != [] {
      var i := LargestIsHolding(m, h);
      EngineDecides(m, h, targeted);
      EngineAnswersFor(m, Largest(ps[0], ps[1..]), targeted);
    }
  }

  /** ... and there is only one. */
  lemma AnswerIsUnique(m: Market, h: Holdings, targeted: Option<seq<string>>, d: Decision, d': Decision)
    requires Answers(m, h, targeted, d) && Answers(m, h, targeted, d')
    ensures d == d'
  {
    if h.morpho != [] || h.yo != [] {
      var i, p :| LargestHolding(m, h, i, p) && AnswersFor(m, p, targeted, d);
      var i', p' :| LargestHolding(m, h, i', p') && AnswersFor(m, p', targeted, d');
      HoldsExactly(m, h, i, p);
      HoldsExactly(m, h, i', p');
      assert i == i';
      OneAnswerFor(m, p, targeted, d, d');
    }
  }

  lemma OneAnswerFor(m: Market, p: Position, targeted: Option<seq<string>>, d: Decision, d': Decision)
    requires AnswersFor(m, p, targeted, d) && AnswersFor(m, p, targeted, d')
    ensures d == d'
  {
    forall apy ensures Earns(m, p, apy) <==> ApyAt(m, PositionSlot(p)) == Some(apy) { EarnsExactly(m, p, apy); }
    forall j, v, k, w | FirstBest(m, p, j, v) && FirstBest(m, p, k, w) ensures v == w {
      ChoosableExactly(m, p, j, v);
      ChoosableExactly(m, p, k, w);
      assert j == k;
    }
  }

  /** The engine makes a decision if and only if it is the answer, over the fields of the market and of the
      user's holdings. */
  lemma DecidesExactly(m: Market, h: Holdings, targeted: Option<seq<string>>, d: Decision)
    ensures d == Evaluate(m, h, targeted) <==> Answers(m, h, targeted, d)
  {
    EngineAnswers(m, h, targeted);
    if Answers(m, h, targeted, d) {
      AnswerIsUnique(m, h, targeted, d, Evaluate(m, h, targeted));
    }
  }

  // ---- A vault's net APY does not count beside its average ----

  predicate SameButNet(v: MorphoVault, w: MorphoVault) {
    && v.address == w.address && v.avgNetApy == w.avgNetApy && v.totalAssetsUsd == w.totalAssetsUsd
    && (v.avgNetApy.None? ==> v.netApy == w.netApy)
  }

  /** The markets differ at most in the net APY of vaults that have an average. */
  ghost predicate SameMarketButNet(m: Market, m': Market) {
    && m'.yo == m.yo && m'.usdc == m.usdc && m'.pauses == m.pauses
    && |m'.morpho| == |m.morpho| && (forall i :: 0 <= i < |m.morpho| ==> SameButNet(m.morpho[i], m'.morpho[i]))
    && m'.fetched.Keys == m.fetched.Keys && (forall key :: key in m.fetched ==> SameButNet(m.fetched[key], m'.fetched[key]))
  }

  lemma EarnsSame(m: Market, m': Market, p: Position, apy: real)
    requires SameMarketButNet(m, m') && Earns(m, p, apy)
    ensures Earns(m', p, apy)
  {
    if p.protocol == Morpho {
      if k :| FirstMorphoAt(m, p.vault, k) && Pays(m.morpho[k], apy) {
        assert FirstMorphoAt(m', p.vault, k) && Pays(m'.morpho[k], apy);
      } else {
        var key :| key in m.fetched && LowerOf(key, p.vault) && Pays(m.fetched[key], apy);
        assert Pays(m'.fetched[key], apy);
      }
    } else {
      if k :| FirstYoAt(m, p.vault, k) && apy == m.yo[k].apy {
        assert FirstYoAt(m', p.vault, k);
      }
    }
  }

  lemma HoldsSame(m: Market, m': Market, h: Holdings, i: int, p: Position)
    requires SameMarketButNet(m, m') && Holds(m, h, i, p)
    ensures Holds(m', h, i, p)
  {
    if i >= |h.morpho| {
      if k :| LastNamed(m, p.vault, k) && p.symbol == m.yo[k].symbol && p.underlying == m.yo[k].underlying {
        assert LastNamed(m', p.vault, k);
      }
    }
  }

  lemma ChoosableSame(m: Market, m': Market, p: Position, j: int, v: Vault)
    requires SameMarketButNet(m, m') && Choosable(m, p, j, v)
    ensures Choosable(m', p, j, v)
  {
  }

  lemma MarketBack(m: Market, m': Market)
    requires SameMarketButNet(m, m')
    ensures SameMarketButNet(m', m)
  {
  }

  lemma AnswersForSame(m: Market, m': Market, p: Position, targeted: Option<seq<string>>, d: Decision)
    requires SameMarketButNet(m, m') && AnswersFor(m, p, targeted, d)
    ensures AnswersFor(m', p, targeted, d)
  {
    MarketBack(m, m');
    forall apy ensures Earns(m, p, apy) <==> Earns(m', p, apy) {
      if Earns(m, p, apy) { EarnsSame(m, m', p, apy); }
      if Earns(m', p, apy) { EarnsSame(m', m, p, apy); }
    }
    forall j, v ensures Choosable(m, p, j, v) <==> Choosable(m', p, j, v) {
      if Choosable(m, p, j, v) { ChoosableSame(m, m', p, j, v); }
      if Choosable(m', p, j, v) { ChoosableSame(m', m, p, j, v); }
    }
    forall j, v | FirstBest(m, p, j, v) ensures FirstBest(m', p, j, v) {}
    forall apy | AnswersAt(m, p, apy, targeted, d) ensures AnswersAt(m', p, apy, targeted, d) {}
  }

  /** So no decision depends on it. */
  lemma NetApyIgnored(m: Market, m': Market, h: Holdings, targeted: Option<seq<string>>)
    requires SameMarketButNet(m, m')
    ensures Evaluate(m', h, targeted) == Evaluate(m, h, targeted)
  {
    var d := Evaluate(m, h, targeted);
    EngineAnswers(m, h, targeted);
    MarketBack(m, m');
    if h.morpho != [] || h.yo != [] {
      var i, p :| LargestHolding(m, h, i, p) && AnswersFor(m, p, targeted, d);
      AnswersForSame(m, m', p, targeted, d);
      HoldsSame(m, m', h, i, p);
      forall k, q | Holds(m', h, k, q) ensures Holds(m, h, k, q) { HoldsSame(m', m, h, k, q); }
      assert LargestHolding(m', h, i, p);
    }
    assert Answers(m', h, targeted, d);
    DecidesExactly(m', h, targeted, d);
  }

  /** An advised move, spelled out. */
  lemma AdvisedMove(m: Market, h: Holdings, targeted: Option<seq<string>>) returns (p: Position, apy: real, j: int, v: Vault)
    requires Evaluate(m, h, targeted).shouldRebalance
    ensures Earns(m, p, apy) && Choosable(m, p, j, v) && Evaluate(m, h, targeted) == Judged(p, apy, v, targeted)
  {
    var d := Evaluate(m, h, targeted);
    EngineAnswers(m, h, targeted);
    var i;
    i, p :| LargestHolding(m, h, i, p) && AnswersFor(m, p, targeted, d);
    apy, j, v := AdvisedFrom(m, p, targeted, d);
  }

  lemma AdvisedFrom(m: Market, p: Position, targeted: Option<seq<string>>, d: Decision) returns (apy: real, j: int, v: Vault)
    requires AnswersFor(m, p, targeted, d) && d.shouldRebalance
    ensures Earns(m, p, apy) && Choosable(m, p, j, v) && d == Judged(p, apy, v, targeted)
  {
    apy :| Earns(m, p, apy) && AnswersAt(m, p, apy, targeted, d);
    j, v :| FirstBest(m, p, j, v) && d == Judged(p, apy, v, targeted);
  }

  /** Money advised to leave a listed Morpho vault for another gains at least half a percent, or a tenth of
      one if targeted, by what the two vaults pay. */
  lemma AdvisedMoveGains(m: Market, h: Holdings, targeted: Option<seq<string>>, k: int, b: real) returns (j: int, a: real)
    requires var d := Evaluate(m, h, targeted);
             && d.shouldRebalance && d.current.Some? && d.target.Some?
             && d.current.value.position.protocol == Morpho && d.target.value.protocol == Morpho
             && FirstMorphoAt(m, d.current.value.position.vault, k) && Pays(m.morpho[k], b)
    ensures var d := Evaluate(m, h, targeted);
            && 0 <= j < |m.morpho| && m.morpho[j].address == d.target.value.address && Pays(m.morpho[j], a)
            && a - b >= if Targets(targeted, d.current.value.position.vault) then 0.001 else 0.005
  {
    var p, apy, v;
    p, apy, j, v := AdvisedMove(m, h, targeted);
    a := v.apy;
    EarnsExactly(m, p, b);
    EarnsExactly(m, p, apy);
  }
}
