/** lib/agent/decision-engine.ts: whether to move a user's largest position, and where to. APYs
    and dollar values are exact rationals; a vault is identified by its lower-case address. */
module DecisionEngine {
  import opened Wrappers
  import opened Protocols
  import opened Text
  import opened Seqs

  // lib/config.ts
  const MIN_APY_IMPROVEMENT := 0.005
  const TARGETED_APY_IMPROVEMENT := 0.001
  const MIN_LIQUIDITY_USD := 100000.0

  // ---- What the clients return ----

  datatype MorphoPosition = MorphoPosition(vault: string, shares: nat, assetsUsd: Option<real>)
  datatype YoPosition = YoPosition(vault: string, shares: nat, assetsUsd: real)
  datatype MorphoVault =
    MorphoVault(address: string, avgNetApy: Option<real>, netApy: Option<real>, totalAssetsUsd: Option<real>)
  datatype YoVault = YoVault(address: string, apy: real, tvlUsd: real, symbol: string, underlying: string)
  datatype PauseState = PauseState(depositPaused: bool, redeemPaused: bool)

  /** What one user holds. */
  datatype Holdings = Holdings(morpho: seq<MorphoPosition>, yo: seq<YoPosition>)

  /** Everything else a decision reads. `fetched` answers the single-vault lookup of an unlisted
      Morpho vault; `pauses` is None when there is no pause service. Both are keyed by lower-case
      address. */
  datatype Market = Market(morpho: seq<MorphoVault>, yo: seq<YoVault>, usdc: string,
                           fetched: map<string, MorphoVault>, pauses: Option<map<string, PauseState>>)

  // ---- The common shape ----

  /** Where money is: a protocol and a lower-case vault address. */
  datatype Slot = Slot(protocol: Protocol, address: string)
  datatype Position = Position(protocol: Protocol, vault: string, shares: nat, assetsUsd: real,
                               symbol: string, underlying: string)
  datatype Vault = Vault(protocol: Protocol, address: string, apy: real, liquidityUsd: real,
                         symbol: string, underlying: string)

  function OrZero(x: Option<real>): real {
    if x.Some? then x.value else 0.0
  }

  function MorphoApy(v: MorphoVault): real {
    if v.avgNetApy.Some? then v.avgNetApy.value else OrZero(v.netApy)
  }

  /** `find`: the first entry of an address. */
  function FindMorpho(vaults: seq<MorphoVault>, address: string): Option<MorphoVault> {
    if vaults == [] then None
    else if ToLower(vaults[0].address) == address then Some(vaults[0])
    else FindMorpho(vaults[1..], address)
  }

  function FindYo(vaults: seq<YoVault>, address: string): Option<YoVault> {
    if vaults == [] then None
    else if ToLower(vaults[0].address) == address then Some(vaults[0])
    else FindYo(vaults[1..], address)
  }

  /** A Map built from the list: the last entry of an address wins. */
  function LastYo(vaults: seq<YoVault>, address: string): Option<YoVault> {
    if vaults == [] then None
    else
      var last := vaults[|vaults| - 1];
      if ToLower(last.address) == address then Some(last) else LastYo(vaults[..|vaults| - 1], address)
  }

  function SymbolAt(m: Market, s: Slot): string {
    if s.protocol == Morpho then "USDC"
    else match LastYo(m.yo, s.address) { case Some(v) => v.symbol case None => "USDC" }
  }

  function UnderlyingAt(m: Market, s: Slot): string {
    if s.protocol == Morpho then m.usdc
    else match LastYo(m.yo, s.address) { case Some(v) => v.underlying case None => m.usdc }
  }

  /** None: an unlisted Morpho vault that cannot be fetched either. */
  function ApyAt(m: Market, s: Slot): Option<real> {
    match s.protocol
    case Morpho =>
      (match FindMorpho(m.morpho, s.address)
       case Some(v) => Some(MorphoApy(v))
       case None => if s.address in m.fetched then Some(MorphoApy(m.fetched[s.address])) else None)
    case Yo =>
      match FindYo(m.yo, s.address) { case Some(v) => Some(v.apy) case None => Some(0.0) }
  }

  function FromMorpho(m: Market, p: MorphoPosition): Position {
    Position(Morpho, p.vault, p.shares, OrZero(p.assetsUsd), "USDC", m.usdc)
  }

  function FromYo(m: Market, p: YoPosition): Position {
    var slot := Slot(Yo, ToLower(p.vault));
    Position(Yo, p.vault, p.shares, p.assetsUsd, SymbolAt(m, slot), UnderlyingAt(m, slot))
  }

  function Positions(m: Market, h: Holdings): (ps: seq<Position>)
    ensures |ps| == |h.morpho| + |h.yo|
  {
    seq(|h.morpho|, i requires 0 <= i < |h.morpho| => FromMorpho(m, h.morpho[i]))
    + seq(|h.yo|, i requires 0 <= i < |h.yo| => FromYo(m, h.yo[i]))
  }

  function MorphoListed(m: Market, v: MorphoVault): Vault {
    Vault(Morpho, v.address, MorphoApy(v), OrZero(v.totalAssetsUsd), "USDC", m.usdc)
  }

  function YoListed(v: YoVault): Vault {
    Vault(Yo, v.address, v.apy, v.tvlUsd, v.symbol, v.underlying)
  }

  function Listed(m: Market): (vs: seq<Vault>)
    ensures |vs| == |m.morpho| + |m.yo|
  {
    seq(|m.morpho|, i requires 0 <= i < |m.morpho| => MorphoListed(m, m.morpho[i]))
    + seq(|m.yo|, i requires 0 <= i < |m.yo| => YoListed(m.yo[i]))
  }

  function PositionSlot(p: Position): Slot { Slot(p.protocol, ToLower(p.vault)) }
  function VaultSlot(v: Vault): Slot { Slot(v.protocol, ToLower(v.address)) }

  // ---- The decision ----

  /** `reduce` with a strict comparison. */
  function Largest(best: Position, rest: seq<Position>): Position
    decreases |rest|
  {
    if rest == [] then best
    else Largest(if rest[0].assetsUsd > best.assetsUsd then rest[0] else best, rest[1..])
  }

  function Candidate(from: Slot, symbol: string): Vault -> bool {
    (v: Vault) => v.liquidityUsd >= MIN_LIQUIDITY_USD && ToLower(v.address) != from.address && ToUpper(v.symbol) == ToUpper(symbol)
  }

  predicate DepositPaused(pauses: map<string, PauseState>, address: string) {
    address in pauses && pauses[address].depositPaused
  }

  predicate RedeemPaused(m: Market, from: Slot) {
    m.pauses.Some? && from.address in m.pauses.value && m.pauses.value[from.address].redeemPaused
  }

  function Eligible(m: Market, from: Slot, symbol: string): seq<Vault> {
    var candidates := Select(Listed(m), Candidate(from, symbol));
    if m.pauses.None? then candidates
    else Select(candidates, (v: Vault) => !DepositPaused(m.pauses.value, ToLower(v.address)))
  }

  /** The stable sort by descending APY. */
  function Inserted(v: Vault, vaults: seq<Vault>): seq<Vault> {
    if vaults == [] || v.apy >= vaults[0].apy then [v] + vaults else [vaults[0]] + Inserted(v, vaults[1..])
  }

  function ByApy(vaults: seq<Vault>): (sorted: seq<Vault>)
    ensures |sorted| == |vaults|
  {
    if vaults == [] then [] else
      var rest := ByApy(vaults[1..]);
      InsertedLength(vaults[0], rest);
      Inserted(vaults[0], rest)
  }

  lemma {:induction false} InsertedLength(v: Vault, vaults: seq<Vault>)
    ensures multiset(Inserted(v, vaults)) == multiset(vaults) + multiset{v}
    ensures |Inserted(v, vaults)| == |vaults| + 1
  {
    if vaults != [] && v.apy < vaults[0].apy {
      InsertedLength(v, vaults[1..]);
      assert vaults == [vaults[0]] + vaults[1..];
    }
  }

  predicate IsTargeted(targeted: Option<seq<string>>, from: Slot) {
    targeted.Some? && exists i :: 0 <= i < |targeted.value| && ToLower(targeted.value[i]) == from.address
  }

  function Threshold(targeted: Option<seq<string>>, from: Slot): real {
    if IsTargeted(targeted, from) then TARGETED_APY_IMPROVEMENT else MIN_APY_IMPROVEMENT
  }

  datatype Reason = NoPositions | NoVaultDetails | SourcePaused | NoAlternative | Improves(targeted: bool) | TooSmall
  datatype Current = Current(position: Position, apy: real)
  datatype Decision = Decision(shouldRebalance: bool, reason: Reason, current: Option<Current>, target: Option<Vault>,
                               apyImprovement: real, estimatedAnnualGain: real)

  function Stay(reason: Reason, current: Option<Current>): Decision {
    Decision(false, reason, current, None, 0.0, 0.0)
  }

  function Evaluate(m: Market, h: Holdings, targeted: Option<seq<string>>): Decision {
    var ps := Positions(m, h);
    if ps == [] then Stay(NoPositions, None)
    else
      var p := Largest(ps[0], ps[1..]);
      var from := PositionSlot(p);
      match ApyAt(m, from)
      case None => Stay(NoVaultDetails, None)
      case Some(apy) =>
        if RedeemPaused(m, from) then Stay(SourcePaused, Some(Current(p, apy)))
        else
          var eligible := Eligible(m, from, p.symbol);
          if eligible == [] then Stay(NoAlternative, Some(Current(p, apy)))
          else
            var best := ByApy(eligible)[0];
            var improvement := best.apy - apy;
            var should := improvement >= Threshold(targeted, from);
            Decision(should, if should then Improves(IsTargeted(targeted, from)) else TooSmall, Some(Current(p, apy)),
                     if should then Some(best) else None, improvement, p.assetsUsd * improvement)
  }

  // ---- What the parts mean ----

  /** The position chosen is the first of those worth most. */
  lemma {:induction false} LargestIsFirstMaximum(ps: seq<Position>) returns (i: nat)
    requires ps != []
    ensures i < |ps| && Largest(ps[0], ps[1..]) == ps[i]
    ensures forall j | 0 <= j < |ps| :: ps[j].assetsUsd <= ps[i].assetsUsd
    ensures forall j | 0 <= j < i :: ps[j].assetsUsd < ps[i].assetsUsd
    decreases |ps|
  {
    if |ps| == 1 {
      i := 0;
    } else {
      var winner := if ps[1].assetsUsd > ps[0].assetsUsd then ps[1] else ps[0];
      var rest := [winner] + ps[2..];
      assert rest[1..] == ps[1..][1..];
      var k := LargestIsFirstMaximum(rest);
      i := if k == 0 && winner == ps[0] then 0 else k + 1;
      forall j | 0 <= j < |ps| ensures ps[j].assetsUsd <= ps[i].assetsUsd {
        assert j >= 2 ==> rest[j - 1] == ps[j];
      }
      forall j | 0 <= j < i ensures ps[j].assetsUsd < ps[i].assetsUsd {
        assert j >= 2 ==> rest[j - 1] == ps[j];
      }
    }
  }

  /** The sort keeps every vault and orders them by APY. */
  lemma {:induction false} ByApySorts(vaults: seq<Vault>)
    ensures multiset(ByApy(vaults)) == multiset(vaults)
    ensures Ordered(ByApy(vaults), (a: Vault, b: Vault) => a.apy >= b.apy)
  {
    if vaults != [] {
      ByApySorts(vaults[1..]);
      InsertedLength(vaults[0], ByApy(vaults[1..]));
      InsertedSorted(vaults[0], ByApy(vaults[1..]));
      assert vaults == [vaults[0]] + vaults[1..];
    }
  }

  lemma {:induction false} InsertedSorted(v: Vault, vaults: seq<Vault>)
    requires Ordered(vaults, (a: Vault, b: Vault) => a.apy >= b.apy)
    ensures Ordered(Inserted(v, vaults), (a: Vault, b: Vault) => a.apy >= b.apy)
  {
    if vaults != [] && v.apy < vaults[0].apy {
      InsertedSorted(v, vaults[1..]);
      forall k | 0 < k < |vaults| ensures vaults[k].apy <= vaults[0].apy {}
      InsertedBelow(v, vaults[1..], vaults[0].apy);
    }
  }

  lemma {:induction false} InsertedBelow(v: Vault, vaults: seq<Vault>, bound: real)
    requires v.apy <= bound && forall k :: 0 <= k < |vaults| ==> vaults[k].apy <= bound
    ensures forall k :: 0 <= k < |Inserted(v, vaults)| ==> Inserted(v, vaults)[k].apy <= bound
  {
    if vaults != [] {
      InsertedBelow(v, vaults[1..], bound);
    }
  }

  /** Its head is the first of the vaults with the highest APY. */
  lemma {:induction false} HeadIsFirstMaximum(vaults: seq<Vault>) returns (i: nat)
    requires vaults != []
    ensures i < |vaults| && ByApy(vaults)[0] == vaults[i]
    ensures forall j | 0 <= j < |vaults| :: vaults[j].apy <= vaults[i].apy
    ensures forall j | 0 <= j < i :: vaults[j].apy < vaults[i].apy
  {
    if |vaults| == 1 {
      i := 0;
    } else {
      var k := HeadIsFirstMaximum(vaults[1..]);
      i := if vaults[0].apy >= vaults[1..][k].apy then 0 else k + 1;
      forall j | 1 <= j < |vaults| ensures vaults[j].apy <= vaults[i].apy {
        assert vaults[1..][j - 1] == vaults[j];
      }
      forall j | 0 <= j < i ensures vaults[j].apy < vaults[i].apy {
        assert j > 0 ==> vaults[1..][j - 1] == vaults[j];
      }
    }
  }

  /** A vault money in `from` may move to: liquid enough, another address, the same underlying,
      and open for deposits. */
  predicate Acceptable(m: Market, from: Slot, v: Vault) {
    && v.liquidityUsd >= MIN_LIQUIDITY_USD
    && ToLower(v.address) != from.address
    && ToUpper(v.symbol) == ToUpper(SymbolAt(m, from))
    && (m.pauses.Some? ==> !DepositPaused(m.pauses.value, ToLower(v.address)))
  }

  lemma EligibleExactly(m: Market, from: Slot, v: Vault)
    ensures v in Eligible(m, from, SymbolAt(m, from)) <==> v in Listed(m) && Acceptable(m, from, v)
  {
    SelectMembers(Listed(m), Candidate(from, SymbolAt(m, from)));
    if m.pauses.Some? {
      SelectMembers(Select(Listed(m), Candidate(from, SymbolAt(m, from))),
                    (v: Vault) => !DepositPaused(m.pauses.value, ToLower(v.address)));
    }
  }

  lemma PositionSymbol(m: Market, h: Holdings, p: Position)
    requires p in Positions(m, h)
    ensures p.symbol == SymbolAt(m, PositionSlot(p))
  {
  }

  /** The head of the sorted eligible vaults is a best acceptable one; there is none exactly when
      no vault is acceptable. */
  lemma BestEligible(m: Market, from: Slot)
    ensures var eligible := Eligible(m, from, SymbolAt(m, from));
            if eligible == [] then forall v :: v in Listed(m) ==> !Acceptable(m, from, v)
            else
              var best := ByApy(eligible)[0];
              && best in Listed(m) && Acceptable(m, from, best)
              && forall v :: v in Listed(m) && Acceptable(m, from, v) ==> v.apy <= best.apy
  {
    var eligible := Eligible(m, from, SymbolAt(m, from));
    forall v ensures v in eligible <==> v in Listed(m) && Acceptable(m, from, v) {
      EligibleExactly(m, from, v);
    }
    if eligible != [] {
      var k := HeadIsFirstMaximum(eligible);
      assert eligible[k] in eligible;
    }
  }

  // ---- Main results ----

  /** Some acceptable vault beats the present APY by at least `threshold`. */
  ghost predicate CanImprove(m: Market, from: Slot, threshold: real) {
    && ApyAt(m, from).Some?
    && exists v :: v in Listed(m) && Acceptable(m, from, v) && v.apy - ApyAt(m, from).value >= threshold
  }

  /** A rebalance is advised if and only if there is a position, redeems from the largest one are
      open, and some acceptable vault beats it by the threshold that applies. */
  lemma DecisionExact(m: Market, h: Holdings, targeted: Option<seq<string>>)
    ensures Evaluate(m, h, targeted).shouldRebalance <==>
              var ps := Positions(m, h);
              && ps != []
              && var from := PositionSlot(Largest(ps[0], ps[1..]));
              && !RedeemPaused(m, from) && CanImprove(m, from, if IsTargeted(targeted, from) then 0.001 else 0.005)
  {
    var ps := Positions(m, h);
    if ps != [] {
      var i := LargestIsFirstMaximum(ps);
      PositionSymbol(m, h, ps[i]);
      BestEligible(m, PositionSlot(ps[i]));
    }
  }

  /** The target advised: acceptable, listed, no worse than any acceptable vault, and better than
      the present one by at least the threshold. */
  ghost predicate BestMove(m: Market, from: Slot, to: Vault, threshold: real) {
    && to in Listed(m) && Acceptable(m, from, to)
    && ApyAt(m, from).Some? && to.apy - ApyAt(m, from).value >= threshold
    && forall v :: v in Listed(m) && Acceptable(m, from, v) ==> v.apy <= to.apy
  }

  /** The position a decision is about is a largest one, judged at the APY of its vault. */
  lemma DecisionSource(m: Market, h: Holdings, targeted: Option<seq<string>>)
    requires Evaluate(m, h, targeted).current.Some?
    ensures var c := Evaluate(m, h, targeted).current.value;
            && c.position in Positions(m, h) && c.position.symbol == SymbolAt(m, PositionSlot(c.position))
            && (forall q | q in Positions(m, h) :: q.assetsUsd <= c.position.assetsUsd)
            && ApyAt(m, PositionSlot(c.position)) == Some(c.apy)
  {
    var ps := Positions(m, h);
    var i := LargestIsFirstMaximum(ps);
    PositionSymbol(m, h, ps[i]);
  }

  /** An advised target is a best move for that position, and the improvement reported is its. */
  lemma DecisionSound(m: Market, h: Holdings, targeted: Option<seq<string>>)
    requires Evaluate(m, h, targeted).shouldRebalance
    ensures var d := Evaluate(m, h, targeted);
            && d.current.Some? && d.target.Some?
            && var from := PositionSlot(d.current.value.position);
            && BestMove(m, from, d.target.value, Threshold(targeted, from))
            && d.apyImprovement == d.target.value.apy - d.current.value.apy
  {
    var d := Evaluate(m, h, targeted);
    DecisionSource(m, h, targeted);
    var p := d.current.value.position;
    var eligible := Eligible(m, PositionSlot(p), p.symbol);
    assert eligible != [] && d.target == Some(ByApy(eligible)[0]);
    BestEligible(m, PositionSlot(p));
  }

  // ---- Rebalancing stops ----

  /** An address names one vault: no two listed vaults share one, and money held at a listed
      address is held under that vault's protocol. */
  ghost predicate Coherent(m: Market, held: set<Slot>) {
    && (forall i, j :: 0 <= i < j < |Listed(m)| ==> ToLower(Listed(m)[i].address) != ToLower(Listed(m)[j].address))
    && (forall s, v :: s in held && v in Listed(m) && ToLower(v.address) == s.address ==> v.protocol == s.protocol)
  }

  lemma {:induction false} FindMorphoAt(vaults: seq<MorphoVault>, i: nat)
    requires i < |vaults|
    requires forall j, k :: 0 <= j < k < |vaults| ==> ToLower(vaults[j].address) != ToLower(vaults[k].address)
    ensures FindMorpho(vaults, ToLower(vaults[i].address)) == Some(vaults[i])
  {
    if i > 0 {
      assert ToLower(vaults[0].address) != ToLower(vaults[i].address);
      FindMorphoAt(vaults[1..], i - 1);
    }
  }

  lemma {:induction false} FindYoAt(vaults: seq<YoVault>, i: nat)
    requires i < |vaults|
    requires forall j, k :: 0 <= j < k < |vaults| ==> ToLower(vaults[j].address) != ToLower(vaults[k].address)
    ensures FindYo(vaults, ToLower(vaults[i].address)) == Some(vaults[i])
  {
    if i > 0 {
      assert ToLower(vaults[0].address) != ToLower(vaults[i].address);
      FindYoAt(vaults[1..], i - 1);
    }
  }

  lemma {:induction false} LastYoAt(vaults: seq<YoVault>, i: nat)
    requires i < |vaults|
    requires forall j, k :: 0 <= j < k < |vaults| ==> ToLower(vaults[j].address) != ToLower(vaults[k].address)
    ensures LastYo(vaults, ToLower(vaults[i].address)) == Some(vaults[i])
  {
    if i < |vaults| - 1 {
      assert ToLower(vaults[i].address) != ToLower(vaults[|vaults| - 1].address);
      LastYoAt(vaults[..|vaults| - 1], i);
    }
  }

  /** The list says of a vault what a position in it is later judged by. */
  lemma ListedConsistent(m: Market, held: set<Slot>, v: Vault)
    requires Coherent(m, held) && v in Listed(m)
    ensures ApyAt(m, VaultSlot(v)) == Some(v.apy) && SymbolAt(m, VaultSlot(v)) == v.symbol
  {
    var all, n := Listed(m), |m.morpho|;
    var i :| 0 <= i < |all| && all[i] == v;
    forall j, k | 0 <= j < k < |m.morpho| ensures ToLower(m.morpho[j].address) != ToLower(m.morpho[k].address) {
      assert all[j].address == m.morpho[j].address && all[k].address == m.morpho[k].address;
    }
    forall j, k | 0 <= j < k < |m.yo| ensures ToLower(m.yo[j].address) != ToLower(m.yo[k].address) {
      assert all[n + j].address == m.yo[j].address && all[n + k].address == m.yo[k].address;
    }
    if i < n {
      FindMorphoAt(m.morpho, i);
    } else {
      FindYoAt(m.yo, i - n);
      LastYoAt(m.yo, i - n);
    }
  }

  /** Money moved to a best vault has nowhere better to go. */
  lemma TargetStays(m: Market, held: set<Slot>, from: Slot, to: Vault, threshold: real)
    requires Coherent(m, held) && from in held && BestMove(m, from, to, threshold) && threshold > 0.0
    ensures !CanImprove(m, VaultSlot(to), TARGETED_APY_IMPROVEMENT)
  {
    ListedConsistent(m, held, to);
    forall v | v in Listed(m) && Acceptable(m, VaultSlot(to), v) ensures v.apy <= to.apy {
      if ToLower(v.address) == from.address {
        ListedConsistent(m, held, v);
        assert VaultSlot(v) == from;
      } else {
        assert Acceptable(m, from, v);
      }
    }
  }

  ghost function Held(m: Market, h: Holdings): set<Slot> {
    set p | p in Positions(m, h) :: PositionSlot(p)
  }

  /** Where money could still be told to move from. */
  ghost function Movable(m: Market, held: set<Slot>): set<Slot> {
    set s | s in held && CanImprove(m, s, TARGETED_APY_IMPROVEMENT)
  }

  /** The advice was followed: the money has left its vault for the target. Amounts, values and
      the order of the lists may have changed in any way. */
  ghost predicate Followed(m: Market, before: Holdings, targeted: Option<seq<string>>, after: Holdings) {
    var d := Evaluate(m, before, targeted);
    && d.shouldRebalance && d.current.Some? && d.target.Some?
    && Held(m, after) == Held(m, before) - {PositionSlot(d.current.value.position)} + {VaultSlot(d.target.value)}
  }

  ghost function MovesLeft(m: Market, h: Holdings): nat {
    |Movable(m, Held(m, h))|
  }

  lemma MoveShrinks(m: Market, before: Holdings, targeted: Option<seq<string>>, after: Holdings)
    requires Coherent(m, Held(m, before)) && Followed(m, before, targeted, after)
    ensures Coherent(m, Held(m, after))
    ensures MovesLeft(m, after) < MovesLeft(m, before)
  {
    DecisionSource(m, before, targeted);
    DecisionSound(m, before, targeted);
    var d := Evaluate(m, before, targeted);
    var from, to := PositionSlot(d.current.value.position), d.target.value;
    TargetStays(m, Held(m, before), from, to, Threshold(targeted, from));
    assert Movable(m, Held(m, after)) <= Movable(m, Held(m, before)) - {from};
    SubsetCard(Movable(m, Held(m, after)), Movable(m, Held(m, before)) - {from});
    forall s, v | s in Held(m, after) && v in Listed(m) && ToLower(v.address) == s.address
      ensures v.protocol == s.protocol
    {
      if s == VaultSlot(to) {
        SameAddressSameVault(m, Held(m, before), v, to);
      }
    }
  }

  lemma SameAddressSameVault(m: Market, held: set<Slot>, a: Vault, b: Vault)
    requires Coherent(m, held) && a in Listed(m) && b in Listed(m) && ToLower(a.address) == ToLower(b.address)
    ensures a == b
  {
    var i :| 0 <= i < |Listed(m)| && Listed(m)[i] == a;
    var j :| 0 <= j < |Listed(m)| && Listed(m)[j] == b;
    assert !(i < j) && !(j < i);
  }

  /** A run: the advice is followed at every step. `targeted` is the list each step was given. */
  ghost predicate Journey(m: Market, states: seq<Holdings>, targeted: seq<Option<seq<string>>>) {
    && |states| == |targeted| + 1 && Coherent(m, Held(m, states[0]))
    && forall n :: 0 <= n < |targeted| ==> Followed(m, states[n], targeted[n], states[n + 1])
  }

  ghost predicate Sane(m: Market, h: Holdings) {
    Coherent(m, Held(m, h))
  }

  lemma JourneyStep(m: Market, states: seq<Holdings>, targeted: seq<Option<seq<string>>>, n: nat)
    requires Journey(m, states, targeted) && n < |targeted| && Sane(m, states[n])
    ensures Sane(m, states[n + 1]) && MovesLeft(m, states[n + 1]) < MovesLeft(m, states[n])
  {
    MoveShrinks(m, states[n], targeted[n], states[n + 1]);
  }

  lemma {:induction false} JourneySane(m: Market, states: seq<Holdings>, targeted: seq<Option<seq<string>>>, n: nat)
    requires Journey(m, states, targeted) && n <= |targeted|
    ensures Sane(m, states[n])
  {
    if n > 0 {
      JourneySane(m, states, targeted, n - 1);
      JourneyStep(m, states, targeted, n - 1);
    }
  }

  lemma {:induction false} Falling(left: seq<nat>, n: nat)
    requires n < |left| && forall i :: 0 <= i < |left| - 1 ==> left[i + 1] < left[i]
    ensures left[n] + n <= left[0]
  {
    if n > 0 {
      Falling(left, n - 1);
    }
  }

  ghost function AllMovesLeft(m: Market, states: seq<Holdings>): (left: seq<nat>)
    ensures |left| == |states| && forall i :: 0 <= i < |states| ==> left[i] == MovesLeft(m, states[i])
  {
    seq(|states|, i requires 0 <= i < |states| => MovesLeft(m, states[i]))
  }

  lemma JourneyFalls(m: Market, states: seq<Holdings>, targeted: seq<Option<seq<string>>>, i: nat)
    requires Journey(m, states, targeted) && i < |targeted|
    ensures AllMovesLeft(m, states)[i + 1] < AllMovesLeft(m, states)[i]
  {
    JourneySane(m, states, targeted, i);
    JourneyStep(m, states, targeted, i);
  }

  lemma MovesBounded(m: Market, states: seq<Holdings>, targeted: seq<Option<seq<string>>>)
    requires Journey(m, states, targeted)
    ensures |targeted| <= MovesLeft(m, states[0])
  {
    var left := AllMovesLeft(m, states);
    assert forall i :: 0 <= i < |targeted| ==> left[i + 1] < left[i] by {
      forall i | 0 <= i < |targeted| ensures left[i + 1] < left[i] { JourneyFalls(m, states, targeted, i); }
    }
    Falling(left, |targeted|);
  }

  lemma {:induction false} SlotsCount(ps: seq<Position>)
    ensures |set p | p in ps :: PositionSlot(p)| <= |ps|
  {
    if ps == [] {
      assert (set p | p in ps :: PositionSlot(p)) == {};
    } else {
      SlotsCount(ps[1..]);
      assert (set p | p in ps :: PositionSlot(p)) == {PositionSlot(ps[0])} + (set p | p in ps[1..] :: PositionSlot(p));
    }
  }

  /** With the market fixed, following the advice again and again comes to an end: never more moves
      than positions at the start, whichever vaults are targeted along the way. */
  lemma RebalancingStops(m: Market, states: seq<Holdings>, targeted: seq<Option<seq<string>>>)
    requires Journey(m, states, targeted)
    ensures |targeted| <= |states[0].morpho| + |states[0].yo|
  {
    MovesBounded(m, states, targeted);
    SubsetCard(Movable(m, Held(m, states[0])), Held(m, states[0]));
    SlotsCount(Positions(m, states[0]));
  }
}
