/** The per-category adapters of the aggregation engine. Each adapter is a pure
    function from what its upstream calls returned (the HTTP status and the
    outcome of decoding the JSON body) to either an error or the normalised
    record the category contributes to the output. */
module Apis {
  import opened Wrappers
  import opened Units
  import opened Decimal

  const CoinCapProvider := "CoinCap.IO"
  const MempoolSpaceProvider := "Mempool.Space"
  const BitNodesProvider := "BitNodes.IO"
  const StatusPhrase := " API request returned status: "

  /** One upstream response: the HTTP status and, when the body was decoded,
      what `json.Unmarshal` made of it (the decoded record, or its error text). */
  datatype Reply<T> = Reply(status: int, body: Result<T, string>)

  /** An upstream response whose body is used as text, without decoding. */
  datatype RawReply = RawReply(status: int, body: string)

  datatype Error =
    | StatusError(provider: string, status: int)   // a status other than 200
    | DecodeError(reason: string)                  // json.Unmarshal failed
    | ParseError(reason: string)                   // strconv.ParseFloat failed
    | DerivationError(reason: string)              // a degenerate input to a derivation

  /** The text of `err.Error()` for each kind of failure. */
  function Message(e: Error): string {
    match e
    case StatusError(provider, status) => provider + StatusPhrase + IntToString(status)
    case DecodeError(reason) => reason
    case ParseError(reason) => reason
    case DerivationError(reason) => reason
  }

  /** A status error names its provider and ends with the decimal status,
      which can be read back from the message. */
  lemma StatusMessageEndsWithStatus(provider: string, status: int)
    ensures var m := Message(StatusError(provider, status));
            var head := provider + StatusPhrase;
            |head| <= |m| && m[..|head|] == head && ParseInt(m[|head|..]) == Some(status)
  {
    var m := Message(StatusError(provider, status));
    var head := provider + StatusPhrase;
    assert m[|head|..] == IntToString(status);
    IntToStringRoundTrip(status);
  }

  /** The gate every adapter starts with: a status other than 200 is a
      failure naming the provider, then a decoding failure is passed on. */
  function Accept<T>(provider: string, reply: Reply<T>): (r: Result<T, Error>)
    ensures r.Success? <==> reply.status == 200 && reply.body.Success?
    ensures r.Success? ==> r.value == reply.body.value
    ensures reply.status != 200 ==> r == Failure(StatusError(provider, reply.status))
    ensures reply.status == 200 && reply.body.Failure? ==> r == Failure(DecodeError(reply.body.error))
  {
    if reply.status != 200 then Failure(StatusError(provider, reply.status))
    else match reply.body
      case Failure(e) => Failure(DecodeError(e))
      case Success(v) => Success(v)
  }

  // ---------------------------------------------------------------- market

  datatype CoincapAsset = CoincapAsset(
    supply: string, maxSupply: string, marketCapUsd: string, priceUsd: string, changePercent24Hr: string)

  datatype CoincapResponse = CoincapResponse(data: CoincapAsset, timestamp: int)

  datatype MarketData = MarketData(
    supply: real, supplyPercent: real, price: real, priceChangePercent24h: real,
    moscowTime: int, marketCap: real)

  /** `strconv.ParseFloat(s, 64)`: the number a string denotes, or the
      library's error text. */
  type FloatParser = string -> Result<real, string>

  /** The numeric strings of the CoinCap asset in the order they are parsed. */
  function MarketTexts(a: CoincapAsset): (t: seq<string>)
    ensures |t| == 5
  {
    [a.supply, a.maxSupply, a.priceUsd, a.changePercent24Hr, a.marketCapUsd]
  }

  /** Parses the strings in order and stops at the first failure. */
  function ParseAll(parse: FloatParser, texts: seq<string>): (r: Result<seq<real>, string>)
    ensures r.Success? <==> forall i | 0 <= i < |texts| :: parse(texts[i]).Success?
    ensures r.Success? ==> |r.value| == |texts|
    ensures r.Success? ==> forall i | 0 <= i < |texts| :: r.value[i] == parse(texts[i]).value
    ensures r.Failure? ==> exists i | 0 <= i < |texts| ::
              && parse(texts[i]) == Failure(r.error)
              && forall j | 0 <= j < i :: parse(texts[j]).Success?
  {
    if texts == [] then Success([])
    else
      match parse(texts[0])
      case Failure(e) => Failure(e)
      case Success(v) =>
        match ParseAll(parse, texts[1..])
        case Failure(e) =>
          assert forall j | 1 <= j < |texts| :: texts[j] == texts[1..][j - 1];
          Failure(e)
        case Success(vs) =>
          assert forall j | 1 <= j < |texts| :: texts[j] == texts[1..][j - 1];
          Success([v] + vs)
  }

  const ZeroMaxSupply := "CoinCap.IO reported a maximum supply of zero"
  const ZeroPrice := "CoinCap.IO reported a price of zero"

  /** GetMarketData: five numeric strings parsed in order, then the supply
      share of the maximum supply, rounded prices, and the "Moscow time"
      (satoshis per US dollar, truncated). */
  function GetMarketData(reply: Reply<CoincapResponse>, parse: FloatParser): (r: Result<MarketData, Error>)
    ensures reply.status != 200 ==> r == Failure(StatusError(CoinCapProvider, reply.status))
    ensures reply.status == 200 && reply.body.Failure? ==> r == Failure(DecodeError(reply.body.error))
    ensures reply.status == 200 && reply.body.Success? ==>
              var texts := MarketTexts(reply.body.value.data);
              && ((exists i | 0 <= i < 5 :: parse(texts[i]).Failure?) <==> r.Failure? && r.error.ParseError?)
              && (r.Failure? && r.error.ParseError? ==>
                    exists i | 0 <= i < 5 :: parse(texts[i]) == Failure(r.error.reason)
                                           && forall j | 0 <= j < i :: parse(texts[j]).Success?)
    ensures reply.status == 200 && reply.body.Success? ==>
              var texts := MarketTexts(reply.body.value.data);
              (forall i | 0 <= i < 5 :: parse(texts[i]).Success?) ==>
                && (parse(texts[1]).value == 0.0 ==> r == Failure(DerivationError(ZeroMaxSupply)))
                && (parse(texts[1]).value != 0.0 && parse(texts[2]).value == 0.0 ==>
                      r == Failure(DerivationError(ZeroPrice)))
    ensures r.Success? ==>
              && reply.status == 200 && reply.body.Success?
              && var texts := MarketTexts(reply.body.value.data);
              && (forall i | 0 <= i < 5 :: parse(texts[i]).Success?)
              && var sup := parse(texts[0]).value;
              && var maxSup := parse(texts[1]).value;
              && var price := parse(texts[2]).value;
              && maxSup != 0.0 && price != 0.0
              && r.value.supply == sup
              && r.value.supplyPercent == RoundDec(sup / maxSup * 100.0, 2)
              && r.value.price == RoundDec(price, 2)
              && r.value.priceChangePercent24h == RoundDec(parse(texts[3]).value, 2)
              && r.value.marketCap == RoundDec(parse(texts[4]).value, 2)
              && var q := SatsPerBtc as real / price;
              && Abs(r.value.moscowTime as real) <= Abs(q) < Abs(r.value.moscowTime as real) + 1.0
              && (q >= 0.0 ==> r.value.moscowTime >= 0)
              && (q <= 0.0 ==> r.value.moscowTime <= 0)
  {
    var response :- Accept(CoinCapProvider, reply);
    match ParseAll(parse, MarketTexts(response.data))
    case Failure(e) => Failure(ParseError(e))
    case Success(vs) =>
      var sup, maxSup, price, change, cap := vs[0], vs[1], vs[2], vs[3], vs[4];
      if maxSup == 0.0 then Failure(DerivationError(ZeroMaxSupply))
      else if price == 0.0 then Failure(DerivationError(ZeroPrice))
      else
        Success(MarketData(
          sup,
          RoundDec(sup / maxSup * 100.0, 2),
          RoundDec(price, 2),
          RoundDec(change, 2),
          Truncate(SatsPerBtc as real / price),
          RoundDec(cap, 2)))
  }

  /** The rounded market figures lie within half a cent (or half a
      hundredth of a percent) of the exact values. */
  lemma MarketDataApproximate(response: CoincapResponse, parse: FloatParser)
    requires var a := response.data;
             && parse(a.supply).Success? && parse(a.maxSupply).Success? && parse(a.priceUsd).Success?
             && parse(a.changePercent24Hr).Success? && parse(a.marketCapUsd).Success?
             && parse(a.maxSupply).value != 0.0 && parse(a.priceUsd).value != 0.0
    ensures var r := GetMarketData(Reply(200, Success(response)), parse);
            var a := response.data;
            && r.Success?
            && Abs(r.value.supplyPercent - parse(a.supply).value / parse(a.maxSupply).value * 100.0) <= 0.005
            && Abs(r.value.price - parse(a.priceUsd).value) <= 0.005
            && Abs(r.value.priceChangePercent24h - parse(a.changePercent24Hr).value) <= 0.005
            && Abs(r.value.marketCap - parse(a.marketCapUsd).value) <= 0.005
  {
    var texts := MarketTexts(response.data);
    assert forall i | 0 <= i < 5 :: parse(texts[i]).Success?;
    assert HalfUnit(2) == 0.005 by {
      assert Pow10(2) == 100.0;
    }
  }

  // ---------------------------------------------------------------- mining

  /** The RFC 1123 rendering of a Unix time in seconds, left uninterpreted. */
  datatype Rfc1123Time = Rfc1123Time(unixSeconds: int)

  /** `time.UnixMilli(ms).Format(time.RFC1123)`: the rendering shows whole
      seconds, so the milliseconds are floored to the second. */
  function FromUnixMilli(ms: int): (t: Rfc1123Time)
    ensures t.unixSeconds * 1000 <= ms < (t.unixSeconds + 1) * 1000
  {
    Rfc1123Time(ms / 1000)
  }

  datatype DiffAdjResponse = DiffAdjResponse(
    difficultyChange: real, estimatedRetargetDate: int, remainingBlocks: int)

  datatype DiffAdjData = DiffAdjData(
    difficultyChangePercent: real, remainingBlocks: int, estimatedRetargetDate: Rfc1123Time)

  function GetDifficultyAdjustmentData(reply: Reply<DiffAdjResponse>): (r: Result<DiffAdjData, Error>)
    ensures r.Success? <==> reply.status == 200 && reply.body.Success?
    ensures r.Failure? ==> r.error == Accept(MempoolSpaceProvider, reply).error
    ensures r.Success? ==>
              var d := reply.body.value;
              && r.value.difficultyChangePercent == RoundDec(d.difficultyChange, 2)
              && r.value.remainingBlocks == d.remainingBlocks
              && r.value.estimatedRetargetDate.unixSeconds * 1000 <= d.estimatedRetargetDate
              && d.estimatedRetargetDate < (r.value.estimatedRetargetDate.unixSeconds + 1) * 1000
  {
    var d :- Accept(MempoolSpaceProvider, reply);
    Success(DiffAdjData(RoundDec(d.difficultyChange, 2), d.remainingBlocks, FromUnixMilli(d.estimatedRetargetDate)))
  }

  datatype HRResponse = HRResponse(currentHashrate: real, currentDifficulty: real)

  datatype HRAndDiff = HRAndDiff(hashrate: real, difficulty: real)

  function GetHashrateAndDifficulty(reply: Reply<HRResponse>): (r: Result<HRAndDiff, Error>)
    ensures r.Success? <==> reply.status == 200 && reply.body.Success?
    ensures r.Failure? ==> r.error == Accept(MempoolSpaceProvider, reply).error
    ensures r.Success? ==>
              && r.value.hashrate == reply.body.value.currentHashrate
              && r.value.difficulty == reply.body.value.currentDifficulty
  {
    var d :- Accept(MempoolSpaceProvider, reply);
    Success(HRAndDiff(d.currentHashrate, d.currentDifficulty))
  }

  datatype MiningData = MiningData(
    hashrate: real, difficulty: real, retargetDifficultyChange: real,
    retargetRemainingBlocks: int, retargetEstimatedDate: Rfc1123Time)

  /** GetMiningData: the difficulty adjustment first, then the hashrate; the
      first failure is the adapter's failure, and the hashrate reply plays no
      part when the difficulty adjustment failed. */
  function GetMiningData(adjustment: Reply<DiffAdjResponse>, hashrate: Reply<HRResponse>): (r: Result<MiningData, Error>)
    ensures GetDifficultyAdjustmentData(adjustment).Failure? ==>
              r == Failure(GetDifficultyAdjustmentData(adjustment).error)
    ensures GetDifficultyAdjustmentData(adjustment).Success? && GetHashrateAndDifficulty(hashrate).Failure? ==>
              r == Failure(GetHashrateAndDifficulty(hashrate).error)
    ensures r.Success? <==>
              GetDifficultyAdjustmentData(adjustment).Success? && GetHashrateAndDifficulty(hashrate).Success?
    ensures r.Success? ==>
              var da := GetDifficultyAdjustmentData(adjustment).value;
              var hd := GetHashrateAndDifficulty(hashrate).value;
              && r.value.hashrate == hd.hashrate
              && r.value.difficulty == hd.difficulty
              && r.value.retargetDifficultyChange == da.difficultyChangePercent
              && r.value.retargetRemainingBlocks == da.remainingBlocks
              && r.value.retargetEstimatedDate == da.estimatedRetargetDate
  {
    var da :- GetDifficultyAdjustmentData(adjustment);
    var hd :- GetHashrateAndDifficulty(hashrate);
    Success(MiningData(hd.hashrate, hd.difficulty, da.difficultyChangePercent, da.remainingBlocks, da.estimatedRetargetDate))
  }

  // ---------------------------------------------------------------- mempool

  /** The largest virtual size of a block: a weight of 4 000 000 over 4. */
  const MaxBlockVSize: nat := 1000000

  datatype MempoolResponse = MempoolResponse(count: int, vsize: int, totalFee: int)

  datatype MempoolStats = MempoolStats(unconfirmedTXs: int, vSize: real, pendingFees: real, blocksToClear: int)

  /** The number of full blocks the backlog fills, plus the partial one. */
  function BlocksToClear(vsize: int): (b: int)
    ensures vsize >= 0 ==> b >= 1 && (b - 1) * MaxBlockVSize <= vsize < b * MaxBlockVSize
    ensures vsize < 0 ==> b <= 1
  {
    GoQuotient(vsize, MaxBlockVSize) + 1
  }

  /** A larger backlog never needs fewer blocks. */
  lemma BlocksToClearMonotone(v1: int, v2: int)
    requires v1 <= v2
    ensures BlocksToClear(v1) <= BlocksToClear(v2)
  {
    if v1 < 0 && v2 < 0 {
      assert (-v2) / MaxBlockVSize <= (-v1) / MaxBlockVSize;
    }
  }

  function GetMempoolStats(reply: Reply<MempoolResponse>): (r: Result<MempoolStats, Error>)
    ensures r.Success? <==> reply.status == 200 && reply.body.Success?
    ensures r.Failure? ==> r.error == Accept(MempoolSpaceProvider, reply).error
    ensures r.Success? ==>
              var d := reply.body.value;
              && r.value.unconfirmedTXs == d.count
              && r.value.vSize == RoundDec(BytesToMegabytes(d.vsize), 2)
              && r.value.pendingFees == RoundDec(SatsToBtc(d.totalFee), 3)
              && r.value.blocksToClear == BlocksToClear(d.vsize)
  {
    var d :- Accept(MempoolSpaceProvider, reply);
    Success(MempoolStats(
      d.count,
      RoundDec(BytesToMegabytes(d.vsize), 2),
      RoundDec(SatsToBtc(d.totalFee), 3),
      BlocksToClear(d.vsize)))
  }

  /** Converted back, the rounded backlog size is within 5 000 vbytes of the
      reported one and the rounded fees within 50 000 satoshis. */
  lemma MempoolStatsApproximate(d: MempoolResponse)
    ensures var r := GetMempoolStats(Reply(200, Success(d)));
            && r.Success?
            && Abs(r.value.vSize * (BytesPerMegabyte as real) - d.vsize as real) <= 5000.0
            && Abs(r.value.pendingFees * (SatsPerBtc as real) - d.totalFee as real) <= 50000.0
  {
    BytesRoundTripTolerance(d.vsize);
    SatsRoundTripTolerance(d.totalFee);
  }

  // ---------------------------------------------------------------- nodes

  /** An element of a peer's detail list, which is untyped JSON. */
  datatype JsonValue = JString(s: string) | JNumber(n: real) | JBool(b: bool) | JNull | JComposite

  /** Position of the network type in a peer's detail list, and the value
      marking a Tor peer. */
  const NetworkField := 11
  const TorMarker := "TOR"

  datatype BitnodesResponse = BitnodesResponse(
    timestamp: int, totalNodes: int, latestHeight: int, nodes: map<string, seq<JsonValue>>)

  datatype NodeStats = NodeStats(totalNodes: int, torNodes: int, torNodesPercent: real)

  predicate HasNetworkField(nodes: map<string, seq<JsonValue>>) {
    forall k | k in nodes :: |nodes[k]| > NetworkField
  }

  predicate IsTorPeer(details: seq<JsonValue>)
    requires |details| > NetworkField
  {
    details[NetworkField] == JString(TorMarker)
  }

  /** The peers reporting Tor as their network. */
  function TorPeers(nodes: map<string, seq<JsonValue>>): (peers: set<string>)
    requires HasNetworkField(nodes)
    ensures peers <= nodes.Keys
    ensures forall k | k in nodes :: k in peers <==> IsTorPeer(nodes[k])
  {
    set k | k in nodes && IsTorPeer(nodes[k])
  }

  lemma SubsetCardinality<T>(a: set<T>, b: set<T>)
    requires a <= b
    ensures |a| <= |b|
  {
    if a != {} {
      var x :| x in a;
      SubsetCardinality(a - {x}, b - {x});
    }
  }

  /** The counting loop of the adapter, visiting the peers in any order. */
  method CountTorPeers(nodes: map<string, seq<JsonValue>>) returns (count: nat)
    requires HasNetworkField(nodes)
    ensures count == |TorPeers(nodes)|
    ensures count <= |nodes|
  {
    count := 0;
    var remaining := nodes.Keys;
    while remaining != {}
      invariant remaining <= nodes.Keys
      invariant count == |TorPeers(nodes) - remaining|
      decreases remaining
    {
      var k :| k in remaining;
      if IsTorPeer(nodes[k]) {
        assert TorPeers(nodes) - (remaining - {k}) == (TorPeers(nodes) - remaining) + {k};
        count := count + 1;
      } else {
        assert TorPeers(nodes) - (remaining - {k}) == TorPeers(nodes) - remaining;
      }
      remaining := remaining - {k};
    }
    assert TorPeers(nodes) - {} == TorPeers(nodes);
    SubsetCardinality(TorPeers(nodes), nodes.Keys);
  }

  const ShortPeerDetails := "BitNodes.IO reported a peer with fewer than 12 details"
  const ZeroTotalNodes := "BitNodes.IO reported a total of zero nodes"

  /** GetBitcoinNodeStats: the reported total, the number of Tor peers and
      their share of the total in percent. */
  function GetBitcoinNodeStats(reply: Reply<BitnodesResponse>): (r: Result<NodeStats, Error>)
    ensures reply.status != 200 || reply.body.Failure? ==>
              r == Failure(Accept(BitNodesProvider, reply).error)
    ensures reply.status == 200 && reply.body.Success? ==>
              var d := reply.body.value;
              && (!HasNetworkField(d.nodes) ==> r == Failure(DerivationError(ShortPeerDetails)))
              && (HasNetworkField(d.nodes) && d.totalNodes == 0 ==> r == Failure(DerivationError(ZeroTotalNodes)))
              && (HasNetworkField(d.nodes) && d.totalNodes != 0 ==> r.Success?)
    ensures r.Success? ==>
              var d := reply.body.value;
              && reply.status == 200 && reply.body.Success? && HasNetworkField(d.nodes) && d.totalNodes != 0
              && r.value.totalNodes == d.totalNodes
              && r.value.torNodes == |TorPeers(d.nodes)|
              && 0 <= r.value.torNodes <= |d.nodes|
              && r.value.torNodesPercent == RoundDec(r.value.torNodes as real / d.totalNodes as real * 100.0, 2)
  {
    var d :- Accept(BitNodesProvider, reply);
    if !HasNetworkField(d.nodes) then Failure(DerivationError(ShortPeerDetails))
    else if d.totalNodes == 0 then Failure(DerivationError(ZeroTotalNodes))
    else
      var tor := |TorPeers(d.nodes)|;
      SubsetCardinality(TorPeers(d.nodes), d.nodes.Keys);
      Success(NodeStats(d.totalNodes, tor, RoundDec(tor as real / d.totalNodes as real * 100.0, 2)))
  }

  /** The reported Tor share is within half a hundredth of a percent of the
      exact share, and is never negative when the total is positive. */
  lemma TorShareApproximate(reply: Reply<BitnodesResponse>)
    requires GetBitcoinNodeStats(reply).Success?
    ensures var n := GetBitcoinNodeStats(reply).value;
            && Abs(n.torNodesPercent - n.torNodes as real / n.totalNodes as real * 100.0) <= 0.005
            && (n.totalNodes > 0 ==> n.torNodesPercent >= 0.0)
  {
    var n := GetBitcoinNodeStats(reply).value;
    assert HalfUnit(2) == 0.005 by {
      assert Pow10(2) == 100.0;
    }
    if n.totalNodes > 0 {
      assert n.torNodes as real / n.totalNodes as real * 100.0 >= 0.0;
    }
  }

  // ---------------------------------------------------------------- fees

  datatype FeeResponse = FeeResponse(fastestFee: int, halfHourFee: int, hourFee: int, economyFee: int, minimumFee: int)

  datatype Fees = Fees(fastest: int, halfHour: int, hour: int, economy: int, minimum: int)

  /** GetFeeRecommendation: the five fee-rate tiers, passed through. */
  function GetFeeRecommendation(reply: Reply<FeeResponse>): (r: Result<Fees, Error>)
    ensures r.Success? <==> reply.status == 200 && reply.body.Success?
    ensures r.Failure? ==> r.error == Accept(MempoolSpaceProvider, reply).error
    ensures r.Success? ==>
              var d := reply.body.value;
              r.value == Fees(d.fastestFee, d.halfHourFee, d.hourFee, d.economyFee, d.minimumFee)
  {
    var d :- Accept(MempoolSpaceProvider, reply);
    Success(Fees(d.fastestFee, d.halfHourFee, d.hourFee, d.economyFee, d.minimumFee))
  }

  // ---------------------------------------------------------------- lightning

  datatype LNLatest = LNLatest(
    channelCount: int, nodeCount: int, totalCapacity: int, torNodes: int, clearnetNodes: int,
    unannouncedNodes: int, averageCapacity: int, medianCapacity: int, clearnetTorNodes: int)

  datatype LNResponse = LNResponse(latest: LNLatest)

  datatype LNStats = LNStats(
    totalNodes: int, torNodes: int, clearnetNodes: int, clearnetTorNodes: int, unannouncedNodes: int,
    channels: int, totalCapacity: real, averageChannelCapacity: real, medianChannelCapacity: real)

  /** GetLightningStats: node and channel counts passed through, capacities
      converted from satoshis to bitcoin with 3 decimals. */
  function GetLightningStats(reply: Reply<LNResponse>): (r: Result<LNStats, Error>)
    ensures r.Success? <==> reply.status == 200 && reply.body.Success?
    ensures r.Failure? ==> r.error == Accept(MempoolSpaceProvider, reply).error
    ensures r.Success? ==>
              var l := reply.body.value.latest;
              && r.value.totalNodes == l.nodeCount
              && r.value.torNodes == l.torNodes
              && r.value.clearnetNodes == l.clearnetNodes
              && r.value.clearnetTorNodes == l.clearnetTorNodes
              && r.value.unannouncedNodes == l.unannouncedNodes
              && r.value.channels == l.channelCount
              && r.value.totalCapacity == RoundDec(SatsToBtc(l.totalCapacity), 3)
              && r.value.averageChannelCapacity == RoundDec(SatsToBtc(l.averageCapacity), 3)
              && r.value.medianChannelCapacity == RoundDec(SatsToBtc(l.medianCapacity), 3)
  {
    var d :- Accept(MempoolSpaceProvider, reply);
    var l := d.latest;
    Success(LNStats(
      l.nodeCount, l.torNodes, l.clearnetNodes, l.clearnetTorNodes, l.unannouncedNodes, l.channelCount,
      RoundDec(SatsToBtc(l.totalCapacity), 3),
      RoundDec(SatsToBtc(l.averageCapacity), 3),
      RoundDec(SatsToBtc(l.medianCapacity), 3)))
  }

  /** Each rounded capacity, converted back, is within 50 000 satoshis of
      the reported one. */
  lemma LightningCapacitiesApproximate(l: LNLatest)
    ensures var r := GetLightningStats(Reply(200, Success(LNResponse(l))));
            && r.Success?
            && Abs(r.value.totalCapacity * (SatsPerBtc as real) - l.totalCapacity as real) <= 50000.0
            && Abs(r.value.averageChannelCapacity * (SatsPerBtc as real) - l.averageCapacity as real) <= 50000.0
            && Abs(r.value.medianChannelCapacity * (SatsPerBtc as real) - l.medianCapacity as real) <= 50000.0
  {
    SatsRoundTripTolerance(l.totalCapacity);
    SatsRoundTripTolerance(l.averageCapacity);
    SatsRoundTripTolerance(l.medianCapacity);
  }

  // ---------------------------------------------------------------- latest block

  datatype BlockPool = BlockPool(name: string)

  datatype BlockExtras = BlockExtras(reward: int, totalFees: int, medianFee: real, pool: BlockPool)

  datatype BlockResponse = BlockResponse(height: int, timestamp: int, txCount: int, size: int, extras: BlockExtras)

  datatype BlockInfo = BlockInfo(
    height: int, timestamp: Rfc1123Time, txs: int, size: real, reward: real,
    totalFees: real, feeRate: real, miner: string)

  /** getTipHeight: the body of a successful reply, taken as text unchecked. */
  function GetTipHeight(reply: RawReply): (r: Result<string, Error>)
    ensures r.Success? <==> reply.status == 200
    ensures r.Success? ==> r.value == reply.body
    ensures r.Failure? ==> r.error == StatusError(MempoolSpaceProvider, reply.status)
  {
    if reply.status != 200 then Failure(StatusError(MempoolSpaceProvider, reply.status))
    else Success(reply.body)
  }

  /** The endpoint listing the blocks from the given height down. */
  function BlocksEndpoint(height: string): string {
    "/v1/blocks/" + height
  }

  const NoBlocks := "Mempool.Space returned no blocks"

  /** GetLatestBlockInfo: the tip height first; then the blocks at that
      height, of which the first is normalised. `blocks` answers a request
      for an endpoint path. */
  function GetLatestBlockInfo(tip: RawReply, blocks: string -> Reply<seq<BlockResponse>>): (r: Result<BlockInfo, Error>)
    ensures tip.status != 200 ==> r == Failure(StatusError(MempoolSpaceProvider, tip.status))
    ensures tip.status == 200 ==>
              var reply := blocks(BlocksEndpoint(tip.body));
              && (reply.status != 200 || reply.body.Failure? ==> r == Failure(Accept(MempoolSpaceProvider, reply).error))
              && (reply.status == 200 && reply.body.Success? && reply.body.value == [] ==>
                    r == Failure(DerivationError(NoBlocks)))
              && (reply.status == 200 && reply.body.Success? && reply.body.value != [] ==> r.Success?)
    ensures r.Success? ==>
              && tip.status == 200
              && var reply := blocks(BlocksEndpoint(tip.body));
              && reply.status == 200 && reply.body.Success? && reply.body.value != []
              && var b := reply.body.value[0];
              && r.value.height == b.height
              && r.value.timestamp == Rfc1123Time(b.timestamp)
              && r.value.txs == b.txCount
              && r.value.size == RoundDec(BytesToMegabytes(b.size), 2)
              && r.value.reward == RoundDec(SatsToBtc(b.extras.reward), 3)
              && r.value.totalFees == RoundDec(SatsToBtc(b.extras.totalFees), 3)
              && r.value.feeRate == RoundDec(b.extras.medianFee, 1)
              && r.value.miner == b.extras.pool.name
  {
    var height :- GetTipHeight(tip);
    var list :- Accept(MempoolSpaceProvider, blocks(BlocksEndpoint(height)));
    if list == [] then Failure(DerivationError(NoBlocks))
    else
      var b := list[0];
      Success(BlockInfo(
        b.height,
        Rfc1123Time(b.timestamp),
        b.txCount,
        RoundDec(BytesToMegabytes(b.size), 2),
        RoundDec(SatsToBtc(b.extras.reward), 3),
        RoundDec(SatsToBtc(b.extras.totalFees), 3),
        RoundDec(b.extras.medianFee, 1),
        b.extras.pool.name))
  }

  /** The rounded block figures, converted back, are within 5 000 bytes,
      50 000 satoshis and 0.05 sat/vB of the reported ones. */
  lemma LatestBlockApproximate(tip: RawReply, blocks: string -> Reply<seq<BlockResponse>>)
    requires tip.status == 200
    requires blocks(BlocksEndpoint(tip.body)).status == 200
    requires blocks(BlocksEndpoint(tip.body)).body.Success?
    requires blocks(BlocksEndpoint(tip.body)).body.value != []
    ensures var r := GetLatestBlockInfo(tip, blocks);
            var b := blocks(BlocksEndpoint(tip.body)).body.value[0];
            && r.Success?
            && Abs(r.value.size * (BytesPerMegabyte as real) - b.size as real) <= 5000.0
            && Abs(r.value.reward * (SatsPerBtc as real) - b.extras.reward as real) <= 50000.0
            && Abs(r.value.totalFees * (SatsPerBtc as real) - b.extras.totalFees as real) <= 50000.0
            && Abs(r.value.feeRate - b.extras.medianFee) <= 0.05
  {
    var i := GetLatestBlockInfo(tip, blocks).value;
    var b := blocks(BlocksEndpoint(tip.body)).body.value[0];
    BlockFiguresApproximate(i, b);
  }

  lemma BlockFiguresApproximate(i: BlockInfo, b: BlockResponse)
    requires i.size == RoundDec(BytesToMegabytes(b.size), 2)
    requires i.reward == RoundDec(SatsToBtc(b.extras.reward), 3)
    requires i.totalFees == RoundDec(SatsToBtc(b.extras.totalFees), 3)
    requires i.feeRate == RoundDec(b.extras.medianFee, 1)
    ensures Abs(i.size * (BytesPerMegabyte as real) - b.size as real) <= 5000.0
    ensures Abs(i.reward * (SatsPerBtc as real) - b.extras.reward as real) <= 50000.0
    ensures Abs(i.totalFees * (SatsPerBtc as real) - b.extras.totalFees as real) <= 50000.0
    ensures Abs(i.feeRate - b.extras.medianFee) <= 0.05
  {
    assert Abs(i.size * (BytesPerMegabyte as real) - b.size as real) <= 5000.0 by {
      BytesRoundTripTolerance(b.size);
    }
    assert Abs(i.reward * (SatsPerBtc as real) - b.extras.reward as real) <= 50000.0 by {
      SatsRoundTripTolerance(b.extras.reward);
    }
    assert Abs(i.totalFees * (SatsPerBtc as real) - b.extras.totalFees as real) <= 50000.0 by {
      SatsRoundTripTolerance(b.extras.totalFees);
    }
    assert HalfUnit(1) == 0.05 by {
      assert Pow10(1) == 10.0;
    }
  }
}
