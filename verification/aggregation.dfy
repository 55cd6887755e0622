/** The aggregation driver `run`: resolve the query, call the adapter of
    every selected category in turn, and either return all their records
    keyed by keyword or stop at the first failure. */
module Aggregation {
  import opened Wrappers
  import opened Text
  import opened Apis
  import opened Keywords

  /** The record an adapter contributes, one alternative per category. */
  datatype Record =
    | MarketRecord(market: MarketData)
    | LatestBlockRecord(block: BlockInfo)
    | MiningRecord(mining: MiningData)
    | FeesRecord(fees: Fees)
    | MempoolRecord(mempool: MempoolStats)
    | LightningRecord(lightning: LNStats)
    | NodesRecord(nodes: NodeStats)

  /** Everything the adapters receive from outside: each upstream reply, the
      block listing for any endpoint path, and the float parser. */
  datatype Environment = Environment(
    coincap: Reply<CoincapResponse>,
    parseFloat: FloatParser,
    difficultyAdjustment: Reply<DiffAdjResponse>,
    hashrate: Reply<HRResponse>,
    mempool: Reply<MempoolResponse>,
    fees: Reply<FeeResponse>,
    lightning: Reply<LNResponse>,
    bitnodes: Reply<BitnodesResponse>,
    tipHeight: RawReply,
    blocks: string -> Reply<seq<BlockResponse>>)

  /** How `run` ends: the collected records, or the error it reports. */
  datatype Outcome = Completed(output: map<string, Record>) | Aborted(message: string)

  /** The value `run` returns to the host. */
  function ExitCode(o: Outcome): int {
    if o.Completed? then 0 else 1
  }

  function Lift<T>(r: Result<T, Error>, wrap: T -> Record): (l: Result<Record, Error>)
    ensures l.Success? <==> r.Success?
    ensures l.Success? ==> l.value == wrap(r.value)
    ensures l.Failure? ==> l.error == r.error
  {
    match r
    case Success(v) => Success(wrap(v))
    case Failure(e) => Failure(e)
  }

  /** The function the keyword table maps each category to. */
  function Invoke(c: Category, env: Environment): Result<Record, Error> {
    match c
    case Market => Lift(GetMarketData(env.coincap, env.parseFloat), m => MarketRecord(m))
    case LatestBlock => Lift(GetLatestBlockInfo(env.tipHeight, env.blocks), b => LatestBlockRecord(b))
    case Mining => Lift(GetMiningData(env.difficultyAdjustment, env.hashrate), m => MiningRecord(m))
    case Fees => Lift(GetFeeRecommendation(env.fees), f => FeesRecord(f))
    case Mempool => Lift(GetMempoolStats(env.mempool), m => MempoolRecord(m))
    case Lightning => Lift(GetLightningStats(env.lightning), l => LightningRecord(l))
    case Nodes => Lift(GetBitcoinNodeStats(env.bitnodes), n => NodesRecord(n))
  }

  /** The error text `run` reports when the adapter of `c` fails with `e`. */
  function AbortMessage(c: Category, e: Error): string {
    "Failed to get " + Name(c) + " data: " + Message(e)
  }

  /** The second loop of `run`: in visiting order, every selected category's
      adapter is called; the first failure ends the loop, and each success
      is stored under the keyword. */
  function Collect(includeData: string, visit: seq<Category>, invoke: Category -> Result<Record, Error>,
                   acc: map<string, Record>): Outcome
  {
    if visit == [] then Completed(acc)
    else if Selects(includeData, visit[0]) then
      match invoke(visit[0])
      case Failure(e) => Aborted(AbortMessage(visit[0], e))
      case Success(rec) => Collect(includeData, visit[1..], invoke, acc[Name(visit[0]) := rec])
    else Collect(includeData, visit[1..], invoke, acc)
  }

  /** The keywords of the selected categories among `visit`. */
  function SelectedNames(includeData: string, visit: seq<Category>): set<string> {
    set c | c in visit && Selects(includeData, c) :: Name(c)
  }

  /** The second loop completes exactly when no selected adapter fails. */
  lemma {:induction false} CollectCompletes(includeData: string, visit: seq<Category>,
                                            invoke: Category -> Result<Record, Error>, acc: map<string, Record>)
    ensures Collect(includeData, visit, invoke, acc).Completed?
            <==> forall c | c in visit && Selects(includeData, c) :: invoke(c).Success?
    decreases |visit|
  {
    if visit != [] {
      var k, rest := visit[0], visit[1..];
      assert forall c :: c in visit <==> c == k || c in rest;
      if Selects(includeData, k) && invoke(k).Success? {
        CollectCompletes(includeData, rest, invoke, acc[Name(k) := invoke(k).value]);
      } else if !Selects(includeData, k) {
        CollectCompletes(includeData, rest, invoke, acc);
      }
    }
  }

  /** A completed second loop adds one entry per selected category, holding
      that category's record, and keeps every other entry it started with. */
  lemma {:induction false} CollectOutput(includeData: string, visit: seq<Category>,
                                         invoke: Category -> Result<Record, Error>, acc: map<string, Record>)
    requires forall c | c in visit && Selects(includeData, c) :: invoke(c).Success?
    ensures Collect(includeData, visit, invoke, acc).Completed?
    ensures var out := Collect(includeData, visit, invoke, acc).output;
            && out.Keys == acc.Keys + SelectedNames(includeData, visit)
            && (forall c | c in visit && Selects(includeData, c) :: out[Name(c)] == invoke(c).value)
            && (forall k | k in acc && k !in SelectedNames(includeData, visit) :: out[k] == acc[k])
    decreases |visit|
  {
    if visit != [] {
      var k, rest := visit[0], visit[1..];
      assert forall c :: c in visit <==> c == k || c in rest;
      var names := SelectedNames(includeData, rest);
      if Selects(includeData, k) {
        var acc' := acc[Name(k) := invoke(k).value];
        assert Collect(includeData, visit, invoke, acc) == Collect(includeData, rest, invoke, acc');
        CollectOutput(includeData, rest, invoke, acc');
        var out := Collect(includeData, rest, invoke, acc').output;
        assert SelectedNames(includeData, visit) == names + {Name(k)};
        forall c | c in visit && Selects(includeData, c)
          ensures out[Name(c)] == invoke(c).value
        {
          if c !in rest {
            assert c == k;
            if Name(k) in names {
              var d :| d in rest && Selects(includeData, d) && Name(d) == Name(k);
              NameInjective(d, k);
            }
          }
        }
      } else {
        assert Collect(includeData, visit, invoke, acc) == Collect(includeData, rest, invoke, acc);
        CollectOutput(includeData, rest, invoke, acc);
        assert SelectedNames(includeData, visit) == names;
      }
    }
  }

  /** An aborted second loop reports the first selected category, in
      visiting order, whose adapter failed. */
  lemma {:induction false} CollectFirstFailure(includeData: string, visit: seq<Category>,
                                               invoke: Category -> Result<Record, Error>, acc: map<string, Record>)
    requires Collect(includeData, visit, invoke, acc).Aborted?
    ensures exists i | 0 <= i < |visit| ::
              && Selects(includeData, visit[i]) && invoke(visit[i]).Failure?
              && Collect(includeData, visit, invoke, acc).message == AbortMessage(visit[i], invoke(visit[i]).error)
              && forall j | 0 <= j < i :: Selects(includeData, visit[j]) ==> invoke(visit[j]).Success?
    decreases |visit|
  {
    var k, rest := visit[0], visit[1..];
    if Selects(includeData, k) && invoke(k).Failure? {
      assert visit[0] == k;
    } else {
      var acc' := if Selects(includeData, k) then acc[Name(k) := invoke(k).value] else acc;
      assert Collect(includeData, visit, invoke, acc) == Collect(includeData, rest, invoke, acc');
      CollectFirstFailure(includeData, rest, invoke, acc');
      var o := Collect(includeData, rest, invoke, acc');
      var i :| 0 <= i < |rest| && Selects(includeData, rest[i]) && invoke(rest[i]).Failure?
              && o.message == AbortMessage(rest[i], invoke(rest[i]).error)
              && forall j | 0 <= j < i :: Selects(includeData, rest[j]) ==> invoke(rest[j]).Success?;
      assert visit[i + 1] == rest[i];
      forall j | 0 <= j < i + 1
        ensures Selects(includeData, visit[j]) ==> invoke(visit[j]).Success?
      {
        if j > 0 { assert visit[j] == rest[j - 1]; }
      }
    }
  }

  /** `run`: the input is lower-cased, the first loop visits the table in the
      order `first`, and the second loop in the order `second` (a Go map is
      visited in an unspecified order by each `range`). */
  function Run(input: string, first: seq<Category>, second: seq<Category>, env: Environment): (o: Outcome)
    requires IsVisitOrder(first) && IsVisitOrder(second)
    ensures o.Completed? <==> forall c | c in Resolve(input) :: Invoke(c, env).Success?
    ensures o.Completed? ==>
              && o.output.Keys == (set c | c in Resolve(input) :: Name(c))
              && forall c | c in Resolve(input) :: o.output[Name(c)] == Invoke(c, env).value
    ensures o.Aborted? ==>
              exists c | c in Resolve(input) ::
                Invoke(c, env).Failure? && o.message == AbortMessage(c, Invoke(c, env).error)
    ensures ExitCode(o) == 0 <==> o.Completed?
  {
    var includeData := IncludeData(Lower(input), first, "");
    var invoke := c => Invoke(c, env);
    SelectionIsResolve(input, first);
    CollectCompletes(includeData, second, invoke, map[]);
    assert forall c :: c in second && Selects(includeData, c) <==> c in Resolve(input) by {
      forall c ensures c in second && Selects(includeData, c) <==> c in Resolve(input) {
        InTable(c);
        assert c in second;
      }
    }
    var o := Collect(includeData, second, invoke, map[]);
    if o.Completed? then
      CollectOutput(includeData, second, invoke, map[]);
      o
    else
      CollectFirstFailure(includeData, second, invoke, map[]);
      o
  }

  /** On success the output does not depend on either visiting order. */
  lemma RunOutputIgnoresOrder(input: string, first1: seq<Category>, second1: seq<Category>,
                              first2: seq<Category>, second2: seq<Category>, env: Environment)
    requires IsVisitOrder(first1) && IsVisitOrder(second1)
    requires IsVisitOrder(first2) && IsVisitOrder(second2)
    ensures Run(input, first1, second1, env).Completed? <==> Run(input, first2, second2, env).Completed?
    ensures Run(input, first1, second1, env).Completed? ==>
              Run(input, first1, second1, env).output == Run(input, first2, second2, env).output
  {
    var o1, o2 := Run(input, first1, second1, env), Run(input, first2, second2, env);
    if o1.Completed? {
      assert o1.output.Keys == o2.output.Keys;
      forall k | k in o1.output
        ensures o1.output[k] == o2.output[k]
      {
        var c :| c in Resolve(input) && Name(c) == k;
      }
    }
  }

  /** When the adapter of a selected category fails, `run` fails, with exit
      code 1, and produces no output. */
  lemma SelectedFailureAborts(input: string, first: seq<Category>, second: seq<Category>, env: Environment, c: Category)
    requires IsVisitOrder(first) && IsVisitOrder(second)
    requires c in Resolve(input) && Invoke(c, env).Failure?
    ensures Run(input, first, second, env).Aborted?
    ensures ExitCode(Run(input, first, second, env)) == 1
  {
  }

  /** The message of an aborted run names a failing selected category and
      the error its adapter reported; the failing category that comes first
      in the second visiting order is the one named. */
  lemma AbortNamesFirstFailure(input: string, first: seq<Category>, second: seq<Category>, env: Environment)
    requires IsVisitOrder(first) && IsVisitOrder(second)
    ensures Run(input, first, second, env).Aborted? ==>
            exists i | 0 <= i < |second| ::
              && second[i] in Resolve(input) && Invoke(second[i], env).Failure?
              && Run(input, first, second, env).message == AbortMessage(second[i], Invoke(second[i], env).error)
              && forall j | 0 <= j < i :: second[j] in Resolve(input) ==> Invoke(second[j], env).Success?
  {
    var includeData := IncludeData(Lower(input), first, "");
    var invoke := c => Invoke(c, env);
    assert Run(input, first, second, env) == Collect(includeData, second, invoke, map[]);
    if Run(input, first, second, env).Aborted? {
      SelectionIsResolve(input, first);
      CollectFirstFailure(includeData, second, invoke, map[]);
      forall c ensures Selects(includeData, c) <==> c in Resolve(input) {
        InTable(c);
      }
    }
  }
}
