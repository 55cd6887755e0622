/** Worked queries and responses: the selection and the records `run`
    produces for particular inputs. */
module Scenarios {
  import opened Wrappers
  import opened Text
  import opened Units
  import opened Apis
  import opened Keywords
  import opened Aggregation

  /** A keyword is absent from a text lacking one of its characters. */
  lemma AbsentCharacter(text: string, c: Category, k: int)
    requires 0 <= k < |Name(c)| && Name(c)[k] !in text
    ensures !Contains(text, Name(c)) && !Mentioned(text, c)
  {
    if Contains(text, Name(c)) {
      ContainedCharacter(text, Name(c), k);
    }
  }

  /** The query "mempool" selects the mempool category alone. */
  lemma MempoolQuery(visit: seq<Category>)
    requires IsVisitOrder(visit)
    ensures Selection("mempool", visit) == {Mempool}
  {
    LowerWithoutCapitals("mempool");
    assert OccursAt("mempool", Name(Mempool), 0);
    forall d | d != Mempool
      ensures !Contains(Lower("mempool"), Name(d))
    {
      if Contains(Name(Mempool), Name(d)) {
        NoKeywordInsideAnother(d, Mempool);
      }
    }
    assert !Excluded("mempool", Mempool) by {
      if Excluded("mempool", Mempool) {
        ContainedCharacter("mempool", "-" + Name(Mempool), 0);
      }
    }
    SingleMentionSelectsIt("mempool", visit, Mempool);
  }

  /** In "fees nodes -nodes" the keyword `nodes` is both named and excluded,
      so only `fees` is selected. */
  lemma FeesButNotNodesQuery(visit: seq<Category>)
    requires IsVisitOrder(visit)
    ensures Selection("fees nodes -nodes", visit) == {Category.Fees}
  {
    var input := "fees nodes -nodes";
    LowerWithoutCapitals(input);
    assert OccursAt(input, Name(Category.Fees), 0);
    assert !Excluded(input, Category.Fees) by {
      if Excluded(input, Category.Fees) {
        ContainedCharacter(input, "-" + Name(Category.Fees), 1);
      }
    }
    assert Mentioned(input, Category.Fees);
    assert OccursAt(input, "-" + Name(Nodes), 11);
    AbsentCharacter(input, Market, 0);
    AbsentCharacter(input, Mining, 0);
    AbsentCharacter(input, Mempool, 0);
    AbsentCharacter(input, Lightning, 0);
    LatestBlockNeverAppears(input);
    forall c: Category
      ensures c in Selection(input, visit) <==> c == Category.Fees
    {
      SelectionByBranch(input, visit, c);
    }
  }

  /** A query that excludes every other keyword in lower case still selects
      `latestBlock`: its exclusion form has a capital and cannot occur after
      lower-casing, and with a hyphen present nothing else rescues it. */
  lemma EverythingExcludedQuery(input: string, visit: seq<Category>)
    requires IsVisitOrder(visit)
    requires forall c | c != LatestBlock :: Excluded(Lower(input), c)
    ensures Selection(input, visit) == {LatestBlock}
  {
    var text := Lower(input);
    LatestBlockNeverAppears(input);
    assert !AnyMentioned(text) by {
      forall c: Category
        ensures !Mentioned(text, c)
      {
      }
    }
    forall c: Category
      ensures c in Selection(input, visit) <==> c == LatestBlock
    {
      SelectionByBranch(input, visit, c);
    }
  }

  /** Naming `latestblock` mentions no keyword, so every category is
      selected. */
  lemma LatestBlockQuery(visit: seq<Category>)
    requires IsVisitOrder(visit)
    ensures Selection("latestblock", visit) == Everything
  {
    var input := "latestblock";
    LowerWithoutCapitals(input);
    forall c: Category
      ensures !Mentioned(input, c)
    {
      match c
      case Market => AbsentCharacter(input, c, 0);
      case Mining => AbsentCharacter(input, c, 0);
      case Fees => AbsentCharacter(input, c, 0);
      case Mempool => AbsentCharacter(input, c, 0);
      case Lightning => AbsentCharacter(input, c, 2);
      case Nodes => AbsentCharacter(input, c, 0);
      case LatestBlock => LatestBlockNeverAppears(input);
    }
    NoMentionNoHyphenSelectsAll(input, visit);
  }

  /** A backlog of 12 345 transactions, 2 500 000 vbytes and 1.5 BTC of fees. */
  lemma MempoolRecordExample()
    ensures GetMempoolStats(Reply(200, Success(MempoolResponse(12345, 2500000, 150000000))))
            == Success(MempoolStats(12345, 2.5, 1.5, 3))
  {
    assert BytesToMegabytes(2500000) == 2.5;
    assert SatsToBtc(150000000) == 1.5;
    RoundDecKeepsRounded(2.5, 2);
    RoundDecKeepsRounded(1.5, 3);
  }

  /** The text reported when the mempool endpoint answers 503. */
  lemma MempoolUnavailableMessage()
    ensures AbortMessage(Mempool, StatusError(MempoolSpaceProvider, 503))
            == "Failed to get " + "mempool" + " data: " + "Mempool.Space" + " API request returned status: " + "503"
  {
    assert Decimal.NatToString(5) == "5";
    assert Decimal.NatToString(50) == "50";
    assert Decimal.IntToString(503) == "503";
    assert Name(Mempool) == "mempool";
  }

  /** With the mempool endpoint answering 503, the query "mempool" fails and
      the message names the category, the provider and the status. */
  lemma MempoolUnavailableExample(first: seq<Category>, second: seq<Category>, env: Environment)
    requires IsVisitOrder(first) && IsVisitOrder(second)
    requires env.mempool.status == 503
    ensures Run("mempool", first, second, env)
            == Aborted("Failed to get " + "mempool" + " data: " + "Mempool.Space" + " API request returned status: " + "503")
  {
    MempoolQuery(first);
    SelectionIsResolve("mempool", first);
    var e := StatusError(MempoolSpaceProvider, 503);
    assert Invoke(Mempool, env) == Failure(e);
    var o := Run("mempool", first, second, env);
    assert o.Aborted?;
    assert o.message == AbortMessage(Mempool, e);
    MempoolUnavailableMessage();
  }
}
