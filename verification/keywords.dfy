/** The keyword table of `run` and the two loops that turn the query into the
    set of categories to fetch. */
module Keywords {
  import opened Text

  datatype Category = Market | LatestBlock | Mining | Fees | Mempool | Lightning | Nodes

  /** The keyword of each category, as spelt in the table. */
  function Name(c: Category): string {
    match c
    case Market => "market"
    case LatestBlock => "latestBlock"
    case Mining => "mining"
    case Fees => "fees"
    case Mempool => "mempool"
    case Lightning => "lightning"
    case Nodes => "nodes"
  }

  /** The table in declaration order. */
  const Table: seq<Category> := [Market, LatestBlock, Mining, Fees, Mempool, Lightning, Nodes]

  const Everything: set<Category> := {Market, LatestBlock, Mining, Fees, Mempool, Lightning, Nodes}

  /** An order in which a `range` over the table may visit it: every
      category exactly once. */
  predicate IsVisitOrder(visit: seq<Category>) {
    && (forall c: Category :: c in visit)
    && (forall i, j | 0 <= i < j < |visit| :: visit[i] != visit[j])
  }

  /** The text holds the keyword's exclusion form `"-" + keyword`. */
  predicate Excluded(text: string, c: Category) {
    Contains(text, "-" + Name(c))
  }

  /** The text holds the keyword and not its exclusion form. */
  predicate Mentioned(text: string, c: Category) {
    !Excluded(text, c) && Contains(text, Name(c))
  }

  predicate AnyMentioned(text: string) {
    exists c: Category :: Mentioned(text, c)
  }

  /** The first loop of `run`: visiting the keywords in order, an excluded
      keyword is skipped, a mentioned one makes the whole text the result and
      ends the loop, and any other is appended to `acc` after a space. */
  function IncludeData(text: string, visit: seq<Category>, acc: string): string {
    if visit == [] then acc
    else if Excluded(text, visit[0]) then IncludeData(text, visit[1..], acc)
    else if Contains(text, Name(visit[0])) then text
    else IncludeData(text, visit[1..], acc + " " + Name(visit[0]))
  }

  /** What the first loop appends when nothing is mentioned: a space and the
      keyword, for every keyword that is not excluded. */
  function Joined(text: string, visit: seq<Category>): string {
    if visit == [] then ""
    else if Excluded(text, visit[0]) then Joined(text, visit[1..])
    else " " + Name(visit[0]) + Joined(text, visit[1..])
  }

  /** The test of the second loop of `run`. */
  predicate Selects(includeData: string, c: Category) {
    Contains(includeData, Name(c)) && !Contains(includeData, "-" + Name(c))
  }

  /** The categories `run` fetches for `input` when its first loop visits
      the table in the order `visit`. */
  function Selection(input: string, visit: seq<Category>): set<Category> {
    var includeData := IncludeData(Lower(input), visit, "");
    set c | c in Table && Selects(includeData, c)
  }

  /** The selection stated directly: the mentioned keywords if there is one,
      otherwise every keyword that is not excluded. */
  function Resolve(input: string): set<Category> {
    var text := Lower(input);
    if AnyMentioned(text) then set c | c in Table && Mentioned(text, c)
    else set c | c in Table && !Excluded(text, c)
  }

  // ------------------------------------------------------------ facts about the keywords

  lemma InTable(c: Category)
    ensures c in Table && c in Everything
  {
    match c
    case Market => assert Table[0] == c;
    case LatestBlock => assert Table[1] == c;
    case Mining => assert Table[2] == c;
    case Fees => assert Table[3] == c;
    case Mempool => assert Table[4] == c;
    case Lightning => assert Table[5] == c;
    case Nodes => assert Table[6] == c;
  }

  /** The declaration order is one possible visiting order. */
  lemma TableIsVisitOrder()
    ensures IsVisitOrder(Table)
  {
    forall c: Category ensures c in Table {
      InTable(c);
    }
  }

  lemma NameShape(c: Category)
    ensures |Name(c)| >= 4
    ensures ' ' !in Name(c) && '-' !in Name(c)
  {
  }

  lemma NameInjective(c: Category, d: Category)
    requires Name(c) == Name(d)
    ensures c == d
  {
    assert |Name(c)| == |Name(d)|;
    assert Name(c)[0] == Name(d)[0] && Name(c)[1] == Name(d)[1];
  }

  /** No keyword occurs inside another: each of the seven has an opening pair
      of letters that no other keyword contains. */
  lemma NoKeywordInsideAnother(c: Category, d: Category)
    requires Contains(Name(d), Name(c))
    ensures c == d
  {
    var w, t := Name(c), Name(d);
    var i :| 0 <= i <= |t| - |w| && OccursAt(t, w, i);
    assert t[i] == w[0] && t[i + 1] == w[1];
  }

  /** The lower-cased text can hold neither `latestBlock` nor `-latestBlock`,
      which both contain a capital. */
  lemma LatestBlockNeverAppears(input: string)
    ensures !Excluded(Lower(input), LatestBlock)
    ensures !Contains(Lower(input), Name(LatestBlock))
  {
    var text := Lower(input);
    if Contains(text, Name(LatestBlock)) {
      ContainedCharacter(text, Name(LatestBlock), 6);
    }
    if Contains(text, "-" + Name(LatestBlock)) {
      ContainedCharacter(text, "-" + Name(LatestBlock), 7);
    }
  }

  // ------------------------------------------------------------ the first loop

  lemma {:induction false} IncludeDataWhenMentioned(text: string, visit: seq<Category>, acc: string, i: int)
    requires 0 <= i < |visit| && Mentioned(text, visit[i])
    ensures IncludeData(text, visit, acc) == text
    decreases |visit|
  {
    if !Excluded(text, visit[0]) && Contains(text, Name(visit[0])) {
    } else if Excluded(text, visit[0]) {
      IncludeDataWhenMentioned(text, visit[1..], acc, i - 1);
    } else {
      IncludeDataWhenMentioned(text, visit[1..], acc + " " + Name(visit[0]), i - 1);
    }
  }

  lemma {:induction false} IncludeDataWhenNoneMentioned(text: string, visit: seq<Category>, acc: string)
    requires !AnyMentioned(text)
    ensures IncludeData(text, visit, acc) == acc + Joined(text, visit)
    decreases |visit|
  {
    if visit != [] {
      var k, rest := visit[0], visit[1..];
      assert !Mentioned(text, k);
      if Excluded(text, k) {
        IncludeDataWhenNoneMentioned(text, rest, acc);
      } else {
        var acc' := acc + " " + Name(k);
        assert IncludeData(text, visit, acc) == IncludeData(text, rest, acc');
        assert Joined(text, visit) == " " + Name(k) + Joined(text, rest);
        IncludeDataWhenNoneMentioned(text, rest, acc');
        assert acc' + Joined(text, rest) == acc + (" " + Name(k) + Joined(text, rest));
      }
    }
  }

  /** The appended text starts with a space (or is empty) and has no hyphen,
      and holds exactly the keywords of the visited, non-excluded categories. */
  lemma {:induction false} JoinedContents(text: string, visit: seq<Category>, c: Category)
    ensures Joined(text, visit) == [] || Joined(text, visit)[0] == ' '
    ensures '-' !in Joined(text, visit)
    ensures Contains(Joined(text, visit), Name(c)) <==> c in visit && !Excluded(text, c)
    decreases |visit|
  {
    if visit != [] {
      var k := visit[0];
      var rest := Joined(text, visit[1..]);
      JoinedContents(text, visit[1..], c);
      assert visit == [k] + visit[1..];
      if !Excluded(text, k) {
        var j := Joined(text, visit);
        assert j == [' '] + Name(k) + rest;
        NameShape(k);
        NameShape(c);
        if Contains(j, Name(c)) {
          SpaceSeparated(Name(k), rest, Name(c));
          if Contains(Name(k), Name(c)) {
            NoKeywordInsideAnother(c, k);
          }
        }
        if c == k {
          assert OccursAt(j, Name(c), 1);
        } else if c in visit[1..] && !Excluded(text, c) {
          ContainsInSuffix([' '] + Name(k), rest, Name(c));
        }
      }
    }
  }

  // ------------------------------------------------------------ the selection

  /** The two loops of `run` select exactly what `Resolve` states, whatever
      the order of the first loop: the mentioned keywords if there is one,
      else every keyword that is not excluded. */
  lemma SelectionIsResolve(input: string, visit: seq<Category>)
    requires IsVisitOrder(visit)
    ensures Selection(input, visit) == Resolve(input)
  {
    var text := Lower(input);
    var includeData := IncludeData(text, visit, "");
    if AnyMentioned(text) {
      var c :| Mentioned(text, c);
      assert c in visit;
      var i :| 0 <= i < |visit| && visit[i] == c;
      IncludeDataWhenMentioned(text, visit, "", i);
    } else {
      IncludeDataWhenNoneMentioned(text, visit, "");
      assert includeData == Joined(text, visit);
      forall c: Category
        ensures Selects(includeData, c) <==> !Excluded(text, c)
      {
        JoinedContents(text, visit, c);
        if Contains(includeData, "-" + Name(c)) {
          ContainedCharacter(includeData, "-" + Name(c), 0);
        }
      }
    }
  }

  /** The selection does not depend on the order of the first loop. */
  lemma SelectionIgnoresVisitOrder(input: string, visit1: seq<Category>, visit2: seq<Category>)
    requires IsVisitOrder(visit1) && IsVisitOrder(visit2)
    ensures Selection(input, visit1) == Selection(input, visit2)
  {
    SelectionIsResolve(input, visit1);
    SelectionIsResolve(input, visit2);
  }

  /** A keyword whose exclusion form occurs in the lower-cased input is never
      selected, whichever branch the first loop took. */
  lemma ExcludedNeverSelected(input: string, visit: seq<Category>, c: Category)
    requires IsVisitOrder(visit)
    requires Excluded(Lower(input), c)
    ensures c !in Selection(input, visit)
  {
    SelectionIsResolve(input, visit);
  }

  /** If some keyword is mentioned, exactly the mentioned keywords are
      selected; otherwise exactly those not excluded. */
  lemma SelectionByBranch(input: string, visit: seq<Category>, c: Category)
    requires IsVisitOrder(visit)
    ensures AnyMentioned(Lower(input)) ==> (c in Selection(input, visit) <==> Mentioned(Lower(input), c))
    ensures !AnyMentioned(Lower(input)) ==> (c in Selection(input, visit) <==> !Excluded(Lower(input), c))
  {
    SelectionIsResolve(input, visit);
  }

  /** Text with no hyphen that mentions no keyword selects all seven. */
  lemma NoMentionNoHyphenSelectsAll(input: string, visit: seq<Category>)
    requires IsVisitOrder(visit)
    requires '-' !in Lower(input) && !AnyMentioned(Lower(input))
    ensures Selection(input, visit) == Everything
  {
    SelectionIsResolve(input, visit);
    forall c: Category
      ensures !Excluded(Lower(input), c)
    {
      if Excluded(Lower(input), c) {
        ContainedCharacter(Lower(input), "-" + Name(c), 0);
      }
    }
  }

  /** The empty query selects every category. */
  lemma EmptyQuerySelectsAll(visit: seq<Category>)
    requires IsVisitOrder(visit)
    ensures Selection("", visit) == Everything
  {
    assert Lower("") == "";
    forall c: Category
      ensures !Mentioned("", c)
    {
      NameShape(c);
    }
    NoMentionNoHyphenSelectsAll("", visit);
  }

  /** `latestBlock` is selected exactly when no other keyword is mentioned:
      it can be neither mentioned nor excluded itself. */
  lemma LatestBlockSelectedIffNothingMentioned(input: string, visit: seq<Category>)
    requires IsVisitOrder(visit)
    ensures LatestBlock in Selection(input, visit) <==>
              forall c | c != LatestBlock :: !Mentioned(Lower(input), c)
  {
    SelectionIsResolve(input, visit);
    LatestBlockNeverAppears(input);
  }

  /** A query naming one keyword and no other, without that keyword's
      exclusion form, selects that keyword alone. */
  lemma SingleMentionSelectsIt(input: string, visit: seq<Category>, c: Category)
    requires IsVisitOrder(visit)
    requires Contains(Lower(input), Name(c)) && !Excluded(Lower(input), c)
    requires forall d | d != c :: !Contains(Lower(input), Name(d))
    ensures Selection(input, visit) == {c}
  {
    SelectionIsResolve(input, visit);
    assert Mentioned(Lower(input), c);
  }
}
