// Deduplication, ordering and the character budget of the assembled context
// (assembleContext in src/office/context-assembly.ts).
module ContextBudget {
  import opened Sequences

  datatype Authority = CurrentContext | Governed | Historical

  datatype Block = Block(id: string, authority: Authority, priority: int, content: string)

  // Nothing forces the limits to be positive.
  datatype Budget = Budget(currentMax: int, governedMax: int, historicalMax: int) {
    function Max(a: Authority): int {
      match a
      case CurrentContext => currentMax
      case Governed => governedMax
      case Historical => historicalMax
    }
  }

  const SUFFIX := "... [truncated for budget]"

  // What assembling produces; used counts the characters of each authority class.
  datatype Tally = Tally(
    currentUsed: int, governedUsed: int, historicalUsed: int,
    included: seq<Block>, dropped: seq<Block>, truncated: seq<Block>) {
    function Used(a: Authority): int {
      match a
      case CurrentContext => currentUsed
      case Governed => governedUsed
      case Historical => historicalUsed
    }

    function Spend(a: Authority, chars: int): Tally {
      match a
      case CurrentContext => this.(currentUsed := currentUsed + chars)
      case Governed => this.(governedUsed := governedUsed + chars)
      case Historical => this.(historicalUsed := historicalUsed + chars)
    }
  }

  // ---------- Deduplication ----------

  function Ids(blocks: seq<Block>): (r: seq<string>)
    ensures |r| == |blocks| && forall i | 0 <= i < |r| :: r[i] == blocks[i].id
  {
    seq(|blocks|, i requires 0 <= i < |blocks| => blocks[i].id)
  }

  // The first block of each id, in order.
  function Unique(blocks: seq<Block>): seq<Block> {
    if blocks == [] then []
    else
      var front := blocks[..|blocks| - 1];
      var last := blocks[|blocks| - 1];
      if last.id in Ids(front) then Unique(front) else Unique(front) + [last]
  }

  function Duplicates(blocks: seq<Block>): seq<string> {
    if blocks == [] then []
    else
      var front := blocks[..|blocks| - 1];
      var last := blocks[|blocks| - 1];
      if last.id in Ids(front) then Duplicates(front) + [last.id] else Duplicates(front)
  }

  // ---------- Order ----------

  function AuthorityRank(a: Authority): int {
    match a
    case CurrentContext => 3
    case Governed => 2
    case Historical => 1
  }

  // The comparison by locale: before(x, y) says that x collates before y. Distinct ids may
  // collate as equal.
  type Collation = (string, string) -> bool

  ghost predicate IsOrder(before: Collation) {
    && (forall x :: !before(x, x))
    && (forall x, y, z :: before(x, y) && before(y, z) ==> before(x, z))
  }

  predicate Precedes(before: Collation, a: Block, b: Block) {
    || AuthorityRank(a.authority) > AuthorityRank(b.authority)
    || (a.authority == b.authority && a.priority > b.priority)
    || (a.authority == b.authority && a.priority == b.priority && before(a.id, b.id))
  }

  function InsertBlock(before: Collation, b: Block, sorted: seq<Block>): seq<Block> {
    if sorted == [] || Precedes(before, b, sorted[0]) then [b] + sorted
    else [sorted[0]] + InsertBlock(before, b, sorted[1..])
  }

  // Array.prototype.sort is stable: what compares equal keeps its order.
  function SortBlocks(before: Collation, blocks: seq<Block>): seq<Block> {
    if blocks == [] then [] else InsertBlock(before, blocks[|blocks| - 1], SortBlocks(before, blocks[..|blocks| - 1]))
  }

  // ---------- Budget ----------

  function Cut(b: Block, chars: nat): Block
    requires chars <= |b.content|
  {
    b.(content := b.content[..chars] + SUFFIX)
  }

  // One block against what is left of its class: whole, cut to the remaining room, or dropped.
  function Admit(t: Tally, b: Block, budget: Budget): Tally {
    var remaining := budget.Max(b.authority) - t.Used(b.authority);
    if |b.content| <= remaining then
      t.Spend(b.authority, |b.content|).(included := t.included + [b])
    else if remaining > 100 then
      var cut := Cut(b, remaining);
      t.Spend(b.authority, |cut.content|).(included := t.included + [cut], truncated := t.truncated + [cut])
    else
      t.(dropped := t.dropped + [b])
  }

  function AdmitAll(blocks: seq<Block>, budget: Budget): Tally {
    if blocks == [] then Tally(0, 0, 0, [], [], [])
    else Admit(AdmitAll(blocks[..|blocks| - 1], budget), blocks[|blocks| - 1], budget)
  }

  // ---------- The code ----------

  lemma DedupeNext(blocks: seq<Block>, i: nat)
    requires i < |blocks|
    ensures Ids(blocks[..i + 1]) == Ids(blocks[..i]) + [blocks[i].id]
    ensures var seen := blocks[i].id in Ids(blocks[..i]);
            && Unique(blocks[..i + 1]) == Unique(blocks[..i]) + (if seen then [] else [blocks[i]])
            && Duplicates(blocks[..i + 1]) == Duplicates(blocks[..i]) + (if seen then [blocks[i].id] else [])
  {
    assert blocks[..i + 1][..i] == blocks[..i];
  }

  lemma DedupeNone()
    ensures Unique([]) == [] && Duplicates([]) == []
  {
  }

  method Deduplicate(blocks: seq<Block>) returns (uniqueBlocks: seq<Block>, duplicateBlocks: seq<string>)
    ensures uniqueBlocks == Unique(blocks) && duplicateBlocks == Duplicates(blocks)
  {
    hide Unique, Duplicates;
    var seenIds: set<string> := {};
    uniqueBlocks, duplicateBlocks := [], [];
    DedupeNone();
    for i := 0 to |blocks|
      invariant uniqueBlocks == Unique(blocks[..i]) && duplicateBlocks == Duplicates(blocks[..i])
      invariant forall id :: id in seenIds <==> id in Ids(blocks[..i])
    {
      var b := blocks[i];
      DedupeNext(blocks, i);
      if b.id in seenIds {
        duplicateBlocks := duplicateBlocks + [b.id];
      } else {
        seenIds := seenIds + {b.id};
        uniqueBlocks := uniqueBlocks + [b];
      }
    }
    assert blocks[..|blocks|] == blocks;
  }

  lemma AdmitNext(blocks: seq<Block>, i: nat, budget: Budget)
    requires i < |blocks|
    ensures AdmitAll(blocks[..i + 1], budget) == Admit(AdmitAll(blocks[..i], budget), blocks[i], budget)
  {
    assert blocks[..i + 1][..i] == blocks[..i];
  }

  lemma AdmitNone(budget: Budget)
    ensures AdmitAll([], budget) == Tally(0, 0, 0, [], [], [])
  {
  }

  method EnforceBudget(blocks: seq<Block>, budget: Budget) returns (t: Tally)
    ensures t == AdmitAll(blocks, budget)
  {
    hide AdmitAll;
    var included, dropped, truncated: seq<Block> := [], [], [];
    var currentChars, governedChars, historicalChars := 0, 0, 0;
    AdmitNone(budget);
    for i := 0 to |blocks|
      invariant Tally(currentChars, governedChars, historicalChars, included, dropped, truncated)
                == AdmitAll(blocks[..i], budget)
    {
      var block := blocks[i];
      AdmitNext(blocks, i, budget);
      var blockLen := |block.content|;
      match block.authority {
        case CurrentContext =>
          if currentChars + blockLen <= budget.currentMax {
            currentChars := currentChars + blockLen;
            included := included + [block];
          } else {
            var remaining := budget.currentMax - currentChars;
            if remaining > 100 {
              var truncatedBlock := block.(content := block.content[..remaining] + SUFFIX);
              currentChars := currentChars + |truncatedBlock.content|;
              included, truncated := included + [truncatedBlock], truncated + [truncatedBlock];
            } else {
              dropped := dropped + [block];
            }
          }
        case Governed =>
          if governedChars + blockLen <= budget.governedMax {
            governedChars := governedChars + blockLen;
            included := included + [block];
          } else {
            var remaining := budget.governedMax - governedChars;
            if remaining > 100 {
              var truncatedBlock := block.(content := block.content[..remaining] + SUFFIX);
              governedChars := governedChars + |truncatedBlock.content|;
              included, truncated := included + [truncatedBlock], truncated + [truncatedBlock];
            } else {
              dropped := dropped + [block];
            }
          }
        case Historical =>
          if historicalChars + blockLen <= budget.historicalMax {
            historicalChars := historicalChars + blockLen;
            included := included + [block];
          } else {
            var remaining := budget.historicalMax - historicalChars;
            if remaining > 100 {
              var truncatedBlock := block.(content := block.content[..remaining] + SUFFIX);
              historicalChars := historicalChars + |truncatedBlock.content|;
              included, truncated := included + [truncatedBlock], truncated + [truncatedBlock];
            } else {
              dropped := dropped + [block];
            }
          }
      }
    }
    assert blocks[..|blocks|] == blocks;
    t := Tally(currentChars, governedChars, historicalChars, included, dropped, truncated);
  }

  method AssembleContext(blocks: seq<Block>, budget: Budget, before: Collation) returns (t: Tally, duplicateBlocks: seq<string>)
    ensures t == AdmitAll(SortBlocks(before, Unique(blocks)), budget)
    ensures duplicateBlocks == Duplicates(blocks)
  {
    var uniqueBlocks;
    uniqueBlocks, duplicateBlocks := Deduplicate(blocks);
    t := EnforceBudget(SortBlocks(before, uniqueBlocks), budget);
  }

  // ---------- Nothing is lost ----------

  lemma {:induction false} UniqueKeepsIds(blocks: seq<Block>)
    ensures multiset(Ids(Unique(blocks))) + multiset(Duplicates(blocks)) == multiset(Ids(blocks))
    ensures forall id :: id in Ids(Unique(blocks)) <==> id in Ids(blocks)
  {
    if blocks != [] {
      var n := |blocks| - 1;
      var front, last := blocks[..n], blocks[n];
      UniqueKeepsIds(front);
      assert Ids(blocks) == Ids(front) + [last.id];
      assert Ids(Unique(front) + [last]) == Ids(Unique(front)) + [last.id];
    }
  }

  // The kept blocks have distinct ids, and each is the first of its id.
  lemma {:induction false} UniqueKeepsFirst(blocks: seq<Block>)
    ensures DistinctIds(Unique(blocks))
    ensures forall b | b in Unique(blocks) :: FirstOfItsId(b, blocks)
  {
    if blocks != [] {
      var n := |blocks| - 1;
      var front, last := blocks[..n], blocks[n];
      UniqueKeepsFirst(front);
      UniqueKeepsIds(front);
      forall b | b in Unique(blocks)
        ensures FirstOfItsId(b, blocks)
      {
        if b in Unique(front) {
          var i :| 0 <= i < |front| && front[i] == b && b.id !in Ids(front[..i]);
          assert front[..i] == blocks[..i] && blocks[i] == b;
        } else {
          assert blocks[n] == b && b.id !in Ids(blocks[..n]);
        }
      }
      if last.id !in Ids(front) {
        forall i | 0 <= i < |Unique(front)|
          ensures Unique(front)[i].id != last.id
        {
          assert Ids(Unique(front))[i] in Ids(Unique(front));
        }
      }
    }
  }

  ghost predicate DistinctIds(blocks: seq<Block>) {
    forall i, j :: 0 <= i < j < |blocks| ==> blocks[i].id != blocks[j].id
  }

  ghost predicate FirstOfItsId(b: Block, blocks: seq<Block>) {
    exists i :: 0 <= i < |blocks| && blocks[i] == b && b.id !in Ids(blocks[..i])
  }

  lemma {:induction false} InsertKeeps(before: Collation, b: Block, sorted: seq<Block>)
    ensures multiset(InsertBlock(before, b, sorted)) == multiset(sorted) + multiset{b}
  {
    if sorted == [] || Precedes(before, b, sorted[0]) {
    } else {
      InsertKeeps(before, b, sorted[1..]);
      assert sorted == [sorted[0]] + sorted[1..];
    }
  }

  lemma {:induction false} SortKeeps(before: Collation, blocks: seq<Block>)
    ensures multiset(SortBlocks(before, blocks)) == multiset(blocks)
  {
    if blocks != [] {
      var n := |blocks| - 1;
      SortKeeps(before, blocks[..n]);
      InsertKeeps(before, blocks[n], SortBlocks(before, blocks[..n]));
      assert blocks == blocks[..n] + [blocks[n]];
    }
  }

  lemma AdmitKeepsOne(t: Tally, b: Block, budget: Budget)
    ensures var next := Admit(t, b, budget);
            || (Ids(next.included) == Ids(t.included) + [b.id] && next.dropped == t.dropped)
            || (next.included == t.included && Ids(next.dropped) == Ids(t.dropped) + [b.id])
  {
  }

  lemma {:induction false} AdmitKeeps(blocks: seq<Block>, budget: Budget)
    ensures var t := AdmitAll(blocks, budget);
            multiset(Ids(t.included)) + multiset(Ids(t.dropped)) == multiset(Ids(blocks))
  {
    if blocks != [] {
      var n := |blocks| - 1;
      AdmitKeeps(blocks[..n], budget);
      AdmitKeepsOne(AdmitAll(blocks[..n], budget), blocks[n], budget);
      hide Admit;
      assert Ids(blocks) == Ids(blocks[..n]) + [blocks[n].id];
    }
  }

  lemma TakeOut(s: seq<Block>, k: nat)
    requires k < |s|
    ensures multiset(s) == multiset(Without(s, k)) + multiset{s[k]}
  {
    assert s == s[..k] + [s[k]] + s[k + 1..];
    Middle(s[..k], s[k], s[k + 1..]);
  }

  lemma TakeOutId(s: seq<Block>, k: nat)
    requires k < |s|
    ensures multiset(Ids(s)) == multiset(Ids(Without(s, k))) + multiset{s[k].id}
  {
    var p, q := Ids(s[..k]), Ids(s[k + 1..]);
    assert Ids(s) == p + [s[k].id] + q;
    assert Ids(Without(s, k)) == p + q;
    Middle(p, s[k].id, q);
  }

  lemma {:induction false} SameIds(a: seq<Block>, b: seq<Block>)
    requires multiset(a) == multiset(b)
    ensures multiset(Ids(a)) == multiset(Ids(b))
    decreases |a|
  {
    hide Without, Ids;
    SameLength(a, b);
    if a != [] {
      assert a[0] in multiset(b);
      var k :| 0 <= k < |b| && b[k] == a[0];
      TakeOut(a, 0);
      TakeOut(b, k);
      TakeOutId(a, 0);
      TakeOutId(b, k);
      Cancel(multiset(Without(a, 0)), multiset(Without(b, k)), a[0]);
      SameIds(Without(a, 0), Without(b, k));
    } else {
      assert a == b;
    }
  }

  // Every block ends up included, dropped or reported as a duplicate, exactly once.
  lemma NothingLost(blocks: seq<Block>, budget: Budget, before: Collation)
    ensures var t := AdmitAll(SortBlocks(before, Unique(blocks)), budget);
            && multiset(Ids(t.included)) + multiset(Ids(t.dropped)) + multiset(Duplicates(blocks)) == multiset(Ids(blocks))
            && |t.included| + |t.dropped| + |Duplicates(blocks)| == |blocks|
  {
    var t := AdmitAll(SortBlocks(before, Unique(blocks)), budget);
    UniqueKeepsIds(blocks);
    SortKeeps(before, Unique(blocks));
    AdmitKeeps(SortBlocks(before, Unique(blocks)), budget);
    SameIds(SortBlocks(before, Unique(blocks)), Unique(blocks));
    assert |multiset(Ids(t.included)) + multiset(Ids(t.dropped)) + multiset(Duplicates(blocks))|
        == |Ids(t.included)| + |Ids(t.dropped)| + |Duplicates(blocks)|;
    assert |multiset(Ids(blocks))| == |Ids(blocks)|;
  }

  // ---------- The order is determined ----------

  ghost predicate Sorted(before: Collation, s: seq<Block>) {
    forall i, j :: 0 <= i < j < |s| ==> !Precedes(before, s[j], s[i])
  }

  lemma {:induction false} InsertSorts(before: Collation, b: Block, sorted: seq<Block>)
    requires IsOrder(before) && Sorted(before, sorted)
    ensures Sorted(before, InsertBlock(before, b, sorted))
  {
    if sorted == [] || Precedes(before, b, sorted[0]) {
    } else {
      InsertSorts(before, b, sorted[1..]);
      InsertKeeps(before, b, sorted[1..]);
      var rest := InsertBlock(before, b, sorted[1..]);
      forall j | 0 <= j < |rest|
        ensures !Precedes(before, rest[j], sorted[0])
      {
        assert rest[j] in multiset(rest);
        assert rest[j] == b || rest[j] in sorted[1..];
      }
    }
  }

  lemma {:induction false} SortSorts(before: Collation, blocks: seq<Block>)
    requires IsOrder(before)
    ensures Sorted(before, SortBlocks(before, blocks))
  {
    if blocks != [] {
      SortSorts(before, blocks[..|blocks| - 1]);
      InsertSorts(before, blocks[|blocks| - 1], SortBlocks(before, blocks[..|blocks| - 1]));
    }
  }

  // In the sorted list the current context comes before what is governed, and that before history;
  // within a class higher priorities come first, and within a priority the ids collate.
  lemma SortedByFields(before: Collation, blocks: seq<Block>, i: nat, j: nat)
    requires IsOrder(before) && i < j < |SortBlocks(before, blocks)|
    ensures var a, b := SortBlocks(before, blocks)[i], SortBlocks(before, blocks)[j];
            && (b.authority == CurrentContext ==> a.authority == CurrentContext)
            && (a.authority == Historical ==> b.authority == Historical)
            && (a.authority == b.authority ==> a.priority >= b.priority)
            && (a.authority == b.authority && a.priority == b.priority ==> !before(b.id, a.id))
  {
    SortSorts(before, blocks);
    hide SortBlocks;
  }

  // No two blocks compare as equal.
  ghost predicate NoTies(before: Collation, blocks: seq<Block>) {
    forall a, b | a in blocks && b in blocks && a != b :: Precedes(before, a, b) || Precedes(before, b, a)
  }

  lemma SortedHead(before: Collation, a: seq<Block>, b: seq<Block>)
    requires IsOrder(before) && Sorted(before, a) && Sorted(before, b) && a != [] && b != []
    requires multiset(a) == multiset(b) && NoTies(before, a)
    ensures a[0] == b[0]
  {
    assert a[0] in multiset(b) && b[0] in multiset(a);
    var i :| 0 <= i < |b| && b[i] == a[0];
    var j :| 0 <= j < |a| && a[j] == b[0];
    assert i > 0 ==> !Precedes(before, b[i], b[0]);
    assert j > 0 ==> !Precedes(before, a[j], a[0]);
  }

  lemma SortedTail(before: Collation, s: seq<Block>)
    requires s != [] && Sorted(before, s)
    ensures Sorted(before, s[1..])
    ensures NoTies(before, s) ==> NoTies(before, s[1..])
    ensures multiset(s) == multiset(s[1..]) + multiset{s[0]}
  {
    hide Precedes;
    TakeOut(s, 0);
    assert Without(s, 0) == s[1..];
    assert forall x | x in s[1..] :: x in s;
  }

  lemma {:induction false} SortedIsUnique(before: Collation, a: seq<Block>, b: seq<Block>)
    requires IsOrder(before) && Sorted(before, a) && Sorted(before, b)
    requires multiset(a) == multiset(b) && NoTies(before, a)
    ensures a == b
    decreases |a|
  {
    hide IsOrder, Sorted, NoTies;
    SameLength(a, b);
    if a != [] {
      SortedHead(before, a, b);
      SortedTail(before, a);
      SortedTail(before, b);
      Cancel(multiset(a[1..]), multiset(b[1..]), a[0]);
      SortedIsUnique(before, a[1..], b[1..]);
      assert a == [a[0]] + a[1..] && b == [b[0]] + b[1..];
    }
  }

  lemma {:induction false} DistinctStay(blocks: seq<Block>)
    requires DistinctIds(blocks)
    ensures Unique(blocks) == blocks && Duplicates(blocks) == []
  {
    if blocks != [] {
      var n := |blocks| - 1;
      DistinctStay(blocks[..n]);
      assert blocks == blocks[..n] + [blocks[n]];
      assert blocks[n].id !in Ids(blocks[..n]);
    }
  }

  lemma OnceOnly(s: seq<Block>, k: nat)
    requires DistinctIds(s) && k < |s|
    ensures multiset(s)[s[k]] == 1
  {
    TakeOut(s, k);
    assert s[k] !in Without(s, k);
  }

  lemma MoreThanOnce(s: seq<Block>, i: nat, j: nat)
    requires i < j < |s| && s[i] == s[j]
    ensures multiset(s)[s[i]] > 1
  {
    TakeOut(s, i);
    assert Without(s, i)[j - 1] == s[j];
  }

  lemma StayDistinct(a: seq<Block>, b: seq<Block>)
    requires multiset(a) == multiset(b) && DistinctIds(a)
    ensures DistinctIds(b)
  {
    forall i, j | 0 <= i < j < |b|
      ensures b[i].id != b[j].id
    {
      assert b[i] in multiset(a) && b[j] in multiset(a);
      if b[i] == b[j] {
        var k :| 0 <= k < |a| && a[k] == b[i];
        OnceOnly(a, k);
        MoreThanOnce(b, i, j);
      }
    }
  }

  // Blocks with distinct ids give the same context in whatever order they were collected, as long
  // as no two of them tie.
  lemma OrderDoesNotMatter(before: Collation, a: seq<Block>, b: seq<Block>, budget: Budget)
    requires IsOrder(before) && multiset(a) == multiset(b) && NoTies(before, a) && DistinctIds(a)
    ensures AdmitAll(SortBlocks(before, Unique(a)), budget) == AdmitAll(SortBlocks(before, Unique(b)), budget)
    ensures Sorted(before, SortBlocks(before, Unique(a)))
  {
    StayDistinct(a, b);
    DistinctStay(a);
    DistinctStay(b);
    SortSorts(before, a);
    SortSorts(before, b);
    SortKeeps(before, a);
    SortKeeps(before, b);
    assert forall x | x in SortBlocks(before, a) :: x in multiset(a);
    SortedIsUnique(before, SortBlocks(before, a), SortBlocks(before, b));
  }

  // ---------- Ties follow the input ----------

  // What collates as equal to a third collates alike: collating is by some key of the id.
  ghost predicate IsWeakOrder(before: Collation) {
    && IsOrder(before)
    && (forall x, y, z :: before(x, y) ==> before(x, z) || before(z, y))
  }

  ghost predicate Tied(before: Collation, x: Block, y: Block) {
    !Precedes(before, x, y) && !Precedes(before, y, x)
  }

  ghost predicate Ahead(s: seq<Block>, x: Block, y: Block) {
    exists p, q :: 0 <= p < q < |s| && s[p] == x && s[q] == y
  }

  lemma BehindHead(head: Block, rest: seq<Block>, y: Block)
    requires y in rest
    ensures Ahead([head] + rest, head, y)
  {
    var q :| 0 <= q < |rest| && rest[q] == y;
    assert ([head] + rest)[0] == head && ([head] + rest)[1 + q] == y;
  }

  lemma BehindBoth(head: Block, rest: seq<Block>, x: Block, y: Block)
    requires Ahead(rest, x, y)
    ensures Ahead([head] + rest, x, y)
  {
    var p, q :| 0 <= p < q < |rest| && rest[p] == x && rest[q] == y;
    assert ([head] + rest)[1 + p] == x && ([head] + rest)[1 + q] == y;
  }

  lemma InsertHas(before: Collation, b: Block, sorted: seq<Block>, x: Block)
    ensures x in InsertBlock(before, b, sorted) <==> x == b || x in sorted
  {
    InsertKeeps(before, b, sorted);
    assert x in InsertBlock(before, b, sorted) <==> x in multiset(InsertBlock(before, b, sorted));
  }

  lemma {:induction false} InsertKeepsAhead(before: Collation, b: Block, sorted: seq<Block>, x: Block, y: Block)
    requires Ahead(sorted, x, y)
    ensures Ahead(InsertBlock(before, b, sorted), x, y)
  {
    if Precedes(before, b, sorted[0]) {
      BehindBoth(b, sorted, x, y);
    } else {
      var p, q :| 0 <= p < q < |sorted| && sorted[p] == x && sorted[q] == y;
      if p == 0 {
        assert sorted[1..][q - 1] == y;
        InsertHas(before, b, sorted[1..], y);
        BehindHead(sorted[0], InsertBlock(before, b, sorted[1..]), y);
      } else {
        assert sorted[1..][p - 1] == x && sorted[1..][q - 1] == y;
        InsertKeepsAhead(before, b, sorted[1..], x, y);
        BehindBoth(sorted[0], InsertBlock(before, b, sorted[1..]), x, y);
      }
    }
  }

  lemma {:induction false} InsertBehindTied(before: Collation, b: Block, sorted: seq<Block>, x: Block)
    requires IsWeakOrder(before) && Sorted(before, sorted) && x in sorted && Tied(before, x, b)
    ensures Ahead(InsertBlock(before, b, sorted), x, b)
  {
    var p :| 0 <= p < |sorted| && sorted[p] == x;
    assert p > 0 ==> !Precedes(before, x, sorted[0]);
    if p == 0 {
      InsertHas(before, b, sorted[1..], b);
      BehindHead(x, InsertBlock(before, b, sorted[1..]), b);
    } else {
      assert sorted[1..][p - 1] == x;
      InsertBehindTied(before, b, sorted[1..], x);
      BehindBoth(sorted[0], InsertBlock(before, b, sorted[1..]), x, b);
    }
  }

  // The sort is stable: what ties keeps the order of the input.
  lemma {:induction false} SortIsStable(before: Collation, s: seq<Block>, i: nat, j: nat)
    requires IsWeakOrder(before) && i < j < |s| && Tied(before, s[i], s[j])
    ensures Ahead(SortBlocks(before, s), s[i], s[j])
  {
    hide Tied, Ahead, InsertBlock, Precedes;
    var n := |s| - 1;
    SortKeeps(before, s[..n]);
    if j == n {
      SortSorts(before, s[..n]);
      assert s[..n][i] in multiset(SortBlocks(before, s[..n]));
      InsertBehindTied(before, s[n], SortBlocks(before, s[..n]), s[i]);
    } else {
      SortIsStable(before, s[..n], i, j);
      InsertKeepsAhead(before, s[n], SortBlocks(before, s[..n]), s[i], s[j]);
    }
  }

  lemma NotBothAhead(s: seq<Block>, x: Block, y: Block)
    requires DistinctIds(s) && Ahead(s, x, y)
    ensures !Ahead(s, y, x)
  {
  }

  function Swapped(s: seq<Block>, i: nat, j: nat): seq<Block>
    requires i < j < |s|
  {
    s[i := s[j]][j := s[i]]
  }

  lemma SwapSorts(before: Collation, a: seq<Block>, i: nat, j: nat)
    requires IsWeakOrder(before) && DistinctIds(a) && i < j < |a| && Tied(before, a[i], a[j])
    ensures multiset(Swapped(a, i, j)) == multiset(a)
    ensures SortBlocks(before, Swapped(a, i, j)) != SortBlocks(before, a)
  {
    hide IsWeakOrder, Ahead, Precedes, SortBlocks;
    var b := Swapped(a, i, j);
    SortIsStable(before, a, i, j);
    SortIsStable(before, b, i, j);
    SortKeeps(before, a);
    StayDistinct(a, SortBlocks(before, a));
    NotBothAhead(SortBlocks(before, a), a[i], a[j]);
  }

  // With room for everything, the context is the sorted list.
  lemma {:induction false} RoomForAll(s: seq<Block>, budget: Budget)
    requires forall a: Authority :: budget.Max(a) >= Length(s)
    ensures var t := AdmitAll(s, budget);
            t.included == s && forall a: Authority :: t.Used(a) <= Length(s)
  {
    if s != [] {
      var n := |s| - 1;
      RoomForAll(s[..n], budget);
      var t := AdmitAll(s[..n], budget);
      assert t.Used(s[n].authority) <= Length(s[..n]) && budget.Max(s[n].authority) >= Length(s);
      assert s == s[..n] + [s[n]];
      forall a: Authority
        ensures AdmitAll(s, budget).Used(a) <= Length(s)
      {
        assert t.Used(a) <= Length(s[..n]);
      }
    }
  }

  ghost predicate SameContext(before: Collation, a: seq<Block>, b: seq<Block>) {
    forall budget :: AdmitAll(SortBlocks(before, Unique(a)), budget) == AdmitAll(SortBlocks(before, Unique(b)), budget)
  }

  lemma SwapShows(before: Collation, a: seq<Block>, i: nat, j: nat)
    requires IsWeakOrder(before) && DistinctIds(a) && i < j < |a| && Tied(before, a[i], a[j])
    ensures multiset(Swapped(a, i, j)) == multiset(a) && !SameContext(before, a, Swapped(a, i, j))
  {
    hide IsWeakOrder, Tied, SortBlocks, Swapped, AdmitAll;
    var b := Swapped(a, i, j);
    SwapSorts(before, a, i, j);
    StayDistinct(a, b);
    DistinctStay(a);
    DistinctStay(b);
    var s, t := SortBlocks(before, a), SortBlocks(before, b);
    var chars := if Length(s) >= Length(t) then Length(s) else Length(t);
    var budget := Budget(chars, chars, chars);
    RoomForAll(s, budget);
    RoomForAll(t, budget);
    assert AdmitAll(SortBlocks(before, Unique(a)), budget) != AdmitAll(SortBlocks(before, Unique(b)), budget);
  }

  lemma TiedPair(before: Collation, a: seq<Block>) returns (i: nat, j: nat)
    requires !NoTies(before, a)
    ensures i < j < |a| && Tied(before, a[i], a[j])
  {
    hide Precedes;
    var x, y :| x in a && y in a && x != y && !Precedes(before, x, y) && !Precedes(before, y, x);
    i :| 0 <= i < |a| && a[i] == x;
    j :| 0 <= j < |a| && a[j] == y;
    if j < i {
      i, j := j, i;
    }
  }

  lemma TiesCollateAlike(before: Collation, a: seq<Block>)
    ensures NoTies(before, a)
       <==> forall x, y | x in a && y in a && x != y && x.authority == y.authority && x.priority == y.priority ::
              before(x.id, y.id) || before(y.id, x.id)
  {
  }

  // For any blocks of distinct ids: the order in which they were collected makes no difference to
  // the context exactly when no two of them tie, and a tie takes two ids that collate as equal.
  lemma TiesFollowInput(before: Collation, a: seq<Block>)
    requires IsWeakOrder(before) && DistinctIds(a)
    ensures NoTies(before, a) <==> forall b | multiset(b) == multiset(a) :: SameContext(before, a, b)
    ensures NoTies(before, a)
       <==> forall x, y | x in a && y in a && x != y && x.authority == y.authority && x.priority == y.priority ::
              before(x.id, y.id) || before(y.id, x.id)
  {
    TiesCollateAlike(before, a);
    hide IsOrder, Precedes;
    if NoTies(before, a) {
      forall b, budget | multiset(b) == multiset(a)
        ensures AdmitAll(SortBlocks(before, Unique(a)), budget) == AdmitAll(SortBlocks(before, Unique(b)), budget)
      {
        OrderDoesNotMatter(before, a, b, budget);
      }
    } else {
      var i, j := TiedPair(before, a);
      SwapShows(before, a, i, j);
    }
  }

  // ---------- The budget ----------

  function Of(blocks: seq<Block>, a: Authority): seq<Block> {
    if blocks == [] then []
    else
      var last := blocks[|blocks| - 1];
      Of(blocks[..|blocks| - 1], a) + (if last.authority == a then [last] else [])
  }

  function Length(blocks: seq<Block>): int {
    if blocks == [] then 0 else Length(blocks[..|blocks| - 1]) + |blocks[|blocks| - 1].content|
  }

  lemma OfAppend(blocks: seq<Block>, b: Block, a: Authority)
    ensures Of(blocks + [b], a) == if b.authority == a then Of(blocks, a) + [b] else Of(blocks, a)
  {
    assert (blocks + [b])[..|blocks|] == blocks;
  }

  lemma LengthAppend(blocks: seq<Block>, b: Block)
    ensures Length(blocks + [b]) == Length(blocks) + |b.content|
  {
    assert (blocks + [b])[..|blocks|] == blocks;
  }

  // Each class counts its own characters, overruns its limit by no more than the suffix, cuts at
  // most one block, which is its last, and wastes at most 100 characters once it dropped anything.
  ghost predicate Fits(used: int, max: int, included: seq<Block>, truncated: seq<Block>, dropped: seq<Block>) {
    && used == Length(included) >= 0
    && |truncated| <= 1
    && (truncated == [] ==> used == 0 || used <= max)
    && (truncated != [] ==> used == max + |SUFFIX| && included != [] && included[|included| - 1] == truncated[0])
    && (dropped != [] ==> max - used <= 100)
  }

  ghost predicate ClassInBudget(t: Tally, budget: Budget, a: Authority) {
    Fits(t.Used(a), budget.Max(a), Of(t.included, a), Of(t.truncated, a), Of(t.dropped, a))
  }

  lemma AdmitWhole(t: Tally, b: Block, budget: Budget, a: Authority)
    requires ClassInBudget(t, budget, a) && |b.content| <= budget.Max(b.authority) - t.Used(b.authority)
    ensures ClassInBudget(Admit(t, b, budget), budget, a)
  {
    hide Of, Length;
    OfAppend(t.included, b, a);
    LengthAppend(Of(t.included, a), b);
  }

  lemma AdmitCut(t: Tally, b: Block, budget: Budget, a: Authority)
    requires ClassInBudget(t, budget, a) && |b.content| > budget.Max(b.authority) - t.Used(b.authority) > 100
    ensures ClassInBudget(Admit(t, b, budget), budget, a)
  {
    hide Of, Length;
    var cut := Cut(b, budget.Max(b.authority) - t.Used(b.authority));
    OfAppend(t.included, cut, a);
    OfAppend(t.truncated, cut, a);
    LengthAppend(Of(t.included, a), cut);
  }

  lemma AdmitDrop(t: Tally, b: Block, budget: Budget, a: Authority)
    requires ClassInBudget(t, budget, a)
    requires |b.content| > budget.Max(b.authority) - t.Used(b.authority) && budget.Max(b.authority) - t.Used(b.authority) <= 100
    ensures ClassInBudget(Admit(t, b, budget), budget, a)
  {
  }

  lemma AdmitInBudget(t: Tally, b: Block, budget: Budget, a: Authority)
    requires ClassInBudget(t, budget, a)
    ensures ClassInBudget(Admit(t, b, budget), budget, a)
  {
    hide ClassInBudget, Admit;
    var remaining := budget.Max(b.authority) - t.Used(b.authority);
    if |b.content| <= remaining {
      AdmitWhole(t, b, budget, a);
    } else if remaining > 100 {
      AdmitCut(t, b, budget, a);
    } else {
      AdmitDrop(t, b, budget, a);
    }
  }

  lemma {:induction false} BudgetHolds(blocks: seq<Block>, budget: Budget, a: Authority)
    ensures ClassInBudget(AdmitAll(blocks, budget), budget, a)
  {
    if blocks != [] {
      BudgetHolds(blocks[..|blocks| - 1], budget, a);
      AdmitInBudget(AdmitAll(blocks[..|blocks| - 1], budget), blocks[|blocks| - 1], budget, a);
    }
  }

  // Class by class: the characters used are those of the blocks included, at most the limit, or what
  // fits of it and a suffix of 26 characters.
  lemma BudgetByClass(blocks: seq<Block>, budget: Budget)
    ensures var t := AdmitAll(blocks, budget);
            && t.currentUsed == Length(Of(t.included, CurrentContext)) && t.governedUsed == Length(Of(t.included, Governed))
            && t.historicalUsed == Length(Of(t.included, Historical))
            && (t.currentUsed > 0 ==> t.currentUsed <= budget.currentMax + 26)
            && (t.governedUsed > 0 ==> t.governedUsed <= budget.governedMax + 26)
            && (t.historicalUsed > 0 ==> t.historicalUsed <= budget.historicalMax + 26)
  {
    BudgetHolds(blocks, budget, CurrentContext);
    BudgetHolds(blocks, budget, Governed);
    BudgetHolds(blocks, budget, Historical);
    hide AdmitAll, Of, Length;
  }

  // Nothing that would still fit is dropped.
  lemma {:induction false} DroppedDoesNotFit(blocks: seq<Block>, budget: Budget)
    ensures var t := AdmitAll(blocks, budget);
            forall b | b in t.dropped ::
              |b.content| > match b.authority
                            case CurrentContext => budget.currentMax - t.currentUsed
                            case Governed => budget.governedMax - t.governedUsed
                            case Historical => budget.historicalMax - t.historicalUsed
  {
    if blocks != [] {
      DroppedDoesNotFit(blocks[..|blocks| - 1], budget);
    }
  }

  // What is included of a block is the whole block, or the more than 100 characters of it that
  // fitted and the suffix.
  predicate WholeOrCut(shown: Block, original: Block) {
    var suffix := "... [truncated for budget]";
    || shown == original
    || (100 < |shown.content| - |suffix| < |original.content|
        && shown.content == original.content[..|shown.content| - |suffix|] + suffix
        && shown.id == original.id && shown.authority == original.authority && shown.priority == original.priority)
  }

  // The included blocks follow the sorted order of their originals, skipping the dropped ones.
  ghost predicate Follows(included: seq<Block>, blocks: seq<Block>)
    decreases |blocks|
  {
    if included == [] then true
    else if blocks == [] then false
    else
      var n := |blocks| - 1;
      || (WholeOrCut(included[|included| - 1], blocks[n]) && Follows(included[..|included| - 1], blocks[..n]))
      || Follows(included, blocks[..n])
  }

  lemma {:induction false} IncludedFollowsOrder(blocks: seq<Block>, budget: Budget)
    ensures Follows(AdmitAll(blocks, budget).included, blocks)
  {
    if blocks != [] {
      var n := |blocks| - 1;
      IncludedFollowsOrder(blocks[..n], budget);
      var t := AdmitAll(blocks[..n], budget);
      var next := AdmitAll(blocks, budget);
      if next.included != t.included {
        assert next.included[..|next.included| - 1] == t.included;
      }
    }
  }
}
