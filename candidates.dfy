/** Conversion candidates: clauses collect candidates from lattice nodes
    (`MzConvClause::add`), and a result adds the connection cost between
    neighbouring clauses before sorting each clause by cost
    (`MzConvResult::sort`). */
module Candidates {
  import opened Wrappers
  import opened Text
  import opened Hinshi
  import opened LatticeNodes
  import opened ConnectRules

  /** `MzConvCandidate` with the fields `add` and `sort` use: the reading,
      the converted text, the cost, the set of classes and the tags. */
  datatype Candidate = Candidate(
    hiragana: String,
    converted: String,
    cost: int,
    bunruis: set<HinshiBunrui>,
    tags: String)

  /** The candidate a node starts when no candidate converts to its text. */
  function FromNode(n: Node): Candidate
  {
    Candidate(n.pre, n.post, n.cost, {n.bunrui}, n.tags)
  }

  /** The first candidate whose converted text is `s`. */
  function FindConverted(cs: seq<Candidate>, s: String): (r: Option<nat>)
    ensures r.Some? ==> r.value < |cs| && cs[r.value].converted == s
    ensures r.Some? ==> forall j :: 0 <= j < r.value ==> cs[j].converted != s
    ensures r.None? <==> forall j :: 0 <= j < |cs| ==> cs[j].converted != s
  {
    if |cs| == 0 then None
    else if cs[0].converted == s then Some(0)
    else match FindConverted(cs[1..], s)
      case None => None
      case Some(k) => Some(k + 1)
  }

  /** A matching candidate after a node of the same text: a lower node
      cost replaces its cost and adds the node's class and tags. */
  function Merged(c: Candidate, n: Node): Candidate
  {
    if c.cost > n.cost then c.(cost := n.cost, bunruis := c.bunruis + {n.bunrui}, tags := c.tags + n.tags)
    else c
  }

  /** The candidate list after `add(n)`. */
  function Added(cs: seq<Candidate>, n: Node): seq<Candidate>
  {
    match FindConverted(cs, n.post)
    case Some(j) => cs[j := Merged(cs[j], n)]
    case None => cs + [FromNode(n)]
  }

  /** No two candidates convert to the same text. */
  predicate DistinctConverted(cs: seq<Candidate>)
  {
    forall i, j :: 0 <= i < j < |cs| ==> cs[i].converted != cs[j].converted
  }

  /** `add` keeps at most one candidate per converted text. */
  lemma AddedKeepsDistinct(cs: seq<Candidate>, n: Node)
    requires DistinctConverted(cs)
    ensures DistinctConverted(Added(cs, n))
  {
  }

  /** After `add(n)` some candidate converts to the node's text, at a cost
      no higher than the node's: the minimum of the old cost and the
      node's when the text was there, the node's own when it is new. */
  lemma AddedHolds(cs: seq<Candidate>, n: Node)
    ensures FindConverted(Added(cs, n), n.post).Some?
    ensures FindConverted(cs, n.post).Some? ==>
              Added(cs, n)[FindConverted(cs, n.post).value].cost
              == if cs[FindConverted(cs, n.post).value].cost <= n.cost then cs[FindConverted(cs, n.post).value].cost else n.cost
    ensures FindConverted(cs, n.post).None? ==> Added(cs, n)[|cs|] == FromNode(n)
  {
    var r := Added(cs, n);
    match FindConverted(cs, n.post)
    case Some(j) =>
      assert r[j].converted == n.post;
    case None =>
      assert r[|cs|].converted == n.post;
  }

  /** `add` appends exactly one candidate for a new text and none
      otherwise, and leaves every candidate of another text as it was. */
  lemma AddedFrame(cs: seq<Candidate>, n: Node)
    ensures |Added(cs, n)| == if FindConverted(cs, n.post).Some? then |cs| else |cs| + 1
    ensures forall i :: 0 <= i < |cs| && cs[i].converted != n.post ==> Added(cs, n)[i] == cs[i]
  {
  }

  // ---- Sorting by cost ----------------------------------------------------

  predicate SortedByCost(cs: seq<Candidate>)
  {
    forall i, j :: 0 <= i < j < |cs| ==> cs[i].cost <= cs[j].cost
  }

  /** `c` placed before the first candidate of higher cost. */
  function InsertByCost(c: Candidate, cs: seq<Candidate>): (r: seq<Candidate>)
    ensures multiset(r) == multiset(cs) + multiset{c}
    ensures |r| == |cs| + 1
    ensures r[0] == c || (|cs| > 0 && r[0] == cs[0])
  {
    if |cs| == 0 || c.cost <= cs[0].cost then
      [c] + cs
    else
      assert cs == [cs[0]] + cs[1..];
      [cs[0]] + InsertByCost(c, cs[1..])
  }

  /** Inserting into a sorted list keeps it sorted. */
  lemma {:induction false} InsertSorted(c: Candidate, cs: seq<Candidate>)
    requires SortedByCost(cs)
    ensures SortedByCost(InsertByCost(c, cs))
  {
    if |cs| > 0 && c.cost > cs[0].cost {
      var rest := InsertByCost(c, cs[1..]);
      InsertSorted(c, cs[1..]);
      assert cs[0].cost <= rest[0].cost;
      assert InsertByCost(c, cs) == [cs[0]] + rest;
    }
  }

  /** An increasing order by cost (`std::sort` with `CandidateCompare`). */
  function SortByCost(cs: seq<Candidate>): (r: seq<Candidate>)
    ensures SortedByCost(r)
    ensures multiset(r) == multiset(cs)
  {
    if |cs| == 0 then []
    else
      assert cs == [cs[0]] + cs[1..];
      InsertSorted(cs[0], SortByCost(cs[1..]));
      InsertByCost(cs[0], SortByCost(cs[1..]))
  }

  /** Sorting keeps the number of candidates, as it keeps their multiset. */
  lemma SortKeepsLength(cs: seq<Candidate>)
    ensures |SortByCost(cs)| == |cs|
  {
    assert |multiset(SortByCost(cs))| == |multiset(cs)|;
  }

  /** `MzConvClause`: the candidates of one clause. */
  class ConvClause {
    var candidates: seq<Candidate>

    constructor()
      ensures candidates == []
    {
      candidates := [];
    }

    /** `MzConvClause::add`. */
    method Add(n: Node)
      modifies this
      ensures candidates == Added(old(candidates), n)
    {
      var i := 0;
      var matched := false;
      while i < |candidates| && !matched
        invariant 0 <= i <= |candidates|
        invariant !matched ==> candidates == old(candidates)
        invariant !matched ==> forall j :: 0 <= j < i ==> candidates[j].converted != n.post
        invariant matched ==> FindConverted(old(candidates), n.post) == Some(i - 1)
        invariant matched ==> candidates == Added(old(candidates), n)
        decreases |candidates| - i, !matched
      {
        if candidates[i].converted == n.post {
          if candidates[i].cost > n.cost {
            candidates := candidates[i := candidates[i].(cost := n.cost,
                                                         bunruis := candidates[i].bunruis + {n.bunrui},
                                                         tags := candidates[i].tags + n.tags)];
          }
          matched := true;
        }
        i := i + 1;
      }
      if !matched {
        candidates := candidates + [FromNode(n)];
      }
    }

    /** `MzConvClause::sort`. Equal costs may come out in any order. */
    method Sort()
      modifies this
      ensures SortedByCost(candidates)
      ensures multiset(candidates) == multiset(old(candidates))
    {
      candidates := SortByCost(candidates);
    }
  }

  // ---- Connection costs between neighbouring clauses ----------------------

  /** The minimum-cost search starts from `0x7FFF`. */
  const NO_COST: int := 0x7FFF

  /** `m` is the smallest connection cost among the pairs of classes of
      two candidates, or `0x7FFF` when one of them has no class. */
  predicate IsMinCost(s1: set<HinshiBunrui>, s2: set<HinshiBunrui>, m: int)
  {
    m <= NO_COST
    && (forall b1, b2 :: b1 in s1 && b2 in s2 ==> m <= CandConnectCost(b1, b2))
    && (m == NO_COST || exists b1, b2 :: b1 in s1 && b2 in s2 && CandConnectCost(b1, b2) == m)
  }

  predicate HasPairCost(s1: set<HinshiBunrui>, s2: set<HinshiBunrui>, c: int)
  {
    exists b1, b2 :: b1 in s1 && b2 in s2 && CandConnectCost(b1, b2) == c
  }

  /** The minimum connection cost, by the values the cost table takes. */
  function MinCost(s1: set<HinshiBunrui>, s2: set<HinshiBunrui>): (m: int)
    ensures IsMinCost(s1, s2, m)
  {
    if s1 == {} || s2 == {} then NO_COST
    else if HasPairCost(s1, s2, 0) then 0
    else if HasPairCost(s1, s2, 1) then 1
    else if HasPairCost(s1, s2, 5) then 5
    else
      assert HasPairCost(s1, s2, 10) by {
        var b1 :| b1 in s1;
        var b2 :| b2 in s2;
        assert CandConnectCost(b1, b2) == 10;
      }
      10
  }

  /** There is only one minimum. */
  lemma MinCostUnique(s1: set<HinshiBunrui>, s2: set<HinshiBunrui>, m: int)
    requires IsMinCost(s1, s2, m)
    ensures m == MinCost(s1, s2)
  {
    var m' := MinCost(s1, s2);
    if m != NO_COST {
      var b1, b2 :| b1 in s1 && b2 in s2 && CandConnectCost(b1, b2) == m;
      assert m' <= m;
    }
    if m' != NO_COST {
      var b1, b2 :| b1 in s1 && b2 in s2 && CandConnectCost(b1, b2) == m';
      assert m <= m';
    }
  }

  /** The two innermost loops of `MzConvResult::sort`. */
  method MinConnectCost(s1: set<HinshiBunrui>, s2: set<HinshiBunrui>) returns (m: int)
    ensures IsMinCost(s1, s2, m)
  {
    m := NO_COST;
    var rest1 := s1;
    while rest1 != {}
      invariant rest1 <= s1
      invariant IsMinCost(s1 - rest1, s2, m)
      decreases |rest1|
    {
      var b1 :| b1 in rest1;
      var rest2 := s2;
      while rest2 != {}
        invariant rest2 <= s2
        invariant m <= NO_COST
        invariant forall x, y :: x in s1 - rest1 && y in s2 ==> m <= CandConnectCost(x, y)
        invariant forall y :: y in s2 - rest2 ==> m <= CandConnectCost(b1, y)
        invariant m == NO_COST || exists x, y :: x in (s1 - rest1) + {b1} && y in s2 && CandConnectCost(x, y) == m
        decreases |rest2|
      {
        var b2 :| b2 in rest2;
        var cost := CandConnectCost(b1, b2);
        if cost < m {
          m := cost;
        }
        rest2 := rest2 - {b2};
      }
      rest1 := rest1 - {b1};
    }
    assert s1 - rest1 == s1;
  }

  /** The cost added to a candidate with classes `b2` from the first `j`
      candidates of the clause before it. */
  function ExtraCost(prev: seq<Candidate>, b2: set<HinshiBunrui>, j: nat): int
    requires j <= |prev|
  {
    if j == 0 then 0 else ExtraCost(prev, b2, j - 1) + MinCost(prev[j - 1].bunruis, b2)
  }

  /** A candidate after the clause before it has been visited. */
  function RaisedCandidate(prev: seq<Candidate>, c: Candidate): Candidate
  {
    c.(cost := c.cost + ExtraCost(prev, c.bunruis, |prev|))
  }

  /** The clauses of a result with the connection costs added: the first
      clause unchanged, every later candidate raised by its clause's
      predecessor. */
  function Raised(cs: seq<seq<Candidate>>): (r: seq<seq<Candidate>>)
    ensures |r| == |cs|
    ensures |cs| > 0 ==> r[0] == cs[0]
  {
    seq(|cs|, i requires 0 <= i < |cs| =>
      if i == 0 then cs[0]
      else seq(|cs[i]|, k requires 0 <= k < |cs[i]| => RaisedCandidate(cs[i - 1], cs[i][k])))
  }

  /** Adding the connection costs leaves every clause as long as it was
      and changes no candidate's text or classes. */
  lemma RaisedKeepsCandidates(cs: seq<seq<Candidate>>, i: nat, k: nat)
    requires 1 <= i < |cs| && k < |cs[i]|
    ensures |Raised(cs)[i]| == |cs[i]|
    ensures Raised(cs)[i][k].converted == cs[i][k].converted && Raised(cs)[i][k].bunruis == cs[i][k].bunruis
    ensures Raised(cs)[i][k].cost == cs[i][k].cost + ExtraCost(cs[i - 1], cs[i][k].bunruis, |cs[i - 1]|)
  {
  }

  /** Each connection cost added is at most the largest table cost, as
      long as every candidate of the clause before has a class. */
  lemma {:induction false} ExtraCostBound(prev: seq<Candidate>, b2: set<HinshiBunrui>, j: nat)
    requires j <= |prev| && b2 != {}
    requires forall x :: 0 <= x < |prev| ==> prev[x].bunruis != {}
    ensures 0 <= ExtraCost(prev, b2, j) <= 10 * j
  {
    if j > 0 {
      var before := ExtraCost(prev, b2, j - 1);
      ExtraCostBound(prev, b2, j - 1);
      var m := MinCost(prev[j - 1].bunruis, b2);
      MinCostBound(prev[j - 1].bunruis, b2);
      assert ExtraCost(prev, b2, j) == before + m;
    }
  }

  /** Between two candidates that both have a class the minimum is one of
      the table's costs. */
  lemma MinCostBound(s1: set<HinshiBunrui>, s2: set<HinshiBunrui>)
    requires s1 != {} && s2 != {}
    ensures 0 <= MinCost(s1, s2) <= 10
  {
    var b1 :| b1 in s1;
    var b2 :| b2 in s2;
    assert MinCost(s1, s2) <= CandConnectCost(b1, b2);
  }

  /** One visit of a candidate of the clause before: every candidate of
      `cur` gains the minimum connection cost from it. */
  method RaiseBy(c1: Candidate, cur: seq<Candidate>) returns (r: seq<Candidate>)
    ensures |r| == |cur|
    ensures forall k :: 0 <= k < |cur| ==> r[k] == cur[k].(cost := cur[k].cost + MinCost(c1.bunruis, cur[k].bunruis))
  {
    r := cur;
    var k := 0;
    while k < |r|
      invariant 0 <= k <= |r| == |cur|
      invariant forall x :: 0 <= x < k ==> r[x] == cur[x].(cost := cur[x].cost + MinCost(c1.bunruis, cur[x].bunruis))
      invariant forall x :: k <= x < |r| ==> r[x] == cur[x]
    {
      var m := MinConnectCost(c1.bunruis, r[k].bunruis);
      MinCostUnique(c1.bunruis, r[k].bunruis, m);
      r := r[k := r[k].(cost := r[k].cost + m)];
      k := k + 1;
    }
  }

  /** The loop over the candidates of the clause before. */
  method RaiseClause(prev: seq<Candidate>, cur: seq<Candidate>) returns (r: seq<Candidate>)
    ensures |r| == |cur|
    ensures forall k :: 0 <= k < |cur| ==> r[k] == RaisedCandidate(prev, cur[k])
  {
    r := cur;
    var j := 0;
    while j < |prev|
      invariant 0 <= j <= |prev| && |r| == |cur|
      invariant forall k :: 0 <= k < |cur| ==> r[k] == cur[k].(cost := cur[k].cost + ExtraCost(prev, cur[k].bunruis, j))
    {
      r := RaiseBy(prev[j], r);
      j := j + 1;
    }
  }

  /** The loop of `MzConvResult::sort` over clause boundaries. Raising
      clause `i` reads only the classes of clause `i - 1`, which the
      earlier step did not change. */
  method RaiseClauses(cs: seq<seq<Candidate>>) returns (r: seq<seq<Candidate>>)
    ensures r == Raised(cs)
  {
    r := cs;
    var i := 1;
    while i < |r|
      invariant |r| == |cs|
      invariant 1 <= i <= |cs| || |cs| == 0
      invariant forall x :: 0 <= x < |cs| ==> r[x] == if x < i then Raised(cs)[x] else cs[x]
    {
      var c := RaiseClause(r[i - 1], r[i]);
      RaisedFromRaised(cs, i);
      r := r[i := c];
      i := i + 1;
    }
  }

  /** `MzConvResult`: the clauses of a conversion, each a list of
      candidates. */
  class ConvResult {
    var clauses: seq<seq<Candidate>>

    constructor()
      ensures clauses == []
    {
      clauses := [];
    }

    /** `MzConvResult::sort`: the connection costs are added clause by
        clause, then every clause is sorted by cost. */
    method Sort()
      modifies this
      ensures |clauses| == |old(clauses)|
      ensures forall i :: 0 <= i < |clauses| ==>
                SortedByCost(clauses[i]) && multiset(clauses[i]) == multiset(Raised(old(clauses))[i])
    {
      ghost var cs := clauses;
      clauses := RaiseClauses(clauses);
      var j := 0;
      while j < |clauses|
        invariant 0 <= j <= |clauses| == |cs|
        invariant forall x :: 0 <= x < j ==>
                    SortedByCost(clauses[x]) && multiset(clauses[x]) == multiset(Raised(cs)[x])
        invariant forall x :: j <= x < |cs| ==> clauses[x] == Raised(cs)[x]
      {
        clauses := clauses[j := SortByCost(clauses[j])];
        j := j + 1;
      }
    }
  }

  /** The connection costs from a clause depend only on its classes. */
  lemma {:induction false} ExtraCostOfClasses(a: seq<Candidate>, b: seq<Candidate>, b2: set<HinshiBunrui>, j: nat)
    requires j <= |a| == |b|
    requires forall k :: 0 <= k < |a| ==> a[k].bunruis == b[k].bunruis
    ensures ExtraCost(a, b2, j) == ExtraCost(b, b2, j)
  {
    if j > 0 {
      ExtraCostOfClasses(a, b, b2, j - 1);
    }
  }

  /** Raising clause `i` from the already raised clause `i - 1` gives
      the same costs as raising it from the original. */
  lemma RaisedFromRaised(cs: seq<seq<Candidate>>, i: nat)
    requires 1 <= i < |cs|
    ensures |Raised(cs)[i]| == |cs[i]|
    ensures forall k :: 0 <= k < |cs[i]| ==> RaisedCandidate(Raised(cs)[i - 1], cs[i][k]) == Raised(cs)[i][k]
  {
    var prev := Raised(cs)[i - 1];
    if i > 1 {
      forall k | 0 <= k < |cs[i - 1]|
        ensures |prev| == |cs[i - 1]| && prev[k].bunruis == cs[i - 1][k].bunruis
      {
        RaisedKeepsCandidates(cs, i - 1, k);
      }
    }
    assert |Raised(cs)[i]| == |cs[i]|;
    forall k | 0 <= k < |cs[i]|
      ensures RaisedCandidate(prev, cs[i][k]) == Raised(cs)[i][k]
    {
      RaisedKeepsCandidates(cs, i, k);
      ExtraCostOfClasses(prev, cs[i - 1], cs[i][k].bunruis, |prev|);
    }
  }
}
