/** The shape of the lattice's chunks and the linking pass of
    `Lattice::UpdateLinks`, stated on values. The nodes stay as they are;
    the pass computes, for every node, its link count and its branches:
    chunk by chunk and in order, each linked node takes as branches the
    nodes of the chunk where it ends that it may connect to, and each of
    those gains one link. */
module Linking {
  import opened Text
  import opened Hinshi
  import opened LatticeNodes
  import opened ConnectRules

  /** Every node of chunk `i` has a non-empty reading that ends inside a
      text of `len` characters. */
  predicate ChunkFits(len: nat, i: nat, c: seq<Node>)
  {
    forall n :: n in c ==> 0 < |n.pre| && i + |n.pre| <= len
  }

  /** `m_pre.size() + 1 == m_chunks.size()`, and every node before the
      tail chunk fits the text. */
  predicate Shaped(len: nat, cs: seq<seq<Node>>)
  {
    |cs| == len + 1 && forall i :: 0 <= i < len ==> ChunkFits(len, i, cs[i])
  }

  /** Where node `k` of chunk `i` ends. */
  function End(cs: seq<seq<Node>>, len: nat, i: nat, k: nat): (j: nat)
    requires Shaped(len, cs) && i < len && k < |cs[i]|
    ensures i < j <= len
  {
    assert cs[i][k] in cs[i];
    i + |cs[i][k].pre|
  }

  /** A connection rule: whether one node may be followed by another. */
  type Rule = (Node, Node) -> bool

  /** The link counts and branches of every node, chunk by chunk. */
  datatype Links = Links(linked: seq<seq<nat>>, branches: seq<seq<seq<nat>>>)

  predicate Fits(cs: seq<seq<Node>>, s: Links)
  {
    |s.linked| == |cs| && |s.branches| == |cs|
    && forall x :: 0 <= x < |cs| ==> |s.linked[x]| == |cs[x]| && |s.branches[x]| == |cs[x]|
  }

  /** No node has branches. */
  predicate Unbranched(cs: seq<seq<Node>>, s: Links)
    requires Fits(cs, s)
  {
    forall x, k :: 0 <= x < |cs| && 0 <= k < |cs[x]| ==> s.branches[x][k] == []
  }

  // ---- One linked node ------------------------------------------------------

  /** The identities of the nodes of `c` that `n1` may connect to, in
      order: the branches `n1` takes. */
  function Targets(conn: Rule, n1: Node, c: seq<Node>): (r: seq<nat>)
    ensures |r| <= |c|
    ensures forall x :: x in r ==> exists m :: 0 <= m < |c| && c[m].id == x && conn(n1, c[m])
    decreases |c|
  {
    if |c| == 0 then []
    else
      var r := Targets(conn, n1, c[..|c| - 1]) + (if conn(n1, c[|c| - 1]) then [c[|c| - 1].id] else []);
      assert forall m :: 0 <= m < |c| - 1 ==> c[..|c| - 1][m] == c[m];
      r
  }

  /** Targets of a chunk grown by one node. */
  lemma TargetsSnoc(conn: Rule, n1: Node, c: seq<Node>, m: nat)
    requires m < |c|
    ensures Targets(conn, n1, c[..m + 1])
            == Targets(conn, n1, c[..m]) + (if conn(n1, c[m]) then [c[m].id] else [])
  {
    assert c[..m + 1][..m] == c[..m];
  }

  /** Two rules that agree on a node and the nodes of a chunk, position by
      position, give the same targets there. */
  lemma {:induction false} TargetsAgree(conn: Rule, n1: Node, c: seq<Node>, conn': Rule, m1: Node, d: seq<Node>)
    requires |c| == |d| && forall m :: 0 <= m < |c| ==> c[m].id == d[m].id && conn(n1, c[m]) == conn'(m1, d[m])
    ensures Targets(conn, n1, c) == Targets(conn', m1, d)
    decreases |c|
  {
    if |c| > 0 {
      TargetsAgree(conn, n1, c[..|c| - 1], conn', m1, d[..|d| - 1]);
    }
  }

  /** The link counts `l` of chunk `c` after `ptr2->linked++` on each node
      `n1` may connect to. */
  function Bumped(conn: Rule, n1: Node, c: seq<Node>, l: seq<nat>): (r: seq<nat>)
    requires |l| == |c|
    ensures |r| == |c|
    ensures forall m :: 0 <= m < |c| ==> r[m] == l[m] + (if conn(n1, c[m]) then 1 else 0)
  {
    seq(|c|, m requires 0 <= m < |c| => l[m] + (if conn(n1, c[m]) then 1 else 0))
  }

  /** The pass over node `k` of chunk `i`: an unlinked node is skipped; a
      linked one takes its branches from the chunk where it ends, whose
      nodes it connects to gain a link. */
  function LinkNode(conn: Rule, cs: seq<seq<Node>>, len: nat, s: Links, i: nat, k: nat): (r: Links)
    requires Shaped(len, cs) && Fits(cs, s) && i < len && k < |cs[i]|
    ensures Fits(cs, r)
  {
    if s.linked[i][k] == 0 then s
    else
      var n1 := cs[i][k];
      var j := End(cs, len, i, k);
      Links(s.linked[j := Bumped(conn, n1, cs[j], s.linked[j])],
            s.branches[i := s.branches[i][k := s.branches[i][k] + Targets(conn, n1, cs[j])]])
  }

  /** The pass over the first `q` nodes of chunk `i`. */
  function LinkChunk(conn: Rule, cs: seq<seq<Node>>, len: nat, s: Links, i: nat, q: nat): (r: Links)
    requires Shaped(len, cs) && Fits(cs, s) && i < len && q <= |cs[i]|
    ensures Fits(cs, r)
    decreases q
  {
    if q == 0 then s else LinkNode(conn, cs, len, LinkChunk(conn, cs, len, s, i, q - 1), i, q - 1)
  }

  /** The pass over the chunks before `p`. */
  function LinkAll(conn: Rule, cs: seq<seq<Node>>, len: nat, s: Links, p: nat): (r: Links)
    requires Shaped(len, cs) && Fits(cs, s) && p <= len
    ensures Fits(cs, r)
    decreases p
  {
    if p == 0 then s else LinkChunk(conn, cs, len, LinkAll(conn, cs, len, s, p - 1), p - 1, |cs[p - 1]|)
  }

  // ---- Counting the links --------------------------------------------------

  /** How many of the first `q` nodes of chunk `i` have a link count in
      `l`, end at `j` and may connect to `n2`. */
  function CountChunk(conn: Rule, cs: seq<seq<Node>>, l: seq<seq<nat>>, i: nat, q: nat, j: nat, n2: Node): nat
    requires i < |cs| && i < |l| && q <= |cs[i]| && q <= |l[i]|
    decreases q
  {
    if q == 0 then 0
    else
      CountChunk(conn, cs, l, i, q - 1, j, n2)
      + (if l[i][q - 1] != 0 && i + |cs[i][q - 1].pre| == j && conn(cs[i][q - 1], n2) then 1 else 0)
  }

  /** The same over all the nodes of the chunks before `p`. */
  function CountBefore(conn: Rule, cs: seq<seq<Node>>, l: seq<seq<nat>>, p: nat, j: nat, n2: Node): nat
    requires p <= |cs| && |l| == |cs| && forall x :: 0 <= x < |cs| ==> |l[x]| == |cs[x]|
    decreases p
  {
    if p == 0 then 0
    else CountBefore(conn, cs, l, p - 1, j, n2) + CountChunk(conn, cs, l, p - 1, |cs[p - 1]|, j, n2)
  }

  /** Counting reads only the link counts of the counted chunks. */
  lemma {:induction false} CountBeforeFrame(conn: Rule, cs: seq<seq<Node>>, a: seq<seq<nat>>, b: seq<seq<nat>>, p: nat, j: nat, n2: Node)
    requires p <= |cs| && |a| == |cs| && |b| == |cs|
    requires forall x :: 0 <= x < |cs| ==> |a[x]| == |cs[x]| && |b[x]| == |cs[x]|
    requires forall x :: 0 <= x < p ==> a[x] == b[x]
    ensures CountBefore(conn, cs, a, p, j, n2) == CountBefore(conn, cs, b, p, j, n2)
    decreases p
  {
    if p > 0 {
      CountBeforeFrame(conn, cs, a, b, p - 1, j, n2);
      CountChunkSame(conn, cs, a, b, p - 1, |cs[p - 1]|, j, n2);
    }
  }

  lemma {:induction false} CountChunkSame(conn: Rule, cs: seq<seq<Node>>, a: seq<seq<nat>>, b: seq<seq<nat>>, i: nat, q: nat, j: nat, n2: Node)
    requires i < |cs| && i < |a| && i < |b| && a[i] == b[i] && q <= |cs[i]| && q <= |a[i]|
    ensures CountChunk(conn, cs, a, i, q, j, n2) == CountChunk(conn, cs, b, i, q, j, n2)
    decreases q
  {
    if q > 0 {
      CountChunkSame(conn, cs, a, b, i, q - 1, j, n2);
    }
  }

  /** Nodes of chunk `i` end after `i`. */
  lemma {:induction false} CountChunkEarlier(conn: Rule, cs: seq<seq<Node>>, len: nat, l: seq<seq<nat>>, i: nat, q: nat, j: nat, n2: Node)
    requires Shaped(len, cs) && i < len && i < |l| && q <= |cs[i]| && q <= |l[i]| && j <= i
    ensures CountChunk(conn, cs, l, i, q, j, n2) == 0
    decreases q
  {
    if q > 0 {
      assert cs[i][q - 1] in cs[i];
      CountChunkEarlier(conn, cs, len, l, i, q - 1, j, n2);
    }
  }

  /** The chunks at or after `j` count nothing for `j`, so counting the
      chunks before `j` is enough. */
  lemma {:induction false} CountBeforeUpTo(conn: Rule, cs: seq<seq<Node>>, len: nat, l: seq<seq<nat>>, p: nat, j: nat, n2: Node)
    requires Shaped(len, cs) && |l| == |cs| && forall x :: 0 <= x < |cs| ==> |l[x]| == |cs[x]|
    requires j <= p <= len
    ensures CountBefore(conn, cs, l, p, j, n2) == CountBefore(conn, cs, l, j, j, n2)
    decreases p
  {
    if p > j {
      CountBeforeUpTo(conn, cs, len, l, p - 1, j, n2);
      CountChunkEarlier(conn, cs, len, l, p - 1, |cs[p - 1]|, j, n2);
    }
  }

  /** A count is positive exactly when some counted node exists. */
  lemma {:induction false} CountChunkPositive(conn: Rule, cs: seq<seq<Node>>, l: seq<seq<nat>>, i: nat, q: nat, j: nat, n2: Node)
    requires i < |cs| && i < |l| && q <= |cs[i]| && q <= |l[i]|
    ensures CountChunk(conn, cs, l, i, q, j, n2) > 0 <==>
              exists k :: 0 <= k < q && l[i][k] != 0 && i + |cs[i][k].pre| == j && conn(cs[i][k], n2)
    decreases q
  {
    if q > 0 {
      CountChunkPositive(conn, cs, l, i, q - 1, j, n2);
    }
  }

  lemma {:induction false} CountBeforePositive(conn: Rule, cs: seq<seq<Node>>, l: seq<seq<nat>>, p: nat, j: nat, n2: Node)
    requires p <= |cs| && |l| == |cs| && forall x :: 0 <= x < |cs| ==> |l[x]| == |cs[x]|
    ensures CountBefore(conn, cs, l, p, j, n2) > 0 <==>
              exists i, k :: 0 <= i < p && 0 <= k < |cs[i]| && l[i][k] != 0
                             && i + |cs[i][k].pre| == j && conn(cs[i][k], n2)
    decreases p
  {
    if p > 0 {
      CountBeforePositive(conn, cs, l, p - 1, j, n2);
      CountChunkPositive(conn, cs, l, p - 1, |cs[p - 1]|, j, n2);
    }
  }

  // ---- What a pass does ----------------------------------------------------

  /** The pass over the first `q` nodes of chunk `p` leaves the link
      counts of the chunks up to `p` and the branches of the other chunks
      alone. */
  lemma {:induction false} LinkChunkKeeps(conn: Rule, cs: seq<seq<Node>>, len: nat, s: Links, p: nat, q: nat)
    requires Shaped(len, cs) && Fits(cs, s) && p < len && q <= |cs[p]|
    ensures (forall x :: 0 <= x <= p ==> LinkChunk(conn, cs, len, s, p, q).linked[x] == s.linked[x])
            && (forall x :: 0 <= x < |cs| && x != p ==> LinkChunk(conn, cs, len, s, p, q).branches[x] == s.branches[x])
    decreases q
  {
    if q > 0 {
      LinkChunkKeeps(conn, cs, len, s, p, q - 1);
    }
  }

  /** In a chunk without branches, each linked node among the first `q`
      takes its targets as branches; the others stay without. */
  lemma {:induction false} LinkChunkBranches(conn: Rule, cs: seq<seq<Node>>, len: nat, s: Links, p: nat, q: nat)
    requires Shaped(len, cs) && Fits(cs, s) && p < len && q <= |cs[p]|
    requires forall k :: 0 <= k < |cs[p]| ==> s.branches[p][k] == []
    ensures forall k :: 0 <= k < |cs[p]| ==>
              LinkChunk(conn, cs, len, s, p, q).branches[p][k]
              == (if k < q && s.linked[p][k] != 0 then Targets(conn, cs[p][k], cs[End(cs, len, p, k)]) else [])
    decreases q
  {
    if q > 0 {
      var k0 := q - 1;
      var t := LinkChunk(conn, cs, len, s, p, k0);
      LinkChunkBranches(conn, cs, len, s, p, k0);
      LinkChunkKeeps(conn, cs, len, s, p, k0);
      assert t.linked[p] == s.linked[p];
      var r := LinkNode(conn, cs, len, t, p, k0);
      assert LinkChunk(conn, cs, len, s, p, q) == r;
      if t.linked[p][k0] != 0 {
        var want := Targets(conn, cs[p][k0], cs[End(cs, len, p, k0)]);
        assert r.branches[p] == t.branches[p][k0 := t.branches[p][k0] + want];
        assert t.branches[p][k0] + want == want;
      } else {
        assert r == t;
      }
      forall k | 0 <= k < |cs[p]|
        ensures r.branches[p][k]
                == (if k < q && s.linked[p][k] != 0 then Targets(conn, cs[p][k], cs[End(cs, len, p, k)]) else [])
      {
        if k != k0 {
          assert r.branches[p][k] == t.branches[p][k];
        }
      }
    }
  }

  /** Each node of a later chunk gains one link per linked node among the
      first `q` of chunk `p` that ends at it and may connect to it. */
  lemma {:induction false} LinkChunkCounts(conn: Rule, cs: seq<seq<Node>>, len: nat, s: Links, p: nat, q: nat)
    requires Shaped(len, cs) && Fits(cs, s) && p < len && q <= |cs[p]|
    ensures forall j, m :: p < j < |cs| && 0 <= m < |cs[j]| ==>
              LinkChunk(conn, cs, len, s, p, q).linked[j][m] == s.linked[j][m] + CountChunk(conn, cs, s.linked, p, q, j, cs[j][m])
    decreases q
  {
    if q > 0 {
      LinkChunkCounts(conn, cs, len, s, p, q - 1);
      LinkChunkKeeps(conn, cs, len, s, p, q - 1);
    }
  }

  /** The pass over the chunks before `p`, from a state without branches:
      each node of a passed chunk that is linked has as branches exactly
      its targets, and the other nodes have none. */
  lemma {:induction false} LinkAllBranches(conn: Rule, cs: seq<seq<Node>>, len: nat, s: Links, p: nat)
    requires Shaped(len, cs) && Fits(cs, s) && Unbranched(cs, s) && p <= len
    ensures (forall i, k :: 0 <= i < p && 0 <= k < |cs[i]| ==>
               LinkAll(conn, cs, len, s, p).branches[i][k]
               == (if LinkAll(conn, cs, len, s, p).linked[i][k] != 0 then Targets(conn, cs[i][k], cs[End(cs, len, i, k)]) else []))
            && (forall i, k :: p <= i < |cs| && 0 <= k < |cs[i]| ==> LinkAll(conn, cs, len, s, p).branches[i][k] == [])
    decreases p
  {
    if p > 0 {
      var q := p - 1;
      var t := LinkAll(conn, cs, len, s, q);
      LinkAllBranches(conn, cs, len, s, q);
      var r := LinkChunk(conn, cs, len, t, q, |cs[q]|);
      assert LinkAll(conn, cs, len, s, p) == r;
      LinkChunkKeeps(conn, cs, len, t, q, |cs[q]|);
      forall k | 0 <= k < |cs[q]|
        ensures t.branches[q][k] == []
      {
      }
      LinkChunkBranches(conn, cs, len, t, q, |cs[q]|);
      forall i: int, k: int | 0 <= i < p && 0 <= k < |cs[i]|
        ensures r.branches[i][k]
                == (if r.linked[i][k] != 0 then Targets(conn, cs[i][k], cs[End(cs, len, i, k)]) else [])
      {
        assert r.linked[i] == t.linked[i];
        if i < q {
          assert r.branches[i] == t.branches[i];
        }
      }
      forall i: int, k: int | p <= i < |cs| && 0 <= k < |cs[i]|
        ensures r.branches[i][k] == []
      {
        assert r.branches[i] == t.branches[i];
      }
    }
  }

  /** The pass over the chunks before `p`: every link count has grown by
      the number of linked nodes of the passed chunks that end at the node
      and may connect to it. */
  lemma {:induction false} LinkAllCounts(conn: Rule, cs: seq<seq<Node>>, len: nat, s: Links, p: nat)
    requires Shaped(len, cs) && Fits(cs, s) && p <= len
    ensures forall j, m :: 0 <= j < |cs| && 0 <= m < |cs[j]| ==>
              LinkAll(conn, cs, len, s, p).linked[j][m] == s.linked[j][m] + CountBefore(conn, cs, LinkAll(conn, cs, len, s, p).linked, p, j, cs[j][m])
    decreases p
  {
    if p > 0 {
      var q := p - 1;
      var t := LinkAll(conn, cs, len, s, q);
      LinkAllCounts(conn, cs, len, s, q);
      var r := LinkChunk(conn, cs, len, t, q, |cs[q]|);
      LinkChunkKeeps(conn, cs, len, t, q, |cs[q]|);
      LinkChunkCounts(conn, cs, len, t, q, |cs[q]|);
      forall j: int, m: int | 0 <= j < |cs| && 0 <= m < |cs[j]|
        ensures r.linked[j][m] == s.linked[j][m] + CountBefore(conn, cs, r.linked, p, j, cs[j][m])
      {
        var n2 := cs[j][m];
        CountBeforeFrame(conn, cs, r.linked, t.linked, q, j, n2);
        CountChunkSame(conn, cs, r.linked, t.linked, q, |cs[q]|, j, n2);
        assert CountBefore(conn, cs, r.linked, p, j, n2)
               == CountBefore(conn, cs, t.linked, q, j, n2) + CountChunk(conn, cs, t.linked, q, |cs[q]|, j, n2);
        if j <= q {
          CountChunkEarlier(conn, cs, len, t.linked, q, |cs[q]|, j, n2);
          assert r.linked[j] == t.linked[j];
        }
      }
    }
  }

  // ---- The whole pass --------------------------------------------------------

  /** After the whole pass from a state without branches, every node's
      link count is its starting count plus the number of linked nodes of
      earlier chunks that end at it and may connect to it, so a node is
      linked exactly when it started linked or such a node exists. */
  lemma Linked(conn: Rule, cs: seq<seq<Node>>, len: nat, s: Links, j: nat, m: nat)
    requires Shaped(len, cs) && Fits(cs, s) && Unbranched(cs, s)
    requires j <= len && m < |cs[j]|
    ensures LinkAll(conn, cs, len, s, len).linked[j][m] == s.linked[j][m] + CountBefore(conn, cs, LinkAll(conn, cs, len, s, len).linked, j, j, cs[j][m])
            && (LinkAll(conn, cs, len, s, len).linked[j][m] > 0 <==>
                  s.linked[j][m] > 0
                  || exists i, k :: 0 <= i < j && 0 <= k < |cs[i]| && LinkAll(conn, cs, len, s, len).linked[i][k] != 0
                                    && i + |cs[i][k].pre| == j && conn(cs[i][k], cs[j][m]))
  {
    var r := LinkAll(conn, cs, len, s, len);
    LinkAllCounts(conn, cs, len, s, len);
    CountBeforeUpTo(conn, cs, len, r.linked, len, j, cs[j][m]);
    CountBeforePositive(conn, cs, r.linked, j, j, cs[j][m]);
  }

  /** After the whole pass, each linked node before the tail chunk has as
      branches exactly the nodes it may connect to in the chunk where it
      ends, in order; an unlinked node has none. */
  lemma Branches(conn: Rule, cs: seq<seq<Node>>, len: nat, s: Links, i: nat, k: nat)
    requires Shaped(len, cs) && Fits(cs, s) && Unbranched(cs, s)
    requires i < len && k < |cs[i]|
    ensures LinkAll(conn, cs, len, s, len).branches[i][k]
            == (if LinkAll(conn, cs, len, s, len).linked[i][k] != 0 then Targets(conn, cs[i][k], cs[End(cs, len, i, k)]) else [])
  {
    LinkAllBranches(conn, cs, len, s, len);
  }
}
