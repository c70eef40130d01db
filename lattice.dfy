/** The lattice of kana-kanji conversion (`Lattice`): the text being
    converted, one chunk of nodes per start index, the reference counts of
    the indices, and the head node. The inflection generators supply the
    nodes a dictionary record adds; this module stores them, links them,
    cuts the unlinked ones and finds how far the links reach. */
module LatticeGraph {
  import opened Wrappers
  import opened Bytes
  import opened Text
  import opened Hinshi
  import opened LatticeNodes
  import opened ConnectRules
  import opened Inflection
  import opened Linking

  // ---- Stored nodes and reference counts -----------------------------------

  /** A node generator: the nodes a dictionary record adds at an index of
      the text. The lattice methods take it as a parameter; the generator
      of the source is `DoFieldsOf(kata)`. */
  type Generator = (String, nat, Fields, int) -> seq<Node>

  /** What the lattice relies on of a generator: for a record with a
      non-empty reading, each node reads the text at the index, is no
      shorter than the reading and fits in the text. */
  ghost predicate Sound(gen: Generator)
  {
    forall text: String, index: nat, f: Fields, delta: int {:trigger gen(text, index, f, delta)} ::
      |f.pre| > 0 ==>
        ChunkFits(|text|, index, gen(text, index, f, delta))
        && Anchored(text, index, f.pre, gen(text, index, f, delta))
        && (gen(text, index, f, delta) != [] ==> index < |text|)
  }

  /** `Lattice::DoFields` as a generator. */
  function DoFieldsOf(kata: String -> String): Generator
  {
    (text: String, index: nat, f: Fields, delta: int) => DoFields(text, index, f, delta, kata)
  }

  /** The nodes `DoFields` generates for a non-empty reading each read the
      text at the index and are no shorter than the reading. */
  lemma DoFieldsSound(kata: String -> String)
    ensures Sound(DoFieldsOf(kata))
  {
    forall text: String, index: nat, f: Fields, delta: int | |f.pre| > 0
      ensures ChunkFits(|text|, index, DoFieldsOf(kata)(text, index, f, delta))
      ensures DoFieldsOf(kata)(text, index, f, delta) != [] ==> index < |text|
    {
      var r := DoFields(text, index, f, delta, kata);
      if r != [] {
        assert r[0] in r;
      }
    }
  }

  /** The nodes as the lattice stores them: each a new object, with the
      identities `k`, `k + 1`, ... */
  function Stamp(ns: seq<Node>, k: nat): (r: seq<Node>)
    ensures |r| == |ns|
    ensures forall j :: 0 <= j < |ns| ==> r[j] == ns[j].(id := k + j)
    decreases |ns|
  {
    if |ns| == 0 then [] else Stamp(ns[..|ns| - 1], k) + [ns[|ns| - 1].(id := k + |ns| - 1)]
  }

  /** `m_chunks[i]` with `ns` pushed at its end. */
  function Appended(cs: seq<seq<Node>>, i: nat, ns: seq<Node>): (r: seq<seq<Node>>)
    requires ns != [] ==> i < |cs|
    ensures |r| == |cs|
  {
    if ns == [] then cs else cs[i := cs[i] + ns]
  }

  /** How many of the nodes `ns`, starting at `i`, end at `j`. */
  function EndCount(ns: seq<Node>, i: nat, j: nat): nat
    decreases |ns|
  {
    if |ns| == 0 then 0
    else EndCount(ns[..|ns| - 1], i, j) + (if i + |ns[|ns| - 1].pre| == j then 1 else 0)
  }

  /** `m_refs[index + node.pre.size()]++` for each node pushed at `i`, in
      order: every index gains one reference per node that ends there. */
  function AddRefs(refs: seq<nat>, i: nat, ns: seq<Node>): (r: seq<nat>)
    requires forall n :: n in ns ==> i + |n.pre| < |refs|
    ensures |r| == |refs|
    ensures forall j :: 0 <= j < |refs| ==> r[j] == refs[j] + EndCount(ns, i, j)
    decreases |ns|
  {
    if |ns| == 0 then refs
    else
      var last := ns[|ns| - 1];
      assert forall n :: n in ns[..|ns| - 1] ==> n in ns;
      var r := AddRefs(refs, i, ns[..|ns| - 1]);
      r[i + |last.pre| := r[i + |last.pre|] + 1]
  }

  /** Nodes of a chunk in which some node ends at `j`. */
  lemma EndCountPositive(ns: seq<Node>, i: nat, j: nat)
    ensures EndCount(ns, i, j) > 0 <==> exists k :: 0 <= k < |ns| && i + |ns[k].pre| == j
    decreases |ns|
  {
    if |ns| > 0 {
      var init := ns[..|ns| - 1];
      EndCountPositive(init, i, j);
      if EndCount(init, i, j) > 0 {
        var k :| 0 <= k < |init| && i + |init[k].pre| == j;
        assert ns[k] == init[k];
      }
      forall k | 0 <= k < |init| && i + |init[k].pre| == j
        ensures EndCount(init, i, j) > 0
      {
      }
      if exists k :: 0 <= k < |ns| && i + |ns[k].pre| == j {
        var k :| 0 <= k < |ns| && i + |ns[k].pre| == j;
        if k < |init| {
          assert init[k] == ns[k];
        }
      }
    }
  }

  // ---- Reference counts (`UpdateRefs`) --------------------------------------

  /** `m_refs.assign(m_pre.size() + 1, 0); m_refs[0] = 1`. */
  function StartRefs(len: nat): (r: seq<nat>)
    ensures |r| == len + 1 && r[0] == 1
    ensures forall j :: 0 < j <= len ==> r[j] == 0
  {
    seq(len + 1, j => if j == 0 then 1 else 0)
  }

  /** The counts after the loop of `UpdateRefs` has visited the indices
      before `p`: an index with references passes one to the end of each
      of its nodes; an index without any is skipped. */
  function RefsFrom(cs: seq<seq<Node>>, len: nat, p: nat): (r: seq<nat>)
    requires Shaped(len, cs) && p <= len
    ensures |r| == len + 1
    decreases p
  {
    if p == 0 then StartRefs(len)
    else
      var r := RefsFrom(cs, len, p - 1);
      if r[p - 1] == 0 then r else AddRefs(r, p - 1, cs[p - 1])
  }

  /** An index is reachable when it is the start, or some node of a
      reachable index ends there. */
  ghost predicate Reachable(cs: seq<seq<Node>>, len: nat, j: nat)
    requires Shaped(len, cs) && j <= len
    decreases j
  {
    j == 0
    || exists i, k :: 0 <= i < j && 0 <= k < |cs[i]| && i + |cs[i][k].pre| == j && Reachable(cs, len, i)
  }

  /** `j` is the start, or a node of a reachable index before `p` ends at
      `j`. */
  ghost predicate ReachedBefore(cs: seq<seq<Node>>, len: nat, p: nat, j: nat)
    requires Shaped(len, cs) && p <= len && j <= len
  {
    j == 0
    || exists i, k :: 0 <= i < p && 0 <= k < |cs[i]| && i + |cs[i][k].pre| == j && Reachable(cs, len, i)
  }

  /** Nodes start before they end, so only indices before `j` reach `j`. */
  lemma ReachedBeforeEnough(cs: seq<seq<Node>>, len: nat, p: nat, j: nat)
    requires Shaped(len, cs) && j <= p <= len
    ensures ReachedBefore(cs, len, p, j) <==> Reachable(cs, len, j)
  {
    if ReachedBefore(cs, len, p, j) && j != 0 {
      var i, k :| 0 <= i < p && 0 <= k < |cs[i]| && i + |cs[i][k].pre| == j && Reachable(cs, len, i);
      assert cs[i][k] in cs[i];
    }
  }

  /** The invariant of the `UpdateRefs` loop: after the indices before
      `p`, an index has references exactly when it is reached from one of
      them. */
  lemma {:induction false} RefsFromReach(cs: seq<seq<Node>>, len: nat, p: nat, j: nat)
    requires Shaped(len, cs) && p <= len && j <= len
    ensures RefsFrom(cs, len, p)[j] > 0 <==> ReachedBefore(cs, len, p, j)
    decreases p
  {
    if p > 0 {
      var q := p - 1;
      var r := RefsFrom(cs, len, q);
      var now := RefsFrom(cs, len, p);
      assert now[j] == r[j] + (if r[q] == 0 then 0 else EndCount(cs[q], q, j));
      RefsFromReach(cs, len, q, j);
      RefsFromReach(cs, len, q, q);
      ReachedBeforeEnough(cs, len, q, q);
      EndCountPositive(cs[q], q, j);
      if ReachedBefore(cs, len, p, j) && !ReachedBefore(cs, len, q, j) {
        var i, k :| 0 <= i < p && 0 <= k < |cs[i]| && i + |cs[i][k].pre| == j && Reachable(cs, len, i);
        assert i == q && r[q] > 0;
        assert EndCount(cs[q], q, j) > 0;
      }
      if now[j] > 0 && r[j] == 0 {
        assert r[q] > 0 && EndCount(cs[q], q, j) > 0;
        var k :| 0 <= k < |cs[q]| && q + |cs[q][k].pre| == j;
        assert ReachedBefore(cs, len, p, j);
      }
    }
  }

  /** What `UpdateRefs` computes: an index has references exactly when
      it is reachable from the start by a path of nodes. */
  lemma RefsMeanReachable(cs: seq<seq<Node>>, len: nat, j: nat)
    requires Shaped(len, cs) && j <= len
    ensures RefsFrom(cs, len, len)[j] > 0 <==> Reachable(cs, len, j)
  {
    RefsFromReach(cs, len, len, j);
    ReachedBeforeEnough(cs, len, len, j);
  }

  // ---- Cutting unlinked nodes ----------------------------------------------

  /** The nodes of a chunk that `std::remove_if` keeps: the linked ones,
      in their order. */
  function KeepLinked(c: seq<Node>): (r: seq<Node>)
    ensures |r| <= |c|
    ensures forall n :: n in r ==> n in c && n.linked != 0
    decreases |c|
  {
    if |c| == 0 then []
    else KeepLinked(c[..|c| - 1]) + (if c[|c| - 1].linked != 0 then [c[|c| - 1]] else [])
  }

  /** Every linked node is kept. */
  lemma {:induction false} KeepLinkedKeepsAll(c: seq<Node>, n: Node)
    requires n in c && n.linked != 0
    ensures n in KeepLinked(c)
    decreases |c|
  {
    if n != c[|c| - 1] {
      assert n in c[..|c| - 1];
      KeepLinkedKeepsAll(c[..|c| - 1], n);
    }
  }

  /** The kept nodes keep their relative order: cutting a concatenation
      cuts each part. */
  lemma {:induction false} KeepLinkedConcat(a: seq<Node>, b: seq<Node>)
    ensures KeepLinked(a + b) == KeepLinked(a) + KeepLinked(b)
    decreases |b|
  {
    if |b| > 0 {
      assert (a + b)[..|a + b| - 1] == a + b[..|b| - 1];
      KeepLinkedConcat(a, b[..|b| - 1]);
    } else {
      assert a + b == a;
    }
  }

  /** Cutting twice cuts nothing more. */
  lemma {:induction false} KeepLinkedIdempotent(c: seq<Node>)
    ensures KeepLinked(KeepLinked(c)) == KeepLinked(c)
    decreases |c|
  {
    if |c| > 0 {
      var init := c[..|c| - 1];
      KeepLinkedIdempotent(init);
      var tail := if c[|c| - 1].linked != 0 then [c[|c| - 1]] else [];
      KeepLinkedConcat(KeepLinked(init), tail);
      if tail != [] {
        assert KeepLinked(tail) == KeepLinked(tail[..0]) + tail;
      }
    }
  }

  /** The compaction loop of `std::remove_if` over one chunk. */
  method RemoveUnlinked(c: seq<Node>) returns (r: seq<Node>)
    ensures r == KeepLinked(c)
  {
    r := [];
    var t := 0;
    while t < |c|
      invariant 0 <= t <= |c|
      invariant r == KeepLinked(c[..t])
    {
      assert c[..t + 1][..t] == c[..t];
      if c[t].linked != 0 {
        r := r + [c[t]];
      }
      t := t + 1;
    }
    assert c[..|c|] == c;
  }

  // ---- The last linked index -----------------------------------------------

  predicate HasLinked(c: seq<Node>)
  {
    exists n :: n in c && n.linked != 0
  }

  /** Pushing nodes that fit keeps the lattice shaped. */
  lemma AppendedShaped(len: nat, cs: seq<seq<Node>>, i: nat, ns: seq<Node>, k: nat)
    requires Shaped(len, cs) && ChunkFits(len, i, ns) && (ns != [] ==> i < len)
    ensures Shaped(len, Appended(cs, i, Stamp(ns, k)))
  {
    if ns != [] {
      var r := Appended(cs, i, Stamp(ns, k));
      forall n: Node | n in r[i]
        ensures 0 < |n.pre| && i + |n.pre| <= len
      {
        if n !in cs[i] {
          var j :| 0 <= j < |ns| && n == Stamp(ns, k)[j];
          assert ns[j] in ns;
        }
      }
    }
  }

  /** The inner loop of `UpdateRefs` over one chunk: one reference at the
      end of each node. */
  method PassRefs(refs: seq<nat>, i: nat, c: seq<Node>) returns (r: seq<nat>)
    requires forall n :: n in c ==> i + |n.pre| < |refs|
    ensures r == AddRefs(refs, i, c)
  {
    r := refs;
    var t := 0;
    while t < |c|
      invariant 0 <= t <= |c|
      invariant forall n :: n in c[..t] ==> n in c
      invariant r == AddRefs(refs, i, c[..t])
    {
      assert c[t] in c;
      assert c[..t + 1][..t] == c[..t];
      r := r[i + |c[t].pre| := r[i + |c[t].pre|] + 1];
      t := t + 1;
    }
    assert c[..|c|] == c;
  }

  // ---- Links and branches (`UpdateLinks`) ----------------------------------

  /** Chunk `c` as `UnlinkAllNodes` leaves it: no links, no branches. */
  function Unlinked(c: seq<Node>): (r: seq<Node>)
    ensures |r| == |c|
    ensures forall k :: 0 <= k < |c| ==> r[k] == c[k].(linked := 0, branches := [])
  {
    seq(|c|, k requires 0 <= k < |c| => c[k].(linked := 0, branches := []))
  }

  /** The chunks before the tail chunk unlinked. */
  function UnlinkAll(cs: seq<seq<Node>>, len: nat): (r: seq<seq<Node>>)
    ensures |r| == |cs|
    ensures forall x :: 0 <= x < |cs| ==> r[x] == if x < len then Unlinked(cs[x]) else cs[x]
  {
    seq(|cs|, x requires 0 <= x < |cs| => if x < len then Unlinked(cs[x]) else cs[x])
  }

  /** Chunk `c` with one link on every node, as the head gives them. */
  function Marked(c: seq<Node>): (r: seq<Node>)
    ensures |r| == |c|
    ensures forall k :: 0 <= k < |c| ==> r[k] == c[k].(linked := 1)
  {
    seq(|c|, k requires 0 <= k < |c| => c[k].(linked := 1))
  }

  /** The identities of the nodes of `c`, in order. */
  function Ids(c: seq<Node>): (r: seq<nat>)
    ensures |r| == |c|
    ensures forall k :: 0 <= k < |c| ==> r[k] == c[k].id
  {
    seq(|c|, k requires 0 <= k < |c| => c[k].id)
  }

  /** The new tail node, with identity `id`. */
  function TailNode(id: nat): (n: Node)
    ensures n.bunrui == HB_TAIL && n.linked == 0 && n.branches == [] && n.pre == [] && n.id == id
  {
    NewNode(HB_TAIL, UNSET_GYOU, KATSUYOU_NONE, 0).(id := id)
  }

  /** The new head node, with identity `id`, linked once, whose branches
      are the nodes of the first chunk. */
  function HeadNode(first: seq<Node>, id: nat): (n: Node)
    ensures n.bunrui == HB_HEAD && n.linked == 1 && n.branches == Ids(first) && n.id == id
  {
    NewNode(HB_HEAD, UNSET_GYOU, KATSUYOU_NONE, 0).(linked := 1, branches := Ids(first), id := id)
  }

  /** The chunks as the linking loop of `UpdateLinks` finds them: all
      unlinked, the first chunk linked once from the head, and a single
      new tail node in the tail chunk. */
  function Prepared(cs: seq<seq<Node>>, len: nat, tailId: nat): (r: seq<seq<Node>>)
    requires |cs| == len + 1 && len > 0
    ensures |r| == len + 1
  {
    var v := UnlinkAll(cs, len);
    v[0 := Marked(v[0])][len := [TailNode(tailId)]]
  }

  /** The link counts and branches the nodes of `cs` carry. */
  function Current(cs: seq<seq<Node>>): (s: Links)
    ensures Fits(cs, s)
  {
    Links(seq(|cs|, x requires 0 <= x < |cs| => seq(|cs[x]|, k requires 0 <= k < |cs[x]| => cs[x][k].linked)),
          seq(|cs|, x requires 0 <= x < |cs| => seq(|cs[x]|, k requires 0 <= k < |cs[x]| => cs[x][k].branches)))
  }

  /** The nodes of `cs` carrying the link counts and branches of `s`. */
  function Attach(cs: seq<seq<Node>>, s: Links): (r: seq<seq<Node>>)
    requires Fits(cs, s)
    ensures |r| == |cs|
    ensures forall x :: 0 <= x < |cs| ==> |r[x]| == |cs[x]|
    ensures forall x, k :: 0 <= x < |cs| && 0 <= k < |cs[x]| ==>
              r[x][k] == cs[x][k].(linked := s.linked[x][k], branches := s.branches[x][k])
  {
    seq(|cs|, x requires 0 <= x < |cs| =>
      seq(|cs[x]|, k requires 0 <= k < |cs[x]| => cs[x][k].(linked := s.linked[x][k], branches := s.branches[x][k])))
  }

  lemma AttachCurrent(cs: seq<seq<Node>>)
    ensures Attach(cs, Current(cs)) == cs
  {
    var r := Attach(cs, Current(cs));
    forall x | 0 <= x < |cs|
      ensures r[x] == cs[x]
    {
    }
  }

  /** The lattice after the linking loop, from chunks `u`. */
  function LinkedLattice(u: seq<seq<Node>>, len: nat): (r: seq<seq<Node>>)
    requires Shaped(len, u) && Unbranched(u, Current(u))
    ensures |r| == |u|
    ensures forall x :: 0 <= x < |u| ==> |r[x]| == |u[x]|
    ensures forall x, k :: 0 <= x < |u| && 0 <= k < |u[x]| ==> Frozen(r[x][k]) == Frozen(u[x][k])
  {
    Attach(u, LinkAll(IsNodeConnectable, u, len, Current(u), len))
  }

  /** `ptr2->linked++` on each node of `c2` that `n1` may connect to. */
  function BumpNodes(conn: Rule, n1: Node, c2: seq<Node>): (r: seq<Node>)
    ensures |r| == |c2|
    ensures forall m :: 0 <= m < |c2| ==>
              r[m] == c2[m].(linked := c2[m].linked + (if conn(n1, c2[m]) then 1 else 0))
  {
    seq(|c2|, m requires 0 <= m < |c2| => c2[m].(linked := c2[m].linked + (if conn(n1, c2[m]) then 1 else 0)))
  }

  /** A node without its link count and branches. */
  function Frozen(n: Node): (r: Node)
    ensures r.linked == 0 && r.branches == []
  {
    n.(linked := 0, branches := [])
  }

  /** A rule that reads none of the link fields. */
  ghost predicate Blind(conn: Rule)
  {
    forall a: Node, b: Node {:trigger Frozen(a), Frozen(b)} :: conn(a, b) == conn(Frozen(a), Frozen(b))
  }

  /** `IsNodeConnectable` reads none of the link fields. */
  lemma ConnectIsBlind()
    ensures Blind(IsNodeConnectable)
  {
    forall a: Node, b: Node
      ensures IsNodeConnectable(a, b) == IsNodeConnectable(Frozen(a), Frozen(b))
    {
    }
  }

  /** One step of the loop on the nodes is one step of the pass on the
      link state. */
  lemma AttachNode(conn: Rule, u: seq<seq<Node>>, len: nat, s: Links, i: nat, k: nat, a: seq<seq<Node>>, j: nat)
    requires Blind(conn)
    requires Shaped(len, u) && Fits(u, s) && i < len && k < |u[i]| && a == Attach(u, s)
    requires s.linked[i][k] != 0 && j == i + |a[i][k].pre|
    ensures j == End(u, len, i, k)
    ensures a[i := a[i][k := a[i][k].(branches := a[i][k].branches + Targets(conn, a[i][k], a[j]))]]
             [j := BumpNodes(conn, a[i][k], a[j])]
            == Attach(u, LinkNode(conn, u, len, s, i, k))
  {
    var n1 := a[i][k];
    assert Frozen(n1) == Frozen(u[i][k]);
    forall m | 0 <= m < |u[j]|
      ensures conn(n1, a[j][m]) == conn(u[i][k], u[j][m])
    {
      assert Frozen(a[j][m]) == Frozen(u[j][m]);
    }
    TargetsAgree(conn, n1, a[j], conn, u[i][k], u[j]);
    var t := LinkNode(conn, u, len, s, i, k);
    var r := Attach(u, t);
    var b := a[i := a[i][k := n1.(branches := n1.branches + Targets(conn, n1, a[j]))]][j := BumpNodes(conn, n1, a[j])];
    forall x | 0 <= x < |u|
      ensures b[x] == r[x]
    {
      if x == i {
        assert t.linked[i] == s.linked[i];
        forall m | 0 <= m < |u[i]|
          ensures b[i][m] == r[i][m]
        {
        }
      } else if x == j {
        assert t.branches[j] == s.branches[j];
        forall m | 0 <= m < |u[j]|
          ensures b[j][m] == r[j][m]
        {
        }
      } else {
        assert t.branches[x] == s.branches[x] && t.linked[x] == s.linked[x];
        forall m | 0 <= m < |u[x]|
          ensures b[x][m] == r[x][m]
        {
        }
      }
    }
  }

  /** One step of the middle loop: the loop on the nodes follows the pass
      on the link state over one more node. */
  lemma AttachStep(conn: Rule, u: seq<seq<Node>>, len: nat, s: Links, i: nat, k: nat, r: seq<seq<Node>>)
    requires Blind(conn)
    requires Shaped(len, u) && Fits(u, s) && i < len && k < |u[i]|
    requires r == Attach(u, LinkChunk(conn, u, len, s, i, k))
    ensures r[i][k].linked == 0 ==> r == Attach(u, LinkChunk(conn, u, len, s, i, k + 1))
    ensures r[i][k].linked != 0 ==> i + |r[i][k].pre| < |r|
    ensures r[i][k].linked != 0 ==>
              r[i := r[i][k := r[i][k].(branches := r[i][k].branches + Targets(conn, r[i][k], r[i + |r[i][k].pre|]))]]
               [i + |r[i][k].pre| := BumpNodes(conn, r[i][k], r[i + |r[i][k].pre|])]
              == Attach(u, LinkChunk(conn, u, len, s, i, k + 1))
  {
    var t := LinkChunk(conn, u, len, s, i, k);
    if r[i][k].linked != 0 {
      AttachNode(conn, u, len, t, i, k, r, i + |r[i][k].pre|);
    }
  }

  /** The inner loop of `UpdateLinks` over the chunk where a linked node
      ends: the node takes each node it may connect to as a branch, in
      order, and that node gains one link. */
  method PassNode(conn: Rule, n1: Node, c2: seq<Node>) returns (b: seq<nat>, c: seq<Node>)
    ensures b == Targets(conn, n1, c2)
    ensures c == BumpNodes(conn, n1, c2)
  {
    b := [];
    c := c2;
    var m := 0;
    while m < |c2|
      invariant 0 <= m <= |c2| && |c| == |c2|
      invariant b == Targets(conn, n1, c2[..m])
      invariant forall x :: 0 <= x < m ==> c[x] == BumpNodes(conn, n1, c2)[x]
      invariant forall x :: m <= x < |c2| ==> c[x] == c2[x]
    {
      TargetsSnoc(conn, n1, c2, m);
      if conn(n1, c2[m]) {
        b := b + [c2[m].id];
        c := c[m := c[m].(linked := c[m].linked + 1)];
      }
      m := m + 1;
    }
    assert c2[..|c2|] == c2;
  }

  /** The body of the middle loop of `UpdateLinks`: an unlinked node is
      skipped; a linked one passes its links on to the chunk where it
      ends. */
  method PassOne(conn: Rule, ghost u: seq<seq<Node>>, len: nat, ghost s: Links, cs: seq<seq<Node>>, i: nat, k: nat)
    returns (r: seq<seq<Node>>)
    requires Blind(conn)
    requires Shaped(len, u) && Fits(u, s) && i < len && k < |u[i]|
    requires cs == Attach(u, LinkChunk(conn, u, len, s, i, k))
    ensures r == Attach(u, LinkChunk(conn, u, len, s, i, k + 1))
  {
    AttachStep(conn, u, len, s, i, k, cs);
    r := cs;
    var n1 := cs[i][k];
    if n1.linked != 0 {
      var j := i + |n1.pre|;
      var b, c := PassNode(conn, n1, cs[j]);
      r := cs[i := cs[i][k := n1.(branches := n1.branches + b)]][j := c];
    }
  }

  /** The middle loop of `UpdateLinks` over one chunk: each node in turn. */
  method PassChunk(conn: Rule, ghost u: seq<seq<Node>>, len: nat, ghost s: Links, cs: seq<seq<Node>>, i: nat)
    returns (r: seq<seq<Node>>)
    requires Blind(conn)
    requires Shaped(len, u) && Fits(u, s) && i < len && cs == Attach(u, s)
    ensures r == Attach(u, LinkChunk(conn, u, len, s, i, |u[i]|))
  {
    r := cs;
    var n := |cs[i]|;
    assert n == |u[i]|;
    var k := 0;
    while k < n
      invariant 0 <= k <= n
      invariant r == Attach(u, LinkChunk(conn, u, len, s, i, k))
    {
      r := PassOne(conn, u, len, s, r, i, k);
      k := k + 1;
    }
  }

  /** The outer loop of `UpdateLinks`, over the chunks before the tail. */
  method PassAll(conn: Rule, u: seq<seq<Node>>, len: nat) returns (r: seq<seq<Node>>)
    requires Blind(conn)
    requires Shaped(len, u)
    ensures r == Attach(u, LinkAll(conn, u, len, Current(u), len))
  {
    AttachCurrent(u);
    r := u;
    var index := 0;
    while index < len
      invariant 0 <= index <= len
      invariant r == Attach(u, LinkAll(conn, u, len, Current(u), index))
    {
      ghost var st := LinkAll(conn, u, len, Current(u), index);
      r := PassChunk(conn, u, len, st, r, index);
      assert LinkAll(conn, u, len, Current(u), index + 1) == LinkChunk(conn, u, len, st, index, |u[index]|);
      index := index + 1;
    }
  }

  /** The inner loop of `UnlinkAllNodes` over one chunk. */
  method ClearLinks(c: seq<Node>) returns (r: seq<Node>)
    ensures r == Unlinked(c)
  {
    r := c;
    var k := 0;
    while k < |r|
      invariant 0 <= k <= |r| == |c|
      invariant forall t :: 0 <= t < k ==> r[t] == c[t].(linked := 0, branches := [])
      invariant forall t :: k <= t < |r| ==> r[t] == c[t]
    {
      r := r[k := r[k].(linked := 0, branches := [])];
      k := k + 1;
    }
  }

  /** The head's loop of `UpdateLinks` over the first chunk: each node gets
      one link and becomes a branch of the head. */
  method MarkFirst(c: seq<Node>) returns (r: seq<Node>, ids: seq<nat>)
    ensures r == Marked(c) && ids == Ids(c)
  {
    r := c;
    ids := [];
    var k := 0;
    while k < |r|
      invariant 0 <= k <= |r| == |c| && |ids| == k
      invariant forall t :: 0 <= t < k ==> r[t] == c[t].(linked := 1) && ids[t] == c[t].id
      invariant forall t :: k <= t < |r| ==> r[t] == c[t]
    {
      ids := ids + [r[k].id];
      r := r[k := r[k].(linked := 1)];
      k := k + 1;
    }
  }

  /** Unlinking keeps every reading, so the chunks keep their shape. */
  lemma UnlinkAllShaped(cs: seq<seq<Node>>, len: nat)
    requires Shaped(len, cs)
    ensures Shaped(len, UnlinkAll(cs, len))
  {
    var v: seq<seq<Node>> := UnlinkAll(cs, len);
    forall i | 0 <= i < len
      ensures ChunkFits(len, i, v[i])
    {
      forall n: Node | n in v[i]
        ensures 0 < |n.pre| && i + |n.pre| <= len
      {
        var k :| 0 <= k < |v[i]| && v[i][k] == n;
        assert cs[i][k] in cs[i];
      }
    }
  }

  /** The chunks the linking loop starts from are shaped like the ones
      `UpdateLinks` was given and carry no branches. */
  lemma PreparedShaped(cs: seq<seq<Node>>, len: nat, tailId: nat)
    requires Shaped(len, cs) && len > 0
    ensures Shaped(len, Prepared(cs, len, tailId))
    ensures Unbranched(Prepared(cs, len, tailId), Current(Prepared(cs, len, tailId)))
  {
    var v: seq<seq<Node>> := UnlinkAll(cs, len);
    var u: seq<seq<Node>> := Prepared(cs, len, tailId);
    UnlinkAllShaped(cs, len);
    forall i | 0 <= i < len
      ensures ChunkFits(len, i, u[i])
    {
      if i == 0 {
        forall n: Node | n in u[0]
          ensures 0 < |n.pre| && |n.pre| <= len
        {
          var k :| 0 <= k < |u[0]| && u[0][k] == n;
          assert v[0][k] in v[0];
        }
      } else {
        assert u[i] == v[i];
      }
    }
    forall x: int, k: int | 0 <= x < |u| && 0 <= k < |u[x]|
      ensures Current(u).branches[x][k] == []
    {
      if x == len {
      } else if x == 0 {
        assert u[0][k] == v[0][k].(linked := 1);
      } else {
        assert u[x] == Unlinked(cs[x]);
      }
    }
  }

  // ---- Complement nodes (`AddComplement`) ------------------------------------

  /** The record `AddComplement` makes for the `count` characters of the
      text at `index`: a noun whose reading and conversion are those
      characters. */
  function ComplementRecord(text: String, index: nat, count: nat): (f: Fields)
    requires index + count <= |text|
    ensures f.pre == f.post == text[index..index + count] && f.tags == []
    ensures FromByte(LoByte(HinshiWord(f))) == Some(HB_MEISHI)
  {
    OrdinalInjective(HB_MEISHI);
    Fields(text[index..index + count], MakeWordField(Ordinal(HB_MEISHI), 0), text[index..index + count], [])
  }

  /** The nodes the loop of `AddComplement` has added once it has tried
      the lengths from `lo` up to `c - 1`: a length that runs past the end
      of the text adds nothing. Each node reads the text at `index` and
      is at least `lo` characters long. */
  function ComplementNodes(text: String, index: nat, lo: nat, c: nat, gen: Generator): (r: seq<Node>)
    requires lo > 0 && Sound(gen)
    ensures forall n :: n in r ==> OccursAt(text, n.pre, index) && lo <= |n.pre|
    ensures ChunkFits(|text|, index, r)
    ensures r != [] ==> index < |text|
    decreases c
  {
    if c <= lo then []
    else
      ComplementNodes(text, index, lo, c - 1, gen)
      + (if index + (c - 1) <= |text| then gen(text, index, ComplementRecord(text, index, c - 1), 0) else [])
  }

  /** The first node a complement record yields is the plain noun for
      its characters. */
  lemma ComplementNoun(text: String, index: nat, count: nat, kata: String -> String)
    requires 0 < count && index + count <= |text|
    ensures DoFieldsOf(kata)(text, index, ComplementRecord(text, index, count), 0) != []
    ensures DoFieldsOf(kata)(text, index, ComplementRecord(text, index, count), 0)[0].pre == text[index..index + count]
    ensures DoFieldsOf(kata)(text, index, ComplementRecord(text, index, count), 0)[0].post == text[index..index + count]
    ensures DoFieldsOf(kata)(text, index, ComplementRecord(text, index, count), 0)[0].bunrui == HB_MEISHI
  {
    var f := ComplementRecord(text, index, count);
    assert OccursAt(text, f.pre, index);
    assert !Contains(f.tags, TAG_DOUSHOKUBUTSU);
    DoFieldsNoun(text, index, f, 0, kata);
  }

  /** The nodes a length from `lo` up to `c - 1` that fits in the text
      adds are among the nodes of the loop. */
  lemma {:induction false} ComplementContains(text: String, index: nat, lo: nat, c: nat, gen: Generator, count: nat)
    requires 0 < lo <= count < c && index + count <= |text| && Sound(gen)
    ensures forall n :: n in gen(text, index, ComplementRecord(text, index, count), 0)
                        ==> n in ComplementNodes(text, index, lo, c, gen)
    decreases c
  {
    var ns := gen(text, index, ComplementRecord(text, index, count), 0);
    if count < c - 1 {
      ComplementContains(text, index, lo, c - 1, gen, count);
    } else {
      ComplementNodesNext(text, index, lo, count, gen);
    }
  }

  /** Each length from `lo` up to `c - 1` that fits in the text adds the
      plain noun for those characters. */
  lemma ComplementHasNoun(text: String, index: nat, lo: nat, c: nat, kata: String -> String, count: nat)
    requires 0 < lo <= count < c && index + count <= |text|
    ensures exists n :: n in ComplementNodes(text, index, lo, c, DoFieldsOf(kata))
                        && n.pre == text[index..index + count] && n.post == n.pre && n.bunrui == HB_MEISHI
  {
    var ns := DoFieldsOf(kata)(text, index, ComplementRecord(text, index, count), 0);
    ComplementNoun(text, index, count, kata);
    DoFieldsSound(kata);
    ComplementContains(text, index, lo, c, DoFieldsOf(kata), count);
    assert ns[0] in ns;
  }

  /** Pushing `a` then `b` onto a chunk pushes `a + b`. */
  lemma AppendedTwice(cs: seq<seq<Node>>, i: nat, a: seq<Node>, b: seq<Node>)
    requires i < |cs|
    ensures Appended(Appended(cs, i, a), i, b) == Appended(cs, i, a + b)
  {
    assert a + [] == a && [] + b == b;
    assert cs[i] + a + b == cs[i] + (a + b);
  }

  /** Stamping two runs one after the other stamps their concatenation. */
  lemma {:induction false} StampConcat(a: seq<Node>, b: seq<Node>, k: nat, k1: nat)
    requires k1 == k + |a|
    ensures Stamp(a, k) + Stamp(b, k1) == Stamp(a + b, k)
    decreases |b|
  {
    if |b| > 0 {
      var b' := b[..|b| - 1];
      StampConcat(a, b', k, k1);
      assert (a + b)[..|a + b| - 1] == a + b';
    } else {
      assert a + b == a;
    }
  }

  /** Ends counted over two runs add up. */
  lemma {:induction false} EndCountConcat(a: seq<Node>, b: seq<Node>, i: nat, j: nat)
    ensures EndCount(a + b, i, j) == EndCount(a, i, j) + EndCount(b, i, j)
    decreases |b|
  {
    if |b| > 0 {
      var b' := b[..|b| - 1];
      assert (a + b)[..|a + b| - 1] == a + b';
      EndCountConcat(a, b', i, j);
    } else {
      assert a + b == a;
    }
  }

  /** Adding the references of `a` and then of `b` adds those of `a + b`. */
  lemma AddRefsConcat(refs: seq<nat>, i: nat, a: seq<Node>, b: seq<Node>)
    requires forall n :: n in a + b ==> i + |n.pre| < |refs|
    ensures AddRefs(AddRefs(refs, i, a), i, b) == AddRefs(refs, i, a + b)
  {
    assert forall n :: n in a ==> n in a + b;
    assert forall n :: n in b ==> n in a + b;
    forall j | 0 <= j < |refs|
      ensures AddRefs(AddRefs(refs, i, a), i, b)[j] == AddRefs(refs, i, a + b)[j]
    {
      EndCountConcat(a, b, i, j);
    }
  }

  /** The nodes of one more length follow those of the shorter ones. */
  lemma ComplementNodesNext(text: String, index: nat, lo: nat, count: nat, gen: Generator)
    requires 0 < lo <= count && index + count <= |text| && Sound(gen)
    ensures ComplementNodes(text, index, lo, count + 1, gen)
            == ComplementNodes(text, index, lo, count, gen) + gen(text, index, ComplementRecord(text, index, count), 0)
  {
  }

  /** No length from `lo` up to `c - 1` is tried when `c <= lo`. */
  lemma ComplementNodesEmpty(text: String, index: nat, lo: nat, c: nat, gen: Generator)
    requires 0 < lo && Sound(gen)
    ensures c <= lo ==> ComplementNodes(text, index, lo, c, gen) == []
  {
  }

  /** Pushing `done` and then `ns` onto chunk `i`, with their references
      and identities, is pushing `done + ns`. */
  lemma PushTwice(cs: seq<seq<Node>>, refs: seq<nat>, k: nat, i: nat, done: seq<Node>, ns: seq<Node>,
                  c0: seq<seq<Node>>, r0: seq<nat>, k0: nat)
    requires i < |cs| && forall n :: n in done + ns ==> i + |n.pre| < |refs|
    requires c0 == Appended(cs, i, Stamp(done, k))
    requires r0 == AddRefs(refs, i, done)
    requires k0 == k + |done|
    ensures Appended(c0, i, Stamp(ns, k0)) == Appended(cs, i, Stamp(done + ns, k))
    ensures AddRefs(r0, i, ns) == AddRefs(refs, i, done + ns)
  {
    var a, b := Stamp(done, k), Stamp(ns, k0);
    AppendedTwice(cs, i, a, b);
    StampConcat(done, ns, k, k0);
    calc {
      Appended(c0, i, b);
      Appended(Appended(cs, i, a), i, b);
      Appended(cs, i, a + b);
    }
    AddRefsConcat(refs, i, done, ns);
  }

  /** The loop of `Lattice::UnlinkAllNodes` on the chunks `cs`: each
      chunk before `len` is cleared of links and branches. */
  method UnlinkChunks(cs: seq<seq<Node>>, len: nat) returns (v: seq<seq<Node>>)
    requires len <= |cs|
    ensures v == UnlinkAll(cs, len)
  {
    v := cs;
    var index := 0;
    while index < len
      invariant 0 <= index <= len && |v| == |cs|
      invariant forall x :: 0 <= x < index ==> v[x] == Unlinked(cs[x])
      invariant forall x :: index <= x < |v| ==> v[x] == cs[x]
    {
      var c := ClearLinks(v[index]);
      v := v[index := c];
      index := index + 1;
    }
  }

  /** The chunks `Lattice::UpdateLinks` leaves when the head node is
      numbered `headId`: those of `cs` prepared, with the tail node
      numbered `headId + 1`, and then linked. */
  function Relinked(cs: seq<seq<Node>>, len: nat, headId: nat): (r: seq<seq<Node>>)
    requires Shaped(len, cs) && len > 0
    ensures Shaped(len, r)
  {
    PreparedShaped(cs, len, headId + 1);
    LinkedLattice(Prepared(cs, len, headId + 1), len)
  }

  /** The body of `Lattice::UpdateLinks` on the chunks `cs` of a text
      of `len` characters, with `k` the next identity: the nodes are
      unlinked, the head node `h` takes identity `k`, and the chunks are
      linked. */
  method Relink(cs: seq<seq<Node>>, len: nat, k: nat) returns (linked: seq<seq<Node>>, h: Node)
    requires Shaped(len, cs) && len > 0
    ensures h == HeadNode(cs[0], k)
    ensures linked == Relinked(cs, len, k)
  {
    var v := UnlinkChunks(cs, len);
    linked, h := LinkPrepared(cs, v, len, k);
  }

  /** The body of `Lattice::UpdateLinks` once the nodes `v` of `cs` are
      unlinked: the first chunk is marked and its identities collected
      into the head node `h` (identity `k`), a tail node with identity
      `k + 1` is put in the tail chunk, and the links are made. */
  method LinkPrepared(ghost cs: seq<seq<Node>>, v: seq<seq<Node>>, len: nat, k: nat)
    returns (linked: seq<seq<Node>>, h: Node)
    requires Shaped(len, cs) && len > 0 && v == UnlinkAll(cs, len)
    ensures h == HeadNode(cs[0], k)
    ensures linked == Relinked(cs, len, k)
  {
    var first, ids := MarkFirst(v[0]);
    assert ids == Ids(cs[0]);
    var u := v[0 := first][len := [TailNode(k + 1)]];
    assert u == Prepared(cs, len, k + 1);
    PreparedShaped(cs, len, k + 1);
    ConnectIsBlind();
    linked := PassAll(IsNodeConnectable, u, len);
    h := NewNode(HB_HEAD, UNSET_GYOU, KATSUYOU_NONE, 0).(linked := 1, branches := ids, id := k);
  }

  // ---- The lattice -----------------------------------------------------------

  class Lattice {
    /** `m_pre`, the text being converted. */
    var pre: String
    /** `m_head`: absent until the links are first made. */
    var head: Option<Node>
    /** `m_tail`: absent until the tokenizer engine sets it. */
    var tail: Option<Node>
    /** `m_chunks`: the nodes starting at each index, and the tail chunk. */
    var chunks: seq<seq<Node>>
    /** `m_refs`: the references counted at each index. */
    var refs: seq<nat>
    /** The identity the next stored node receives. */
    var nextId: nat

    ghost predicate Valid()
      reads this
    {
      Shaped(|pre|, chunks) && |refs| == |pre| + 1
    }

    /** The lattice as `MakeLatticeForMulti` prepares it: the text, one
        empty chunk per index and the tail, and a single reference at the
        start. */
    constructor (text: String)
      ensures Valid()
      ensures pre == text && head == None && tail == None && nextId == 0
      ensures chunks == seq(|text| + 1, _ => []) && refs == StartRefs(|text|)
    {
      pre := text;
      head := None;
      tail := None;
      chunks := seq(|text| + 1, _ => []);
      refs := StartRefs(|text|);
      nextId := 0;
    }

    /** `Lattice::DoFields`: the nodes the record generates at `index` are
        pushed, in order, onto that chunk, and each adds one reference at
        the index where it ends. A record whose reading does not occur at
        `index` changes nothing. */
    method AddFields(index: nat, f: Fields, delta: int, gen: Generator)
      requires Valid() && |f.pre| > 0 && Sound(gen)
      modifies this
      ensures Valid() && pre == old(pre) && tail == old(tail) && head == old(head)
      ensures chunks == Appended(old(chunks), index, Stamp(gen(old(pre), index, f, delta), old(nextId)))
      ensures refs == AddRefs(old(refs), index, gen(old(pre), index, f, delta))
      ensures nextId == old(nextId) + |gen(old(pre), index, f, delta)|
    {
      var ns := gen(pre, index, f, delta);
      AppendedShaped(|pre|, chunks, index, ns, nextId);
      chunks := Appended(chunks, index, Stamp(ns, nextId));
      refs := AddRefs(refs, index, ns);
      nextId := nextId + |ns|;
    }

    /** The chunks, counts and next identity are those of `cs0`, `r0`
        and `k0` with the nodes `ns` pushed at `index`. */
    ghost predicate Pushed(index: nat, cs0: seq<seq<Node>>, r0: seq<nat>, k0: nat, ns: seq<Node>)
      reads this
    {
      (ns != [] ==> index < |cs0|) && (forall n :: n in ns ==> index + |n.pre| < |r0|)
      && chunks == Appended(cs0, index, Stamp(ns, k0))
      && refs == AddRefs(r0, index, ns)
      && nextId == k0 + |ns|
    }

    /** One turn of the loop of `AddComplement`: the record for `count`
        characters is added when they fit in the text, after the nodes of
        the shorter lengths, which were added to the chunks `cs0` and
        counts `refs0` from identity `k0` on. */
    method AddComplementLength(index: nat, minSize: nat, count: nat, gen: Generator,
                               ghost cs0: seq<seq<Node>>, ghost refs0: seq<nat>, ghost k0: nat)
      requires Valid() && 0 < minSize <= count && |cs0| == |refs0| == |pre| + 1 && Sound(gen)
      requires Pushed(index, cs0, refs0, k0, ComplementNodes(pre, index, minSize, count, gen))
      modifies this
      ensures Valid() && pre == old(pre) && tail == old(tail) && head == old(head)
      ensures Pushed(index, cs0, refs0, k0, ComplementNodes(pre, index, minSize, count + 1, gen))
    {
      if |pre| < index + count {
        assert ComplementNodes(pre, index, minSize, count + 1, gen) == ComplementNodes(pre, index, minSize, count, gen);
        return;
      }
      var f := ComplementRecord(pre, index, count);
      ghost var c1, r1, k1 := chunks, refs, nextId;
      AddFields(index, f, 0, gen);
      ComplementNodesNext(pre, index, minSize, count, gen);
      PushTwice(cs0, refs0, k0, index, ComplementNodes(pre, index, minSize, count, gen),
                gen(pre, index, f, 0), c1, r1, k1);
    }

    /** `Lattice::AddComplement`: for each length from `minSize` to
        `maxSize` that fits in the text after `index`, the characters
        there are added as an unknown noun. */
    method AddComplement(index: nat, minSize: nat, maxSize: nat, gen: Generator)
      requires Valid() && minSize > 0 && Sound(gen)
      modifies this
      ensures Valid() && pre == old(pre) && tail == old(tail) && head == old(head)
      ensures Pushed(index, old(chunks), old(refs), old(nextId), ComplementNodes(old(pre), index, minSize, maxSize + 1, gen))
    {
      ghost var text, cs0, r0, k0 := pre, chunks, refs, nextId;
      assert Stamp([], k0) == [];
      assert Pushed(index, cs0, r0, k0, ComplementNodes(text, index, minSize, minSize, gen));
      var count := minSize;
      while count <= maxSize
        invariant count == minSize || minSize < count <= maxSize + 1
        invariant Valid() && pre == text && tail == old(tail) && head == old(head)
        invariant Pushed(index, cs0, r0, k0, ComplementNodes(text, index, minSize, count, gen))
        decreases maxSize + 1 - count
      {
        AddComplementLength(index, minSize, count, gen, cs0, r0, k0);
        count := count + 1;
      }
      if maxSize + 1 < minSize {
        ComplementNodesEmpty(text, index, minSize, minSize, gen);
        ComplementNodesEmpty(text, index, minSize, maxSize + 1, gen);
      } else {
        assert count == maxSize + 1;
      }
    }

    /** `Lattice::UpdateRefs`: the counts start over from one reference at
        the start, and each index that has references passes one to the
        end of each of its nodes. */
    method UpdateRefs()
      requires Valid()
      modifies this
      ensures Valid() && pre == old(pre) && tail == old(tail) && head == old(head) && chunks == old(chunks)
      ensures nextId == old(nextId)
      ensures refs == RefsFrom(chunks, |pre|, |pre|)
    {
      refs := StartRefs(|pre|);
      var index := 0;
      while index < |pre|
        invariant 0 <= index <= |pre|
        invariant pre == old(pre) && tail == old(tail) && head == old(head) && chunks == old(chunks) && nextId == old(nextId)
        invariant refs == RefsFrom(chunks, |pre|, index)
      {
        if refs[index] != 0 {
          assert ChunkFits(|pre|, index, chunks[index]);
          refs := PassRefs(refs, index, chunks[index]);
        }
        index := index + 1;
      }
    }

    /** `Lattice::CutUnlinkedNodes`: every chunk before the tail keeps
        exactly its linked nodes, in order. */
    method CutUnlinkedNodes()
      requires Valid()
      modifies this
      ensures Valid() && pre == old(pre) && tail == old(tail) && head == old(head) && refs == old(refs)
      ensures nextId == old(nextId) && |chunks| == |old(chunks)|
      ensures forall i :: 0 <= i < |pre| ==> chunks[i] == KeepLinked(old(chunks)[i])
      ensures chunks[|pre|] == old(chunks)[|pre|]
    {
      var index := 0;
      while index < |pre|
        invariant 0 <= index <= |pre| && Valid()
        invariant pre == old(pre) && tail == old(tail) && head == old(head) && refs == old(refs) && nextId == old(nextId)
        invariant |chunks| == |old(chunks)| && chunks[|pre|] == old(chunks)[|pre|]
        invariant forall i :: 0 <= i < index ==> chunks[i] == KeepLinked(old(chunks)[i])
        invariant forall i :: index <= i < |chunks| ==> chunks[i] == old(chunks)[i]
      {
        var kept := RemoveUnlinked(chunks[index]);
        chunks := chunks[index := kept];
        index := index + 1;
      }
    }

    /** `Lattice::UnlinkAllNodes`: every node before the tail chunk loses
        its link count and its branches. */
    method UnlinkAllNodes()
      requires Valid()
      modifies this
      ensures Valid() && pre == old(pre) && tail == old(tail) && head == old(head) && refs == old(refs)
      ensures nextId == old(nextId)
      ensures chunks == UnlinkAll(old(chunks), |pre|)
    {
      var v := UnlinkChunks(chunks, |pre|);
      UnlinkAllShaped(chunks, |pre|);
      chunks := v;
    }

    /** `Lattice::UpdateLinks`, for a non-empty text: after unlinking, the
        head links once to every node of the first chunk, the tail chunk
        holds one new tail node, and each linked node before the tail
        connects to the nodes it may be followed by where it ends. */
    method UpdateLinks()
      requires Valid() && |pre| > 0
      modifies this
      ensures Valid() && pre == old(pre) && tail == old(tail) && refs == old(refs)
      ensures nextId == old(nextId) + 2
      ensures head == Some(HeadNode(old(chunks)[0], old(nextId)))
      ensures chunks == Relinked(old(chunks), |old(pre)|, old(nextId))
    {
      var linked, h := Relink(chunks, |pre|, nextId);
      head := Some(h);
      chunks := linked;
      nextId := nextId + 2;
    }

    /** `Lattice::GetLastLinkedIndex`: the end of the text when the tail
        node is linked; otherwise the last index before it whose chunk
        holds a linked node, or 0 when there is none. */
    method GetLastLinkedIndex() returns (r: nat)
      requires Valid() && |chunks[|pre|]| > 0
      ensures r <= |pre|
      ensures chunks[|pre|][0].linked != 0 ==> r == |pre|
      ensures chunks[|pre|][0].linked == 0 && |pre| > 0 ==> r < |pre|
      ensures r < |pre| ==> forall i :: r < i < |pre| ==> !HasLinked(chunks[i])
      ensures 0 < r < |pre| ==> HasLinked(chunks[r])
    {
      if chunks[|pre|][0].linked != 0 {
        return |pre|;
      }
      var index := |pre|;
      while index > 0
        invariant 0 <= index <= |pre|
        invariant forall i :: index <= i < |pre| ==> !HasLinked(chunks[i])
      {
        index := index - 1;
        var c := chunks[index];
        var t := 0;
        while t < |c|
          invariant 0 <= t <= |c|
          invariant forall u :: 0 <= u < t ==> c[u].linked == 0
        {
          if c[t].linked != 0 {
            assert c[t] in c;
            return index;
          }
          t := t + 1;
        }
      }
      return 0;
    }
  }

  // ---- What the links mean ----------------------------------------------------

  /** After the linking loop a node is linked exactly when it started
      linked or a linked node ending where it starts may be followed by
      it; its count is its start count plus the number of such nodes. */
  lemma LinkedMeans(u: seq<seq<Node>>, len: nat, j: nat, m: nat)
    requires Shaped(len, u) && Unbranched(u, Current(u)) && j <= len && m < |u[j]|
    ensures LinkedLattice(u, len)[j][m].linked
            == u[j][m].linked + CountBefore(IsNodeConnectable, u, LinkAll(IsNodeConnectable, u, len, Current(u), len).linked, j, j, u[j][m])
    ensures LinkedLattice(u, len)[j][m].linked > 0 <==>
              u[j][m].linked > 0
              || exists i, k :: 0 <= i < j && 0 <= k < |u[i]| && LinkedLattice(u, len)[i][k].linked != 0
                                && i + |u[i][k].pre| == j && IsNodeConnectable(u[i][k], u[j][m])
  {
    var t := LinkAll(IsNodeConnectable, u, len, Current(u), len);
    var r: seq<seq<Node>> := LinkedLattice(u, len);
    Linked(IsNodeConnectable, u, len, Current(u), j, m);
    assert forall i: int, k: int :: 0 <= i < |u| && 0 <= k < |u[i]| ==> r[i][k].linked == t.linked[i][k];
  }

  /** Branches read through the nodes a link state is attached to. */
  lemma AttachedBranches(conn: Rule, u: seq<seq<Node>>, len: nat, t: Links, i: nat, k: nat)
    requires Shaped(len, u) && Fits(u, t) && i < len && k < |u[i]|
    requires t.branches[i][k] == if t.linked[i][k] != 0 then Targets(conn, u[i][k], u[End(u, len, i, k)]) else []
    ensures i + |u[i][k].pre| <= len
    ensures Attach(u, t)[i][k].branches
            == if Attach(u, t)[i][k].linked != 0 then Targets(conn, u[i][k], u[i + |u[i][k].pre|]) else []
  {
    var n := Attach(u, t)[i][k];
    assert n == u[i][k].(linked := t.linked[i][k], branches := t.branches[i][k]);
    assert n.linked == t.linked[i][k] && n.branches == t.branches[i][k];
    assert End(u, len, i, k) == i + |u[i][k].pre|;
  }

  /** After the linking loop a node before the tail chunk has as branches
      the nodes it may be followed by where it ends, in order, when it is
      linked, and none otherwise. */
  lemma BranchesMean(u: seq<seq<Node>>, len: nat, i: nat, k: nat)
    requires Shaped(len, u) && Unbranched(u, Current(u)) && i < len && k < |u[i]|
    ensures i + |u[i][k].pre| <= len
    ensures LinkedLattice(u, len)[i][k].branches
            == if LinkedLattice(u, len)[i][k].linked != 0
               then Targets(IsNodeConnectable, u[i][k], u[i + |u[i][k].pre|]) else []
  {
    Branches(IsNodeConnectable, u, len, Current(u), i, k);
    AttachedBranches(IsNodeConnectable, u, len, LinkAll(IsNodeConnectable, u, len, Current(u), len), i, k);
  }

  /** `UpdateLinks` links every node of the first chunk exactly once,
      from the head. */
  lemma HeadLinksFirst(cs: seq<seq<Node>>, len: nat, tailId: nat, m: nat)
    requires Shaped(len, cs) && len > 0 && m < |cs[0]|
    ensures Shaped(len, Prepared(cs, len, tailId)) && Unbranched(Prepared(cs, len, tailId), Current(Prepared(cs, len, tailId)))
    ensures LinkedLattice(Prepared(cs, len, tailId), len)[0][m].linked == 1
  {
    PreparedShaped(cs, len, tailId);
    LinkedMeans(Prepared(cs, len, tailId), len, 0, m);
  }

  /** After `UpdateLinks` a node past the first chunk is linked exactly
      when a linked node ending where it starts may be followed by it. */
  lemma LinkedIffConnected(cs: seq<seq<Node>>, len: nat, tailId: nat, j: nat, m: nat)
    requires Shaped(len, cs) && len > 0 && 0 < j <= len && m < |Prepared(cs, len, tailId)[j]|
    ensures Shaped(len, Prepared(cs, len, tailId)) && Unbranched(Prepared(cs, len, tailId), Current(Prepared(cs, len, tailId)))
    ensures LinkedLattice(Prepared(cs, len, tailId), len)[j][m].linked > 0 <==>
              exists i, k :: 0 <= i < j && 0 <= k < |Prepared(cs, len, tailId)[i]|
                             && LinkedLattice(Prepared(cs, len, tailId), len)[i][k].linked != 0
                             && i + |Prepared(cs, len, tailId)[i][k].pre| == j
                             && IsNodeConnectable(Prepared(cs, len, tailId)[i][k], Prepared(cs, len, tailId)[j][m])
  {
    PreparedShaped(cs, len, tailId);
    var u: seq<seq<Node>> := Prepared(cs, len, tailId);
    assert u[j][m].linked == 0 by {
      if j < len {
        assert u[j] == Unlinked(cs[j]);
      }
    }
    LinkedMeans(u, len, j, m);
  }

  /** After `UpdateLinks` the tail is linked exactly when some linked
      node ends at the end of the text: anything may be followed by the
      tail. */
  lemma TailLinked(cs: seq<seq<Node>>, len: nat, tailId: nat)
    requires Shaped(len, cs) && len > 0
    ensures Shaped(len, Prepared(cs, len, tailId)) && Unbranched(Prepared(cs, len, tailId), Current(Prepared(cs, len, tailId)))
    ensures |LinkedLattice(Prepared(cs, len, tailId), len)[len]| == 1
    ensures LinkedLattice(Prepared(cs, len, tailId), len)[len][0].bunrui == HB_TAIL
    ensures LinkedLattice(Prepared(cs, len, tailId), len)[len][0].linked > 0 <==>
              exists i, k :: 0 <= i < len && 0 <= k < |Prepared(cs, len, tailId)[i]|
                             && LinkedLattice(Prepared(cs, len, tailId), len)[i][k].linked != 0
                             && i + |Prepared(cs, len, tailId)[i][k].pre| == len
  {
    PreparedShaped(cs, len, tailId);
    var u: seq<seq<Node>> := Prepared(cs, len, tailId);
    var r: seq<seq<Node>> := LinkedLattice(u, len);
    LinkedIffConnected(cs, len, tailId, len, 0);
    assert Frozen(r[len][0]) == Frozen(u[len][0]);
    assert u[len][0].bunrui == HB_TAIL;
  }
}
