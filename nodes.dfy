/** Lattice nodes (`LatticeNode`) and their word cost. */
module LatticeNodes {
  import opened Wrappers
  import opened Text
  import opened Hinshi

  /** `MAXLONG`, the initial subtotal cost of a node. */
  const MAXLONG: int := 0x7FFF_FFFF

  /** One lattice node. A node lives in the chunk of its start index. The
      source shares nodes by pointer; here `id` is the identity of the
      shared object (given when the lattice stores it) and `branches`
      holds the identities of the nodes it links to. */
  datatype Node = Node(
    pre: String,
    post: String,
    tags: String,
    bunrui: HinshiBunrui,
    deltaCost: int,
    subtotalCost: int,
    marked: int,
    gyou: Gyou,
    katsuyou: KatsuyouKei,
    linked: nat,
    cost: int,
    wordCost: int,
    branches: seq<nat>,
    id: nat)

  /** `LatticeNode()`: the constructor sets the delta cost, subtotal,
      marking and link count; the fields it leaves uninitialised are
      parameters here, and the word cost starts at zero. */
  function NewNode(bunrui: HinshiBunrui, gyou: Gyou, katsuyou: KatsuyouKei, cost: int): (n: Node)
    ensures n.deltaCost == 0 && n.subtotalCost == MAXLONG && n.marked == 0 && n.linked == 0
    ensures n.pre == [] && n.post == [] && n.tags == [] && n.branches == [] && n.id == 0
    ensures n.bunrui == bunrui && n.gyou == gyou && n.katsuyou == katsuyou && n.cost == cost
  {
    Node([], [], [], bunrui, 0, MAXLONG, 0, gyou, katsuyou, 0, cost, 0, [], 0)
  }

  /** `LatticeNode::HasTag`: `tags.find(tag) != npos`. */
  function HasTag(n: Node, tag: String): (b: bool)
    ensures b <==> Contains(n.tags, tag)
  {
    Find(n.tags, tag).Some?
  }

  const TAG_HIHYOUJUN: String := "[非標準]"
  const TAG_FUKINSHIN: String := "[不謹慎]"
  const TAG_JINMEI: String := "[人名]"
  const TAG_EKIMEI: String := "[駅名]"
  const TAG_CHIMEI: String := "[地名]"
  const TAG_USER: String := "[ユーザ辞書]"

  function Bonus(b: bool, amount: int): int
  {
    if b then amount else 0
  }

  /** The tag part of `LatticeNode::CalcCost`. The person, station and
      place tags share one charge of 30 (the source tests them as an
      else-if chain). */
  function TagCost(n: Node): (c: int)
    ensures c == Bonus(HasTag(n, TAG_HIHYOUJUN), 100) + Bonus(HasTag(n, TAG_FUKINSHIN), 50)
               + Bonus(HasTag(n, TAG_JINMEI) || HasTag(n, TAG_EKIMEI) || HasTag(n, TAG_CHIMEI), 30)
               - Bonus(HasTag(n, TAG_USER), 30)
  {
    var h := HasTag(n, TAG_HIHYOUJUN);
    var f := HasTag(n, TAG_FUKINSHIN);
    var j := HasTag(n, TAG_JINMEI);
    var e := HasTag(n, TAG_EKIMEI);
    var p := HasTag(n, TAG_CHIMEI);
    var u := HasTag(n, TAG_USER);
    var c1 := if h then 100 else 0;
    var c2 := c1 + (if f then 50 else 0);
    var c3 := if j then c2 + 30 else if e then c2 + 30 else if p then c2 + 30 else c2;
    c3 - (if u then 30 else 0)
  }

  /** `LatticeNode::CalcCost`: 200 for a Sino-Japanese word, 120 for a
      symbol, plus the tag charges; a node without tags takes none. */
  function CalcCost(n: Node): (c: int)
    ensures c == Bonus(n.bunrui == HB_KANGO, 200) + Bonus(n.bunrui == HB_SYMBOL, 120) + TagCost(n)
    ensures -30 <= c <= 380
  {
    var c0 := if n.bunrui == HB_KANGO then 200 else if n.bunrui == HB_SYMBOL then 120 else 0;
    if |n.tags| == 0 then
      NoTagIsContained(n);
      c0
    else
      c0 + TagCost(n)
  }

  /** An empty tag string contains none of the (non-empty) tags. */
  lemma NoTagIsContained(n: Node)
    requires |n.tags| == 0
    ensures !HasTag(n, TAG_HIHYOUJUN) && !HasTag(n, TAG_FUKINSHIN)
    ensures !HasTag(n, TAG_JINMEI) && !HasTag(n, TAG_EKIMEI)
    ensures !HasTag(n, TAG_CHIMEI) && !HasTag(n, TAG_USER)
  {
  }

  /** `ARRAY_AT`: an index inside the array yields its element; an index
      at or past the end trips the debug assertion (no value). */
  function ArrayAt<T>(a: seq<T>, i: nat): (r: Option<T>)
    ensures r.Some? <==> i < |a|
    ensures r.Some? ==> r.value == a[i]
  {
    if i < |a| then Some(a[i]) else None
  }
}
