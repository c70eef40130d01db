/** The part-of-speech rules of kana-kanji conversion: the connection cost
    of two classes (`CandConnectCost`) and whether one lattice node may be
    followed by another (`IsNodeConnectable`). */
module ConnectRules {
  import opened Text
  import opened Hinshi
  import opened LatticeNodes

  /** The cases in which both rules give way unconditionally: the right
      side is a period, comma or the tail, or either side is a symbol or
      unknown. */
  predicate FreeJoint(b1: HinshiBunrui, b2: HinshiBunrui)
  {
    b2 == HB_PERIOD || b2 == HB_COMMA || b2 == HB_TAIL
    || b1 == HB_SYMBOL || b2 == HB_SYMBOL || b1 == HB_UNKNOWN || b2 == HB_UNKNOWN
  }

  predicate IsVerbClass(b: HinshiBunrui)
  {
    b == HB_GODAN_DOUSHI || b == HB_ICHIDAN_DOUSHI || b == HB_KAHEN_DOUSHI || b == HB_SAHEN_DOUSHI
  }


  /** `CandConnectCost`. The adjective case switches on the left class
      again instead of the right one, so it always yields 10; the split
      auxiliary classes trip a debug assertion and fall through to 1. */
  function CandConnectCost(b1: HinshiBunrui, b2: HinshiBunrui): (r: int)
    ensures FreeJoint(b1, b2) ==> r == 0
    ensures !FreeJoint(b1, b2) ==> r == 1 || r == 5 || r == 10
    ensures r != 3
  {
    if FreeJoint(b1, b2) then 0
    else match b1
      case HB_HEAD => if b2 == HB_JODOUSHI || b2 == HB_SHUU_JOSHI then 5 else 1
      case HB_MEISHI =>
        if b2 == HB_MEISHI || b2 == HB_SETTOUJI then 10
        else if b2 == HB_IKEIYOUSHI || b2 == HB_NAKEIYOUSHI then 5
        else 1
      case HB_IKEIYOUSHI => AdjectiveCost(b1)
      case HB_NAKEIYOUSHI => AdjectiveCost(b1)
      case _ =>
        if IsVerbClass(b1) || b1 == HB_SETTOUJI then
          if IsVerbClass(b2) || b2 == HB_SETTOUJI then 5 else 1
        else 1
  }

  /** The inner switch of the adjective case, on the left class. */
  function AdjectiveCost(b1: HinshiBunrui): int
  {
    if b1 == HB_IKEIYOUSHI || b1 == HB_NAKEIYOUSHI then 10
    else if IsVerbClass(b1) then 3
    else 1
  }

  /** As written, an adjective on the left costs 10 whatever follows it
      (outside the free joints): the verb entries of the inner switch are
      unreachable. */
  lemma AdjectiveCostIgnoresRight(b1: HinshiBunrui, b2: HinshiBunrui, b3: HinshiBunrui)
    requires b1 == HB_IKEIYOUSHI || b1 == HB_NAKEIYOUSHI
    requires !FreeJoint(b1, b2) && !FreeJoint(b1, b3)
    ensures CandConnectCost(b1, b2) == CandConnectCost(b1, b3) == 10
  {
  }

  const TAG_MIZEN_LINK: String := "[未然形に連結]"
  const TAG_RENYOU_LINK: String := "[連用形に連結]"
  const TAG_SHUUSHI_LINK: String := "[終止形に連結]"
  const TAG_VARIOUS: String := "[種々の語]"

  predicate IsContentClass(b: HinshiBunrui)
  {
    b == HB_MEISHI || b == HB_SETTOUJI || b == HB_IKEIYOUSHI || b == HB_NAKEIYOUSHI
    || IsVerbClass(b)
  }

  /** The inflection-form rule shared by adjectives, auxiliaries and verbs
      on the left. Only the adjective's imperfective form additionally
      requires the auxiliary to start with な or to be う. A left node
      whose form is none of the six connects to anything. */
  function InflectedConnectable(k: KatsuyouKei, n2: Node, adjective: bool): bool
  {
    match k
    case MIZEN_KEI =>
      n2.bunrui == HB_JODOUSHI && HasTag(n2, TAG_MIZEN_LINK)
      && (!adjective || CharAt(n2.pre, 0) == 'な' || n2.pre == "う")
    case RENYOU_KEI =>
      if n2.bunrui == HB_JODOUSHI then HasTag(n2, TAG_RENYOU_LINK) else IsContentClass(n2.bunrui)
    case SHUUSHI_KEI =>
      (n2.bunrui == HB_JODOUSHI && (HasTag(n2, TAG_SHUUSHI_LINK) || HasTag(n2, TAG_VARIOUS)))
      || n2.bunrui == HB_SHUU_JOSHI
    case RENTAI_KEI => n2.bunrui != HB_KANDOUSHI && n2.bunrui != HB_JODOUSHI
    case KATEI_KEI =>
      n2.bunrui == HB_SETSUZOKU_JOSHI && (n2.pre == "ば" || n2.pre == "ども" || n2.pre == "ど")
    case MEIREI_KEI =>
      n2.bunrui == HB_SHUU_JOSHI || n2.bunrui == HB_MEISHI || n2.bunrui == HB_SETTOUJI
    case KATSUYOU_NONE => true
  }

  predicate IsNonFinalJoshi(b: HinshiBunrui)
  {
    b == HB_KAKU_JOSHI || b == HB_SETSUZOKU_JOSHI || b == HB_FUKU_JOSHI
  }

  /** `IsNodeConnectable`. */
  function IsNodeConnectable(n1: Node, n2: Node): (ok: bool)
    ensures FreeJoint(n1.bunrui, n2.bunrui) ==> ok
    ensures !FreeJoint(n1.bunrui, n2.bunrui) && n1.bunrui == HB_SETTOUJI ==>
              (ok <==> n2.bunrui == HB_MEISHI)
    ensures !FreeJoint(n1.bunrui, n2.bunrui) && n1.bunrui == HB_HEAD ==>
              (ok <==> n2.bunrui != HB_SHUU_JOSHI)
    ensures !FreeJoint(n1.bunrui, n2.bunrui) && n1.bunrui == HB_SHUU_JOSHI ==>
              (ok <==> n2.bunrui == HB_MEISHI || n2.bunrui == HB_SETTOUJI
                       || n2.bunrui == HB_SHUU_JOSHI)
    ensures !FreeJoint(n1.bunrui, n2.bunrui) && (n1.bunrui == HB_COMMA || n1.bunrui == HB_PERIOD) ==>
              (ok <==> !(IsNonFinalJoshi(n2.bunrui) || n2.bunrui == HB_SHUU_JOSHI
                         || n2.bunrui == HB_SETSUBIJI || n2.bunrui == HB_JODOUSHI))
    ensures (!FreeJoint(n1.bunrui, n2.bunrui) && n2.bunrui == HB_SETTOUJI
             && (n1.bunrui == HB_MEISHI || n1.bunrui == HB_SETSUBIJI)) ==> !ok
  {
    var b1, b2 := n1.bunrui, n2.bunrui;
    if FreeJoint(b1, b2) then true
    else match b1
      case HB_HEAD => b2 != HB_SHUU_JOSHI
      case HB_MEISHI => b2 != HB_SETTOUJI
      case HB_IKEIYOUSHI => InflectedConnectable(n1.katsuyou, n2, true)
      case HB_NAKEIYOUSHI => InflectedConnectable(n1.katsuyou, n2, true)
      case HB_RENTAISHI => !(b2 == HB_KANDOUSHI || b2 == HB_JODOUSHI || b2 == HB_SETSUBIJI)
      case HB_FUKUSHI => !(IsNonFinalJoshi(b2) || b2 == HB_SETSUBIJI)
      case HB_SETSUZOKUSHI => !(IsNonFinalJoshi(b2) || b2 == HB_SETSUBIJI)
      case HB_KANDOUSHI => !(IsNonFinalJoshi(b2) || b2 == HB_SETSUBIJI || b2 == HB_JODOUSHI)
      case HB_KAKU_JOSHI => b2 != HB_SETSUBIJI
      case HB_SETSUZOKU_JOSHI => b2 != HB_SETSUBIJI
      case HB_FUKU_JOSHI => b2 != HB_SETSUBIJI
      case HB_SHUU_JOSHI => b2 == HB_MEISHI || b2 == HB_SETTOUJI || b2 == HB_SHUU_JOSHI
      case HB_JODOUSHI => InflectedConnectable(n1.katsuyou, n2, false)
      case HB_GODAN_DOUSHI => InflectedConnectable(n1.katsuyou, n2, false)
      case HB_ICHIDAN_DOUSHI => InflectedConnectable(n1.katsuyou, n2, false)
      case HB_KAHEN_DOUSHI => InflectedConnectable(n1.katsuyou, n2, false)
      case HB_SAHEN_DOUSHI => InflectedConnectable(n1.katsuyou, n2, false)
      case HB_SETTOUJI => b2 == HB_MEISHI
      case HB_SETSUBIJI => b2 != HB_SETTOUJI
      case HB_COMMA =>
        !(IsNonFinalJoshi(b2) || b2 == HB_SHUU_JOSHI || b2 == HB_SETSUBIJI || b2 == HB_JODOUSHI)
      case HB_PERIOD =>
        !(IsNonFinalJoshi(b2) || b2 == HB_SHUU_JOSHI || b2 == HB_SETSUBIJI || b2 == HB_JODOUSHI)
      case _ => true
  }

  /** A verb or auxiliary in its hypothetical form connects exactly to the
      conjunctive particles ば, ども and ど. */
  lemma HypotheticalTakesBa(n1: Node, n2: Node)
    requires IsVerbClass(n1.bunrui) || n1.bunrui == HB_JODOUSHI
    requires n1.katsuyou == KATEI_KEI
    requires !FreeJoint(n1.bunrui, n2.bunrui)
    ensures IsNodeConnectable(n1, n2) <==>
              n2.bunrui == HB_SETSUZOKU_JOSHI && (n2.pre == "ば" || n2.pre == "ども" || n2.pre == "ど")
  {
  }

  /** An auxiliary that follows an imperfective form must carry the
      imperfective-link tag; after an adjective it must also begin with
      な or be う. */
  lemma ImperfectiveNeedsTag(n1: Node, n2: Node)
    requires n1.bunrui == HB_IKEIYOUSHI || n1.bunrui == HB_NAKEIYOUSHI || n1.bunrui == HB_JODOUSHI
             || IsVerbClass(n1.bunrui)
    requires n1.katsuyou == MIZEN_KEI
    requires !FreeJoint(n1.bunrui, n2.bunrui)
    ensures IsNodeConnectable(n1, n2) ==> n2.bunrui == HB_JODOUSHI && Contains(n2.tags, TAG_MIZEN_LINK)
    ensures IsNodeConnectable(n1, n2) && (n1.bunrui == HB_IKEIYOUSHI || n1.bunrui == HB_NAKEIYOUSHI)
            ==> CharAt(n2.pre, 0) == 'な' || n2.pre == "う"
  {
  }
}
