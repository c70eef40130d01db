/** The IMM entry points of the older IME (`imm.cpp`) that decide
    something: the escape query, the candidate-list notifications and the
    right-click menu. */
module Imm {
  import opened Text
  import opened Wrappers

  // Escape subfunctions (Windows `imm.h`).
  const IME_ESC_QUERY_SUPPORT: nat := 0x0003
  const IME_ESC_GETHELPFILENAME: nat := 0x100B

  const HELP_FILE: String := "mzimeja.hlp"

  /** `ImeEscape`: `data` is the subfunction asked about when querying
      support. The result and, for the help-file request, the string
      written to the caller's buffer. */
  function ImeEscape(subFunc: nat, data: nat): (r: (bool, Option<String>))
    ensures subFunc == IME_ESC_QUERY_SUPPORT ==>
      r == ((data == IME_ESC_QUERY_SUPPORT || data == IME_ESC_GETHELPFILENAME), None)
    ensures subFunc == IME_ESC_GETHELPFILENAME ==> r == (true, Some(HELP_FILE))
    ensures subFunc != IME_ESC_QUERY_SUPPORT && subFunc != IME_ESC_GETHELPFILENAME ==> r == (false, None)
  {
    if subFunc == IME_ESC_QUERY_SUPPORT then
      if data == IME_ESC_QUERY_SUPPORT || data == IME_ESC_GETHELPFILENAME then (true, None)
      else (false, None)
    else if subFunc == IME_ESC_GETHELPFILENAME then (true, Some(HELP_FILE))
    else (false, None)
  }

  /** The support query is truthful: it answers TRUE for a subfunction
      exactly when that subfunction, asked itself, returns TRUE (the query
      asked about itself included). */
  lemma EscapeQueryIsTruthful(code: nat)
    ensures ImeEscape(IME_ESC_QUERY_SUPPORT, code).0 == ImeEscape(code, IME_ESC_QUERY_SUPPORT).0
  {
  }

  // ---- NotifyIME on the candidate list ---------------------------------------------

  /** The candidate list fields the notifications touch. */
  datatype CandList = CandList(count: nat, selection: nat, pageStart: nat, pageSize: nat)

  /** The selection and the page start point into the list. */
  predicate InRange(list: CandList)
  {
    list.selection < list.count && list.pageStart < list.count
  }

  /** The candidate notifications `NotifyIME` handles. */
  datatype CandAction =
    | SelectCandidateStr      // NI_SELECTCANDIDATESTR
    | ChangeCandidateList     // NI_CHANGECANDIDATELIST
    | SetCandidatePageSize    // NI_SETCANDIDATE_PAGESIZE
    | SetCandidatePageStart   // NI_SETCANDIDATE_PAGESTART

  /** `NotifyIME` for a candidate action on list `index` (only list 1
      exists) of a context that has candidates (`hasCands`): the result and
      the list afterwards. */
  function NotifyCandidate(action: CandAction, index: nat, value: nat, hasCands: bool, list: CandList): (r: (bool, CandList))
    ensures !(index == 1 && hasCands) ==> r == (false, list)
    ensures action == SelectCandidateStr ==>
      (r.0 <==> index == 1 && hasCands && value < list.count)
      && r.1 == (if r.0 then list.(selection := value) else list)
    ensures action == SetCandidatePageStart ==>
      (r.0 <==> index == 1 && hasCands && value < list.count)
      && r.1 == (if r.0 then list.(pageStart := value) else list)
    ensures action == SetCandidatePageSize ==>
      (r.0 <==> index == 1 && hasCands) && r.1 == (if r.0 then list.(pageSize := value) else list)
    ensures action == ChangeCandidateList ==> (r.0 <==> index == 1 && hasCands) && r.1 == list
  {
    if index == 1 && hasCands then
      match action
      case SelectCandidateStr =>
        if value < list.count then (true, list.(selection := value)) else (false, list)
      case ChangeCandidateList => (true, list)
      case SetCandidatePageSize => (true, list.(pageSize := value))
      case SetCandidatePageStart =>
        if value < list.count then (true, list.(pageStart := value)) else (false, list)
    else (false, list)
  }

  /** No notification takes the selection or the page start out of the
      list. */
  lemma NotifyKeepsInRange(action: CandAction, index: nat, value: nat, hasCands: bool, list: CandList)
    requires InRange(list)
    ensures InRange(NotifyCandidate(action, index, value, hasCands, list).1)
    ensures NotifyCandidate(action, index, value, hasCands, list).1.count == list.count
  {
  }

  // ---- ImeGetImeMenuItems ----------------------------------------------------------

  /** The input modes the menu shows (`INPUT_MODE`). */
  datatype InputMode = ZenHiragana | ZenKatakana | ZenEisuu | HanKana | HanEisuu | OtherMode

  /** The commands of the right-click menu; `Separator` is the entry `-1`. */
  datatype Command =
    | Hiragana | ZenKatakanaCmd | ZenAlnum | HanKatakana | Alnum
    | RomanInput | KanaInput | AddWord | Reconvert | Property | About
    | Separator

  /** `top_menu_items`. */
  const TOP_MENU_ITEMS: seq<Command> := [
    Hiragana, ZenKatakanaCmd, ZenAlnum, HanKatakana, Alnum, Separator,
    RomanInput, KanaInput, Separator, AddWord, Reconvert, Separator,
    Property, About]

  datatype ItemType = SeparatorItem | RadioCheck | PlainItem

  /** The fields of `IMEMENUITEMINFO` the menu fills in. */
  datatype MenuItem = MenuItem(fType: ItemType, checked: bool, id: Command, text: String)

  /** The mode a mode command stands for. */
  function ModeOf(c: Command): Option<InputMode>
  {
    match c
    case Hiragana => Some(ZenHiragana)
    case ZenKatakanaCmd => Some(ZenKatakana)
    case ZenAlnum => Some(ZenEisuu)
    case HanKatakana => Some(HanKana)
    case Alnum => Some(HanEisuu)
    case _ => None
  }

  /** One entry of the menu: separators have the separator type and no
      text; mode commands and the two input-method commands are radio
      items, checked for the current mode and for roman or kana input;
      `caption` stands for the string resource each command loads. */
  function ItemFor(c: Command, mode: InputMode, roman: bool, caption: Command -> String): MenuItem
  {
    match c
    case Separator => MenuItem(SeparatorItem, false, c, [])
    case RomanInput => MenuItem(RadioCheck, roman, c, caption(c))
    case KanaInput => MenuItem(RadioCheck, !roman, c, caption(c))
    case _ =>
      if ModeOf(c).Some? then MenuItem(RadioCheck, ModeOf(c) == Some(mode), c, caption(c))
      else MenuItem(PlainItem, false, c, caption(c))
  }

  /** `ImeGetImeMenuItems`: with no output array, the number of items for
      the top-level right-click menu and 0 for anything else; with one, the
      fourteen items are written to it for that menu, and nothing is written
      otherwise. `conversionRoman` is the roman bit of the conversion mode. */
  method ImeGetImeMenuItems(rightMenu: bool, hasParent: bool, menu: array?<MenuItem>,
                            mode: InputMode, conversionRoman: bool, caption: Command -> String)
      returns (count: nat)
    requires menu != null && !hasParent && rightMenu ==> menu.Length >= |TOP_MENU_ITEMS|
    modifies menu
    ensures count == (if !hasParent && rightMenu then |TOP_MENU_ITEMS| else 0)
    ensures menu != null && count > 0 ==>
      forall i :: 0 <= i < |TOP_MENU_ITEMS| ==> menu[i] == ItemFor(TOP_MENU_ITEMS[i], mode, conversionRoman, caption)
    ensures menu != null && count > 0 ==> menu[|TOP_MENU_ITEMS|..] == old(menu[|TOP_MENU_ITEMS|..])
    ensures menu != null && count == 0 ==> menu[..] == old(menu[..])
  {
    count := 0;
    if menu == null {
      if !hasParent && rightMenu {
        count := |TOP_MENU_ITEMS|;
      }
      return;
    }
    if !hasParent && rightMenu {
      var i := 0;
      while i < |TOP_MENU_ITEMS|
        invariant 0 <= i <= |TOP_MENU_ITEMS|
        invariant forall k :: 0 <= k < i ==> menu[k] == ItemFor(TOP_MENU_ITEMS[k], mode, conversionRoman, caption)
        invariant forall k :: i <= k < menu.Length ==> menu[k] == old(menu[k])
      {
        menu[i] := ItemFor(TOP_MENU_ITEMS[i], mode, conversionRoman, caption);
        i := i + 1;
      }
      count := |TOP_MENU_ITEMS|;
    }
  }

  /** Exactly one of the roman-input and kana-input items is checked. */
  lemma OneInputMethodChecked(mode: InputMode, roman: bool, caption: Command -> String)
    ensures ItemFor(RomanInput, mode, roman, caption).checked != ItemFor(KanaInput, mode, roman, caption).checked
  {
  }

  /** A checked mode item is the one for the current mode, so at most one
      of the five is checked. */
  lemma CheckedModeIsCurrent(mode: InputMode, roman: bool, caption: Command -> String)
    ensures forall i :: 0 <= i < |TOP_MENU_ITEMS| && ModeOf(TOP_MENU_ITEMS[i]).Some? ==>
      (ItemFor(TOP_MENU_ITEMS[i], mode, roman, caption).checked <==> ModeOf(TOP_MENU_ITEMS[i]) == Some(mode))
    ensures forall i, j :: 0 <= i < j < 5 ==>
      !(ItemFor(TOP_MENU_ITEMS[i], mode, roman, caption).checked && ItemFor(TOP_MENU_ITEMS[j], mode, roman, caption).checked)
  {
  }

  /** Separator entries have the separator type and an empty string. */
  lemma SeparatorsAreBlank(mode: InputMode, roman: bool, caption: Command -> String)
    ensures forall i :: 0 <= i < |TOP_MENU_ITEMS| && TOP_MENU_ITEMS[i] == Separator ==>
      ItemFor(TOP_MENU_ITEMS[i], mode, roman, caption) == MenuItem(SeparatorItem, false, Separator, [])
  {
  }
}
