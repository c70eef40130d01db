/** Key processing of `ime/process.cpp`: the decision of `DoProcessKey`,
    whose dry run answers `ImeProcessKey` and whose real run, inside
    `ImeToAsciiEx`, performs the input-context operation and counts the
    messages that operation generates. */
module Process {
  import opened Bytes
  import opened ImeMain

  // ---- Virtual keys ------------------------------------------------------------

  const VK_BACK: Byte := 0x08
  const VK_RETURN: Byte := 0x0D
  const VK_SHIFT: Byte := 0x10
  const VK_CONTROL: Byte := 0x11
  const VK_MENU: Byte := 0x12
  const VK_CAPITAL: Byte := 0x14
  const VK_KANJI: Byte := 0x19
  const VK_ESCAPE: Byte := 0x1B
  const VK_CONVERT: Byte := 0x1C
  const VK_NONCONVERT: Byte := 0x1D
  const VK_SPACE: Byte := 0x20
  const VK_PRIOR: Byte := 0x21
  const VK_NEXT: Byte := 0x22
  const VK_END: Byte := 0x23
  const VK_HOME: Byte := 0x24
  const VK_LEFT: Byte := 0x25
  const VK_UP: Byte := 0x26
  const VK_RIGHT: Byte := 0x27
  const VK_DOWN: Byte := 0x28
  const VK_DELETE: Byte := 0x2E
  const VK_F5: Byte := 0x74
  const VK_F6: Byte := 0x75
  const VK_F7: Byte := 0x76
  const VK_F8: Byte := 0x77
  const VK_F9: Byte := 0x78
  const VK_F10: Byte := 0x79
  const VK_OEM_3: Byte := 0xC0
  const VK_PACKET: Byte := 0xE7
  const VK_DBE_ALPHANUMERIC: Byte := 0xF0
  const VK_DBE_KATAKANA: Byte := 0xF1
  const VK_DBE_HIRAGANA: Byte := 0xF2
  const VK_DBE_SBCSCHAR: Byte := 0xF3
  const VK_DBE_DBCSCHAR: Byte := 0xF4
  const VK_DBE_ROMAN: Byte := 0xF5

  /** The conversion-mode bit of a character-code conversion. */
  const IME_CMODE_CHARCODE: nat := 0x20

  const WIDE_SPACE: Word := 0x3000

  // ---- Inputs --------------------------------------------------------------------

  /** What `DoProcessKey` asks of the input context and of the IME before it
      decides: `IsOpen`, `HasCompStr`, `HasCandInfo`, `IsRomanMode`,
      `GetInputMode` and `Conversion`. */
  datatype Context = Context(open: bool, hasCompStr: bool, hasCandInfo: bool,
                             roman: bool, mode: InputMode, conversion: nat)

  /** The key tables of the keyboard layer (`mz_vkey_to_hiragana`,
      `mz_typing_key_to_char`, which are not part of this model) and the
      `bNoFullwidthSpace` setting. */
  datatype Keyboard = Keyboard(toHiragana: (Byte, bool) -> Word,
                               typing: (Byte, bool, bool) -> Word,
                               noFullwidthSpace: bool)

  /** A key is down when the high bit of its key-state byte is set. */
  predicate Down(keyState: seq<Byte>, vk: Byte)
    requires |keyState| == 0x100
  {
    (keyState[vk] / 0x80) % 2 == 1
  }

  /** `(BYTE)wParam`. */
  function VirtualKey(wParam: nat): Byte
  {
    wParam % 0x100
  }

  /** `HIWORD(wParam)`. */
  function HighWord(wParam: nat): Word
  {
    (wParam / 0x1_0000) % 0x1_0000
  }

  // ---- The decision ------------------------------------------------------------

  /** The input-context and IME operations a key can trigger. */
  datatype Action =
    | SetOpenStatus(open: bool)
    | SetMode(mode: InputMode)
    | SetRoman(roman: bool)
    | GenerateChar(ch: Word)
    | AddChar(typed: Word, translated: Word)
    | SelectCand(index: nat)
    | Convert(shift: bool)
    | Escape
    | DeleteChar(back: bool)
    | MakeHiragana | MakeKatakana | MakeHankaku | MakeZenEisuu | MakeHanEisuu
    | ConvertCode | CancelText | MakeResult
    | MoveLeft(shift: bool) | MoveRight(shift: bool) | MoveUp | MoveDown
    | PageUp | PageDown | MoveHome | MoveEnd

  /** The answer of `DoProcessKey` and the operations it performed. */
  datatype Decision = Decision(handled: bool, actions: seq<Action>)

  /** The operations run only when `bDoAction` is set. */
  function Act(doAction: bool, actions: seq<Action>): seq<Action>
  {
    if doAction then actions else []
  }

  /** The keys that act on the composition string only. */
  predicate CompositionKey(vk: Byte)
  {
    vk in {VK_ESCAPE, VK_DELETE, VK_BACK, VK_CONVERT, VK_F5, VK_F6, VK_F7, VK_F8, VK_F9, VK_F10,
           VK_RETURN, VK_LEFT, VK_RIGHT, VK_UP, VK_DOWN, VK_PRIOR, VK_NEXT, VK_HOME, VK_END}
  }

  /** The keys that switch the IME or its modes and are always taken. */
  predicate ModeKey(vk: Byte)
  {
    vk in {VK_KANJI, VK_DBE_DBCSCHAR, VK_DBE_SBCSCHAR, VK_DBE_ALPHANUMERIC, VK_DBE_ROMAN,
           VK_DBE_HIRAGANA, VK_DBE_KATAKANA, VK_NONCONVERT}
  }

  /** The keys with a case of their own in the `switch`. */
  predicate SwitchKey(vk: Byte)
  {
    ModeKey(vk) || CompositionKey(vk) || vk == VK_SPACE || vk == VK_OEM_3
  }

  /** The character a key types in the `default` case, and its hiragana. */
  function Typed(kb: Keyboard, ctx: Context, wParam: nat, shift: bool, caps: bool): Word
  {
    var vk := VirtualKey(wParam);
    if vk == VK_PACKET then HighWord(wParam) else kb.typing(vk, shift, caps)
  }

  function Translated(kb: Keyboard, ctx: Context, wParam: nat, shift: bool): Word
  {
    var vk := VirtualKey(wParam);
    if vk == VK_PACKET then HighWord(wParam)
    else if !ctx.roman then kb.toHiragana(vk, shift)
    else 0
  }

  /** Which keys the IME takes, stated key class by key class. */
  predicate Handles(kb: Keyboard, ctx: Context, wParam: nat, keyState: seq<Byte>, keyUp: bool)
    requires |keyState| == 0x100
  {
    var vk := VirtualKey(wParam);
    var alt, shift, ctrl := Down(keyState, VK_MENU), Down(keyState, VK_SHIFT), Down(keyState, VK_CONTROL);
    vk != VK_SHIFT && vk != VK_CONTROL && !keyUp
    && (ModeKey(vk)
        || (vk == VK_SPACE && ctx.open)
        || (vk == VK_OEM_3 && alt && !shift && !ctrl)
        || (CompositionKey(vk) && ctx.open && ctx.hasCompStr)
        || (!SwitchKey(vk) && ctx.open && !ctrl && !alt
            && (Translated(kb, ctx, wParam, shift) != 0
                || Typed(kb, ctx, wParam, shift, Down(keyState, VK_CAPITAL)) != 0)))
  }

  /** A key that acts on the composition string: taken, with the given
      operation, only while the IME is open with a composition. */
  function OnComposition(ctx: Context, doAction: bool, a: Action): (d: Decision)
    ensures d.handled <==> ctx.open && ctx.hasCompStr
    ensures d.actions == if d.handled && doAction then [a] else []
  {
    if ctx.open && ctx.hasCompStr then Decision(true, Act(doAction, [a])) else Decision(false, [])
  }

  /** The `[カナ/かな]` key: the mode it switches to, if any. */
  function KanaKeyActions(mode: InputMode, shift: bool): seq<Action>
  {
    match mode
    case IMODE_FULL_HIRAGANA => if shift then [SetMode(IMODE_FULL_KATAKANA)] else []
    case IMODE_FULL_KATAKANA => if !shift then [SetMode(IMODE_FULL_HIRAGANA)] else []
    case IMODE_FULL_ASCII => if shift then [SetMode(IMODE_FULL_KATAKANA)] else [SetMode(IMODE_FULL_HIRAGANA)]
    case IMODE_HALF_ASCII => if shift then [SetMode(IMODE_FULL_KATAKANA)] else [SetMode(IMODE_FULL_HIRAGANA)]
    case IMODE_HALF_KANA => if !shift then [SetMode(IMODE_FULL_HIRAGANA)] else []
    case IMODE_DISABLED => []
  }

  /** The `default` case: a key that types a character adds it, or picks a
      candidate when it is a digit 1-9 and candidates are shown. */
  function TypeKey(kb: Keyboard, ctx: Context, wParam: nat, keyState: seq<Byte>, doAction: bool): Decision
    requires |keyState| == 0x100
  {
    var shift := Down(keyState, VK_SHIFT);
    if !ctx.open || Down(keyState, VK_CONTROL) || Down(keyState, VK_MENU) then Decision(false, [])
    else
      var translated := Translated(kb, ctx, wParam, shift);
      var typed := Typed(kb, ctx, wParam, shift, Down(keyState, VK_CAPITAL));
      if translated == 0 && typed == 0 then Decision(false, [])
      else if ctx.hasCandInfo && '1' as int <= typed <= '9' as int then
        Decision(true, Act(doAction, [SelectCand(typed - '1' as int)]))
      else Decision(true, Act(doAction, [AddChar(typed, translated)]))
  }

  /** `DoProcessKey`: whether the IME takes the key (`wParam`, with the
      256-byte keyboard state), and with `bDoAction` the operations it runs.
      The answer never depends on `bDoAction`, so the dry run of
      `ImeProcessKey` predicts the real run of `ImeToAsciiEx`. */
  function DoProcessKey(kb: Keyboard, ctx: Context, wParam: nat, keyState: seq<Byte>,
                        keyUp: bool, doAction: bool): (d: Decision)
    requires |keyState| == 0x100
    ensures d.handled <==> Handles(kb, ctx, wParam, keyState, keyUp)
    ensures !doAction ==> d.actions == []
    ensures !d.handled ==> d.actions == []
  {
    var vk := VirtualKey(wParam);
    var open, comp := ctx.open, ctx.hasCompStr;
    var alt, shift, ctrl := Down(keyState, VK_MENU), Down(keyState, VK_SHIFT), Down(keyState, VK_CONTROL);
    if vk == VK_SHIFT || vk == VK_CONTROL then Decision(false, [])
    else if keyUp then Decision(false, [])
    else if vk == VK_KANJI || vk == VK_DBE_DBCSCHAR || vk == VK_DBE_SBCSCHAR then
      Decision(true, Act(doAction, [SetOpenStatus(!open)]))
    else if vk == VK_SPACE then
      if !open then Decision(false, [])
      else if ctrl then
        Decision(true, Act(doAction, if comp then [AddChar(' ' as int, 0)] else [GenerateChar(' ' as int)]))
      else
        Decision(true, Act(doAction,
          if comp then [Convert(shift)]
          else [GenerateChar(if kb.noFullwidthSpace then ' ' as int else WIDE_SPACE)]))
    else if vk == VK_DBE_ALPHANUMERIC then
      Decision(true, Act(doAction && !shift && !ctrl,
        [SetOpenStatus(true),
         SetMode(if open && ctx.mode == IMODE_FULL_HIRAGANA then IMODE_FULL_ASCII else IMODE_FULL_HIRAGANA)]))
    else if vk == VK_OEM_3 then
      if alt && !shift && !ctrl then Decision(true, Act(doAction, [SetOpenStatus(!open)]))
      else Decision(false, [])
    else if vk == VK_DBE_ROMAN then
      Decision(true, Act(doAction && open, [SetRoman(!ctx.roman)]))
    else if vk == VK_DBE_HIRAGANA || vk == VK_DBE_KATAKANA then
      Decision(true, Act(doAction, KanaKeyActions(ctx.mode, shift)))
    else if vk == VK_ESCAPE then OnComposition(ctx, doAction, Escape)
    else if vk == VK_DELETE || vk == VK_BACK then OnComposition(ctx, doAction, DeleteChar(vk == VK_BACK))
    else if vk == VK_CONVERT then OnComposition(ctx, doAction, Convert(shift))
    else if vk == VK_NONCONVERT then
      Decision(true, Act(doAction && open && comp, [MakeHiragana]))
    else if vk == VK_F5 then OnComposition(ctx, doAction, ConvertCode)
    else if vk == VK_F6 then OnComposition(ctx, doAction, MakeHiragana)
    else if vk == VK_F7 then OnComposition(ctx, doAction, MakeKatakana)
    else if vk == VK_F8 then OnComposition(ctx, doAction, MakeHankaku)
    else if vk == VK_F9 then OnComposition(ctx, doAction, MakeZenEisuu)
    else if vk == VK_F10 then OnComposition(ctx, doAction, MakeHanEisuu)
    else if vk == VK_RETURN then
      OnComposition(ctx, doAction,
        if (ctx.conversion / IME_CMODE_CHARCODE) % 2 == 1 then CancelText else MakeResult)
    else if vk == VK_LEFT then OnComposition(ctx, doAction, MoveLeft(shift))
    else if vk == VK_RIGHT then OnComposition(ctx, doAction, MoveRight(shift))
    else if vk == VK_UP then OnComposition(ctx, doAction, MoveUp)
    else if vk == VK_DOWN then OnComposition(ctx, doAction, MoveDown)
    else if vk == VK_PRIOR then OnComposition(ctx, doAction, PageUp)
    else if vk == VK_NEXT then OnComposition(ctx, doAction, PageUp)
    else if vk == VK_HOME then OnComposition(ctx, doAction, MoveHome)
    else if vk == VK_END then OnComposition(ctx, doAction, MoveEnd)
    else TypeKey(kb, ctx, wParam, keyState, doAction)
  }

  // ---- Properties of the decision -------------------------------------------------

  /** The dry run and the real run agree on every key. */
  lemma DryRunPredicts(kb: Keyboard, ctx: Context, wParam: nat, keyState: seq<Byte>, keyUp: bool)
    requires |keyState| == 0x100
    ensures DoProcessKey(kb, ctx, wParam, keyState, keyUp, false).handled
            == DoProcessKey(kb, ctx, wParam, keyState, keyUp, true).handled
  {
    var dry := DoProcessKey(kb, ctx, wParam, keyState, keyUp, false);
    var run := DoProcessKey(kb, ctx, wParam, keyState, keyUp, true);
    assert dry.handled <==> Handles(kb, ctx, wParam, keyState, keyUp);
    assert run.handled <==> Handles(kb, ctx, wParam, keyState, keyUp);
  }

  /** A typed digit 1-9 selects a candidate while candidates are shown,
      instead of being added to the composition. */
  lemma DigitSelectsCandidate(kb: Keyboard, ctx: Context, wParam: nat, keyState: seq<Byte>)
    requires |keyState| == 0x100 && !SwitchKey(VirtualKey(wParam))
    requires VirtualKey(wParam) != VK_SHIFT && VirtualKey(wParam) != VK_CONTROL
    requires ctx.open && ctx.hasCandInfo && !Down(keyState, VK_CONTROL) && !Down(keyState, VK_MENU)
    requires '1' as int <= Typed(kb, ctx, wParam, Down(keyState, VK_SHIFT), Down(keyState, VK_CAPITAL)) <= '9' as int
    ensures DoProcessKey(kb, ctx, wParam, keyState, false, true)
            == Decision(true, [SelectCand(Typed(kb, ctx, wParam, Down(keyState, VK_SHIFT), Down(keyState, VK_CAPITAL)) - '1' as int)])
  {
  }

  /** The kana key only ever switches to full-width katakana (with Shift)
      or hiragana (without), and switches exactly from the modes listed. */
  lemma KanaKeyTargets(mode: InputMode, shift: bool)
    ensures forall a :: a in KanaKeyActions(mode, shift) ==>
              a == SetMode(if shift then IMODE_FULL_KATAKANA else IMODE_FULL_HIRAGANA)
    ensures |KanaKeyActions(mode, shift)| <= 1
    ensures KanaKeyActions(mode, shift) != [] <==>
              (mode == IMODE_FULL_HIRAGANA && shift) || (mode == IMODE_FULL_KATAKANA && !shift)
              || mode == IMODE_FULL_ASCII || mode == IMODE_HALF_ASCII
              || (mode == IMODE_HALF_KANA && !shift)
  {
  }

  /** As written, Page Down pages up, and no key pages down. */
  lemma PageDownPagesUp(kb: Keyboard, ctx: Context, wParam: nat, keyState: seq<Byte>, keyUp: bool, doAction: bool)
    requires |keyState| == 0x100
    ensures VirtualKey(wParam) == VK_NEXT && ctx.open && ctx.hasCompStr && !keyUp && doAction ==>
              DoProcessKey(kb, ctx, wParam, keyState, keyUp, doAction).actions == [PageUp]
    ensures PageDown !in DoProcessKey(kb, ctx, wParam, keyState, keyUp, doAction).actions
  {
  }

  // ---- The two entry points ------------------------------------------------------------

  /** `ImeProcessKey`: the dry run of `DoProcessKey` on a context that could
      be locked (`locked`); bit 31 of `lKeyData` marks a key-up. */
  function ImeProcessKey(kb: Keyboard, ctx: Context, locked: bool, vKey: nat, lKeyData: nat,
                         keyState: seq<Byte>): (r: bool)
    requires |keyState| == 0x100
    ensures r <==> locked && Handles(kb, ctx, vKey, keyState, (lKeyData / 0x8000_0000) % 2 == 1)
  {
    locked && DoProcessKey(kb, ctx, vKey, keyState, (lKeyData / 0x8000_0000) % 2 == 1, false).handled
  }

  /** The messages an operation generates: the character message of
      `GenerateChar`, and for every other operation those the input
      context reports (`others`, the input-context side is not part of this
      model). */
  function MessagesOf(actions: seq<Action>, others: seq<TransMsg>): seq<TransMsg>
  {
    if |actions| == 1 && actions[0].GenerateChar? then [TransMsg(WM_IME_CHAR, actions[0].ch, 1)]
    else if actions == [] then []
    else others
  }

  /** The buffer after the messages `ms` were offered one by one to a
      buffer of `cap` announced slots: message k lands in slot k while
      k + 1 < cap, and the rest are counted but dropped. */
  function Filled(buf: seq<TransMsg>, ms: seq<TransMsg>, cap: nat): (r: seq<TransMsg>)
    ensures |r| == |buf|
    ensures forall k :: 0 <= k < |buf| && k < |ms| && k + 1 < cap ==> r[k] == ms[k]
    ensures forall k :: 0 <= k < |buf| && (k >= |ms| || k + 1 >= cap) ==> r[k] == buf[k]
  {
    seq(|buf|, k requires 0 <= k < |buf| => if k < |ms| && k + 1 < cap then ms[k] else buf[k])
  }

  /** `ImeToAsciiEx`: the buffer is lent to the IME and its count reset,
      the key is processed for real, and the count of generated messages is
      returned. When the context cannot be locked the buffer stays lent. */
  method ImeToAsciiEx(ime: MzIme, buf: TransMsgList, kb: Keyboard, ctx: Context, locked: bool,
                      uVKey: nat, uScanCode: nat, keyState: seq<Byte>, others: seq<TransMsg>)
    returns (count: nat, d: Decision)
    requires |keyState| == 0x100 && buf.Valid()
    modifies ime, buf.msgs
    ensures d == (if locked then DoProcessKey(kb, ctx, uVKey, keyState, (uScanCode / 0x8000) % 2 == 1, true)
                  else Decision(false, []))
    ensures count == |MessagesOf(d.actions, others)| && ime.numTransKey == count
    ensures ime.curTransKey == (if locked then null else buf)
    ensures buf.msgs[..] == Filled(old(buf.msgs[..]), MessagesOf(d.actions, others), buf.uMsgCount)
    ensures ime.overflowKey == (old(ime.overflowKey) || (count > 0 && count >= buf.uMsgCount))
    ensures ime.imcMsgs == old(ime.imcMsgs)
  {
    ime.curTransKey := buf;
    ime.numTransKey := 0;
    d := Decision(false, []);
    if locked {
      d := DoProcessKey(kb, ctx, uVKey, keyState, (uScanCode / 0x8000) % 2 == 1, true);
      var ms := MessagesOf(d.actions, others);
      var i := 0;
      ghost var buf0 := buf.msgs[..];
      ghost var over0 := ime.overflowKey;
      while i < |ms|
        invariant 0 <= i <= |ms|
        invariant ime.curTransKey == buf && buf.Valid() && ime.numTransKey == i
        invariant buf.msgs[..] == Filled(buf0, ms[..i], buf.uMsgCount)
        invariant ime.overflowKey == (over0 || (i > 0 && i >= buf.uMsgCount))
        invariant ime.imcMsgs == old(ime.imcMsgs)
      {
        var _ := ime.GenerateMessageToTransKey(ms[i]);
        assert ms[..i + 1] == ms[..i] + [ms[i]];
        i := i + 1;
      }
      assert ms[..i] == ms;
      ime.curTransKey := null;
    }
    count := ime.numTransKey;
  }
}
