/** The user dictionary callback (`UserDictProc`): a word registered
    through `ImeRegisterWord` becomes a dictionary record, with the
    inflected ending trimmed off so that the inflection generators can
    add it back. */
module UserDict {
  import opened Wrappers
  import opened Bytes
  import opened Text
  import opened Hinshi
  import opened LatticeNodes
  import opened KanaTable
  import opened Inflection

  /** What one call of the callback does: stop the enumeration (it
      returns 0), go on without a record, go on after recording one, or
      throw `std::out_of_range` from a `substr` whose start is past the
      end of the word. */
  datatype Outcome = Stop | Skip | Add(f: Fields) | OutOfRange

  /** The record the callback stores: the class byte of the style word
      (values past `HB_MAX` keep their low byte) and the row, packed by
      `MAKEWORD`, tagged as a user word. */
  function Record(pre: String, v: nat, g: nat, post: String): (f: Fields)
    requires g < GYOU_COUNT
    ensures f.pre == pre && f.post == post && f.tags == TAG_USER
    ensures LoByte(HinshiWord(f)) == v % 0x100 && HiByte(HinshiWord(f)) == g
  {
    Fields(pre, MakeWordField(v % 0x100, g), post, TAG_USER)
  }

  /** `s` without its last character when that character is `c`. */
  function DropLast(s: String, c: char): (r: String)
    ensures (|s| > 0 && s[|s| - 1] == c) ==> r + [c] == s
    ensures !(|s| > 0 && s[|s| - 1] == c) ==> r == s
  {
    if |s| > 0 && s[|s| - 1] == c then s[..|s| - 1] else s
  }

  /** The last two characters of `s`, as `s.substr(s.size() - 2, 2)`
      reads them when `s` has at least two. */
  function Last2(s: String): String
    requires |s| >= 2
  {
    s[|s| - 2..]
  }

  /** `UserDictProc(lpRead, dw, lpStr)`. The reading and the word are
      non-empty (the callback asserts it). */
  function UserDictProc(read: String, dw: Dword, str: String): (r: Outcome)
    requires |read| > 0 && |str| > 0
  {
    if |read| <= 1 then Stop
    else
      var v := StyleToHinshiValue(dw);
      match StyleToHinshi(dw)
      case Some(HB_NAKEIYOUSHI) => Add(Record(DropLast(read, 'な'), v, GYOU_A, DropLast(str, 'な')))
      case Some(HB_IKEIYOUSHI) => Add(Record(DropLast(read, 'い'), v, GYOU_A, DropLast(str, 'い')))
      case Some(HB_ICHIDAN_DOUSHI) => Add(Record(DropLast(read, 'る'), v, GYOU_A, DropLast(str, 'る')))
      case Some(HB_KAHEN_DOUSHI) =>
        if |read| >= 3 && Last2(read) == "くる" then
          if |str| < 2 then OutOfRange
          else if Last2(str) == "来る" then Add(Record(read[..|read| - 2], v, GYOU_A, str[..|str| - 2]))
          else Add(Record(read, v, GYOU_A, str))
        else Add(Record(read, v, GYOU_A, str))
      case Some(HB_SAHEN_DOUSHI) =>
        if read == "する" || read == "ずる" then Skip
        else if Last2(read) != "する" && Last2(read) != "ずる" then Skip
        else if |str| < 2 then OutOfRange
        else if Last2(str) != Last2(read) then Skip
        else Add(Record(read[..|read| - 2], v, if Last2(read) == "する" then GYOU_SA else GYOU_ZA, str[..|str| - 2]))
      case Some(HB_GODAN_DOUSHI) =>
        var ch := read[|read| - 1];
        if DanOf(ch) != DAN_U then Skip
        else Add(Record(read[..|read| - 1], v, GyouOf(ch), str[..|str| - 1]))
      case _ => Add(Record(read, v, GYOU_A, str))
  }

  /** The enumeration stops exactly at a one-character reading. */
  lemma StopsOnShortReading(read: String, dw: Dword, str: String)
    requires |read| > 0 && |str| > 0
    ensures UserDictProc(read, dw, str) == Stop <==> |read| <= 1
  {
  }

  /** `t` is `s` with at most its last two characters removed. */
  predicate TrimmedAtMostTwo(s: String, t: String)
  {
    |t| <= |s| <= |t| + 2 && t == s[..|t|]
  }

  /** A stored record is tagged as a user word and keeps the class byte
      of the style word, which decodes back to the class when it names
      one. */
  lemma RecordClass(read: String, dw: Dword, str: String)
    requires |read| > 0 && |str| > 0 && UserDictProc(read, dw, str).Add?
    ensures UserDictProc(read, dw, str).f.tags == TAG_USER
    ensures LoByte(HinshiWord(UserDictProc(read, dw, str).f)) == StyleToHinshiValue(dw) % 0x100
    ensures StyleToHinshi(dw).Some? ==> FromByte(LoByte(HinshiWord(UserDictProc(read, dw, str).f))) == StyleToHinshi(dw)
  {
    var b := LoByte(HinshiWord(UserDictProc(read, dw, str).f));
    assert b == StyleToHinshiValue(dw) % 0x100;
    ClassByteDecodes(dw, b);
  }

  /** A stored record's reading is the reading with at most its two
      final characters trimmed. */
  lemma RecordTrimsReading(read: String, dw: Dword, str: String)
    requires |read| > 0 && |str| > 0 && UserDictProc(read, dw, str).Add?
    ensures TrimmedAtMostTwo(read, UserDictProc(read, dw, str).f.pre)
  {
    TrimsOf(read);
  }

  /** A stored record's word is the word with at most its two final
      characters trimmed. */
  lemma RecordTrimsWord(read: String, dw: Dword, str: String)
    requires |read| > 0 && |str| > 0 && UserDictProc(read, dw, str).Add?
    ensures TrimmedAtMostTwo(str, UserDictProc(read, dw, str).f.post)
  {
    TrimsOf(str);
  }

  /** The cuts the callback makes all leave at most two characters off. */
  lemma TrimsOf(s: String)
    ensures TrimmedAtMostTwo(s, s)
    ensures forall c :: TrimmedAtMostTwo(s, DropLast(s, c))
    ensures |s| >= 1 ==> TrimmedAtMostTwo(s, s[..|s| - 1])
    ensures |s| >= 2 ==> TrimmedAtMostTwo(s, s[..|s| - 2])
  {
  }

  /** A style word that names a class keeps that class in its low byte. */
  lemma ClassByteDecodes(dw: Dword, b: nat)
    requires b == StyleToHinshiValue(dw) % 0x100
    ensures StyleToHinshi(dw).Some? ==> FromByte(b) == StyleToHinshi(dw)
  {
    var v := StyleToHinshiValue(dw);
    if v <= HB_MAX {
      assert b == v;
    }
  }

  /** A godan verb is recorded exactly when its reading ends in a kana
      of the u-column; the record drops that kana and carries its row. */
  lemma GodanRecord(read: String, dw: Dword, str: String)
    requires |read| > 1 && |str| > 0 && StyleToHinshi(dw) == Some(HB_GODAN_DOUSHI)
    ensures UserDictProc(read, dw, str).Add? <==> DanOf(read[|read| - 1]) == DAN_U
    ensures UserDictProc(read, dw, str).Add? ==>
              read == UserDictProc(read, dw, str).f.pre + [read[|read| - 1]]
              && HiByte(HinshiWord(UserDictProc(read, dw, str).f)) == GyouOf(read[|read| - 1])
  {
  }

  /** The suru-verbs する and ずる themselves are not recorded; any other
      suru-verb is recorded with its する or ずる ending dropped from both
      the reading and the word, on the row of that ending. */
  lemma SahenRecord(read: String, dw: Dword, str: String)
    requires |read| > 0 && |str| > 0 && StyleToHinshi(dw) == Some(HB_SAHEN_DOUSHI)
    ensures read == "する" || read == "ずる" ==> UserDictProc(read, dw, str) == Skip
    ensures UserDictProc(read, dw, str).Add? ==>
              (read == UserDictProc(read, dw, str).f.pre + "する" && str == UserDictProc(read, dw, str).f.post + "する"
               && HiByte(HinshiWord(UserDictProc(read, dw, str).f)) == GYOU_SA)
              || (read == UserDictProc(read, dw, str).f.pre + "ずる" && str == UserDictProc(read, dw, str).f.post + "ずる"
                  && HiByte(HinshiWord(UserDictProc(read, dw, str).f)) == GYOU_ZA)
  {
    if UserDictProc(read, dw, str).Add? {
      assert read == read[..|read| - 2] + Last2(read);
      assert str == str[..|str| - 2] + Last2(str);
    }
  }

  /** The ku-verb ending くる/来る is dropped only from a reading of at
      least three characters. */
  lemma KahenRecord(read: String, dw: Dword, str: String)
    requires |read| > 0 && |str| > 0 && StyleToHinshi(dw) == Some(HB_KAHEN_DOUSHI)
    ensures UserDictProc(read, dw, str).Add? && UserDictProc(read, dw, str).f.pre != read ==>
              |read| >= 3 && read == UserDictProc(read, dw, str).f.pre + "くる"
              && str == UserDictProc(read, dw, str).f.post + "来る"
  {
    if UserDictProc(read, dw, str).Add? && UserDictProc(read, dw, str).f.pre != read {
      assert read == read[..|read| - 2] + Last2(read);
      assert str == str[..|str| - 2] + Last2(str);
    }
  }

  /** As written, a ku-verb whose reading ends in くる but whose word is a
      single character makes `post.substr(post.size() - 2, 2)` start past
      the end of the word. */
  lemma KahenShortWordThrows()
    ensures UserDictProc("あくる", HinshiToStyle(HB_KAHEN_DOUSHI), "来") == OutOfRange
  {
    StyleRoundTrip(HB_KAHEN_DOUSHI);
    assert Last2("あくる") == "くる";
  }

  /** The callback with the word's length checked before its last two
      characters are read: such a word simply does not end in the
      ending. */
  function UserDictProcChecked(read: String, dw: Dword, str: String): (r: Outcome)
    requires |read| > 0 && |str| > 0
    ensures !r.OutOfRange?
    ensures !UserDictProc(read, dw, str).OutOfRange? ==> r == UserDictProc(read, dw, str)
  {
    var r := UserDictProc(read, dw, str);
    if r.OutOfRange? then
      match StyleToHinshi(dw)
      case Some(HB_KAHEN_DOUSHI) => Add(Record(read, StyleToHinshiValue(dw), GYOU_A, str))
      case _ => Skip
    else r
  }

  /** Only a ku-verb or suru-verb entry with a one-character word throws. */
  lemma ThrowsOnlyOnShortWord(read: String, dw: Dword, str: String)
    requires |read| > 0 && |str| > 0
    ensures UserDictProc(read, dw, str) == OutOfRange ==>
              |str| == 1 && (StyleToHinshi(dw) == Some(HB_KAHEN_DOUSHI) || StyleToHinshi(dw) == Some(HB_SAHEN_DOUSHI))
  {
  }
}
