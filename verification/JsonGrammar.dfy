/**
  The JSON grammar (RFC 8259, sections 2 to 7) for integers and Unicode scalar values, as syntax trees with a text
  and a meaning, and the printer and the reader of canonical JSON against it.
 */
module JsonGrammar {
  import opened Wrappers
  import opened Decimal
  import opened CanonicalJson

  // ---------- syntax ----------

  /** One character of a string: as it is, after a backslash, or by one or two UTF-16 code units. */
  datatype CharSyntax = Plain(c: char) | Short(letter: char) | Unit(hex: string) | Pair(high: string, low: string)

  /** The strings `before`, `after` and `pad` hold white space. */
  datatype Syntax =
    | NullWord
    | TrueWord
    | FalseWord
    | Number(negative: bool, digits: string)
    | Text(chars: seq<CharSyntax>)
    | Array(pad: string, items: seq<ItemSyntax>)
    | Object(pad: string, members: seq<MemberSyntax>)

  datatype ItemSyntax = ItemSyntax(before: string, value: Syntax, after: string)

  datatype MemberSyntax = MemberSyntax(
    before: string, key: seq<CharSyntax>, beforeColon: string, afterColon: string, value: Syntax, after: string)

  // ---------- the text of a tree ----------

  function CharText(c: CharSyntax): string {
    match c
    case Plain(c) => [c]
    case Short(letter) => "\\" + [letter]
    case Unit(hex) => "\\u" + hex
    case Pair(high, low) => ("\\u" + high) + ("\\u" + low)
  }

  function CharsText(chars: seq<CharSyntax>): string {
    if chars == [] then "" else CharText(chars[0]) + CharsText(chars[1..])
  }

  function StringText(chars: seq<CharSyntax>): string {
    "\"" + CharsText(chars) + "\""
  }

  function TextOf(t: Syntax): string
    decreases t, 0
  {
    match t
    case NullWord => "null"
    case TrueWord => "true"
    case FalseWord => "false"
    case Number(negative, digits) => if negative then "-" + digits else digits
    case Text(chars) => StringText(chars)
    case Array(pad, items) => if items == [] then "[" + pad + "]" else "[" + ItemsText(items)
    case Object(pad, members) => if members == [] then "{" + pad + "}" else "{" + MembersText(members)
  }

  /** Items separated by commas, with the closing bracket. */
  function ItemsText(items: seq<ItemSyntax>): string
    requires items != []
    decreases items, 0
  {
    var first := items[0].before + TextOf(items[0].value) + items[0].after;
    first + if |items| == 1 then "]" else "," + ItemsText(items[1..])
  }

  /** Members separated by commas, with the closing brace. */
  function MembersText(members: seq<MemberSyntax>): string
    requires members != []
    decreases members, 0
  {
    var m := members[0];
    var first := m.before + StringText(m.key) + m.beforeColon + ":" + m.afterColon + TextOf(m.value) + m.after;
    first + if |members| == 1 then "}" else "," + MembersText(members[1..])
  }

  // ---------- well-formed trees ----------

  predicate Blank(s: string) {
    forall i :: 0 <= i < |s| ==> s[i] == ' ' || s[i] == '\t' || s[i] == '\n' || s[i] == '\r'
  }

  predicate Digit(c: char) {
    '0' <= c <= '9'
  }

  predicate HexDigits(s: string) {
    |s| == 4 && forall i :: 0 <= i < |s| ==> Digit(s[i]) || 'a' <= s[i] <= 'f' || 'A' <= s[i] <= 'F'
  }

  /** What a hexadecimal digit counts. */
  function HexCount(c: char): (n: nat)
    requires Digit(c) || 'a' <= c <= 'f' || 'A' <= c <= 'F'
    ensures n < 16
  {
    if Digit(c) then c as int - 48 else if c <= 'F' then c as int - 55 else c as int - 87
  }

  function CodeUnit(hex: string): (code: nat)
    requires HexDigits(hex)
    ensures code < 0x10000
  {
    HexCount(hex[0]) * 0x1000 + HexCount(hex[1]) * 0x100 + HexCount(hex[2]) * 0x10 + HexCount(hex[3])
  }

  /** What the letter after a backslash stands for. */
  function ShortEscape(letter: char): Option<char> {
    if letter == '\"' then Some(34 as char)
    else if letter == '\\' then Some(92 as char)
    else if letter == '/' then Some(47 as char)
    else if letter == 'b' then Some(8 as char)
    else if letter == 'f' then Some(12 as char)
    else if letter == 'n' then Some(10 as char)
    else if letter == 'r' then Some(13 as char)
    else if letter == 't' then Some(9 as char)
    else None
  }

  predicate CharWellFormed(c: CharSyntax) {
    match c
    case Plain(c) => 32 <= c as int && c as int != 34 && c as int != 92
    case Short(letter) => ShortEscape(letter).Some?
    case Unit(hex) => HexDigits(hex) && !(0xD800 <= CodeUnit(hex) < 0xE000)
    case Pair(high, low) =>
      && HexDigits(high) && 0xD800 <= CodeUnit(high) < 0xDC00
      && HexDigits(low) && 0xDC00 <= CodeUnit(low) < 0xE000
  }

  predicate CharsWellFormed(chars: seq<CharSyntax>) {
    forall i :: 0 <= i < |chars| ==> CharWellFormed(chars[i])
  }

  /** Decimal digits, without a superfluous zero in front. */
  predicate Digits(s: string) {
    && s != [] && (forall i :: 0 <= i < |s| ==> Digit(s[i]))
    && (s[0] == '0' ==> |s| == 1)
  }

  predicate WellFormed(t: Syntax)
    decreases t
  {
    match t
    case Number(_, digits) => Digits(digits)
    case Text(chars) => CharsWellFormed(chars)
    case Array(pad, items) =>
      Blank(pad) && forall i :: 0 <= i < |items| ==>
        Blank(items[i].before) && Blank(items[i].after) && WellFormed(items[i].value)
    case Object(pad, members) =>
      Blank(pad) && forall i :: 0 <= i < |members| ==>
        && Blank(members[i].before) && CharsWellFormed(members[i].key)
        && Blank(members[i].beforeColon) && Blank(members[i].afterColon)
        && Blank(members[i].after) && WellFormed(members[i].value)
    case _ => true
  }

  // ---------- the meaning of a tree ----------

  function CharMeaning(c: CharSyntax): char
    requires CharWellFormed(c)
  {
    match c
    case Plain(c) => c
    case Short(letter) => ShortEscape(letter).value
    case Unit(hex) => CodeUnit(hex) as char
    case Pair(high, low) => (0x10000 + (CodeUnit(high) - 0xD800) * 0x400 + (CodeUnit(low) - 0xDC00)) as char
  }

  function CharsMeaning(chars: seq<CharSyntax>): (s: string)
    requires CharsWellFormed(chars)
    ensures |s| == |chars|
  {
    seq(|chars|, i requires 0 <= i < |chars| => CharMeaning(chars[i]))
  }

  function DigitCount(c: char): nat
    requires Digit(c)
  {
    c as int - 48
  }

  /** The number that the digits continue: each one shifts what came before by one place. */
  function NumberFrom(before: nat, digits: string): nat
    requires forall i :: 0 <= i < |digits| ==> Digit(digits[i])
    decreases |digits|
  {
    if digits == [] then before else NumberFrom(10 * before + DigitCount(digits[0]), digits[1..])
  }

  /** The keys in the order of their first occurrence, each with its last value. */
  function LastValues(fields: seq<Field>): seq<Field>
    decreases |fields|
  {
    if fields == [] then []
    else
      var key := fields[0].key;
      [Field(key, LastValue(fields, key))] + LastValues(Without(fields[1..], key))
  }

  /** The value of the last field with the key. */
  function LastValue(fields: seq<Field>, key: string): Json {
    if fields == [] then Null
    else if fields[|fields| - 1].key == key then fields[|fields| - 1].value
    else LastValue(fields[..|fields| - 1], key)
  }

  function Without(fields: seq<Field>, key: string): (r: seq<Field>)
    ensures |r| <= |fields|
  {
    if fields == [] then []
    else if fields[0].key == key then Without(fields[1..], key)
    else [fields[0]] + Without(fields[1..], key)
  }

  function Meaning(t: Syntax): Json
    requires WellFormed(t)
    decreases t, 0
  {
    match t
    case NullWord => Null
    case TrueWord => Bool(true)
    case FalseWord => Bool(false)
    case Number(negative, digits) =>
      var magnitude: int := NumberFrom(0, digits);
      Int(if negative then -magnitude else magnitude)
    case Text(chars) => Str(CharsMeaning(chars))
    case Array(_, items) => Arr(ItemsMeaning(items))
    case Object(_, members) => Obj(LastValues(MembersMeaning(members)))
  }

  function ItemsMeaning(items: seq<ItemSyntax>): seq<Json>
    requires forall i :: 0 <= i < |items| ==> WellFormed(items[i].value)
    decreases items, 0
  {
    if items == [] then [] else [Meaning(items[0].value)] + ItemsMeaning(items[1..])
  }

  function MembersMeaning(members: seq<MemberSyntax>): seq<Field>
    requires forall i :: 0 <= i < |members| ==> CharsWellFormed(members[i].key) && WellFormed(members[i].value)
    decreases members, 0
  {
    if members == [] then []
    else [Field(CharsMeaning(members[0].key), Meaning(members[0].value))] + MembersMeaning(members[1..])
  }

  /** The text is that of a JSON value with the given meaning, white space around it allowed. */
  ghost predicate StandsFor(text: string, v: Json) {
    exists before, t, after ::
      Blank(before) && Blank(after) && WellFormed(t) && text == before + TextOf(t) + after && Meaning(t) == v
  }

  // ---------- what is read has a tree ----------

  lemma {:induction false} SkippedIsBlank(s: string) returns (pad: string)
    ensures Blank(pad) && s == pad + SkipSpaces(s)
  {
    if s != [] && IsSpace(s[0]) {
      var rest := SkippedIsBlank(s[1..]);
      pad := [s[0]] + rest;
      FirstGlue(s, rest, SkipSpaces(s[1..]));
    } else {
      pad := [];
    }
  }

  lemma FirstGlue(s: string, front: string, end: string)
    requires s != [] && s[1..] == front + end
    ensures s == [s[0]] + front + end
  {
  }

  lemma HexReadSound(s: string)
    requires ReadHex4(s).Some?
    ensures 4 <= |s| && HexDigits(s[..4]) && CodeUnit(s[..4]) == ReadHex4(s).value
  {
  }

  lemma ShortReadSound(s: string)
    requires s != [] && s[0] != 'u' && ReadEscape(s).Some?
    ensures ShortEscape(s[0]) == Some(ReadEscape(s).value.0) && ReadEscape(s).value.1 == s[1..]
  {
  }

  lemma UnitReadSound(s: string)
    requires ReadEscape(s).Some? && s[0] == 'u'
    ensures 5 <= |s| && HexDigits(s[1..5])
    ensures IsScalar(CodeUnit(s[1..5])) ==>
      ReadEscape(s).value.0 as int == CodeUnit(s[1..5]) && ReadEscape(s).value.1 == s[5..]
    ensures !IsScalar(CodeUnit(s[1..5])) ==>
      && 0xD800 <= CodeUnit(s[1..5]) < 0xDC00 && 11 <= |s| && s[5] == '\\' && s[6] == 'u'
      && HexDigits(s[7..11]) && 0xDC00 <= CodeUnit(s[7..11]) < 0xE000
      && ReadEscape(s).value.0 as int
         == 0x10000 + (CodeUnit(s[1..5]) - 0xD800) * 0x400 + (CodeUnit(s[7..11]) - 0xDC00)
      && ReadEscape(s).value.1 == s[11..]
  {
    HexReadSound(s[1..]);
    assert s[1..][..4] == s[1..5];
    if !IsScalar(CodeUnit(s[1..5])) {
      HexReadSound(s[7..]);
      assert s[7..][..4] == s[7..11];
    }
  }

  lemma UnitText(s: string)
    requires 5 <= |s| && s[0] == 'u'
    ensures "\\" + s == "\\u" + s[1..5] + s[5..]
    ensures 11 <= |s| && s[5] == '\\' && s[6] == 'u' ==>
      "\\" + s == (("\\u" + s[1..5]) + ("\\u" + s[7..11])) + s[11..]
  {
  }

  lemma EscapeReadSound(s: string) returns (c: CharSyntax)
    requires ReadEscape(s).Some?
    ensures CharWellFormed(c) && CharMeaning(c) == ReadEscape(s).value.0
    ensures "\\" + s == CharText(c) + ReadEscape(s).value.1
  {
    if s[0] != 'u' {
      ShortReadSound(s);
      c := Short(s[0]);
      assert s == [s[0]] + s[1..];
    } else {
      UnitReadSound(s);
      UnitText(s);
      c := if IsScalar(CodeUnit(s[1..5])) then Unit(s[1..5]) else Pair(s[1..5], s[7..11]);
    }
  }

  lemma CharsMeaningOfMore(c: CharSyntax, rest: seq<CharSyntax>)
    requires CharWellFormed(c) && CharsWellFormed(rest)
    ensures CharsWellFormed([c] + rest) && CharsMeaning([c] + rest) == [CharMeaning(c)] + CharsMeaning(rest)
    ensures CharsText([c] + rest) == CharText(c) + CharsText(rest)
  {
    assert ([c] + rest)[1..] == rest;
  }

  /** How `ReadChars` goes on after the first character. */
  lemma CharsReadCases(s: string)
    requires ReadChars(s).Some?
    ensures s != []
    ensures s[0] == '\"' ==> ReadChars(s).value == ([], s[1..])
    ensures s[0] == '\\' ==>
      && ReadEscape(s[1..]).Some? && ReadChars(ReadEscape(s[1..]).value.1).Some?
      && ReadChars(s).value == ([ReadEscape(s[1..]).value.0] + ReadChars(ReadEscape(s[1..]).value.1).value.0,
                               ReadChars(ReadEscape(s[1..]).value.1).value.1)
    ensures s[0] != '\"' && s[0] != '\\' ==>
      && CharWellFormed(Plain(s[0])) && ReadChars(s[1..]).Some?
      && ReadChars(s).value == ([s[0]] + ReadChars(s[1..]).value.0, ReadChars(s[1..]).value.1)
  {
  }

  lemma PrependChar(c: CharSyntax, rest: seq<CharSyntax>, text: string, tail: string)
    requires CharWellFormed(c) && CharsWellFormed(rest) && text == CharsText(rest) + tail
    ensures CharText(c) + text == CharsText([c] + rest) + tail
  {
    CharsMeaningOfMore(c, rest);
  }

  lemma {:induction false} CharsReadSound(s: string) returns (chars: seq<CharSyntax>)
    requires ReadChars(s).Some?
    ensures CharsWellFormed(chars) && CharsMeaning(chars) == ReadChars(s).value.0
    ensures s == CharsText(chars) + ("\"" + ReadChars(s).value.1)
    decreases |s|
  {
    CharsReadCases(s);
    assert s == [s[0]] + s[1..];
    if s[0] == '\"' {
      chars := [];
    } else {
      var c, text := Plain(s[0]), s[1..];
      if s[0] == '\\' {
        c := EscapeReadSound(s[1..]);
        text := ReadEscape(s[1..]).value.1;
      }
      var rest := CharsReadSound(text);
      chars := [c] + rest;
      CharsMeaningOfMore(c, rest);
      PrependChar(c, rest, text, "\"" + ReadChars(s).value.1);
    }
  }

  lemma {:induction false} NumberFromLast(before: nat, digits: string, last: char)
    requires (forall i :: 0 <= i < |digits| ==> Digit(digits[i])) && Digit(last)
    decreases |digits|
    ensures NumberFrom(before, digits + [last]) == 10 * NumberFrom(before, digits) + DigitCount(last)
  {
    var all := digits + [last];
    if digits == [] {
      assert all[1..] == [];
    } else {
      NumberFromLast(10 * before + DigitCount(digits[0]), digits[1..], last);
      assert all[1..] == digits[1..] + [last];
    }
  }

  lemma {:induction false} NumberIsValue(digits: string)
    requires AllDigits(digits)
    ensures (forall i :: 0 <= i < |digits| ==> Digit(digits[i])) && NumberFrom(0, digits) == ValueOf(digits)
  {
    if digits != [] {
      var front, last := digits[..|digits| - 1], digits[|digits| - 1];
      NumberIsValue(front);
      NumberFromLast(0, front, last);
      assert digits == front + [last];
    }
  }

  lemma MagnitudeReadSound(s: string) returns (digits: string)
    requires ReadMagnitude(s).Some?
    ensures Digits(digits) && NumberFrom(0, digits) == ReadMagnitude(s).value.0
    ensures s == digits + ReadMagnitude(s).value.1
  {
    var n := if s != [] && s[0] == '0' then 1 else ReadDigits(s);
    digits := s[..n];
    NumberIsValue(digits);
  }

  lemma NegativeReadCases(s: string)
    requires s != [] && s[0] == '-' && ReadInt(s).Some?
    ensures ReadMagnitude(s[1..]).Some?
    ensures ReadInt(s).value == (Int(0 - ReadMagnitude(s[1..]).value.0), ReadMagnitude(s[1..]).value.1)
  {
  }

  lemma NegativeReadSound(s: string) returns (t: Syntax)
    requires s != [] && s[0] == '-' && ReadInt(s).Some?
    ensures WellFormed(t) && Meaning(t) == ReadInt(s).value.0 && s == TextOf(t) + ReadInt(s).value.1
  {
    NegativeReadCases(s);
    var digits := MagnitudeReadSound(s[1..]);
    t := Number(true, digits);
    FirstGlue(s, digits, ReadMagnitude(s[1..]).value.1);
  }

  lemma IntReadSound(s: string) returns (t: Syntax)
    requires ReadInt(s).Some?
    ensures WellFormed(t) && Meaning(t) == ReadInt(s).value.0
    ensures s == TextOf(t) + ReadInt(s).value.1
  {
    if s != [] && s[0] == '-' {
      t := NegativeReadSound(s);
    } else {
      var digits := MagnitudeReadSound(s);
      t := Number(false, digits);
    }
  }

  lemma WordReadSound(s: string, word: string, v: Json)
    requires word != [] && ReadLiteral(s, word, v).Some?
    ensures s == word + ReadLiteral(s, word, v).value.1 && ReadLiteral(s, word, v).value.0 == v
  {
  }

  // ---------- dictionaries ----------

  lemma {:induction false} WithoutMore(fields: seq<Field>, last: Field, key: string)
    ensures Without(fields + [last], key) == Without(fields, key) + if last.key == key then [] else [last]
  {
    if fields == [] {
      assert [last][1..] == [];
    } else {
      WithoutMore(fields[1..], last, key);
      assert (fields + [last])[1..] == fields[1..] + [last];
    }
  }

  lemma LastValueMore(fields: seq<Field>, last: Field, key: string)
    ensures LastValue(fields + [last], key) == if last.key == key then last.value else LastValue(fields, key)
  {
    assert (fields + [last])[..|fields|] == fields;
  }

  lemma {:induction false} LastValuesMore(fields: seq<Field>, last: Field)
    ensures LastValues(fields + [last]) == AddField(LastValues(fields), last)
    decreases |fields|
  {
    var all := fields + [last];
    if fields == [] {
      assert LastValue(all, last.key) == last.value;
      assert all[1..] == [] && LastValues(Without([], last.key)) == [];
    } else {
      var key := fields[0].key;
      assert all[1..] == fields[1..] + [last];
      WithoutMore(fields[1..], last, key);
      LastValueMore(fields, last, key);
      if last.key == key {
        assert Without(all[1..], key) == Without(fields[1..], key);
      } else {
        LastValuesMore(Without(fields[1..], key), last);
      }
    }
  }

  /** Reading the pairs one by one leaves each key with its last value, in the order of first occurrence. */
  lemma {:induction false} DictIsLastValues(pairs: seq<Field>)
    ensures DictOf(pairs) == LastValues(pairs)
  {
    if pairs != [] {
      var front, last := pairs[..|pairs| - 1], pairs[|pairs| - 1];
      DictIsLastValues(front);
      LastValuesMore(front, last);
      assert pairs == front + [last];
    }
  }

  // ---------- values that are read have a tree ----------

  predicate ItemsWellFormed(items: seq<ItemSyntax>) {
    forall i :: 0 <= i < |items| ==> Blank(items[i].before) && Blank(items[i].after) && WellFormed(items[i].value)
  }

  predicate MembersWellFormed(members: seq<MemberSyntax>) {
    forall i :: 0 <= i < |members| ==>
      && Blank(members[i].before) && CharsWellFormed(members[i].key)
      && Blank(members[i].beforeColon) && Blank(members[i].afterColon)
      && Blank(members[i].after) && WellFormed(members[i].value)
  }

  lemma OneItem(first: ItemSyntax)
    requires Blank(first.before) && Blank(first.after) && WellFormed(first.value)
    ensures ItemsWellFormed([first]) && ItemsMeaning([first]) == [Meaning(first.value)]
    ensures ItemsText([first]) == first.before + TextOf(first.value) + first.after + "]"
  {
    assert ItemsMeaning([]) == [];
  }

  lemma MoreItems(first: ItemSyntax, rest: seq<ItemSyntax>)
    requires Blank(first.before) && Blank(first.after) && WellFormed(first.value)
    requires rest != [] && ItemsWellFormed(rest)
    ensures ItemsWellFormed([first] + rest)
    ensures ItemsMeaning([first] + rest) == [Meaning(first.value)] + ItemsMeaning(rest)
    ensures ItemsText([first] + rest) == first.before + TextOf(first.value) + first.after + ("," + ItemsText(rest))
  {
    assert ([first] + rest)[1..] == rest;
  }

  /** How `ReadItems` goes on after the first value. */
  lemma ItemsReadCases(s: string, v: Json, after: string)
    requires ReadItems(s).Some? && v == ReadValue(s).value.0 && after == SkipSpaces(ReadValue(s).value.1)
    ensures after != [] && (after[0] == ']' || after[0] == ',')
    ensures after[0] == ']' ==> ReadItems(s).value == ([v], after[1..])
    ensures after[0] == ',' ==>
      var more := ReadItems(SkipSpaces(after[1..]));
      more.Some? && ReadItems(s).value == ([v] + more.value.0, more.value.1)
  {
  }

  lemma Glue(pad: string, text: string, blank: string, sign: string, tail: string, end: string)
    ensures pad + (text + (blank + (sign + (tail + end)))) == pad + text + blank + (sign + tail) + end
  {
  }

  lemma {:induction false} ItemsReadSound(s: string, pad: string) returns (items: seq<ItemSyntax>)
    requires ReadItems(s).Some? && Blank(pad)
    ensures items != [] && ItemsWellFormed(items) && ItemsMeaning(items) == ReadItems(s).value.0
    ensures pad + s == ItemsText(items) + ReadItems(s).value.1
    decreases |s|, 1
  {
    var t := ValueReadSound(s);
    var rest := ReadValue(s).value.1;
    var blank := SkippedIsBlank(rest);
    var after, first := SkipSpaces(rest), ItemSyntax(pad, t, blank);
    ItemsReadCases(s, ReadValue(s).value.0, after);
    assert after == [after[0]] + after[1..];
    if after[0] == ']' {
      items := [first];
      OneItem(first);
      Glue(pad, TextOf(t), blank, "]", "", after[1..]);
      assert "" + after[1..] == after[1..] && "]" + "" == "]";
    } else {
      var next := SkippedIsBlank(after[1..]);
      var more := ItemsReadSound(SkipSpaces(after[1..]), next);
      items := [first] + more;
      MoreItems(first, more);
      Glue(pad, TextOf(t), blank, ",", ItemsText(more), ReadItems(s).value.1);
    }
  }

  lemma KeyReadCases(s: string, after: string)
    requires ReadKey(s).Some? && after == SkipSpaces(ReadChars(s[1..]).value.1)
    ensures s[0] == '\"' && after != [] && after[0] == ':'
    ensures ReadKey(s).value == (ReadChars(s[1..]).value.0, SkipSpaces(after[1..]))
  {
  }

  lemma KeyGlue(chars: string, before: string, afterColon: string, end: string)
    ensures "\"" + (chars + ("\"" + (before + (":" + (afterColon + end)))))
         == "\"" + chars + "\"" + before + ":" + afterColon + end
  {
  }

  lemma ColonReadSound(rest: string) returns (beforeColon: string, afterColon: string)
    requires SkipSpaces(rest) != [] && SkipSpaces(rest)[0] == ':'
    ensures Blank(beforeColon) && Blank(afterColon)
    ensures rest == beforeColon + (":" + (afterColon + SkipSpaces(SkipSpaces(rest)[1..])))
  {
    var after := SkipSpaces(rest);
    beforeColon := SkippedIsBlank(rest);
    afterColon := SkippedIsBlank(after[1..]);
    assert after == ":" + after[1..];
  }

  lemma KeyReadSound(s: string) returns (key: seq<CharSyntax>, beforeColon: string, afterColon: string)
    requires ReadKey(s).Some?
    ensures CharsWellFormed(key) && CharsMeaning(key) == ReadKey(s).value.0
    ensures Blank(beforeColon) && Blank(afterColon)
    ensures s == StringText(key) + beforeColon + ":" + afterColon + ReadKey(s).value.1
  {
    var rest := ReadChars(s[1..]).value.1;
    KeyReadCases(s, SkipSpaces(rest));
    beforeColon, afterColon := ColonReadSound(rest);
    key := CharsReadSound(s[1..]);
    assert s == "\"" + s[1..];
    KeyGlue(CharsText(key), beforeColon, afterColon, ReadKey(s).value.1);
  }

  function MemberText(m: MemberSyntax): string {
    m.before + StringText(m.key) + m.beforeColon + ":" + m.afterColon + TextOf(m.value) + m.after
  }

  predicate MemberWellFormed(m: MemberSyntax) {
    && Blank(m.before) && CharsWellFormed(m.key) && Blank(m.beforeColon) && Blank(m.afterColon)
    && Blank(m.after) && WellFormed(m.value)
  }

  lemma OneMember(m: MemberSyntax)
    requires MemberWellFormed(m)
    ensures MembersWellFormed([m]) && MembersMeaning([m]) == [Field(CharsMeaning(m.key), Meaning(m.value))]
    ensures MembersText([m]) == MemberText(m) + "}"
  {
    assert MembersMeaning([]) == [];
  }

  lemma MoreMembers(m: MemberSyntax, rest: seq<MemberSyntax>)
    requires MemberWellFormed(m) && rest != [] && MembersWellFormed(rest)
    ensures MembersWellFormed([m] + rest)
    ensures MembersMeaning([m] + rest) == [Field(CharsMeaning(m.key), Meaning(m.value))] + MembersMeaning(rest)
    ensures MembersText([m] + rest) == MemberText(m) + ("," + MembersText(rest))
  {
    assert ([m] + rest)[1..] == rest;
  }

  /** How `ReadFields` goes on after the first field. */
  lemma FieldsReadCases(s: string, f: Field, after: string)
    requires ReadFields(s).Some?
    requires
      var text := ReadKey(s).value.1;
      f == Field(ReadKey(s).value.0, ReadValue(text).value.0) && after == SkipSpaces(ReadValue(text).value.1)
    ensures after != [] && (after[0] == '}' || after[0] == ',')
    ensures after[0] == '}' ==> ReadFields(s).value == ([f], after[1..])
    ensures after[0] == ',' ==>
      var more := ReadFields(SkipSpaces(after[1..]));
      more.Some? && ReadFields(s).value == ([f] + more.value.0, more.value.1)
  {
  }

  lemma MemberGlue(
      pad: string, key: string, before: string, afterColon: string, value: string, blank: string, end: string)
    ensures pad + (key + before + ":" + afterColon + (value + (blank + end)))
         == (pad + key + before + ":" + afterColon + value + blank) + end
  {
  }

  lemma EndGlue(member: string, sign: string, tail: string, end: string)
    ensures member + (sign + (tail + end)) == member + (sign + tail) + end
  {
  }

  lemma MemberReadSound(s: string, pad: string, t: Syntax) returns (m: MemberSyntax)
    requires ReadFields(s).Some? && Blank(pad)
    requires
      var text := ReadKey(s).value.1;
      && WellFormed(t) && Meaning(t) == ReadValue(text).value.0 && text == TextOf(t) + ReadValue(text).value.1
    ensures MemberWellFormed(m) && CharsMeaning(m.key) == ReadKey(s).value.0 && m.value == t
    ensures pad + s == MemberText(m) + SkipSpaces(ReadValue(ReadKey(s).value.1).value.1)
  {
    var key, beforeColon, afterColon := KeyReadSound(s);
    var rest := ReadValue(ReadKey(s).value.1).value.1;
    var blank := SkippedIsBlank(rest);
    m := MemberSyntax(pad, key, beforeColon, afterColon, t, blank);
    MemberGlue(pad, StringText(key), beforeColon, afterColon, TextOf(t), blank, SkipSpaces(rest));
  }

  lemma {:induction false} MembersReadSound(s: string, pad: string) returns (members: seq<MemberSyntax>)
    requires ReadFields(s).Some? && Blank(pad)
    ensures members != [] && MembersWellFormed(members) && MembersMeaning(members) == ReadFields(s).value.0
    ensures pad + s == MembersText(members) + ReadFields(s).value.1
    decreases |s|, 1
  {
    var text := ReadKey(s).value.1;
    var t := ValueReadSound(text);
    var m := MemberReadSound(s, pad, t);
    var after := SkipSpaces(ReadValue(text).value.1);
    FieldsReadCases(s, Field(ReadKey(s).value.0, ReadValue(text).value.0), after);
    assert after == [after[0]] + after[1..];
    if after[0] == '}' {
      members := [m];
      OneMember(m);
      EndGlue(MemberText(m), "}", "", after[1..]);
      assert "" + after[1..] == after[1..] && "}" + "" == "}";
    } else {
      var next := SkippedIsBlank(after[1..]);
      var more := MembersReadSound(SkipSpaces(after[1..]), next);
      members := [m] + more;
      MoreMembers(m, more);
      EndGlue(MemberText(m), ",", MembersText(more), ReadFields(s).value.1);
    }
  }

  lemma ArrayReadCases(s: string, inner: string)
    requires s != [] && s[0] == '[' && ReadValue(s).Some? && inner == SkipSpaces(s[1..])
    ensures inner != []
    ensures inner[0] == ']' ==> ReadValue(s).value == (Arr([]), inner[1..])
    ensures inner[0] != ']' ==>
      ReadItems(inner).Some? && ReadValue(s).value == (Arr(ReadItems(inner).value.0), ReadItems(inner).value.1)
  {
  }

  lemma OpeningGlue(sign: string, pad: string, text: string, end: string)
    ensures sign + (pad + (text + end)) == sign + pad + text + end
    ensures sign + (text + end) == sign + text + end
  {
  }

  lemma ArrayReadSound(s: string) returns (t: Syntax)
    requires s != [] && s[0] == '[' && ReadValue(s).Some?
    ensures WellFormed(t) && Meaning(t) == ReadValue(s).value.0 && s == TextOf(t) + ReadValue(s).value.1
    decreases |s|, 0, 1
  {
    var pad := SkippedIsBlank(s[1..]);
    var inner, end := SkipSpaces(s[1..]), ReadValue(s).value.1;
    ArrayReadCases(s, inner);
    assert s == "[" + s[1..];
    if inner[0] == ']' {
      t := Array(pad, []);
      assert inner == "]" + inner[1..];
      OpeningGlue("[", pad, "]", end);
    } else {
      var items := ItemsReadSound(inner, pad);
      t := Array("", items);
      OpeningGlue("[", "", ItemsText(items), end);
    }
  }

  lemma ObjectReadCases(s: string, inner: string)
    requires s != [] && s[0] == '{' && ReadValue(s).Some? && inner == SkipSpaces(s[1..])
    ensures inner != []
    ensures inner[0] == '}' ==> ReadValue(s).value == (Obj([]), inner[1..])
    ensures inner[0] != '}' ==>
      && ReadFields(inner).Some?
      && ReadValue(s).value == (Obj(DictOf(ReadFields(inner).value.0)), ReadFields(inner).value.1)
  {
  }

  lemma ObjectReadSound(s: string) returns (t: Syntax)
    requires s != [] && s[0] == '{' && ReadValue(s).Some?
    ensures WellFormed(t) && Meaning(t) == ReadValue(s).value.0 && s == TextOf(t) + ReadValue(s).value.1
    decreases |s|, 0, 1
  {
    var pad := SkippedIsBlank(s[1..]);
    var inner, end := SkipSpaces(s[1..]), ReadValue(s).value.1;
    ObjectReadCases(s, inner);
    assert s == "{" + s[1..];
    if inner[0] == '}' {
      t := Object(pad, []);
      assert inner == "}" + inner[1..];
      assert LastValues([]) == [];
      OpeningGlue("{", pad, "}", end);
    } else {
      var members := MembersReadSound(inner, pad);
      t := Object("", members);
      DictIsLastValues(ReadFields(inner).value.0);
      OpeningGlue("{", "", MembersText(members), end);
    }
  }

  lemma {:induction false} ValueReadSound(s: string) returns (t: Syntax)
    requires ReadValue(s).Some?
    ensures WellFormed(t) && Meaning(t) == ReadValue(s).value.0
    ensures s == TextOf(t) + ReadValue(s).value.1
    decreases |s|, 0, 2
  {
    if s[0] == '\"' {
      var chars := CharsReadSound(s[1..]);
      t := Text(chars);
      assert s == "\"" + s[1..];
    } else if s[0] == '[' {
      t := ArrayReadSound(s);
    } else if s[0] == '{' {
      t := ObjectReadSound(s);
    } else if s[0] == 'n' {
      t := NullWord;
      WordReadSound(s, "null", Null);
    } else if s[0] == 't' {
      t := TrueWord;
      WordReadSound(s, "true", Bool(true));
    } else if s[0] == 'f' {
      t := FalseWord;
      WordReadSound(s, "false", Bool(false));
    } else {
      t := IntReadSound(s);
    }
  }

  lemma LoadCases(text: string)
    requires Loads(text).Some?
    ensures
      var read := ReadValue(SkipSpaces(text));
      read.Some? && read.value.0 == Loads(text).value && SkipSpaces(read.value.1) == []
  {
  }

  /** Whatever is loaded is a JSON text with that meaning. */
  lemma LoadedStandsFor(text: string)
    requires Loads(text).Some?
    ensures StandsFor(text, Loads(text).value)
  {
    LoadCases(text);
    var before := SkippedIsBlank(text);
    var t := ValueReadSound(SkipSpaces(text));
    var after := SkippedIsBlank(ReadValue(SkipSpaces(text)).value.1);
    assert after + [] == after;
    StandsBy(before, t, after, text);
  }

  lemma StandsBy(before: string, t: Syntax, after: string, text: string)
    requires Blank(before) && Blank(after) && WellFormed(t) && text == before + (TextOf(t) + after)
    ensures StandsFor(text, Meaning(t))
  {
    assert text == before + TextOf(t) + after;
  }

  // ---------- what is printed has a compact tree ----------

  predicate LowerHex(s: string) {
    forall i :: 0 <= i < |s| ==> Digit(s[i]) || 'a' <= s[i] <= 'f'
  }

  /** Printable ASCII as it is, the seven short escapes, and lower-case code units for everything else. */
  predicate CharCompact(c: CharSyntax)
    requires CharWellFormed(c)
  {
    match c
    case Plain(c) => c as int <= 126
    case Short(letter) => letter != '/'
    case Unit(hex) =>
      LowerHex(hex) && (126 < CodeUnit(hex) || (CodeUnit(hex) < 32 && CodeUnit(hex) !in {8, 9, 10, 12, 13}))
    case Pair(high, low) => LowerHex(high) && LowerHex(low)
  }

  predicate CharsCompact(chars: seq<CharSyntax>)
    requires CharsWellFormed(chars)
  {
    forall i :: 0 <= i < |chars| ==> CharCompact(chars[i])
  }

  /** No white space, the shortest escapes, and the keys of every object in ascending order. */
  ghost predicate Compact(t: Syntax)
    requires WellFormed(t)
    decreases t
  {
    match t
    case Text(chars) => CharsCompact(chars)
    case Array(pad, items) =>
      pad == "" && forall i :: 0 <= i < |items| ==>
        items[i].before == "" && items[i].after == "" && Compact(items[i].value)
    case Object(pad, members) =>
      && pad == "" && AscendingKeys(MembersMeaning(members))
      && forall i :: 0 <= i < |members| ==>
           && members[i].before == "" && CharsCompact(members[i].key)
           && members[i].beforeColon == "" && members[i].afterColon == ""
           && members[i].after == "" && Compact(members[i].value)
    case _ => true
  }

  lemma HexDigitSound(d: nat)
    requires d < 16
    ensures Digit(HexDigit(d)) || 'a' <= HexDigit(d) <= 'f'
    ensures HexCount(HexDigit(d)) == d
  {
  }

  lemma EscapeIsUnit(code: nat) returns (hex: string)
    requires code < 0x10000
    ensures HexDigits(hex) && LowerHex(hex) && CodeUnit(hex) == code && UnicodeEscape(code) == "\\u" + hex
  {
    var d3, d2, d1, d0 := code / 16 / 16 / 16, code / 16 / 16 % 16, code / 16 % 16, code % 16;
    HexDigitSound(d3);
    HexDigitSound(d2);
    HexDigitSound(d1);
    HexDigitSound(d0);
    HexSum(code);
    hex := [HexDigit(d3), HexDigit(d2), HexDigit(d1), HexDigit(d0)];
  }

  lemma PairIsCompact(high: string, low: string, hi: nat, lo: nat)
    requires HexDigits(high) && LowerHex(high) && CodeUnit(high) == 0xD800 + hi && hi < 0x400
    requires HexDigits(low) && LowerHex(low) && CodeUnit(low) == 0xDC00 + lo && lo < 0x400
    ensures CharWellFormed(Pair(high, low)) && CharCompact(Pair(high, low))
    ensures CharMeaning(Pair(high, low)) as int == 0x10000 + hi * 0x400 + lo
  {
  }

  lemma EscapeOfPair(code: nat, hi: nat, lo: nat)
    requires 0x10000 <= code < 0x110000 && hi == (code - 0x10000) / 1024 && lo == (code - 0x10000) % 1024 && hi < 0x400
    ensures EscapeCode(code) == UnicodeEscape(0xD800 + hi) + UnicodeEscape(0xDC00 + lo)
  {
  }

  lemma AstralParts(c: char) returns (hi: nat, lo: nat)
    requires 0x10000 <= c as int
    ensures hi < 0x400 && lo < 0x400 && c as int == 0x10000 + hi * 0x400 + lo
    ensures EscapeCode(c as int) == UnicodeEscape(0xD800 + hi) + UnicodeEscape(0xDC00 + lo)
  {
    var n := c as int - 0x10000;
    SurrogatesAddUp(n);
    hi, lo := n / 1024, n % 1024;
    EscapeOfPair(c as int, hi, lo);
  }

  lemma AstralIsCompact(c: char) returns (t: CharSyntax)
    requires 0x10000 <= c as int
    ensures CharWellFormed(t) && CharCompact(t) && CharMeaning(t) == c && CharText(t) == EscapeCode(c as int)
  {
    var hi, lo := AstralParts(c);
    var high := EscapeIsUnit(0xD800 + hi);
    var low := EscapeIsUnit(0xDC00 + lo);
    t := Pair(high, low);
    PairIsCompact(high, low, hi, lo);
  }

  lemma CodeIsCompact(c: char) returns (t: CharSyntax)
    requires 126 < c as int || (c as int < 32 && c as int !in {8, 9, 10, 12, 13})
    ensures CharWellFormed(t) && CharCompact(t) && CharMeaning(t) == c && CharText(t) == EscapeCode(c as int)
  {
    if c as int < 0x10000 {
      var hex := EscapeIsUnit(c as int);
      t := Unit(hex);
    } else {
      t := AstralIsCompact(c);
    }
  }

  lemma EscapeIsCompact(c: char) returns (t: CharSyntax)
    ensures CharWellFormed(t) && CharCompact(t) && CharMeaning(t) == c && CharText(t) == EscapeChar(c)
  {
    if ' ' <= c <= '~' && c != '\"' && c != '\\' {
      t := Plain(c);
    } else if c == '\"' || c == '\\' {
      t := Short(c);
    } else if c as int == 10 {
      t := Short('n');
    } else if c as int == 13 {
      t := Short('r');
    } else if c as int == 9 {
      t := Short('t');
    } else if c as int == 12 {
      t := Short('f');
    } else if c as int == 8 {
      t := Short('b');
    } else {
      t := CodeIsCompact(c);
    }
  }

  lemma {:induction false} EscapesAreCompact(s: string) returns (chars: seq<CharSyntax>)
    ensures CharsWellFormed(chars) && CharsCompact(chars)
      && CharsMeaning(chars) == s && CharsText(chars) == EscapeAll(s)
  {
    if s == [] {
      chars := [];
    } else {
      var c := EscapeIsCompact(s[0]);
      var rest := EscapesAreCompact(s[1..]);
      chars := [c] + rest;
      CharsMeaningOfMore(c, rest);
      assert s == [s[0]] + s[1..];
    }
  }

  lemma PrintedNumber(n: nat)
    ensures Digits(PrintNat(n)) && NumberFrom(0, PrintNat(n)) == n
  {
    NumberIsValue(PrintNat(n));
    PrintThenValue(n);
  }

  lemma IntIsCompact(n: int) returns (t: Syntax)
    ensures WellFormed(t) && Compact(t) && Meaning(t) == Int(n) && TextOf(t) == PrintInt(n)
  {
    var m: nat := if n < 0 then -n else n;
    PrintedNumber(m);
    t := Number(n < 0, PrintNat(m));
  }

  ghost predicate ItemsCompact(items: seq<ItemSyntax>)
    requires ItemsWellFormed(items)
  {
    forall i :: 0 <= i < |items| ==> items[i].before == "" && items[i].after == "" && Compact(items[i].value)
  }

  ghost predicate MembersCompact(members: seq<MemberSyntax>)
    requires MembersWellFormed(members)
  {
    forall i :: 0 <= i < |members| ==>
      && members[i].before == "" && CharsCompact(members[i].key)
      && members[i].beforeColon == "" && members[i].afterColon == ""
      && members[i].after == "" && Compact(members[i].value)
  }

  lemma {:induction false} ItemsAreCompact(vs: seq<Json>) returns (items: seq<ItemSyntax>)
    requires vs != [] && forall i :: 0 <= i < |vs| ==> Canonical(vs[i])
    ensures items != [] && ItemsWellFormed(items) && ItemsCompact(items)
    ensures ItemsMeaning(items) == vs && ItemsText(items) == PrintItems(vs)
    decreases vs, 0
  {
    var t := PrintIsCompact(vs[0]);
    var first := ItemSyntax("", t, "");
    assert "" + TextOf(t) + "" == TextOf(t);
    if |vs| == 1 {
      items := [first];
      OneItem(first);
      assert vs == [vs[0]];
    } else {
      var rest := ItemsAreCompact(vs[1..]);
      items := [first] + rest;
      MoreItems(first, rest);
      assert vs == [vs[0]] + vs[1..];
    }
  }

  lemma PlainGlue(key: string, value: string, tail: string)
    ensures "" + key + "" + ":" + "" + value + "" + tail == key + (":" + (value + tail))
  {
    assert "" + key + "" == key && value + "" == value;
  }

  lemma PlainMember(m: MemberSyntax, tail: string)
    requires m.before == "" && m.beforeColon == "" && m.afterColon == "" && m.after == ""
    ensures MemberText(m) + tail == FieldText(StringText(m.key), TextOf(m.value), tail)
  {
    PlainGlue(StringText(m.key), TextOf(m.value), tail);
  }

  lemma {:induction false} FieldsAreCompact(fields: seq<Field>) returns (members: seq<MemberSyntax>)
    requires fields != [] && forall i :: 0 <= i < |fields| ==> Canonical(fields[i].value)
    ensures members != [] && MembersWellFormed(members) && MembersCompact(members)
    ensures MembersMeaning(members) == fields && MembersText(members) == PrintFields(fields)
    decreases fields, 0
  {
    var key := EscapesAreCompact(fields[0].key);
    var t := PrintIsCompact(fields[0].value);
    var m := MemberSyntax("", key, "", "", t, "");
    PlainMember(m, FieldsTail(fields));
    if |fields| == 1 {
      members := [m];
      OneMember(m);
      assert fields == [fields[0]];
    } else {
      var rest := FieldsAreCompact(fields[1..]);
      members := [m] + rest;
      MoreMembers(m, rest);
      assert fields == [fields[0]] + fields[1..];
    }
  }

  lemma {:induction false} DistinctAreLast(fields: seq<Field>)
    requires DistinctKeys(fields)
    ensures LastValues(fields) == fields
  {
    DistinctIsDict(fields);
    DictIsLastValues(fields);
  }

  /** The printed text of a canonical value is that of a compact tree with this meaning. */
  lemma {:induction false} PrintIsCompact(v: Json) returns (t: Syntax)
    requires Canonical(v)
    ensures WellFormed(t) && Compact(t) && Meaning(t) == v && TextOf(t) == Print(v)
    decreases v, 1
  {
    match v
    case Null => t := NullWord;
    case Bool(b) => t := if b then TrueWord else FalseWord;
    case Int(n) => t := IntIsCompact(n);
    case Str(s) =>
      var chars := EscapesAreCompact(s);
      t := Text(chars);
    case Arr(items) =>
      if items == [] {
        t := Array("", []);
      } else {
        var trees := ItemsAreCompact(items);
        t := Array("", trees);
      }
    case Obj(fields) =>
      if fields == [] {
        t := Object("", []);
        assert LastValues([]) == [];
      } else {
        var members := FieldsAreCompact(fields);
        AscendingIsDistinct(fields);
        DistinctAreLast(fields);
        t := Object("", members);
      }
  }

  /** Canonical text is a JSON text of the value, without white space, keys in order. */
  lemma CanonicalTextStandsFor(v: Json) returns (t: Syntax)
    requires Proper(v)
    ensures WellFormed(t) && Compact(t) && TextOf(t) == CanonicalText(v)
    ensures Meaning(t) == Canonicalize(v) && SameUpToOrder(v, Meaning(t))
  {
    CanonicalizeIsCanonical(v);
    CanonicalizeKeepsContent(v);
    t := PrintIsCompact(Canonicalize(v));
  }

  // ---------- every tree is read ----------

  lemma {:induction false} BlankIsSkipped(pad: string, s: string)
    requires Blank(pad) && (s == [] || !IsSpace(s[0]))
    ensures SkipSpaces(pad + s) == s
  {
    if pad == [] {
      assert pad + s == s;
    } else {
      BlankIsSkipped(pad[1..], s);
      assert (pad + s)[1..] == pad[1..] + s;
    }
  }

  lemma HexIsRead(hex: string, rest: string)
    requires HexDigits(hex)
    ensures ReadHex4(hex + rest) == Some(CodeUnit(hex))
  {
    var s := hex + rest;
    assert s[0] == hex[0] && s[1] == hex[1] && s[2] == hex[2] && s[3] == hex[3];
  }

  lemma ShortIsRead(letter: char, rest: string)
    requires ShortEscape(letter).Some?
    ensures ReadEscape([letter] + rest) == Some((ShortEscape(letter).value, rest))
  {
    assert ([letter] + rest)[1..] == rest;
  }

  lemma UnitIsRead(hex: string, rest: string)
    requires CharWellFormed(Unit(hex))
    ensures ReadEscape("u" + hex + rest) == Some((CharMeaning(Unit(hex)), rest))
  {
    var s := "u" + hex + rest;
    HexIsRead(hex, rest);
    assert s[1..] == hex + rest && s[5..] == rest;
  }

  lemma PairIsRead(high: string, low: string, rest: string)
    requires CharWellFormed(Pair(high, low))
    ensures ReadEscape("u" + high + ("\\u" + low + rest)) == Some((CharMeaning(Pair(high, low)), rest))
  {
    var tail := "\\u" + low + rest;
    var s := "u" + high + tail;
    HexIsRead(high, tail);
    HexIsRead(low, rest);
    assert s[1..] == high + tail && s[5..] == tail && s[7..] == low + rest && s[11..] == rest;
    assert s[5] == tail[0] && s[6] == tail[1];
    PairRead(s, CodeUnit(high), CodeUnit(low), CharMeaning(Pair(high, low)));
  }

  lemma EscapeText(c: CharSyntax, rest: string)
    requires !c.Plain?
    ensures
      var s := CharText(c) + rest;
      && s != [] && s[0] == '\\'
      && s[1..] == match c
         case Short(letter) => [letter] + rest
         case Unit(hex) => "u" + hex + rest
         case Pair(high, low) => "u" + high + ("\\u" + low + rest)
         case Plain(_) => []
  {
    match c
    case Short(letter) => assert (CharText(c) + rest)[1..] == [letter] + rest;
    case Unit(hex) => assert (CharText(c) + rest)[1..] == "u" + hex + rest;
    case Pair(high, low) => assert (CharText(c) + rest)[1..] == "u" + high + ("\\u" + low + rest);
  }

  lemma EscapeIsRead(c: CharSyntax, rest: string)
    requires CharWellFormed(c) && !c.Plain?
    ensures
      var s := CharText(c) + rest;
      s != [] && s[0] == '\\' && ReadEscape(s[1..]) == Some((CharMeaning(c), rest))
  {
    EscapeText(c, rest);
    match c
    case Short(letter) => ShortIsRead(letter, rest);
    case Unit(hex) => UnitIsRead(hex, rest);
    case Pair(high, low) => PairIsRead(high, low, rest);
  }

  lemma PlainIsRead(c: char, rest: string)
    requires CharWellFormed(Plain(c)) && ReadChars(rest).Some?
    ensures ReadChars([c] + rest) == Some(([c] + ReadChars(rest).value.0, ReadChars(rest).value.1))
  {
    assert ([c] + rest)[1..] == rest;
  }

  lemma CharIsRead(c: CharSyntax, rest: string)
    requires CharWellFormed(c) && ReadChars(rest).Some?
    ensures ReadChars(CharText(c) + rest) == Some(([CharMeaning(c)] + ReadChars(rest).value.0, ReadChars(rest).value.1))
  {
    if c.Plain? {
      PlainIsRead(c.c, rest);
    } else {
      EscapeIsRead(c, rest);
    }
  }

  lemma MoreCharsAreRead(c: CharSyntax, more: seq<CharSyntax>, tail: string, rest: string)
    requires CharWellFormed(c) && CharsWellFormed(more)
    requires ReadChars(CharsText(more) + tail) == Some((CharsMeaning(more), rest))
    ensures ReadChars(CharsText([c] + more) + tail) == Some((CharsMeaning([c] + more), rest))
  {
    CharIsRead(c, CharsText(more) + tail);
    CharsMeaningOfMore(c, more);
    OpeningGlue(CharText(c), "", CharsText(more), tail);
  }

  lemma {:induction false} CharsAreRead(chars: seq<CharSyntax>, tail: string, rest: string)
    requires CharsWellFormed(chars) && tail == "\"" + rest
    ensures ReadChars(CharsText(chars) + tail) == Some((CharsMeaning(chars), rest))
  {
    if chars == [] {
      QuoteEndsString(rest);
      assert CharsText(chars) + tail == tail;
    } else {
      CharsAreRead(chars[1..], tail, rest);
      MoreCharsAreRead(chars[0], chars[1..], tail, rest);
      assert chars == [chars[0]] + chars[1..];
    }
  }

  lemma QuotedGlue(text: string, rest: string)
    ensures "\"" + text + "\"" + rest == "\"" + (text + ("\"" + rest))
    ensures ("\"" + (text + ("\"" + rest)))[1..] == text + ("\"" + rest)
  {
  }

  lemma StringIsRead(chars: seq<CharSyntax>, rest: string)
    requires CharsWellFormed(chars)
    ensures
      var s := StringText(chars) + rest;
      s != [] && s[0] == '\"' && ReadChars(s[1..]) == Some((CharsMeaning(chars), rest))
  {
    QuotedGlue(CharsText(chars), rest);
    CharsAreRead(chars, "\"" + rest, rest);
  }

  lemma DigitsAreAll(digits: string)
    requires Digits(digits)
    ensures AllDigits(digits) && NumberFrom(0, digits) == ValueOf(digits)
  {
    assert AllDigits(digits);
    NumberIsValue(digits);
  }

  lemma MagnitudeIsRead(digits: string, rest: string)
    requires Digits(digits) && Delimits(rest)
    ensures ReadMagnitude(digits + rest) == Some((NumberFrom(0, digits), rest))
  {
    var s := digits + rest;
    DigitsAreAll(digits);
    DigitsReadBack(digits, rest);
    assert s[0] == digits[0];
    assert s[..|digits|] == digits && s[|digits|..] == rest;
  }

  lemma NumberIsRead(negative: bool, digits: string, rest: string)
    requires Digits(digits) && Delimits(rest)
    ensures ReadInt(TextOf(Number(negative, digits)) + rest) == Some((Meaning(Number(negative, digits)), rest))
    ensures
      var s := TextOf(Number(negative, digits)) + rest;
      s != [] && (s[0] == '-' || IsDigit(s[0]))
  {
    MagnitudeIsRead(digits, rest);
    SignedReadsBack(digits + rest, NumberFrom(0, digits), rest);
    NegativeText(digits, rest);
    assert Digit(digits[0]) && (digits + rest)[0] == digits[0];
  }

  /** A value does not begin with white space, a bracket that closes, or a comma. */
  lemma TextStart(t: Syntax, rest: string)
    requires WellFormed(t)
    ensures
      var s := TextOf(t) + rest;
      s != [] && !IsSpace(s[0]) && s[0] != ']' && s[0] != '}'
  {
    if t.Number? {
      assert Digit(t.digits[0]);
    }
  }

  lemma LastItemText(first: ItemSyntax, rest: string)
    ensures first.before + TextOf(first.value) + first.after + "]" + rest == ItemText(first, "]" + rest)
  {
  }

  lemma MoreItemsText(first: ItemSyntax, more: string, rest: string)
    ensures first.before + TextOf(first.value) + first.after + ("," + more) + rest ==
      ItemText(first, "," + (more + rest))
  {
  }

  lemma OneItemIsRead(first: ItemSyntax, rest: string)
    requires Blank(first.before) && Blank(first.after) && WellFormed(first.value)
    ensures
      var s := SkipSpaces(ItemsText([first]) + rest);
      && s != [] && s[0] != ']' && ReadItems(s) == Some((ItemsMeaning([first]), rest))
    decreases first.value, 4
  {
    OneItem(first);
    LastItemText(first, rest);
    ItemIsRead(first, "]" + rest);
    LastItemIsRead(ItemBody(first, "]" + rest), Meaning(first.value), first.after, rest);
  }

  lemma FirstItemIsRead(first: ItemSyntax, more: seq<ItemSyntax>, rest: string)
    requires Blank(first.before) && Blank(first.after) && WellFormed(first.value)
    requires more != [] && ItemsWellFormed(more)
    requires ReadItems(SkipSpaces(ItemsText(more) + rest)) == Some((ItemsMeaning(more), rest))
    ensures
      var s := SkipSpaces(ItemsText([first] + more) + rest);
      && s != [] && s[0] != ']' && ReadItems(s) == Some((ItemsMeaning([first] + more), rest))
    decreases first.value, 4
  {
    var tail := ItemsText(more) + rest;
    MoreItems(first, more);
    MoreItemsText(first, ItemsText(more), rest);
    ItemIsRead(first, "," + tail);
    MoreItemsAreRead(ItemBody(first, "," + tail), Meaning(first.value), first.after, tail, ItemsMeaning(more), rest);
  }

  lemma {:induction false} ItemsAreRead(items: seq<ItemSyntax>, rest: string)
    requires items != [] && ItemsWellFormed(items)
    ensures
      var s := SkipSpaces(ItemsText(items) + rest);
      && s != [] && s[0] != ']' && ReadItems(s) == Some((ItemsMeaning(items), rest))
    decreases items, 0
  {
    if |items| == 1 {
      assert items == [items[0]];
      OneItemIsRead(items[0], rest);
    } else {
      assert items == [items[0]] + items[1..];
      ItemsAreRead(items[1..], rest);
      FirstItemIsRead(items[0], items[1..], rest);
    }
  }

  function ItemText(first: ItemSyntax, tail: string): string {
    first.before + ItemBody(first, tail)
  }

  function ItemBody(first: ItemSyntax, tail: string): string {
    TextOf(first.value) + (first.after + tail)
  }

  /** One item before a comma or a closing bracket. */
  lemma ItemIsRead(first: ItemSyntax, tail: string)
    requires Blank(first.before) && Blank(first.after) && WellFormed(first.value)
    requires tail != [] && (tail[0] == ',' || tail[0] == ']')
    ensures SkipSpaces(ItemText(first, tail)) == ItemBody(first, tail)
    ensures ItemBody(first, tail) != [] && ItemBody(first, tail)[0] != ']'
    ensures ReadValue(ItemBody(first, tail)) == Some((Meaning(first.value), first.after + tail))
    decreases first.value, 3
  {
    BlankDelimits(first.after, tail);
    TextStart(first.value, first.after + tail);
    BlankIsSkipped(first.before, ItemBody(first, tail));
    ValueIsRead(first.value, first.after + tail);
  }

  lemma BlankDelimits(pad: string, tail: string)
    requires Blank(pad) && Delimits(tail)
    ensures Delimits(pad + tail)
  {
    assert pad == [] ==> pad + tail == tail;
    assert pad != [] ==> (pad + tail)[0] == pad[0];
  }

  lemma LastItemIsRead(s: string, v: Json, after: string, rest: string)
    requires Blank(after) && ReadValue(s) == Some((v, after + ("]" + rest)))
    ensures ReadItems(s) == Some(([v], rest))
  {
    BlankIsSkipped(after, "]" + rest);
    assert ("]" + rest)[1..] == rest;
  }

  lemma MoreItemsAreRead(s: string, v: Json, after: string, tail: string, vs: seq<Json>, rest: string)
    requires Blank(after) && ReadValue(s) == Some((v, after + ("," + tail)))
    requires ReadItems(SkipSpaces(tail)) == Some((vs, rest))
    ensures ReadItems(s) == Some(([v] + vs, rest))
  {
    BlankIsSkipped(after, "," + tail);
    assert ("," + tail)[1..] == tail;
  }

  function MemberBody(m: MemberSyntax, tail: string): string {
    StringText(m.key) + (m.beforeColon + (":" + (m.afterColon + ValueBody(m, tail))))
  }

  function ValueBody(m: MemberSyntax, tail: string): string {
    TextOf(m.value) + (m.after + tail)
  }

  lemma MemberBodyText(m: MemberSyntax, tail: string)
    ensures MemberText(m) + tail == m.before + MemberBody(m, tail)
  {
    MemberSplit(m.before, StringText(m.key), m.beforeColon, m.afterColon, TextOf(m.value), m.after, tail);
  }

  lemma MemberSplit(a: string, key: string, b: string, c: string, value: string, d: string, tail: string)
    ensures a + key + b + ":" + c + value + d + tail == a + (key + (b + (":" + (c + (value + (d + tail))))))
  {
  }

  lemma KeyIsRead(m: MemberSyntax, tail: string)
    requires MemberWellFormed(m)
    ensures
      var s := MemberBody(m, tail);
      s != [] && s[0] == '\"' && ReadKey(s) == Some((CharsMeaning(m.key), ValueBody(m, tail)))
  {
    var inner := m.afterColon + ValueBody(m, tail);
    var colon := ":" + inner;
    StringIsRead(m.key, m.beforeColon + colon);
    BlankIsSkipped(m.beforeColon, colon);
    TextStart(m.value, m.after + tail);
    BlankIsSkipped(m.afterColon, ValueBody(m, tail));
    assert colon[1..] == inner;
  }

  lemma LastMemberIsRead(s: string, key: string, text: string, v: Json, after: string, rest: string)
    requires ReadKey(s) == Some((key, text)) && Blank(after) && ReadValue(text) == Some((v, after + ("}" + rest)))
    ensures ReadFields(s) == Some(([Field(key, v)], rest))
  {
    BlankIsSkipped(after, "}" + rest);
    assert ("}" + rest)[1..] == rest;
  }

  lemma MoreMembersAreRead(
      s: string, key: string, text: string, v: Json, after: string, tail: string, pairs: seq<Field>, rest: string)
    requires ReadKey(s) == Some((key, text)) && Blank(after) && ReadValue(text) == Some((v, after + ("," + tail)))
    requires ReadFields(SkipSpaces(tail)) == Some((pairs, rest))
    ensures ReadFields(s) == Some(([Field(key, v)] + pairs, rest))
  {
    BlankIsSkipped(after, "," + tail);
    assert ("," + tail)[1..] == tail;
  }

  /** One member before a comma or a closing brace. */
  lemma MemberIsRead(m: MemberSyntax, tail: string)
    requires MemberWellFormed(m) && tail != [] && (tail[0] == ',' || tail[0] == '}')
    ensures SkipSpaces(MemberText(m) + tail) == MemberBody(m, tail)
    ensures MemberBody(m, tail) != [] && MemberBody(m, tail)[0] == '\"'
    ensures ReadKey(MemberBody(m, tail)) == Some((CharsMeaning(m.key), ValueBody(m, tail)))
    ensures ReadValue(ValueBody(m, tail)) == Some((Meaning(m.value), m.after + tail))
    decreases m.value, 3
  {
    MemberBodyText(m, tail);
    KeyIsRead(m, tail);
    BlankIsSkipped(m.before, MemberBody(m, tail));
    BlankDelimits(m.after, tail);
    ValueIsRead(m.value, m.after + tail);
  }

  lemma OneMemberIsRead(m: MemberSyntax, rest: string)
    requires MemberWellFormed(m)
    ensures
      var s := SkipSpaces(MembersText([m]) + rest);
      && s != [] && s[0] == '\"' && ReadFields(s) == Some((MembersMeaning([m]), rest))
    decreases m.value, 4
  {
    var tail := "}" + rest;
    OneMember(m);
    MemberIsRead(m, tail);
    EndGlue(MemberText(m), "}", "", rest);
    assert "" + rest == rest && "}" + "" == "}";
    LastMemberIsRead(MemberBody(m, tail), CharsMeaning(m.key), ValueBody(m, tail), Meaning(m.value), m.after, rest);
  }

  lemma FirstMemberIsRead(m: MemberSyntax, more: seq<MemberSyntax>, rest: string)
    requires MemberWellFormed(m) && more != [] && MembersWellFormed(more)
    requires ReadFields(SkipSpaces(MembersText(more) + rest)) == Some((MembersMeaning(more), rest))
    ensures
      var s := SkipSpaces(MembersText([m] + more) + rest);
      && s != [] && s[0] == '\"' && ReadFields(s) == Some((MembersMeaning([m] + more), rest))
    decreases m.value, 4
  {
    var tail := MembersText(more) + rest;
    MoreMembers(m, more);
    MemberIsRead(m, "," + tail);
    EndGlue(MemberText(m), ",", MembersText(more), rest);
    MoreMembersAreRead(
      MemberBody(m, "," + tail), CharsMeaning(m.key), ValueBody(m, "," + tail), Meaning(m.value), m.after, tail,
      MembersMeaning(more), rest);
  }

  lemma {:induction false} MembersAreRead(members: seq<MemberSyntax>, rest: string)
    requires members != [] && MembersWellFormed(members)
    ensures
      var s := SkipSpaces(MembersText(members) + rest);
      && s != [] && s[0] == '\"' && ReadFields(s) == Some((MembersMeaning(members), rest))
    decreases members, 0
  {
    if |members| == 1 {
      assert members == [members[0]];
      OneMemberIsRead(members[0], rest);
    } else {
      assert members == [members[0]] + members[1..];
      MembersAreRead(members[1..], rest);
      FirstMemberIsRead(members[0], members[1..], rest);
    }
  }

  lemma EmptyIsRead(pad: string, rest: string)
    requires Blank(pad)
    ensures ReadValue("[" + pad + "]" + rest) == Some((Arr([]), rest))
    ensures ReadValue("{" + pad + "}" + rest) == Some((Obj([]), rest))
  {
    BlankIsSkipped(pad, "]" + rest);
    BlankIsSkipped(pad, "}" + rest);
    assert ("[" + pad + "]" + rest)[1..] == pad + ("]" + rest) && ("]" + rest)[1..] == rest;
    assert ("{" + pad + "}" + rest)[1..] == pad + ("}" + rest) && ("}" + rest)[1..] == rest;
  }

  lemma FullArrayIsRead(text: string, vs: seq<Json>, rest: string)
    requires
      var s := SkipSpaces(text);
      s != [] && s[0] != ']' && ReadItems(s) == Some((vs, rest))
    ensures ReadValue("[" + text) == Some((Arr(vs), rest))
  {
    assert ("[" + text)[1..] == text;
  }

  lemma FullObjectIsRead(text: string, pairs: seq<Field>, rest: string)
    requires
      var s := SkipSpaces(text);
      s != [] && s[0] == '\"' && ReadFields(s) == Some((pairs, rest))
    ensures ReadValue("{" + text) == Some((Obj(LastValues(pairs)), rest))
  {
    assert ("{" + text)[1..] == text;
    DictIsLastValues(pairs);
  }

  lemma ArrayIsRead(pad: string, items: seq<ItemSyntax>, rest: string)
    requires WellFormed(Array(pad, items))
    ensures ReadValue(TextOf(Array(pad, items)) + rest) == Some((Meaning(Array(pad, items)), rest))
    decreases items, 1
  {
    if items == [] {
      EmptyIsRead(pad, rest);
    } else {
      ItemsAreRead(items, rest);
      FullArrayIsRead(ItemsText(items) + rest, ItemsMeaning(items), rest);
      OpeningGlue("[", "", ItemsText(items), rest);
    }
  }

  lemma ObjectIsRead(pad: string, members: seq<MemberSyntax>, rest: string)
    requires WellFormed(Object(pad, members))
    ensures ReadValue(TextOf(Object(pad, members)) + rest) == Some((Meaning(Object(pad, members)), rest))
    decreases members, 1
  {
    if members == [] {
      EmptyIsRead(pad, rest);
      assert LastValues([]) == [];
    } else {
      MembersAreRead(members, rest);
      FullObjectIsRead(MembersText(members) + rest, MembersMeaning(members), rest);
      OpeningGlue("{", "", MembersText(members), rest);
    }
  }

  /** The text of a tree is read as its meaning, whatever delimiter follows. */
  lemma {:induction false} ValueIsRead(t: Syntax, rest: string)
    requires WellFormed(t) && Delimits(rest)
    ensures ReadValue(TextOf(t) + rest) == Some((Meaning(t), rest))
    decreases t, 2
  {
    match t
    case NullWord => WordReadsBack("null", Null, rest);
    case TrueWord => WordReadsBack("true", Bool(true), rest);
    case FalseWord => WordReadsBack("false", Bool(false), rest);
    case Number(negative, digits) => NumberIsRead(negative, digits, rest);
    case Text(chars) => StringIsRead(chars, rest);
    case Array(pad, items) => ArrayIsRead(pad, items, rest);
    case Object(pad, members) => ObjectIsRead(pad, members, rest);
  }

  /** The reader takes exactly the JSON texts, each for what it stands for. */
  lemma LoadsExactlyWhatStands(text: string, v: Json)
    ensures Loads(text) == Some(v) <==> StandsFor(text, v)
  {
    if before, t, after :|
      Blank(before) && Blank(after) && WellFormed(t) && text == before + TextOf(t) + after && Meaning(t) == v
    {
      TreeIsLoaded(before, t, after);
    }
    if Loads(text) == Some(v) {
      LoadedStandsFor(text);
    }
  }

  lemma TreeIsLoaded(before: string, t: Syntax, after: string)
    requires Blank(before) && Blank(after) && WellFormed(t)
    ensures Loads(before + TextOf(t) + after) == Some(Meaning(t))
  {
    assert before + TextOf(t) + after == before + (TextOf(t) + after);
    TextStart(t, after);
    BlankIsSkipped(before, TextOf(t) + after);
    BlankDelimits(after, []);
    assert after + [] == after;
    ValueIsRead(t, after);
    BlankIsSkipped(after, []);
  }

  /** A text stands for one value at most. */
  lemma TextStandsForOne(text: string, v: Json, w: Json)
    requires StandsFor(text, v) && StandsFor(text, w)
    ensures v == w
  {
    LoadsExactlyWhatStands(text, v);
    LoadsExactlyWhatStands(text, w);
  }

  // ---------- the printer against the reader ----------

  /** A canonical value is read back from its text, and what follows is left, if it does not continue a number. */
  lemma ValueReadsBack(v: Json, rest: string)
    requires Canonical(v) && Delimits(rest)
    ensures ReadValue(Print(v) + rest) == Some((v, rest))
  {
    var t := PrintIsCompact(v);
    ValueIsRead(t, rest);
  }

  /** Reading the canonical text of a proper value gives the value with its keys in order. */
  lemma CanonicalTextReadsBack(v: Json)
    requires Proper(v)
    ensures Loads(CanonicalText(v)) == Some(Canonicalize(v))
  {
    var t := CanonicalTextStandsFor(v);
    TreeIsLoaded("", t, "");
    assert "" + TextOf(t) + "" == TextOf(t);
  }

  /** Two proper values have the same canonical text iff they are the same up to the order of keys. */
  lemma CanonicalTextIsInjective(v: Json, w: Json)
    requires Proper(v) && Proper(w)
    ensures CanonicalText(v) == CanonicalText(w) <==> SameUpToOrder(v, w)
  {
    CanonicalTextReadsBack(v);
    CanonicalTextReadsBack(w);
    CanonicalFormsAgree(v, w);
  }
}
