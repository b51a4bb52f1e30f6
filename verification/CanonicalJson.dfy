/**
  Canonical JSON text: the printer of hashio.py (`canonicalize`, `canonical_json`) and a reader for the JSON
  grammar (RFC 8259, sections 4 to 7) as Python's `json.loads` reads it.  Values are null, booleans, integers,
  strings of Unicode scalar values, arrays and objects.
 */
module CanonicalJson {
  import opened Wrappers
  import opened Decimal
  import opened Strings

  datatype Json =
    | Null
    | Bool(b: bool)
    | Int(n: int)
    | Str(s: string)
    | Arr(items: seq<Json>)
    | Obj(fields: seq<Field>)

  // A dictionary lists its entries in the order of insertion.
  datatype Field = Field(key: string, value: Json)

  // ---------- canonical values ----------

  function InsertField(f: Field, sorted: seq<Field>): seq<Field> {
    if sorted == [] || Less(f.key, sorted[0].key) then [f] + sorted
    else [sorted[0]] + InsertField(f, sorted[1..])
  }

  function SortFields(fields: seq<Field>): seq<Field> {
    if fields == [] then [] else InsertField(fields[0], SortFields(fields[1..]))
  }

  /** `canonicalize`: dictionaries are rebuilt with their keys in order, at every level. */
  function Canonicalize(v: Json): Json
    decreases v
  {
    match v
    case Arr(items) => Arr(CanonicalizeItems(items))
    case Obj(fields) => Obj(SortFields(CanonicalizeFields(fields)))
    case _ => v
  }

  function CanonicalizeItems(items: seq<Json>): (r: seq<Json>)
    decreases items
  {
    if items == [] then [] else [Canonicalize(items[0])] + CanonicalizeItems(items[1..])
  }

  function CanonicalizeFields(fields: seq<Field>): (r: seq<Field>)
    ensures |r| == |fields| && forall i :: 0 <= i < |fields| ==> r[i].key == fields[i].key
    decreases fields
  {
    if fields == [] then []
    else [Field(fields[0].key, Canonicalize(fields[0].value))] + CanonicalizeFields(fields[1..])
  }

  ghost predicate DistinctKeys(fields: seq<Field>) {
    forall i, j :: 0 <= i < j < |fields| ==> fields[i].key != fields[j].key
  }

  ghost predicate AscendingKeys(fields: seq<Field>) {
    forall i, j :: 0 <= i < j < |fields| ==> Less(fields[i].key, fields[j].key)
  }

  /** Keys of every dictionary differ: what a Python dictionary is. */
  ghost predicate Proper(v: Json)
    decreases v
  {
    match v
    case Arr(items) => forall i :: 0 <= i < |items| ==> Proper(items[i])
    case Obj(fields) => DistinctKeys(fields) && forall i :: 0 <= i < |fields| ==> Proper(fields[i].value)
    case _ => true
  }

  /** Keys of every dictionary are in ascending order. */
  ghost predicate Canonical(v: Json)
    decreases v
  {
    match v
    case Arr(items) => forall i :: 0 <= i < |items| ==> Canonical(items[i])
    case Obj(fields) => AscendingKeys(fields) && forall i :: 0 <= i < |fields| ==> Canonical(fields[i].value)
    case _ => true
  }

  lemma {:induction false} InsertFieldAscends(f: Field, sorted: seq<Field>)
    requires AscendingKeys(sorted) && forall g :: g in sorted ==> g.key != f.key
    ensures AscendingKeys(InsertField(f, sorted))
    ensures forall g :: g in InsertField(f, sorted) <==> g == f || g in sorted
  {
    if sorted == [] {
    } else if Less(f.key, sorted[0].key) {
      forall j | 0 <= j < |sorted|
        ensures Less(f.key, sorted[j].key)
      {
        if 0 < j {
          LessTransitive(f.key, sorted[0].key, sorted[j].key);
        }
      }
    } else {
      var tail := InsertField(f, sorted[1..]);
      InsertFieldAscends(f, sorted[1..]);
      assert sorted[0] in sorted;
      LessTotal(f.key, sorted[0].key);
      forall j | 0 <= j < |tail|
        ensures Less(sorted[0].key, tail[j].key)
      {
        assert tail[j] in tail;
        if tail[j] != f {
          var i :| 0 <= i < |sorted[1..]| && sorted[1..][i] == tail[j];
          assert Less(sorted[0].key, sorted[i + 1].key);
        }
      }
    }
  }

  lemma {:induction false} SortFieldsAscends(fields: seq<Field>)
    requires DistinctKeys(fields)
    ensures AscendingKeys(SortFields(fields))
    ensures forall g :: g in SortFields(fields) <==> g in fields
  {
    if fields != [] {
      SortFieldsAscends(fields[1..]);
      forall g | g in SortFields(fields[1..])
        ensures g.key != fields[0].key
      {
        var i :| 0 <= i < |fields[1..]| && fields[1..][i] == g;
        assert fields[0].key != fields[i + 1].key;
      }
      InsertFieldAscends(fields[0], SortFields(fields[1..]));
    }
  }

  lemma {:induction false} SortedIsFixed(fields: seq<Field>)
    requires AscendingKeys(fields)
    ensures SortFields(fields) == fields
  {
    if fields != [] {
      SortedIsFixed(fields[1..]);
      if 1 < |fields| {
        assert Less(fields[0].key, fields[1].key);
      }
    }
  }

  lemma {:induction false} CanonicalizeItemsAt(items: seq<Json>, i: nat)
    requires i < |items|
    ensures |CanonicalizeItems(items)| == |items| && CanonicalizeItems(items)[i] == Canonicalize(items[i])
  {
    if 0 < i {
      CanonicalizeItemsAt(items[1..], i - 1);
    } else if 1 < |items| {
      CanonicalizeItemsAt(items[1..], 0);
    }
  }

  lemma {:induction false} CanonicalizeFieldsAt(fields: seq<Field>, i: nat)
    requires i < |fields|
    ensures CanonicalizeFields(fields)[i] == Field(fields[i].key, Canonicalize(fields[i].value))
  {
    if 0 < i {
      CanonicalizeFieldsAt(fields[1..], i - 1);
    }
  }

  lemma {:induction false} CanonicalizeItemsLength(items: seq<Json>)
    ensures |CanonicalizeItems(items)| == |items|
  {
    if items != [] {
      CanonicalizeItemsAt(items, 0);
    }
  }

  /** Canonicalization of a proper value is canonical. */
  lemma {:induction false} CanonicalizeIsCanonical(v: Json)
    requires Proper(v)
    ensures Canonical(Canonicalize(v))
    decreases v
  {
    match v
    case Arr(items) =>
      CanonicalizeItemsLength(items);
      forall i | 0 <= i < |items|
        ensures Canonical(CanonicalizeItems(items)[i])
      {
        CanonicalizeIsCanonical(items[i]);
        CanonicalizeItemsAt(items, i);
      }
    case Obj(fields) =>
      var converted := CanonicalizeFields(fields);
      forall i | 0 <= i < |fields|
        ensures Canonical(converted[i].value)
      {
        CanonicalizeIsCanonical(fields[i].value);
        CanonicalizeFieldsAt(fields, i);
      }
      SortFieldsAscends(converted);
      var sorted := SortFields(converted);
      forall i | 0 <= i < |sorted|
        ensures Canonical(sorted[i].value)
      {
        assert sorted[i] in converted;
      }
    case _ =>
  }

  /** Canonical values are left as they are. */
  lemma {:induction false} CanonicalIsFixed(v: Json)
    requires Canonical(v)
    ensures Canonicalize(v) == v
    decreases v
  {
    match v
    case Arr(items) =>
      CanonicalizeItemsLength(items);
      forall i | 0 <= i < |items|
        ensures CanonicalizeItems(items)[i] == items[i]
      {
        CanonicalIsFixed(items[i]);
        CanonicalizeItemsAt(items, i);
      }
      assert CanonicalizeItems(items) == items;
    case Obj(fields) =>
      forall i | 0 <= i < |fields|
        ensures CanonicalizeFields(fields)[i] == fields[i]
      {
        CanonicalIsFixed(fields[i].value);
        CanonicalizeFieldsAt(fields, i);
      }
      assert CanonicalizeFields(fields) == fields;
      SortedIsFixed(fields);
    case _ =>
  }

  // ---------- equality of values as Python sees it ----------

  ghost predicate HasKey(fields: seq<Field>, key: string) {
    exists i :: 0 <= i < |fields| && fields[i].key == key
  }

  /**
    Equal up to the order of the keys: dictionaries have the same keys with the same values, lists agree item by
    item.
   */
  ghost predicate SameUpToOrder(v: Json, w: Json)
    decreases v
  {
    match v
    case Arr(items) =>
      w.Arr? && |items| == |w.items| && forall i :: 0 <= i < |items| ==> SameUpToOrder(items[i], w.items[i])
    case Obj(fields) =>
      && w.Obj?
      && (forall key :: HasKey(fields, key) <==> HasKey(w.fields, key))
      && forall i, j :: 0 <= i < |fields| && 0 <= j < |w.fields| && fields[i].key == w.fields[j].key ==>
           SameUpToOrder(fields[i].value, w.fields[j].value)
    case _ => v == w
  }

  lemma AscendingIsDistinct(fields: seq<Field>)
    requires AscendingKeys(fields)
    ensures DistinctKeys(fields)
  {
    forall i, j | 0 <= i < j < |fields|
      ensures fields[i].key != fields[j].key
    {
      LessTotal(fields[i].key, fields[j].key);
    }
  }

  lemma HasMember(fields: seq<Field>)
    ensures fields == [] || exists g :: g in fields
  {
    if fields != [] {
      assert fields[0] in fields;
    }
  }

  /** Ascending lists of the same fields are the same list. */
  lemma {:induction false} AscendingUnique(a: seq<Field>, b: seq<Field>)
    requires AscendingKeys(a) && AscendingKeys(b) && forall g :: g in a <==> g in b
    ensures a == b
  {
    HasMember(b);
    if a != [] {
      FirstAgrees(a, b);
      forall g
        ensures g in a[1..] <==> g in b[1..]
      {
        RestAgrees(a, b, g);
        RestAgrees(b, a, g);
      }
      AscendingUnique(a[1..], b[1..]);
      assert a == [a[0]] + a[1..] && b == [b[0]] + b[1..];
    }
  }

  lemma FirstAgrees(a: seq<Field>, b: seq<Field>)
    requires AscendingKeys(a) && AscendingKeys(b) && a != [] && forall g :: g in a <==> g in b
    ensures b != [] && a[0] == b[0]
  {
    assert a[0] in b;
    var j :| 0 <= j < |b| && b[j] == a[0];
    assert b[0] in a;
    var i :| 0 <= i < |a| && a[i] == b[0];
    assert 0 < j ==> Less(b[0].key, b[j].key);
    assert 0 < i ==> Less(a[0].key, a[i].key);
    LessTotal(a[0].key, b[0].key);
  }

  lemma RestAgrees(a: seq<Field>, b: seq<Field>, g: Field)
    requires AscendingKeys(a) && b != [] && a != [] && a[0] == b[0] && (g in a ==> g in b)
    ensures g in a[1..] ==> g in b[1..]
  {
    if g in a[1..] {
      var i :| 0 <= i < |a[1..]| && a[1..][i] == g;
      assert Less(a[0].key, a[i + 1].key);
      LessTotal(a[0].key, g.key);
      assert g in b && g != b[0];
    }
  }

  /** Dictionaries whose converted fields are the same have the same canonical form, and the other way round. */
  lemma SortedFieldsAgree(a: seq<Field>, b: seq<Field>)
    requires DistinctKeys(a) && DistinctKeys(b)
    ensures SortFields(a) == SortFields(b) <==> forall g :: g in a <==> g in b
  {
    SortFieldsAscends(a);
    SortFieldsAscends(b);
    if forall g :: g in a <==> g in b {
      AscendingUnique(SortFields(a), SortFields(b));
    }
  }

  /** All that converted fields tell about a dictionary. */
  lemma ConvertedFields(fields: seq<Field>)
    requires DistinctKeys(fields)
    ensures DistinctKeys(CanonicalizeFields(fields))
    ensures forall i :: 0 <= i < |fields| ==>
      CanonicalizeFields(fields)[i] == Field(fields[i].key, Canonicalize(fields[i].value))
  {
    forall i | 0 <= i < |fields|
      ensures CanonicalizeFields(fields)[i] == Field(fields[i].key, Canonicalize(fields[i].value))
    {
      CanonicalizeFieldsAt(fields, i);
    }
  }

  /** Values under equal keys convert to the same. */
  ghost predicate ValuesConvertAlike(a: seq<Field>, b: seq<Field>) {
    forall i, j :: 0 <= i < |a| && 0 <= j < |b| && a[i].key == b[j].key ==>
      Canonicalize(a[i].value) == Canonicalize(b[j].value)
  }

  lemma FieldsAgreeOneWay(a: seq<Field>, b: seq<Field>)
    requires DistinctKeys(a) && DistinctKeys(b)
    requires ValuesConvertAlike(a, b) && forall key :: HasKey(a, key) ==> HasKey(b, key)
    ensures forall g :: g in CanonicalizeFields(a) ==> g in CanonicalizeFields(b)
  {
    ConvertedFields(a);
    ConvertedFields(b);
    forall g | g in CanonicalizeFields(a)
      ensures g in CanonicalizeFields(b)
    {
      var i :| 0 <= i < |a| && CanonicalizeFields(a)[i] == g;
      assert HasKey(a, a[i].key);
      var j :| 0 <= j < |b| && b[j].key == a[i].key;
      assert CanonicalizeFields(b)[j] == g;
    }
  }

  lemma FieldsTellValues(a: seq<Field>, b: seq<Field>)
    requires DistinctKeys(a) && DistinctKeys(b)
    requires forall g :: g in CanonicalizeFields(a) ==> g in CanonicalizeFields(b)
    ensures ValuesConvertAlike(a, b) && forall key :: HasKey(a, key) ==> HasKey(b, key)
  {
    ConvertedFields(a);
    ConvertedFields(b);
    forall i | 0 <= i < |a|
      ensures HasKey(b, a[i].key)
      ensures forall j :: 0 <= j < |b| && a[i].key == b[j].key ==> Canonicalize(a[i].value) == Canonicalize(b[j].value)
    {
      assert CanonicalizeFields(a)[i] in CanonicalizeFields(b);
      var j :| 0 <= j < |b| && CanonicalizeFields(b)[j] == CanonicalizeFields(a)[i];
    }
  }

  lemma ConvertAlikeBack(a: seq<Field>, b: seq<Field>)
    requires ValuesConvertAlike(a, b)
    ensures ValuesConvertAlike(b, a)
  {
  }

  /** Two dictionaries have one canonical form iff they have the same keys and values that convert alike. */
  lemma ObjectsAgree(a: seq<Field>, b: seq<Field>)
    requires DistinctKeys(a) && DistinctKeys(b)
    ensures Canonicalize(Obj(a)) == Canonicalize(Obj(b))
       <==> ValuesConvertAlike(a, b) && forall key :: HasKey(a, key) <==> HasKey(b, key)
  {
    ConvertedFields(a);
    ConvertedFields(b);
    SortedFieldsAgree(CanonicalizeFields(a), CanonicalizeFields(b));
    if ValuesConvertAlike(a, b) && forall key :: HasKey(a, key) <==> HasKey(b, key) {
      ConvertAlikeBack(a, b);
      FieldsAgreeOneWay(a, b);
      FieldsAgreeOneWay(b, a);
    } else if Canonicalize(Obj(a)) == Canonicalize(Obj(b)) {
      FieldsTellValues(a, b);
      FieldsTellValues(b, a);
    }
  }

  lemma ArraysAgree(a: seq<Json>, b: seq<Json>)
    ensures Canonicalize(Arr(a)) == Canonicalize(Arr(b))
       <==> |a| == |b| && forall i :: 0 <= i < |a| ==> Canonicalize(a[i]) == Canonicalize(b[i])
  {
    var c, e := CanonicalizeItems(a), CanonicalizeItems(b);
    CanonicalizeItemsLength(a);
    CanonicalizeItemsLength(b);
    forall i | 0 <= i < |a|
      ensures c[i] == Canonicalize(a[i])
    {
      CanonicalizeItemsAt(a, i);
    }
    forall i | 0 <= i < |b|
      ensures e[i] == Canonicalize(b[i])
    {
      CanonicalizeItemsAt(b, i);
    }
    if |a| == |b| && forall i :: 0 <= i < |a| ==> Canonicalize(a[i]) == Canonicalize(b[i]) {
      assert c == e;
    }
  }

  /** Canonicalization forgets the order of keys and nothing else. */
  lemma {:induction false} CanonicalFormsAgree(v: Json, w: Json)
    requires Proper(v) && Proper(w)
    ensures Canonicalize(v) == Canonicalize(w) <==> SameUpToOrder(v, w)
    decreases v
  {
    if v.Arr? && w.Arr? {
      ArraysAgree(v.items, w.items);
      forall i | 0 <= i < |v.items| && i < |w.items|
        ensures Canonicalize(v.items[i]) == Canonicalize(w.items[i]) <==> SameUpToOrder(v.items[i], w.items[i])
      {
        CanonicalFormsAgree(v.items[i], w.items[i]);
      }
    } else if v.Obj? && w.Obj? {
      ObjectsAgree(v.fields, w.fields);
      forall i, j | 0 <= i < |v.fields| && 0 <= j < |w.fields|
        ensures Canonicalize(v.fields[i].value) == Canonicalize(w.fields[j].value)
           <==> SameUpToOrder(v.fields[i].value, w.fields[j].value)
      {
        CanonicalFormsAgree(v.fields[i].value, w.fields[j].value);
      }
    }
  }

  lemma {:induction false} CanonicalIsProper(v: Json)
    requires Canonical(v)
    ensures Proper(v)
    decreases v
  {
    match v
    case Arr(items) =>
      forall i | 0 <= i < |items|
        ensures Proper(items[i])
      {
        CanonicalIsProper(items[i]);
      }
    case Obj(fields) =>
      AscendingIsDistinct(fields);
      forall i | 0 <= i < |fields|
        ensures Proper(fields[i].value)
      {
        CanonicalIsProper(fields[i].value);
      }
    case _ =>
  }

  /** The canonical form of a value is the value, up to the order of keys. */
  lemma CanonicalizeKeepsContent(v: Json)
    requires Proper(v)
    ensures Proper(Canonicalize(v)) && SameUpToOrder(v, Canonicalize(v))
  {
    CanonicalizeIsCanonical(v);
    CanonicalIsProper(Canonicalize(v));
    CanonicalIsFixed(Canonicalize(v));
    CanonicalFormsAgree(v, Canonicalize(v));
  }

  // ---------- the printer ----------

  function HexDigit(d: nat): (c: char)
    requires d < 16
    ensures HexValue(c) == Some(d)
  {
    if d < 10 then ('0' as int + d) as char else ('a' as int + (d - 10)) as char
  }

  function HexValue(c: char): (v: Option<nat>)
    ensures v.Some? ==> v.value < 16
  {
    if '0' <= c <= '9' then Some(c as int - '0' as int)
    else if 'a' <= c <= 'f' then Some(c as int - 'a' as int + 10)
    else if 'A' <= c <= 'F' then Some(c as int - 'A' as int + 10)
    else None
  }

  /** `\uXXXX` */
  function UnicodeEscape(code: nat): (s: string)
    requires code < 0x10000
    ensures |s| == 6
  {
    ['\\', 'u', HexDigit(code / 16 / 16 / 16), HexDigit(code / 16 / 16 % 16),
     HexDigit(code / 16 % 16), HexDigit(code % 16)]
  }

  /** A character outside the basic plane is written as a surrogate pair. */
  function EscapeCode(code: nat): (s: string)
    requires code < 0x11_0000
    ensures s != []
  {
    if code < 0x10000 then UnicodeEscape(code)
    else
      var n := code - 0x10000;
      UnicodeEscape(0xD800 + n / 1024) + UnicodeEscape(0xDC00 + n % 1024)
  }

  function EscapeChar(c: char): (s: string)
    ensures s != []
  {
    var code := c as int;
    if c == '\"' then "\\\""
    else if c == '\\' then "\\\\"
    else if c == '\n' then "\\n"
    else if c == '\r' then "\\r"
    else if c == '\t' then "\\t"
    else if code == 12 then "\\f"
    else if code == 8 then "\\b"
    else if ' ' <= c <= '~' then [c]
    else EscapeCode(code)
  }

  function EscapeAll(s: string): string {
    if s == [] then [] else EscapeChar(s[0]) + EscapeAll(s[1..])
  }

  function PrintString(s: string): string {
    "\"" + EscapeAll(s) + "\""
  }

  function PrintInt(n: int): string {
    if n < 0 then "-" + PrintNat(-n) else PrintNat(n)
  }

  function Print(v: Json): (s: string)
    ensures s != []
    decreases v
  {
    match v
    case Null => "null"
    case Bool(b) => if b then "true" else "false"
    case Int(n) => PrintInt(n)
    case Str(s) => PrintString(s)
    case Arr(items) => if items == [] then "[]" else "[" + PrintItems(items)
    case Obj(fields) => if fields == [] then "{}" else "{" + PrintFields(fields)
  }

  /** Items separated by commas, with the closing bracket. */
  function PrintItems(items: seq<Json>): string
    requires items != []
    decreases items
  {
    Print(items[0]) + if |items| == 1 then "]" else "," + PrintItems(items[1..])
  }

  function FieldText(key: string, value: string, tail: string): string {
    key + (":" + (value + tail))
  }

  /** Fields separated by commas, with the closing brace. */
  function PrintFields(fields: seq<Field>): string
    requires fields != []
    decreases fields, 1
  {
    FieldText(PrintString(fields[0].key), Print(fields[0].value), FieldsTail(fields))
  }

  /** What is printed after the first field. */
  function FieldsTail(fields: seq<Field>): string
    requires fields != []
    decreases fields, 0
  {
    if |fields| == 1 then "}" else "," + PrintFields(fields[1..])
  }

  /** `canonical_json` */
  function CanonicalText(v: Json): string {
    Print(Canonicalize(v))
  }

  // ---------- the reader ----------

  predicate IsSpace(c: char) {
    c == ' ' || c == '\t' || c == '\n' || c == '\r'
  }

  function SkipSpaces(s: string): (r: string)
    ensures |r| <= |s|
  {
    if s != [] && IsSpace(s[0]) then SkipSpaces(s[1..]) else s
  }

  function ReadHex4(s: string): (r: Option<nat>)
    ensures r.Some? ==> r.value < 0x10000 && 4 <= |s|
  {
    if |s| < 4 || HexValue(s[0]).None? || HexValue(s[1]).None? || HexValue(s[2]).None? || HexValue(s[3]).None? then
      None
    else
      Some(HexValue(s[0]).value * 4096 + HexValue(s[1]).value * 256 + HexValue(s[2]).value * 16 + HexValue(s[3]).value)
  }

  predicate IsScalar(code: nat) {
    code < 0xD800 || 0xE000 <= code < 0x110000
  }

  /** The character after a backslash, and what follows it. */
  function ReadEscape(s: string): (r: Option<(char, string)>)
    ensures r.Some? ==> |r.value.1| < |s|
  {
    if s == [] then None
    else if s[0] == '\"' || s[0] == '\\' || s[0] == '/' then Some((s[0], s[1..]))
    else if s[0] == 'n' then Some(('\n', s[1..]))
    else if s[0] == 'r' then Some(('\r', s[1..]))
    else if s[0] == 't' then Some(('\t', s[1..]))
    else if s[0] == 'f' then Some((12 as char, s[1..]))
    else if s[0] == 'b' then Some((8 as char, s[1..]))
    else if s[0] != 'u' || ReadHex4(s[1..]).None? then None
    else
      var code := ReadHex4(s[1..]).value;
      if IsScalar(code) then
        Some((code as char, s[5..]))
      else if code < 0xDC00 && 7 <= |s| && s[5] == '\\' && s[6] == 'u' && ReadHex4(s[7..]).Some?
        && 0xDC00 <= ReadHex4(s[7..]).value < 0xE000 then
        Some((((code - 0xD800) * 1024 + (ReadHex4(s[7..]).value - 0xDC00) + 0x10000) as char, s[11..]))
      else
        None
  }

  /** The rest of a string literal, after its opening quote. */
  function ReadChars(s: string): (r: Option<(string, string)>)
    ensures r.Some? ==> |r.value.1| < |s|
    decreases |s|
  {
    if s == [] || s[0] < ' ' then None
    else if s[0] == '\"' then Some(([], s[1..]))
    else if s[0] == '\\' then
      match ReadEscape(s[1..])
      case None => None
      case Some((c, rest)) =>
        match ReadChars(rest)
        case None => None
        case Some((cs, after)) => Some(([c] + cs, after))
    else
      match ReadChars(s[1..])
      case None => None
      case Some((cs, after)) => Some(([s[0]] + cs, after))
  }

  function ReadDigits(s: string): (n: nat)
    ensures n <= |s| && AllDigits(s[..n]) && (n < |s| ==> !IsDigit(s[n]))
  {
    if s == [] || !IsDigit(s[0]) then 0
    else
      var n := ReadDigits(s[1..]);
      assert s[..n + 1] == [s[0]] + s[1..][..n];
      n + 1
  }

  /** A number continues with a fraction or an exponent: not an integer. */
  predicate Continues(rest: string) {
    rest != [] && (rest[0] == '.' || rest[0] == 'e' || rest[0] == 'E')
  }

  /** The number at the start of `s`, and what follows it. */
  function ReadMagnitude(s: string): (r: Option<(nat, string)>)
    ensures r.Some? ==> |r.value.1| < |s|
  {
    var n := if s != [] && s[0] == '0' then 1 else ReadDigits(s);
    if n == 0 || Continues(s[n..]) then None
    else
      assert AllDigits(s[..n]);
      var magnitude := ValueOf(s[..n]);
      Some((magnitude, s[n..]))
  }

  function ReadInt(s: string): (r: Option<(Json, string)>)
    ensures r.Some? ==> |r.value.1| < |s|
  {
    if s != [] && s[0] == '-' then
      match ReadMagnitude(s[1..])
      case None => None
      case Some((m, rest)) =>
        var magnitude: int := m;
        Some((Int(-magnitude), rest))
    else
      match ReadMagnitude(s)
      case None => None
      case Some((m, rest)) => Some((Int(m), rest))
  }

  function ReadLiteral(s: string, word: string, v: Json): (r: Option<(Json, string)>)
    requires word != []
    ensures r.Some? ==> |r.value.1| < |s|
  {
    if word <= s then Some((v, s[|word|..])) else None
  }

  /** A repeated key keeps its place and takes the later value. */
  function AddField(fields: seq<Field>, f: Field): seq<Field> {
    if fields == [] then [f]
    else if fields[0].key == f.key then [f] + fields[1..]
    else [fields[0]] + AddField(fields[1..], f)
  }

  function DictOf(pairs: seq<Field>): seq<Field> {
    if pairs == [] then [] else AddField(DictOf(pairs[..|pairs| - 1]), pairs[|pairs| - 1])
  }

  /** One value and what follows it. */
  function ReadValue(s: string): (r: Option<(Json, string)>)
    ensures r.Some? ==> |r.value.1| < |s|
    decreases |s|, 0
  {
    if s == [] then None
    else if s[0] == '\"' then
      match ReadChars(s[1..])
      case None => None
      case Some((text, rest)) => Some((Str(text), rest))
    else if s[0] == '[' then
      var inner := SkipSpaces(s[1..]);
      if inner != [] && inner[0] == ']' then Some((Arr([]), inner[1..]))
      else
        match ReadItems(inner)
        case None => None
        case Some((items, rest)) => Some((Arr(items), rest))
    else if s[0] == '{' then
      var inner := SkipSpaces(s[1..]);
      if inner != [] && inner[0] == '}' then Some((Obj([]), inner[1..]))
      else
        match ReadFields(inner)
        case None => None
        case Some((pairs, rest)) => Some((Obj(DictOf(pairs)), rest))
    else if s[0] == 'n' then ReadLiteral(s, "null", Null)
    else if s[0] == 't' then ReadLiteral(s, "true", Bool(true))
    else if s[0] == 'f' then ReadLiteral(s, "false", Bool(false))
    else ReadInt(s)
  }

  /** The items of an array up to its closing bracket; at least one. */
  function ReadItems(s: string): (r: Option<(seq<Json>, string)>)
    ensures r.Some? ==> |r.value.1| < |s|
    decreases |s|, 1
  {
    match ReadValue(s)
    case None => None
    case Some((v, rest)) =>
      var after := SkipSpaces(rest);
      if after == [] then None
      else if after[0] == ']' then Some(([v], after[1..]))
      else if after[0] != ',' then None
      else
        match ReadItems(SkipSpaces(after[1..]))
        case None => None
        case Some((items, end)) => Some(([v] + items, end))
  }

  /** The key of a field and what follows its colon. */
  function ReadKey(s: string): (r: Option<(string, string)>)
    ensures r.Some? ==> |r.value.1| < |s|
  {
    if s == [] || s[0] != '\"' then None
    else
      match ReadChars(s[1..])
      case None => None
      case Some((key, rest)) =>
        var after := SkipSpaces(rest);
        if after == [] || after[0] != ':' then None else Some((key, SkipSpaces(after[1..])))
  }

  /** The fields of an object up to its closing brace; at least one. */
  function ReadFields(s: string): (r: Option<(seq<Field>, string)>)
    ensures r.Some? ==> |r.value.1| < |s|
    decreases |s|, 1
  {
    match ReadKey(s)
    case None => None
    case Some((key, text)) =>
      match ReadValue(text)
      case None => None
      case Some((v, rest)) =>
        var after := SkipSpaces(rest);
        if after == [] then None
        else if after[0] == '}' then Some(([Field(key, v)], after[1..]))
        else if after[0] != ',' then None
        else
          match ReadFields(SkipSpaces(after[1..]))
          case None => None
          case Some((pairs, end)) => Some(([Field(key, v)] + pairs, end))
  }

  /** `json.loads` */
  function Loads(text: string): Option<Json> {
    match ReadValue(SkipSpaces(text))
    case None => None
    case Some((v, rest)) => if SkipSpaces(rest) == [] then Some(v) else None
  }

  // ---------- pieces of text that are read ----------

  lemma HexSum(code: nat)
    requires code < 0x10000
    ensures code == code / 16 / 16 / 16 * 4096 + code / 16 / 16 % 16 * 256 + code / 16 % 16 * 16 + code % 16
  {
    var q := code / 16;
    var p := q / 16;
    assert code == 16 * q + code % 16 && q == 16 * p + q % 16 && p == 16 * (p / 16) + p % 16;
  }

  /** Reading an escape whose two codes are known to be a surrogate pair. */
  lemma PairRead(s: string, hi: nat, lo: nat, c: char)
    requires 0xD800 <= hi < 0xDC00 <= lo < 0xE000
    requires c as int == (hi - 0xD800) * 1024 + (lo - 0xDC00) + 0x10000
    requires 11 <= |s| && s[0] == 'u' && s[5] == '\\' && s[6] == 'u'
    requires ReadHex4(s[1..]) == Some(hi) && ReadHex4(s[7..]) == Some(lo)
    ensures ReadEscape(s) == Some((c, s[11..]))
  {
    assert !IsScalar(hi);
  }

  lemma SurrogatesAddUp(n: nat)
    requires n < 0x10_0000
    ensures n / 1024 < 1024 && n / 1024 * 1024 + n % 1024 == n
  {
  }

  lemma QuoteEndsString(rest: string)
    ensures ReadChars("\"" + rest) == Some(([], rest))
  {
    assert ("\"" + rest)[1..] == rest;
  }

  lemma {:induction false} DigitsReadBack(digits: string, rest: string)
    requires AllDigits(digits) && (rest == [] || !IsDigit(rest[0]))
    ensures ReadDigits(digits + rest) == |digits|
  {
    if digits == [] {
      assert digits + rest == rest;
    } else {
      DigitsReadBack(digits[1..], rest);
      assert (digits + rest)[1..] == digits[1..] + rest;
    }
  }

  /** What may follow a value without being taken for a part of it. */
  predicate Delimits(rest: string) {
    rest == [] || !(IsDigit(rest[0]) || Continues(rest))
  }

  lemma SignedReadsBack(body: string, m: nat, rest: string)
    requires ReadMagnitude(body) == Some((m, rest))
    ensures ReadInt("-" + body) == Some((Int(0 - m), rest))
    ensures body != [] && body[0] != '-' ==> ReadInt(body) == Some((Int(m), rest))
  {
    assert ("-" + body)[1..] == body;
  }

  lemma NegativeText(digits: string, rest: string)
    ensures "-" + digits + rest == "-" + (digits + rest)
  {
  }

  lemma WordReadsBack(word: string, v: Json, rest: string)
    requires word != []
    ensures ReadLiteral(word + rest, word, v) == Some((v, rest))
  {
    assert (word + rest)[..|word|] == word && (word + rest)[|word|..] == rest;
  }

  lemma {:induction false} DistinctIsDict(fields: seq<Field>)
    requires DistinctKeys(fields)
    ensures DictOf(fields) == fields
  {
    if fields != [] {
      var front, last := fields[..|fields| - 1], fields[|fields| - 1];
      DistinctIsDict(front);
      forall i | 0 <= i < |front|
        ensures front[i].key != last.key
      {
        assert fields[i].key != fields[|front|].key;
      }
      AddNewField(front, last);
    }
  }

  lemma {:induction false} AddNewField(fields: seq<Field>, f: Field)
    requires forall i :: 0 <= i < |fields| ==> fields[i].key != f.key
    ensures AddField(fields, f) == fields + [f]
  {
    if fields != [] {
      AddNewField(fields[1..], f);
    }
  }

  // ---------- the printed text is ASCII ----------

  predicate Ascii(s: string) {
    forall i :: 0 <= i < |s| ==> s[i] < 128 as char
  }

  lemma EscapedIsAscii(c: char)
    ensures Ascii(EscapeChar(c))
  {
    var code := c as int;
    if 0x10000 <= code {
      HexIsAscii(0xD800 + (code - 0x10000) / 1024);
      HexIsAscii(0xDC00 + (code - 0x10000) % 1024);
    } else {
      HexIsAscii(code);
    }
  }

  lemma HexIsAscii(code: nat)
    requires code < 0x10000
    ensures Ascii(UnicodeEscape(code))
  {
    assert forall d: nat :: d < 16 ==> HexDigit(d) < 128 as char;
  }

  lemma {:induction false} StringIsAscii(s: string)
    ensures Ascii(EscapeAll(s))
  {
    if s != [] {
      EscapedIsAscii(s[0]);
      StringIsAscii(s[1..]);
    }
  }

  lemma {:induction false} PrintIsAscii(v: Json)
    ensures Ascii(Print(v))
    decreases v, 1
  {
    match v
    case Str(s) => StringIsAscii(s);
    case Arr(items) =>
      if items != [] {
        ItemsAreAscii(items);
      }
    case Obj(fields) =>
      if fields != [] {
        FieldsAreAscii(fields);
      }
    case _ =>
  }

  lemma {:induction false} ItemsAreAscii(items: seq<Json>)
    requires items != []
    ensures Ascii(PrintItems(items))
    decreases items, 0
  {
    PrintIsAscii(items[0]);
    if 1 < |items| {
      ItemsAreAscii(items[1..]);
    }
  }

  lemma {:induction false} FieldsAreAscii(fields: seq<Field>)
    requires fields != []
    ensures Ascii(PrintFields(fields))
    decreases fields, 0
  {
    StringIsAscii(fields[0].key);
    PrintIsAscii(fields[0].value);
    if 1 < |fields| {
      FieldsAreAscii(fields[1..]);
    }
  }

  // ---------- what is read is proper ----------

  lemma {:induction false} AddFieldKeeps(fields: seq<Field>, f: Field)
    requires DistinctKeys(fields)
    ensures DistinctKeys(AddField(fields, f))
    ensures forall g :: g in AddField(fields, f) ==> g == f || g in fields
    ensures forall g :: g in AddField(fields, f) ==> g.key == f.key || exists e :: e in fields && e.key == g.key
  {
    if fields != [] && fields[0].key != f.key {
      var tail := AddField(fields[1..], f);
      AddFieldKeeps(fields[1..], f);
      forall i | 0 <= i < |tail|
        ensures tail[i].key != fields[0].key
      {
        assert tail[i] in tail;
        if tail[i] != f {
          var k :| 0 <= k < |fields[1..]| && fields[1..][k] == tail[i];
          assert fields[0].key != fields[k + 1].key;
        }
      }
    }
  }

  lemma {:induction false} DictIsDistinct(pairs: seq<Field>)
    ensures DistinctKeys(DictOf(pairs))
    ensures forall g :: g in DictOf(pairs) ==> g in pairs
  {
    if pairs != [] {
      DictIsDistinct(pairs[..|pairs| - 1]);
      AddFieldKeeps(DictOf(pairs[..|pairs| - 1]), pairs[|pairs| - 1]);
    }
  }

  ghost predicate AllProper(items: seq<Json>) {
    forall i :: 0 <= i < |items| ==> Proper(items[i])
  }

  ghost predicate AllValuesProper(pairs: seq<Field>) {
    forall i :: 0 <= i < |pairs| ==> Proper(pairs[i].value)
  }

  lemma {:induction false} ReadValueProper(s: string)
    ensures ReadValue(s).Some? ==> Proper(ReadValue(s).value.0)
    decreases |s|, 0
  {
    if s != [] && s[0] == '[' {
      ReadItemsProper(SkipSpaces(s[1..]));
    } else if s != [] && s[0] == '{' {
      var inner := SkipSpaces(s[1..]);
      ReadFieldsProper(inner);
      if ReadFields(inner).Some? {
        var pairs := ReadFields(inner).value.0;
        DictIsDistinct(pairs);
        forall i | 0 <= i < |DictOf(pairs)|
          ensures Proper(DictOf(pairs)[i].value)
        {
          assert DictOf(pairs)[i] in pairs;
        }
      }
    }
  }

  lemma {:induction false} ReadItemsProper(s: string)
    ensures ReadItems(s).Some? ==> AllProper(ReadItems(s).value.0)
    decreases |s|, 1
  {
    ReadValueProper(s);
    if ReadValue(s).Some? {
      var after := SkipSpaces(ReadValue(s).value.1);
      if after != [] && after[0] == ',' {
        ReadItemsProper(SkipSpaces(after[1..]));
      }
    }
  }

  lemma {:induction false} ReadFieldsProper(s: string)
    ensures ReadFields(s).Some? ==> AllValuesProper(ReadFields(s).value.0)
    decreases |s|, 1
  {
    if ReadKey(s).Some? {
      var text := ReadKey(s).value.1;
      ReadValueProper(text);
      if ReadValue(text).Some? {
        var after := SkipSpaces(ReadValue(text).value.1);
        if after != [] && after[0] == ',' {
          ReadFieldsProper(SkipSpaces(after[1..]));
        }
      }
    }
  }

  /** `json.loads` returns dictionaries without repeated keys, whatever the text repeats. */
  lemma LoadsProper(text: string)
    ensures Loads(text).Some? ==> Proper(Loads(text).value)
  {
    ReadValueProper(SkipSpaces(text));
  }
}
