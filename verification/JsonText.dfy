/** JSON texts, as sequences of UTF-16 code units, with their whitespace, escapes
    and repeated keys (sections 2, 4 and 7 of RFC 8259), and what is read from
    them: every value of each key, down to the depth a stop's fields reach. */
module JsonText {

  import opened Utf16

  type Text = seq<Unit>

  const QUOTE: Unit := 0x22
  const BACKSLASH: Unit := 0x5c
  const COMMA: Unit := 0x2c
  const COLON: Unit := 0x3a
  const LETTER_U: Unit := 0x75

  predicate IsSpace(u: Unit) {
    u == 0x20 || u == 0x09 || u == 0x0a || u == 0x0d
  }

  predicate IsOpen(u: Unit) {
    u == 0x7b || u == 0x5b
  }

  predicate IsClose(u: Unit) {
    u == 0x7d || u == 0x5d
  }

  /** Where a number or a literal ends. */
  predicate IsDelimiter(u: Unit) {
    u == COMMA || IsClose(u) || IsSpace(u)
  }

  /** A character that neither opens, closes nor quotes. */
  predicate IsNeutral(u: Unit) {
    u != QUOTE && !IsOpen(u) && !IsClose(u)
  }

  // ---------------------------------------------------------------- syntax

  /** One character of a string: as it is, after a backslash, or as four hex digits. */
  datatype Item = Plain(u: Unit) | Escape(u: Unit) | Hex(digits: Text)

  datatype Value =
    | Primitive(lexeme: Text)
    | String(items: seq<Item>)
    | Container(isObject: bool, entries: seq<Entry>, pad: Text)

  /** An element of an array, or a member of an object with its name; with the
      whitespace around each token.  `pad` is the inside of an empty container. */
  datatype Entry = Entry(before: Text, name: seq<Item>, between: Text, lead: Text, value: Value, after: Text)

  predicate IsHexDigit(u: Unit) {
    0x30 <= u <= 0x39 || 0x41 <= u <= 0x46 || 0x61 <= u <= 0x66
  }

  predicate IsEscape(u: Unit) {
    u == QUOTE || u == BACKSLASH || u == 0x2f || u == 0x62 || u == 0x66 || u == 0x6e || u == 0x72 || u == 0x74
  }

  predicate WellFormedItem(i: Item) {
    match i
    case Plain(u) => u != QUOTE && u != BACKSLASH
    case Escape(u) => IsEscape(u)
    case Hex(digits) => |digits| == 4 && forall k :: 0 <= k < 4 ==> IsHexDigit(digits[k])
  }

  predicate WellFormedItems(items: seq<Item>) {
    forall k :: 0 <= k < |items| ==> WellFormedItem(items[k])
  }

  predicate Spaces(s: Text) {
    forall k :: 0 <= k < |s| ==> IsSpace(s[k])
  }

  predicate WellFormed(v: Value)
    decreases v
  {
    match v
    case Primitive(lexeme) =>
      && lexeme != []
      && forall k :: 0 <= k < |lexeme| ==> IsNeutral(lexeme[k]) && !IsDelimiter(lexeme[k]) && lexeme[k] != COLON
    case String(items) => WellFormedItems(items)
    case Container(_, entries, pad) =>
      Spaces(pad) && forall k :: 0 <= k < |entries| ==> WellFormedEntry(entries[k])
  }

  predicate WellFormedEntry(e: Entry)
    decreases e
  {
    && Spaces(e.before) && Spaces(e.between) && Spaces(e.lead) && Spaces(e.after)
    && WellFormedItems(e.name) && WellFormed(e.value)
  }

  // ---------------------------------------------------------------- printing

  function PrintItem(i: Item): Text {
    match i
    case Plain(u) => [u]
    case Escape(u) => [BACKSLASH, u]
    case Hex(digits) => [BACKSLASH, LETTER_U] + digits
  }

  function PrintItems(items: seq<Item>): Text {
    if items == [] then [] else PrintItem(items[0]) + PrintItems(items[1..])
  }

  function PrintString(items: seq<Item>): Text {
    [QUOTE] + PrintItems(items) + [QUOTE]
  }

  function OpenOf(isObject: bool): Unit {
    if isObject then 0x7b else 0x5b
  }

  function CloseOf(isObject: bool): Unit {
    if isObject then 0x7d else 0x5d
  }

  function Print(v: Value): (text: Text)
    ensures WellFormed(v) ==> text != [] && !IsSpace(text[0]) && !IsClose(text[0])
    decreases v
  {
    match v
    case Primitive(lexeme) => lexeme
    case String(items) => PrintString(items)
    case Container(isObject, entries, pad) =>
      [OpenOf(isObject)] + (if entries == [] then pad else PrintEntries(isObject, entries)) + [CloseOf(isObject)]
  }

  /** What stands before an entry's value. */
  function PrintName(isObject: bool, e: Entry): Text {
    if isObject then e.before + PrintString(e.name) + e.between + [COLON] else e.before
  }

  function PrintEntry(isObject: bool, e: Entry): Text
    decreases e
  {
    PrintName(isObject, e) + e.lead + Print(e.value) + e.after
  }

  function PrintEntries(isObject: bool, entries: seq<Entry>): Text
    decreases entries
  {
    if entries == [] then []
    else PrintEntry(isObject, entries[0])
         + (if |entries| == 1 then [] else [COMMA] + PrintEntries(isObject, entries[1..]))
  }

  /** A member for the example below. */
  function Bare(u: Unit): Entry { Entry([], [], [], [], Primitive([u]), []) }

  function ExampleList(): Value { Container(false, [Bare(0x31), Bare(0x32)], []) }

  function ExampleMember(): Entry { Entry([], [Escape(0x6e)], [], [0x20], ExampleList(), []) }

  function Example(): Value { Container(true, [ExampleMember()], []) }

  lemma ListPrinted()
    ensures WellFormed(ExampleList()) && Print(ExampleList()) == [0x5b, 0x31, 0x2c, 0x32, 0x5d]
  {
    PrintTwo(false, Bare(0x31), Bare(0x32));
    assert PrintEntry(false, Bare(0x31)) == [0x31] && PrintEntry(false, Bare(0x32)) == [0x32];
    hide PrintEntries, PrintEntry;
  }

  lemma MemberPrinted()
    ensures PrintEntry(true, ExampleMember()) == [0x22, 0x5c, 0x6e, 0x22, 0x3a, 0x20] + Print(ExampleList())
  {
    PrintOne(Escape(0x6e));
    hide Print, ExampleList;
  }

  lemma ExamplePrinted()
    ensures WellFormed(Example())
    ensures Print(Example()) == [0x7b, 0x22, 0x5c, 0x6e, 0x22, 0x3a, 0x20, 0x5b, 0x31, 0x2c, 0x32, 0x5d, 0x7d]
  {
    MemberPrinted();
    ListPrinted();
    assert WellFormedItems([Escape(0x6e)]);
    hide PrintEntry, ExampleList;
    var member := ExampleMember();
    assert PrintEntries(true, [member]) == PrintEntry(true, member) + [];
    hide ExampleMember;
  }

  /** The text of one value with every kind of token. */
  lemma PrintedExample()
    ensures var text := "{\"\\n\": [1,2]}";
            |Print(Example())| == |text| && forall i :: 0 <= i < |text| ==> Print(Example())[i] == text[i] as int
  {
    hide Print, Example;
    ExamplePrinted();
  }

  lemma PrintOne(item: Item)
    ensures PrintItems([item]) == PrintItem(item)
  {
    assert [item][1..] == [];
  }

  lemma PrintTwo(isObject: bool, a: Entry, b: Entry)
    ensures PrintEntries(isObject, [a, b]) == PrintEntry(isObject, a) + [0x2c] + PrintEntry(isObject, b)
  {
    assert [a, b][1..] == [b];
    assert PrintEntries(isObject, [b]) == PrintEntry(isObject, b) + [];
    hide PrintEntry;
  }

  // ---------------------------------------------------------------- meaning of strings

  function HexValue(u: Unit): int {
    if u <= 0x39 then u - 0x30 else if u <= 0x46 then u - 0x41 + 10 else u - 0x61 + 10
  }

  function HexUnit(digits: Text): Unit
    requires |digits| == 4
  {
    var n := HexValue(digits[0]) * 4096 + HexValue(digits[1]) * 256 + HexValue(digits[2]) * 16 + HexValue(digits[3]);
    if 0 <= n < 0x10000 then n else 0
  }

  function EscapedUnit(u: Unit): Unit {
    if u == 0x62 then 0x08 else if u == 0x66 then 0x0c else if u == 0x6e then 0x0a
    else if u == 0x72 then 0x0d else if u == 0x74 then 0x09 else u
  }

  function ItemUnit(i: Item): Unit {
    match i
    case Plain(u) => u
    case Escape(u) => EscapedUnit(u)
    case Hex(digits) => if |digits| == 4 then HexUnit(digits) else 0
  }

  /** What a string stands for. */
  function StringOf(items: seq<Item>): Text {
    seq(|items|, k requires 0 <= k < |items| => ItemUnit(items[k]))
  }

  /** JSON.parse of the inside of a string token. */
  function Decode(s: Text): Text
    decreases |s|
  {
    if s == [] then []
    else if s[0] == BACKSLASH && |s| >= 2 then
      if s[1] == LETTER_U && |s| >= 6 then [HexUnit(s[2..6])] + Decode(s[6..])
      else [EscapedUnit(s[1])] + Decode(s[2..])
    else [s[0]] + Decode(s[1..])
  }

  lemma {:induction false} DecodePrinted(items: seq<Item>)
    requires WellFormedItems(items)
    ensures Decode(PrintItems(items)) == StringOf(items)
  {
    if items != [] {
      var rest := PrintItems(items[1..]);
      DecodePrinted(items[1..]);
      assert StringOf(items) == [ItemUnit(items[0])] + StringOf(items[1..]);
      var s := PrintItems(items);
      match items[0]
      case Plain(u) =>
        assert s[0] == u && s[1..] == rest;
      case Escape(u) =>
        assert s[0] == BACKSLASH && s[1] == u && s[2..] == rest;
      case Hex(digits) =>
        assert s[0] == BACKSLASH && s[1] == LETTER_U && s[2..6] == digits && s[6..] == rest;
    }
  }

  /** What a backslash and a character stand for. */
  lemma EscapesAre(c: char)
    requires c in "\"\\/bfnrt"
    ensures var escaped := EscapedUnit(c as int);
            escaped == if c == 'b' then 8 else if c == 'f' then 12 else if c == 'n' then 10
                       else if c == 'r' then 13 else if c == 't' then 9 else c as int
  {
  }

  /** Four hex digits, of either case, stand for the unit they write. */
  lemma HexIs(a: nat, b: nat, c: nat, d: nat, small: bool)
    requires a < 16 && b < 16 && c < 16 && d < 16
    ensures var digits := if small then "0123456789abcdef" else "0123456789ABCDEF";
            HexUnit([digits[a] as int, digits[b] as int, digits[c] as int, digits[d] as int]) ==
              ((a * 16 + b) * 16 + c) * 16 + d
  {
    HexDigitIs(a, small);
    HexDigitIs(b, small);
    HexDigitIs(c, small);
    HexDigitIs(d, small);
    hide HexValue;
  }

  lemma HexDigitIs(n: nat, small: bool)
    requires n < 16
    ensures var digits := if small then "0123456789abcdef" else "0123456789ABCDEF";
            digits[n] as int < 0x10000 && HexValue(digits[n] as int) == n
  {
  }

  // ---------------------------------------------------------------- what is read

  /** A reading keeps every value of a key, in order; a container past the third
      level is skipped. */
  datatype Reading =
    | Skipped
    | Scalar(lexeme: Text)
    | Words(text: Text)
    | Items(items: seq<Reading>)
    | Fields(fields: map<Text, seq<Reading>>)

  const DEEPEST := 2

  function Read(v: Value, depth: nat): Reading
    decreases v
  {
    match v
    case Primitive(lexeme) => Scalar(lexeme)
    case String(items) => Words(StringOf(items))
    case Container(isObject, entries, _) =>
      if depth > DEEPEST then Skipped
      else if isObject then Fields(FieldsOf(entries, depth + 1))
      else Items(ItemsOf(entries, depth + 1))
  }

  function ItemsOf(entries: seq<Entry>, depth: nat): seq<Reading>
    decreases entries
  {
    if entries == [] then [] else [Read(entries[0].value, depth)] + ItemsOf(entries[1..], depth)
  }

  /** The values of one key, in order. */
  function ValuesOf(entries: seq<Entry>, key: Text, depth: nat): seq<Reading>
    decreases entries, 0
  {
    if entries == [] then []
    else (if StringOf(entries[0].name) == key then [Read(entries[0].value, depth)] else [])
         + ValuesOf(entries[1..], key, depth)
  }

  function KeysOf(entries: seq<Entry>): set<Text> {
    set k | 0 <= k < |entries| :: StringOf(entries[k].name)
  }

  function FieldsOf(entries: seq<Entry>, depth: nat): map<Text, seq<Reading>>
    decreases entries, 1
  {
    map key | key in KeysOf(entries) :: ValuesOf(entries, key, depth)
  }

  // ---------------------------------------------------------------- every value, in order

  /** The places of the entries with this name, in order. */
  ghost predicate Places(entries: seq<Entry>, key: Text, at: seq<nat>) {
    && (forall i, j :: 0 <= i < j < |at| ==> at[i] < at[j])
    && (forall i :: 0 <= i < |at| ==> at[i] < |entries|)
    && (forall k :: k in at <==> 0 <= k < |entries| && StringOf(entries[k].name) == key)
  }

  /** Everything down to the third level is read: each element, and for each name every
      value it is given, in order; a container below that is skipped. */
  ghost predicate AllRead(r: Reading, v: Value, depth: nat)
    decreases v
  {
    match v
    case Primitive(lexeme) => r == Scalar(lexeme)
    case String(items) => r == Words(StringOf(items))
    case Container(isObject, entries, _) =>
      if depth > 2 then r == Skipped
      else if isObject then
        && r.Fields?
        && (forall key :: key in r.fields <==> exists k :: 0 <= k < |entries| && StringOf(entries[k].name) == key)
        && forall key :: key in r.fields ==>
             exists at: seq<nat> :: Places(entries, key, at) && |at| == |r.fields[key]|
               && forall i :: 0 <= i < |at| ==> AllRead(r.fields[key][i], entries[at[i]].value, depth + 1)
      else
        && r.Items? && |r.items| == |entries|
        && forall k :: 0 <= k < |entries| ==> AllRead(r.items[k], entries[k].value, depth + 1)
  }

  lemma {:induction false} ValuesPlaces(entries: seq<Entry>, key: Text, depth: nat) returns (at: seq<nat>)
    ensures Places(entries, key, at) && |at| == |ValuesOf(entries, key, depth)|
    ensures forall i :: 0 <= i < |at| ==> ValuesOf(entries, key, depth)[i] == Read(entries[at[i]].value, depth)
  {
    hide Read, StringOf, Places;
    if entries == [] {
      at := [];
      NoPlaces(key);
    } else {
      var (first, more) := (entries[0], entries[1..]);
      var rest := ValuesPlaces(more, key, depth);
      var moved := seq(|rest|, i requires 0 <= i < |rest| => rest[i] + 1);
      at := (if StringOf(first.name) == key then [0] else []) + moved;
      PlacesFirst(entries, key, rest, moved, at);
      assert ValuesOf(entries, key, depth) ==
        (if StringOf(first.name) == key then [Read(first.value, depth)] else []) + ValuesOf(more, key, depth);
      PlacesWithin(more, key, rest);
      hide ValuesOf;
    }
  }

  lemma NoPlaces(key: Text)
    ensures Places([], key, [])
  {
  }

  lemma PlacesWithin(entries: seq<Entry>, key: Text, at: seq<nat>)
    requires Places(entries, key, at)
    ensures forall i :: 0 <= i < |at| ==> at[i] < |entries|
  {
  }

  lemma PlacesFirst(entries: seq<Entry>, key: Text, rest: seq<nat>, moved: seq<nat>, at: seq<nat>)
    requires entries != [] && Places(entries[1..], key, rest)
    requires |moved| == |rest| && forall i :: 0 <= i < |rest| ==> moved[i] == rest[i] + 1
    requires at == (if StringOf(entries[0].name) == key then [0] else []) + moved
    ensures Places(entries, key, at)
  {
    hide StringOf;
    var more := entries[1..];
    forall k: nat ensures k in moved <==> 0 < k < |entries| && StringOf(entries[k].name) == key {
      if k > 0 {
        if k - 1 in rest {
          var i :| 0 <= i < |rest| && rest[i] == k - 1;
          assert moved[i] == k;
        }
        assert k < |entries| ==> more[k - 1] == entries[k];
      }
    }
  }

  lemma {:induction false} ItemsAre(entries: seq<Entry>, depth: nat)
    ensures |ItemsOf(entries, depth)| == |entries|
    ensures forall k :: 0 <= k < |entries| ==> ItemsOf(entries, depth)[k] == Read(entries[k].value, depth)
  {
    hide Read;
    if entries != [] { ItemsAre(entries[1..], depth); }
  }

  /** What is read is everything, with nothing dropped and nothing reordered. */
  lemma {:induction false} ReadAll(v: Value, depth: nat)
    ensures AllRead(Read(v, depth), v, depth)
    decreases v
  {
    if v.Container? && depth <= 2 {
      var entries := v.entries;
      forall k | 0 <= k < |entries| ensures AllRead(Read(entries[k].value, depth + 1), entries[k].value, depth + 1) {
        ReadAll(entries[k].value, depth + 1);
      }
      hide AllRead;
      if v.isObject {
        forall key | key in KeysOf(entries) { ValuesRead(entries, key, depth + 1); }
        ObjectRead(v, depth);
      } else {
        ItemsAre(entries, depth + 1);
        ArrayRead(v, depth);
      }
    }
  }

  /** Every value of a key is read, in order. */
  ghost predicate AllValues(values: seq<Reading>, entries: seq<Entry>, key: Text, depth: nat) {
    exists at: seq<nat> :: Places(entries, key, at) && |at| == |values|
      && forall i :: 0 <= i < |at| ==> AllRead(values[i], entries[at[i]].value, depth)
  }

  lemma ValuesRead(entries: seq<Entry>, key: Text, depth: nat)
    requires forall k :: 0 <= k < |entries| ==> AllRead(Read(entries[k].value, depth), entries[k].value, depth)
    ensures AllValues(ValuesOf(entries, key, depth), entries, key, depth)
  {
    hide Read, AllRead, ValuesOf, StringOf;
    var at := ValuesPlaces(entries, key, depth);
  }

  lemma ObjectRead(v: Value, depth: nat)
    requires v.Container? && v.isObject && depth <= 2
    requires forall key :: key in KeysOf(v.entries) ==>
               AllValues(ValuesOf(v.entries, key, depth + 1), v.entries, key, depth + 1)
    ensures AllRead(Read(v, depth), v, depth)
  {
    hide Places, StringOf, ValuesOf;
    var fields := FieldsOf(v.entries, depth + 1);
    assert Read(v, depth) == Fields(fields);
    assert forall key :: key in fields ==> fields[key] == ValuesOf(v.entries, key, depth + 1);
  }

  lemma ArrayRead(v: Value, depth: nat)
    requires v.Container? && !v.isObject && depth <= 2
    requires var items := ItemsOf(v.entries, depth + 1);
             && |items| == |v.entries|
             && forall k :: 0 <= k < |items| ==> AllRead(items[k], v.entries[k].value, depth + 1)
    ensures AllRead(Read(v, depth), v, depth)
  {
    hide Places, StringOf, ItemsOf;
  }

  // ---------------------------------------------------------------- ordinary parsing

  /** Ordinary parsing keeps the last value of a repeated key, at any depth. */
  datatype Parsed =
    | ParsedScalar(lexeme: Text)
    | ParsedWords(text: Text)
    | ParsedArray(items: seq<Parsed>)
    | ParsedObject(fields: map<Text, Parsed>)

  function Parse(v: Value): Parsed
    decreases v
  {
    match v
    case Primitive(lexeme) => ParsedScalar(lexeme)
    case String(items) => ParsedWords(StringOf(items))
    case Container(isObject, entries, _) =>
      if isObject then ParsedObject(ParsedFields(entries)) else ParsedArray(ParsedItems(entries))
  }

  function ParsedItems(entries: seq<Entry>): seq<Parsed>
    decreases entries
  {
    if entries == [] then [] else [Parse(entries[0].value)] + ParsedItems(entries[1..])
  }

  function ParsedFields(entries: seq<Entry>): map<Text, Parsed>
    decreases entries
  {
    if entries == [] then map[]
    else map[StringOf(entries[0].name) := Parse(entries[0].value)] + ParsedFields(entries[1..])
  }

  /** A reading with only the last value of each key is the ordinary value, as far
      as it was read. */
  ghost predicate Agrees(r: Reading, p: Parsed, depth: nat)
    decreases 4 - depth
  {
    match r
    case Skipped => depth > 2 && (p.ParsedArray? || p.ParsedObject?)
    case Scalar(lexeme) => p == ParsedScalar(lexeme)
    case Words(text) => p == ParsedWords(text)
    case Items(items) =>
      depth <= 2 && p.ParsedArray? && |p.items| == |items|
      && forall k :: 0 <= k < |items| ==> Agrees(items[k], p.items[k], depth + 1)
    case Fields(fields) =>
      depth <= 2 && p.ParsedObject? && p.fields.Keys == fields.Keys
      && forall key :: key in fields ==>
           fields[key] != [] && Agrees(fields[key][|fields[key]| - 1], p.fields[key], depth + 1)
  }

  lemma {:induction false} ReadAgrees(v: Value, depth: nat)
    requires depth <= DEEPEST + 1
    ensures Agrees(Read(v, depth), Parse(v), depth)
    decreases v
  {
    hide ValuesOf, ParsedFields, ItemsOf, ParsedItems;
    if v.Container? && depth <= DEEPEST {
      if v.isObject {
        ParsedKeys(v.entries);
        forall key | key in KeysOf(v.entries)
          ensures var values := ValuesOf(v.entries, key, depth + 1);
                  values != [] && Agrees(values[|values| - 1], ParsedFields(v.entries)[key], depth + 1)
        {
          FieldAgrees(v.entries, key, depth + 1);
        }
      } else {
        ItemsAgree(v.entries, depth + 1);
      }
    }
  }

  lemma {:induction false} ParsedKeys(entries: seq<Entry>)
    ensures ParsedFields(entries).Keys == KeysOf(entries)
  {
    if entries != [] {
      ParsedKeys(entries[1..]);
      KeysStep(entries);
    }
  }

  lemma {:induction false} ItemsAgree(entries: seq<Entry>, depth: nat)
    requires depth <= DEEPEST + 1
    ensures |ItemsOf(entries, depth)| == |ParsedItems(entries)|
    ensures forall k :: 0 <= k < |ItemsOf(entries, depth)| ==>
              Agrees(ItemsOf(entries, depth)[k], ParsedItems(entries)[k], depth)
    decreases entries
  {
    if entries != [] {
      ReadAgrees(entries[0].value, depth);
      ItemsAgree(entries[1..], depth);
    }
  }

  /** The last value of a key is the one ordinary parsing keeps. */
  lemma {:induction false} FieldAgrees(entries: seq<Entry>, key: Text, depth: nat)
    requires depth <= DEEPEST + 1
    ensures key in ParsedFields(entries) <==> ValuesOf(entries, key, depth) != []
    ensures key in ParsedFields(entries) ==>
              var values := ValuesOf(entries, key, depth);
              Agrees(values[|values| - 1], ParsedFields(entries)[key], depth)
    decreases entries
  {
    hide Read, Parse, Agrees;
    if entries != [] {
      ReadAgrees(entries[0].value, depth);
      FieldAgrees(entries[1..], key, depth);
    }
  }

  lemma KeysStep(entries: seq<Entry>)
    requires entries != []
    ensures KeysOf(entries) == {StringOf(entries[0].name)} + KeysOf(entries[1..])
  {
    forall key | key in KeysOf(entries) ensures key == StringOf(entries[0].name) || key in KeysOf(entries[1..]) {
      var k :| 0 <= k < |entries| && StringOf(entries[k].name) == key;
      if k > 0 { assert entries[1..][k - 1] == entries[k]; }
    }
    forall key | key in KeysOf(entries[1..]) ensures key in KeysOf(entries) {
      var k :| 0 <= k < |entries| - 1 && StringOf(entries[1..][k].name) == key;
      assert entries[k + 1] == entries[1..][k];
    }
  }
}
