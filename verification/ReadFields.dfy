/** The reader that keeps every value of a repeated JSON key.  One cursor moves over
    a text JSON.parse has already accepted; containers past the third level are
    skipped whole, without recursion. */
module ReadFields {
  import opened JsonText
  import opened Utf16

  /** The text holds `s` at `at`. */
  ghost predicate Holds(text: Text, at: nat, s: Text) {
    at + |s| <= |text| && text[at..at + |s|] == s
  }

  lemma HoldsJoin(text: Text, at: nat, a: Text, b: Text)
    ensures Holds(text, at, a + b) <==> Holds(text, at, a) && Holds(text, at + |a|, b)
  {
    if at + |a + b| <= |text| {
      var whole := text[at..at + |a + b|];
      assert whole[..|a|] == text[at..at + |a|];
      assert whole[|a|..] == text[at + |a|..at + |a + b|];
      assert (a + b)[..|a|] == a && (a + b)[|a|..] == b;
    }
  }

  lemma HoldsIs(text: Text, at: nat, s: Text)
    requires Holds(text, at, s)
    ensures at + |s| <= |text| && text[at..at + |s|] == s
  {
  }

  lemma HoldsUnit(text: Text, at: nat, u: Unit)
    ensures Holds(text, at, [u]) <==> at < |text| && text[at] == u
  {
    if at < |text| { assert text[at..at + 1] == [text[at]]; }
  }

  // ---------------------------------------------------------------- strings

  /** Past the closing quote of a string whose inside goes on at `i`; past the text
      when it is not closed. */
  function StringEndFrom(text: Text, i: nat): nat
    decreases if i < |text| then |text| - i else 0
  {
    if i >= |text| then |text| + 1
    else if text[i] == QUOTE then i + 1
    else StringEndFrom(text, i + if text[i] == BACKSLASH then 2 else 1)
  }

  lemma {:induction false} StringEndBeyond(text: Text, i: nat)
    ensures StringEndFrom(text, i) > i || StringEndFrom(text, i) > |text|
    decreases if i < |text| then |text| - i else 0
  {
    if i < |text| && text[i] != QUOTE { StringEndBeyond(text, i + if text[i] == BACKSLASH then 2 else 1); }
  }

  lemma StringEndStep(text: Text, i: nat)
    requires i < |text| && text[i] != QUOTE
    ensures StringEndFrom(text, i) == StringEndFrom(text, i + if text[i] == BACKSLASH then 2 else 1)
  {
  }

  lemma StringEndItem(text: Text, i: nat, item: Item)
    requires WellFormedItem(item) && Holds(text, i, PrintItem(item))
    ensures StringEndFrom(text, i) == StringEndFrom(text, i + |PrintItem(item)|)
  {
    var one := PrintItem(item);
    ItemUnits(item);
    hide StringEndFrom, PrintItem, WellFormedItem, Holds;
    HeldUnit(text, i, one, 0);
    StringEndStep(text, i);
    if item.Hex? {
      PlainUnit(text, i, one, 2);
      PlainUnit(text, i, one, 3);
      PlainUnit(text, i, one, 4);
      PlainUnit(text, i, one, 5);
    }
  }

  /** An item is one plain unit, or a backslash and units that are none: one, or the five
      of a hexadecimal escape. */
  lemma ItemUnits(item: Item)
    requires WellFormedItem(item)
    ensures var one := PrintItem(item);
            && one != [] && one[0] != QUOTE
            && (one[0] != BACKSLASH ==> |one| == 1 && !item.Hex?)
            && (one[0] == BACKSLASH ==> |one| == if item.Hex? then 6 else 2)
            && (item.Hex? ==> one[0] == BACKSLASH && forall k :: 2 <= k < 6 ==> one[k] != QUOTE && one[k] != BACKSLASH)
  {
    if item.Hex? {
      var one := PrintItem(item);
      assert one[2] == item.digits[0] && one[3] == item.digits[1];
      assert one[4] == item.digits[2] && one[5] == item.digits[3];
      assert IsHexDigit(one[2]) && IsHexDigit(one[3]) && IsHexDigit(one[4]) && IsHexDigit(one[5]);
    }
  }

  lemma HeldUnit(text: Text, i: nat, s: Text, k: nat)
    requires Holds(text, i, s) && k < |s|
    ensures i + k < |text| && text[i + k] == s[k]
  {
    assert text[i..i + |s|][k] == text[i + k];
  }

  lemma PlainUnit(text: Text, i: nat, s: Text, k: nat)
    requires Holds(text, i, s) && k < |s| && s[k] != QUOTE && s[k] != BACKSLASH
    ensures StringEndFrom(text, i + k) == StringEndFrom(text, i + k + 1)
  {
    hide StringEndFrom, Holds;
    HeldUnit(text, i, s, k);
    StringEndStep(text, i + k);
  }

  lemma QuoteEnds(text: Text, i: nat)
    requires Holds(text, i, [QUOTE])
    ensures StringEndFrom(text, i) == i + 1
  {
    HoldsUnit(text, i, QUOTE);
  }

  lemma ItemsHead(items: seq<Item>)
    requires WellFormedItems(items) && items != []
    ensures PrintItems(items) == PrintItem(items[0]) + PrintItems(items[1..])
    ensures WellFormedItem(items[0]) && WellFormedItems(items[1..])
  {
    hide PrintItem, WellFormedItem;
  }

  lemma {:induction false} StringEndPrinted(text: Text, i: nat, items: seq<Item>)
    requires WellFormedItems(items)
    requires Holds(text, i, PrintItems(items)) && Holds(text, i + |PrintItems(items)|, [QUOTE])
    ensures StringEndFrom(text, i) == i + |PrintItems(items)| + 1
    decreases |items|
  {
    hide StringEndFrom, Holds, PrintItem, WellFormedItem, WellFormedItems;
    if items == [] {
      QuoteEnds(text, i);
    } else {
      hide PrintItems;
      var rest := items[1..];
      ItemsHead(items);
      var one, more := PrintItem(items[0]), PrintItems(rest);
      var next: nat := i + |one|;
      assert i + |PrintItems(items)| == next + |more|;
      HoldsJoin(text, i, one, more);
      StringEndItem(text, i, items[0]);
      StringEndPrinted(text, next, rest);
    }
  }

  // ---------------------------------------------------------------- skipping

  /** Where the skip ends that goes on at `at` with `depth` containers open; past the
      text when they are not closed. */
  function SkipFrom(text: Text, at: nat, depth: nat): nat
    decreases if at < |text| then |text| - at else 0
  {
    if depth == 0 then at
    else if at >= |text| then |text| + 1
    else if text[at] == QUOTE then SkipString(text, at, depth)
    else if IsOpen(text[at]) then SkipFrom(text, at + 1, depth + 1)
    else if IsClose(text[at]) then SkipFrom(text, at + 1, depth - 1)
    else SkipFrom(text, at + 1, depth)
  }

  function SkipString(text: Text, at: nat, depth: nat): nat
    requires at < |text|
    decreases |text| - at, 0
  {
    StringEndBeyond(text, at + 1);
    SkipFrom(text, StringEndFrom(text, at + 1), depth)
  }

  lemma {:induction false} SkipNeutral(text: Text, at: nat, s: Text, depth: nat)
    requires depth > 0 && Holds(text, at, s) && forall k :: 0 <= k < |s| ==> IsNeutral(s[k])
    ensures SkipFrom(text, at, depth) == SkipFrom(text, at + |s|, depth)
    decreases |s|
  {
    if s != [] {
      assert text[at] == s[0];
      assert s == [s[0]] + s[1..];
      HoldsJoin(text, at, [s[0]], s[1..]);
      SkipNeutral(text, at + 1, s[1..], depth);
    }
  }

  lemma SkipPrintedString(text: Text, at: nat, items: seq<Item>, depth: nat)
    requires depth > 0 && WellFormedItems(items) && Holds(text, at, PrintString(items))
    ensures SkipFrom(text, at, depth) == SkipFrom(text, at + |PrintString(items)|, depth)
  {
    StringHeld(text, at, items);
    StringEndPrinted(text, at + 1, items);
  }

  lemma StringHeld(text: Text, at: nat, items: seq<Item>)
    requires Holds(text, at, PrintString(items))
    ensures at < |text| && text[at] == QUOTE
    ensures Holds(text, at + 1, PrintItems(items)) && Holds(text, at + 1 + |PrintItems(items)|, [QUOTE])
  {
    var inside := PrintItems(items);
    assert PrintString(items) == [QUOTE] + inside + [QUOTE];
    hide Holds, PrintItems, PrintString;
    HoldsJoin(text, at, [QUOTE] + inside, [QUOTE]);
    HoldsJoin(text, at, [QUOTE], inside);
    HoldsUnit(text, at, QUOTE);
  }

  lemma SkipOpen(text: Text, at: nat, depth: nat)
    requires depth > 0 && at < |text| && IsOpen(text[at])
    ensures SkipFrom(text, at, depth) == SkipFrom(text, at + 1, depth + 1)
  {
  }

  lemma SkipClose(text: Text, at: nat, depth: nat)
    requires depth > 0 && at < |text| && IsClose(text[at])
    ensures SkipFrom(text, at, depth) == SkipFrom(text, at + 1, depth - 1)
  {
  }

  lemma SkipClosed(text: Text, at: nat)
    ensures SkipFrom(text, at, 0) == at
  {
  }

  lemma SkipUnclosed(text: Text, at: nat, depth: nat)
    requires depth > 0
    ensures at >= |text| ==> SkipFrom(text, at, depth) == |text| + 1
  {
  }

  /** One turn of a skip that closes within the text. */
  lemma SkipStep(text: Text, at: nat, depth: nat)
    requires depth > 0 && SkipFrom(text, at, depth) <= |text|
    ensures at < |text|
    ensures text[at] == QUOTE ==>
              && at < StringEndFrom(text, at + 1) <= |text|
              && SkipFrom(text, at, depth) == SkipFrom(text, StringEndFrom(text, at + 1), depth)
    ensures text[at] != QUOTE ==>
              SkipFrom(text, at, depth) ==
                SkipFrom(text, at + 1,
                         if IsOpen(text[at]) then depth + 1 else if IsClose(text[at]) then depth - 1 else depth)
  {
    hide StringEndFrom;
    if at < |text| && text[at] == QUOTE {
      StringEndBeyond(text, at + 1);
      SkipUnclosed(text, StringEndFrom(text, at + 1), depth);
    }
  }

  /** A value inside a container is passed over whole. */
  lemma {:induction false} SkipValue(text: Text, at: nat, v: Value, depth: nat)
    requires depth > 0 && WellFormed(v) && Holds(text, at, Print(v))
    ensures SkipFrom(text, at, depth) == SkipFrom(text, at + |Print(v)|, depth)
    decreases v, 1
  {
    hide SkipFrom, Holds, PrintEntries, PrintItems, WellFormedEntry, WellFormedItem;
    match v
    case Primitive(lexeme) => SkipNeutral(text, at, lexeme, depth);
    case String(items) => SkipPrintedString(text, at, items, depth);
    case Container(isObject, entries, pad) =>
      ContainerHeld(text, at, v);
      SkipOpen(text, at, depth);
      SkipInside(text, at + 1, v, depth + 1);
  }

  /** The inside and the closing bracket of a container. */
  lemma {:induction false} SkipInside(text: Text, at: nat, v: Value, depth: nat)
    requires depth > 0 && v.Container? && WellFormed(v)
    requires Holds(text, at, Inside(v)) && Holds(text, at + |Inside(v)|, [CloseOf(v.isObject)])
    ensures SkipFrom(text, at, depth) == SkipFrom(text, at + |Inside(v)| + 1, depth - 1)
    decreases v, 0
  {
    hide SkipFrom, Holds;
    if v.entries == [] {
      SkipNeutral(text, at, v.pad, depth);
    } else {
      SkipEntries(text, at, v.isObject, v.entries, depth);
    }
    HoldsUnit(text, at + |Inside(v)|, CloseOf(v.isObject));
    SkipClose(text, at + |Inside(v)|, depth);
  }

  function Inside(v: Value): Text
    requires v.Container?
  {
    if v.entries == [] then v.pad else PrintEntries(v.isObject, v.entries)
  }

  lemma ContainerHeld(text: Text, at: nat, v: Value)
    requires v.Container? && Holds(text, at, Print(v))
    ensures at < |text| && text[at] == OpenOf(v.isObject)
    ensures Holds(text, at + 1, Inside(v)) && Holds(text, at + 1 + |Inside(v)|, [CloseOf(v.isObject)])
    ensures |Print(v)| == |Inside(v)| + 2
  {
    HoldsJoin(text, at, [OpenOf(v.isObject)] + Inside(v), [CloseOf(v.isObject)]);
    HoldsJoin(text, at, [OpenOf(v.isObject)], Inside(v));
    HoldsUnit(text, at, OpenOf(v.isObject));
  }

  lemma {:induction false} SkipEntries(text: Text, at: nat, isObject: bool, entries: seq<Entry>, depth: nat)
    requires depth > 0 && (forall k :: 0 <= k < |entries| ==> WellFormedEntry(entries[k]))
    requires Holds(text, at, PrintEntries(isObject, entries))
    ensures SkipFrom(text, at, depth) == SkipFrom(text, at + |PrintEntries(isObject, entries)|, depth)
    decreases entries
  {
    hide SkipFrom, Holds, PrintEntry;
    if entries != [] {
      var one := PrintEntry(isObject, entries[0]);
      var more := if |entries| == 1 then [] else [COMMA] + PrintEntries(isObject, entries[1..]);
      HoldsJoin(text, at, one, more);
      SkipEntry(text, at, isObject, entries[0], depth);
      if |entries| > 1 {
        HoldsJoin(text, at + |one|, [COMMA], PrintEntries(isObject, entries[1..]));
        SkipNeutral(text, at + |one|, [COMMA], depth);
        SkipEntries(text, at + |one| + 1, isObject, entries[1..], depth);
      }
    }
  }

  lemma {:induction false} SkipEntry(text: Text, at: nat, isObject: bool, e: Entry, depth: nat)
    requires depth > 0 && WellFormedEntry(e) && Holds(text, at, PrintEntry(isObject, e))
    ensures SkipFrom(text, at, depth) == SkipFrom(text, at + |PrintEntry(isObject, e)|, depth)
    decreases e
  {
    hide SkipFrom, Holds, Print, PrintString;
    var name := PrintName(isObject, e);
    EntryHeld(text, at, isObject, e);
    if isObject {
      SkipNeutral(text, at, e.before, depth);
      var i := at + |e.before|;
      SkipPrintedString(text, i, e.name, depth);
      i := i + |PrintString(e.name)|;
      SkipNeutral(text, i, e.between, depth);
      SkipNeutral(text, i + |e.between|, [COLON], depth);
    } else {
      SkipNeutral(text, at, e.before, depth);
    }
    var i := at + |name|;
    SkipNeutral(text, i, e.lead, depth);
    SkipValue(text, i + |e.lead|, e.value, depth);
    SkipNeutral(text, i + |e.lead| + |Print(e.value)|, e.after, depth);
  }

  lemma EntryHeld(text: Text, at: nat, isObject: bool, e: Entry)
    requires Holds(text, at, PrintEntry(isObject, e))
    ensures var i := at + |PrintName(isObject, e)|;
            && Holds(text, i, e.lead) && Holds(text, i + |e.lead|, Print(e.value))
            && Holds(text, i + |e.lead| + |Print(e.value)|, e.after)
    ensures Holds(text, at, e.before)
    ensures isObject ==>
              var i := at + |e.before|;
              && Holds(text, i, PrintString(e.name))
              && Holds(text, i + |PrintString(e.name)|, e.between)
              && Holds(text, i + |PrintString(e.name)| + |e.between|, [COLON])
  {
    hide Print, Holds;
    var name := PrintName(isObject, e);
    HoldsJoin(text, at, name + e.lead + Print(e.value), e.after);
    HoldsJoin(text, at, name + e.lead, Print(e.value));
    HoldsJoin(text, at, name, e.lead);
    if isObject {
      var s := PrintString(e.name);
      HoldsJoin(text, at, e.before + s + e.between, [COLON]);
      HoldsJoin(text, at, e.before + s, e.between);
      HoldsJoin(text, at, e.before, s);
    }
  }

  // ---------------------------------------------------------------- entries

  /** The whitespace an entry starts with, and what is after it. */
  function EntryLead(isObject: bool, e: Entry): Text {
    if isObject then e.before else e.before + e.lead
  }

  function EntryToken(isObject: bool, e: Entry): Text {
    if isObject then PrintString(e.name) + e.between + [COLON] + e.lead + Print(e.value) + e.after
    else Print(e.value) + e.after
  }

  lemma EntryParts(isObject: bool, e: Entry)
    ensures PrintEntry(isObject, e) == EntryLead(isObject, e) + EntryToken(isObject, e)
    ensures WellFormedEntry(e) ==> Spaces(EntryLead(isObject, e))
    ensures WellFormedEntry(e) ==>
      EntryToken(isObject, e) != [] && !IsSpace(EntryToken(isObject, e)[0]) && !IsClose(EntryToken(isObject, e)[0])
  {
    hide Print;
    if isObject {
      var s := PrintString(e.name);
      assert e.before + s + e.between + [COLON] + e.lead + Print(e.value) + e.after
          == e.before + (s + e.between + [COLON] + e.lead + Print(e.value) + e.after);
    } else {
      assert e.before + e.lead + Print(e.value) + e.after == (e.before + e.lead) + (Print(e.value) + e.after);
    }
  }

  lemma {:induction false} ValuesAppend(es: seq<Entry>, e: Entry, key: Text, depth: nat)
    ensures ValuesOf(es + [e], key, depth) ==
              ValuesOf(es, key, depth) + if StringOf(e.name) == key then [Read(e.value, depth)] else []
  {
    hide Read, StringOf;
    if es == [] {
      assert es + [e] == [e];
    } else {
      assert (es + [e])[1..] == es[1..] + [e];
      ValuesAppend(es[1..], e, key, depth);
    }
  }

  lemma {:induction false} ItemsAppend(es: seq<Entry>, e: Entry, depth: nat)
    ensures ItemsOf(es + [e], depth) == ItemsOf(es, depth) + [Read(e.value, depth)]
  {
    if es == [] {
      assert es + [e] == [e];
    } else {
      assert (es + [e])[1..] == es[1..] + [e];
      ItemsAppend(es[1..], e, depth);
    }
  }

  /** A value joins the others of its key. */
  lemma FieldsAppend(es: seq<Entry>, e: Entry, depth: nat)
    ensures var fields := FieldsOf(es, depth);
            var key, r := StringOf(e.name), Read(e.value, depth);
            FieldsOf(es + [e], depth) == fields[key := (if key in fields then fields[key] else []) + [r]]
  {
    hide Read, StringOf, ValuesOf;
    var fields, all := FieldsOf(es, depth), es + [e];
    var key, r := StringOf(e.name), Read(e.value, depth);
    var sum := fields[key := (if key in fields then fields[key] else []) + [r]];
    KeysAppend(es, e);
    forall k | k in KeysOf(all) ensures FieldsOf(all, depth)[k] == sum[k] {
      ValuesAppend(es, e, k, depth);
      if k !in KeysOf(es) { NoValues(es, k, depth); }
    }
  }

  lemma KeysAppend(es: seq<Entry>, e: Entry)
    ensures KeysOf(es + [e]) == KeysOf(es) + {StringOf(e.name)}
  {
    hide StringOf;
    var all := es + [e];
    forall k | k in KeysOf(es) ensures k in KeysOf(all) {
      var i :| 0 <= i < |es| && StringOf(es[i].name) == k;
      assert all[i] == es[i];
    }
    assert all[|es|] == e;
  }

  lemma {:induction false} NoValues(es: seq<Entry>, key: Text, depth: nat)
    requires key !in KeysOf(es)
    ensures ValuesOf(es, key, depth) == []
  {
    if es != [] {
      KeysStep(es);
      NoValues(es[1..], key, depth);
    }
  }

  /** The text is at an end or a character that ends a number or literal. */
  ghost predicate Ends(text: Text, at: nat) {
    at == |text| || (at < |text| && IsDelimiter(text[at]))
  }

  // ---------------------------------------------------------------- the reader

  class Reader {
    const text: Text
    var at: nat

    constructor (text: Text)
      ensures this.text == text && at == 0
    {
      this.text := text;
      at := 0;
    }

    method Space(ghost lead: Text)
      requires Holds(text, at, lead) && Spaces(lead)
      requires at + |lead| == |text| || !IsSpace(text[at + |lead|])
      modifies this`at
      ensures at == old(at) + |lead|
    {
      assert forall k :: 0 <= k < |lead| ==> text[at + k] == lead[k] && IsSpace(text[at + k]);
      while at < |text| && IsSpace(text[at])
        invariant old(at) <= at <= old(at) + |lead| <= |text|
      {
        at := at + 1;
      }
    }

    method StringEnd(from: nat) returns (end: nat)
      requires StringEndFrom(text, from + 1) <= |text|
      ensures end == StringEndFrom(text, from + 1)
    {
      var index := from + 1;
      while text[index] != QUOTE
        invariant StringEndFrom(text, index) == StringEndFrom(text, from + 1)
        invariant index < |text|
        decreases |text| - index
      {
        index := index + if text[index] == BACKSLASH then 2 else 1;
      }
      end := index + 1;
    }

    method PrimitiveEnd(from: nat, ghost lexeme: Text) returns (end: nat)
      requires Holds(text, from, lexeme) && Ends(text, from + |lexeme|)
      requires forall k :: 0 <= k < |lexeme| ==> !IsDelimiter(lexeme[k])
      ensures end == from + |lexeme|
    {
      assert forall k :: 0 <= k < |lexeme| ==> text[from + k] == lexeme[k] && !IsDelimiter(text[from + k]);
      end := from;
      while end < |text| && !IsDelimiter(text[end])
        invariant from <= end <= from + |lexeme|
      {
        end := end + 1;
      }
    }

    /** Skips a container exactly to its matching bracket. */
    method SkipContainer(ghost v: Value)
      requires v.Container? && WellFormed(v) && Holds(text, at, Print(v))
      modifies this`at
      ensures at == old(at) + |Print(v)|
    {
      hide Print, WellFormed, Holds, SkipFrom, StringEndFrom, Inside;
      ghost var target := at + |Print(v)|;
      ContainerHeld(text, at, v);
      SkipInside(text, at + 1, v, 1);
      SkipClosed(text, target);
      HoldsUnit(text, target - 1, CloseOf(v.isObject));
      var depth: nat := 0;
      var first := true;
      while first || depth > 0
        invariant first ==> at == old(at) && depth == 0
        invariant !first ==> SkipFrom(text, at, depth) == target
        decreases first, |text| - at
      {
        if !first { SkipStep(text, at, depth); }
        var c := text[at];
        if c == QUOTE {
          at := StringEnd(at);
        } else {
          if IsOpen(c) { depth := depth + 1; } else if IsClose(c) { depth := depth - 1; }
          at := at + 1;
        }
        first := false;
      }
      SkipClosed(text, at);
    }

    /** Reads a string token. */
    method ReadString(ghost items: seq<Item>) returns (s: Text)
      requires WellFormedItems(items) && Holds(text, at, PrintString(items))
      modifies this`at
      ensures at == old(at) + |PrintString(items)|
      ensures s == StringOf(items)
    {
      hide StringEndFrom, StringOf, Decode, Holds, WellFormedItems, PrintItems;
      StringHeld(text, at, items);
      StringEndPrinted(text, at + 1, items);
      DecodePrinted(items);
      HoldsIs(text, at + 1, PrintItems(items));
      HoldsUnit(text, at + 1 + |PrintItems(items)|, QUOTE);
      assert text[at + 1..at + 1 + |PrintItems(items)|] == PrintItems(items);
      var end := StringEnd(at);
      s := Decode(text[at + 1..end - 1]);
      at := end;
    }

    /** Reads one value after any whitespace, and nothing past it. */
    method ReadValue(depth: nat, ghost lead: Text, ghost v: Value) returns (r: Reading)
      requires Spaces(lead) && Holds(text, at, lead)
      requires WellFormed(v) && Holds(text, at + |lead|, Print(v)) && Ends(text, at + |lead| + |Print(v)|)
      modifies this`at
      ensures at == old(at) + |lead| + |Print(v)|
      ensures r == Read(v, depth)
      decreases v, 1
    {
      ValueIs(v, depth);
      hide Holds, Print, Read, WellFormed, WellFormedItems, WellFormedEntry, PrintItems, PrintEntries, PrintString;
      hide FieldsOf, ItemsOf, StringOf, IsSpace, Spaces, Inside, Ends;
      FirstUnit(text, at + |lead|, v);
      Space(lead);
      var c := text[at];
      if IsOpen(c) {
        if depth > DEEPEST {
          SkipContainer(v);
          return Skipped;
        }
        ContainerHeld(text, at, v);
        at := at + 1;
        r := ReadContainer(c == OpenOf(true), depth, v);
        return;
      }
      if c == QUOTE {
        var s := ReadString(v.items);
        return Words(s);
      }
      var start := at;
      HoldsIs(text, at, v.lexeme);
      at := PrimitiveEnd(at, v.lexeme);
      return Scalar(text[start..at]);
    }

    /** Reads a member's name and the colon after it. */
    method ReadName(ghost e: Entry) returns (key: Text)
      requires WellFormedItems(e.name) && Spaces(e.between)
      requires Holds(text, at, PrintString(e.name)) && Holds(text, at + |PrintString(e.name)|, e.between)
      requires var colon := at + |PrintString(e.name)| + |e.between|; colon < |text| && text[colon] == COLON
      modifies this`at
      ensures at == old(at) + |PrintString(e.name)| + |e.between| + 1
      ensures key == StringOf(e.name)
    {
      hide Holds, PrintString, StringOf;
      key := ReadString(e.name);
      Space(e.between);
      at := at + 1;
    }

    /** Reads an entry whose first `sp` units of whitespace are still ahead: its
        name, if it has one, and its value; and stops past the whitespace after it. */
    method ReadEntry(isObject: bool, depth: nat, ghost sp: Text, ghost e: Entry) returns (key: Text, r: Reading)
      requires WellFormedEntry(e) && Spaces(sp) && Holds(text, at, sp)
      requires Holds(text, at + |sp|, EntryToken(isObject, e)) && EntryEnds(text, at + |sp| + |EntryToken(isObject, e)|)
      modifies this`at
      ensures at == old(at) + |sp| + |EntryToken(isObject, e)|
      ensures isObject ==> key == StringOf(e.name)
      ensures r == Read(e.value, depth)
      decreases e
    {
      hide Holds, Print, WellFormed, StringOf, Read, PrintString;
      hide EntryToken, Spaces, WellFormedItems, Ends, IsSpace, IsDelimiter;
      TokenHeld(text, at + |sp|, isObject, e);
      Space(sp);
      if isObject {
        key := ReadName(e);
        r := ReadValue(depth, e.lead, e.value);
      } else {
        NoSpaces(text, at);
        key := [];
        r := ReadValue(depth, [], e.value);
      }
      Space(e.after);
    }

    /** Reads a container, the cursor past its opening bracket. */
    method ReadContainer(isObject: bool, depth: nat, ghost v: Value) returns (r: Reading)
      requires v.Container? && v.isObject == isObject && WellFormed(v) && depth <= DEEPEST
      requires Holds(text, at, Inside(v)) && Holds(text, at + |Inside(v)|, [CloseOf(isObject)])
      modifies this`at
      ensures at == old(at) + |Inside(v)| + 1
      ensures r == Read(v, depth)
      decreases v, 0
    {
      hide Holds, FieldsOf, ItemsOf, TokenAt, Spaces, EntryLead;
      ghost var end := at + |Inside(v)|;
      HoldsUnit(text, end, CloseOf(isObject));
      FirstEntry(text, at, v, end);
      Space(if v.entries == [] then v.pad else EntryLead(isObject, v.entries[0]));
      EmptyReadings(depth + 1);
      if text[at] == CloseOf(isObject) {
        at := at + 1;
        return if isObject then Fields(map[]) else Items([]);
      }
      r := ReadEntries(isObject, depth + 1, v.entries, end);
    }

    /** Reads the entries of a container, the cursor at the first. */
    method ReadEntries(isObject: bool, depth: nat, ghost entries: seq<Entry>, ghost end: nat) returns (r: Reading)
      requires entries != [] && (forall k :: 0 <= k < |entries| ==> WellFormedEntry(entries[k]))
      requires at <= |text| && TokenAt(text, at, isObject, entries, 0, end)
      modifies this`at
      ensures at == end + 1
      ensures r == if isObject then Fields(FieldsOf(entries, depth)) else Items(ItemsOf(entries, depth))
      decreases entries
    {
      hide Holds, WellFormedEntry, FieldsOf, ItemsOf, TokenAt, Spaces;
      hide EntryLead, EntryToken, Read, StringOf, EntriesAt, IsSpace, IsDelimiter;
      var fields: map<Text, seq<Reading>>, items: seq<Reading> := map[], [];
      ghost var i: nat, sp: Text := 0, [];
      NoSpaces(text, at);
      EmptyReadings(depth);
      while true
        invariant i < |entries| && Spaces(sp) && Holds(text, at, sp)
        invariant TokenAt(text, at + |sp|, isObject, entries, i, end)
        invariant isObject ==> fields == FieldsOf(entries[..i], depth)
        invariant !isObject ==> items == ItemsOf(entries[..i], depth)
        decreases |entries| - i
      {
        TokenParts(text, at + |sp|, isObject, entries, i, end);
        var key, item := ReadEntry(isObject, depth, sp, entries[i]);
        ReadingsGrow(entries, i, depth);
        if isObject {
          fields := fields[key := (if key in fields then fields[key] else []) + [item]];
        } else {
          items := items + [item];
        }
        if text[at] != COMMA {
          assert entries[..i + 1] == entries;
          at := at + 1;
          return if isObject then Fields(fields) else Items(items);
        }
        at := at + 1;
        i := i + 1;
        sp := EntryLead(isObject, entries[i]);
        EntryParts(isObject, entries[i]);
        EntryAt(text, at, isObject, entries, i, end);
      }
    }
  }

  /** The entries from the `i`-th on, up to the closing bracket at `end`. */
  ghost predicate EntriesAt(text: Text, at: nat, isObject: bool, entries: seq<Entry>, i: nat, end: nat)
    requires i <= |entries|
  {
    && Holds(text, at, PrintEntries(isObject, entries[i..])) && at + |PrintEntries(isObject, entries[i..])| == end
    && end < |text| && text[end] == CloseOf(isObject)
  }

  /** The `i`-th entry past its leading whitespace, and what follows it. */
  ghost predicate TokenAt(text: Text, at: nat, isObject: bool, entries: seq<Entry>, i: nat, end: nat)
    requires i < |entries|
  {
    var next := at + |EntryToken(isObject, entries[i])|;
    && Holds(text, at, EntryToken(isObject, entries[i]))
    && next <= end < |text| && text[end] == CloseOf(isObject)
    && (if i + 1 == |entries| then next == end
        else text[next] == COMMA && EntriesAt(text, next + 1, isObject, entries, i + 1, end))
  }

  lemma EntryAt(text: Text, at: nat, isObject: bool, entries: seq<Entry>, i: nat, end: nat)
    requires i < |entries| && EntriesAt(text, at, isObject, entries, i, end)
    ensures Holds(text, at, EntryLead(isObject, entries[i]))
    ensures TokenAt(text, at + |EntryLead(isObject, entries[i])|, isObject, entries, i, end)
  {
    hide Holds, PrintEntry, EntryToken, EntryLead;
    var rest := entries[i..];
    var e := entries[i];
    var lead, token := EntryLead(isObject, e), EntryToken(isObject, e);
    EntryParts(isObject, e);
    var more := if |rest| == 1 then [] else [COMMA] + PrintEntries(isObject, rest[1..]);
    HoldsJoin(text, at, lead + token, more);
    HoldsJoin(text, at, lead, token);
    if |rest| > 1 {
      assert rest[1..] == entries[i + 1..];
      var next := at + |lead + token|;
      HoldsJoin(text, next, [COMMA], PrintEntries(isObject, rest[1..]));
      HoldsUnit(text, next, COMMA);
    }
  }

  lemma TokenParts(text: Text, at: nat, isObject: bool, entries: seq<Entry>, i: nat, end: nat)
    requires i < |entries| && TokenAt(text, at, isObject, entries, i, end)
    ensures var next := at + |EntryToken(isObject, entries[i])|;
            && Holds(text, at, EntryToken(isObject, entries[i])) && EntryEnds(text, next)
            && (text[next] == COMMA <==> i + 1 < |entries|)
            && (i + 1 < |entries| ==> EntriesAt(text, next + 1, isObject, entries, i + 1, end))
            && (i + 1 == |entries| ==> next == end)
  {
    hide Holds, EntryToken, EntriesAt;
  }

  /** Past its whitespace a container closes at once exactly when it has no entry. */
  lemma FirstEntry(text: Text, at: nat, v: Value, end: nat)
    requires v.Container? && WellFormed(v)
    requires Holds(text, at, Inside(v)) && end == at + |Inside(v)| && end < |text| && text[end] == CloseOf(v.isObject)
    ensures var lead := if v.entries == [] then v.pad else EntryLead(v.isObject, v.entries[0]);
            var next := at + |lead|;
            && Holds(text, at, lead) && Spaces(lead) && next < |text| && !IsSpace(text[next])
            && (text[next] == CloseOf(v.isObject) <==> v.entries == [])
            && (if v.entries == [] then next == end else TokenAt(text, next, v.isObject, v.entries, 0, end))
  {
    hide EntryToken, EntryLead, WellFormedEntry, Holds, PrintEntries, TokenAt, EntriesAt;
    if v.entries != [] {
      var e := v.entries[0];
      AllEntries(text, at, v.isObject, v.entries, end);
      EntryAt(text, at, v.isObject, v.entries, 0, end);
      EntryParts(v.isObject, e);
      assert WellFormedEntry(e);
      var next := at + |EntryLead(v.isObject, e)|;
      TokenFirst(text, next, v.isObject, v.entries, end);
    }
  }

  lemma AllEntries(text: Text, at: nat, isObject: bool, entries: seq<Entry>, end: nat)
    requires Holds(text, at, PrintEntries(isObject, entries)) && at + |PrintEntries(isObject, entries)| == end
    requires end < |text| && text[end] == CloseOf(isObject)
    ensures EntriesAt(text, at, isObject, entries, 0, end)
  {
    hide Holds, PrintEntries;
    assert entries[0..] == entries;
  }

  lemma HeldFirst(text: Text, at: nat, s: Text)
    requires Holds(text, at, s) && s != []
    ensures at < |text| && text[at] == s[0]
  {
    assert text[at..at + |s|][0] == text[at];
  }

  lemma TokenFirst(text: Text, at: nat, isObject: bool, entries: seq<Entry>, end: nat)
    requires entries != [] && TokenAt(text, at, isObject, entries, 0, end) && EntryToken(isObject, entries[0]) != []
    ensures at < |text| && text[at] == EntryToken(isObject, entries[0])[0]
  {
    hide Holds, EntryToken, EntriesAt;
    HeldFirst(text, at, EntryToken(isObject, entries[0]));
  }

  lemma EmptyReadings(depth: nat)
    ensures FieldsOf([], depth) == map[] && ItemsOf([], depth) == []
  {
  }

  lemma ReadingsGrow(entries: seq<Entry>, i: nat, depth: nat)
    requires i < |entries|
    ensures ItemsOf(entries[..i + 1], depth) == ItemsOf(entries[..i], depth) + [Read(entries[i].value, depth)]
    ensures var fields := FieldsOf(entries[..i], depth);
            var key, r := StringOf(entries[i].name), Read(entries[i].value, depth);
            FieldsOf(entries[..i + 1], depth) == fields[key := (if key in fields then fields[key] else []) + [r]]
  {
    hide FieldsOf, ItemsOf, Read, StringOf;
    assert entries[..i + 1] == entries[..i] + [entries[i]];
    ItemsAppend(entries[..i], entries[i], depth);
    FieldsAppend(entries[..i], entries[i], depth);
  }

  lemma NoSpaces(text: Text, at: nat)
    requires at <= |text|
    ensures Holds(text, at, []) && Spaces([])
  {
  }

  /** An entry is followed by a comma or a closing bracket. */
  ghost predicate EntryEnds(text: Text, at: nat) {
    at < |text| && IsDelimiter(text[at]) && !IsSpace(text[at])
  }

  /** What each kind of value is printed as, read as and made of. */
  lemma ValueIs(v: Value, depth: nat)
    ensures v.Primitive? ==>
      && Print(v) == v.lexeme && Read(v, depth) == Scalar(v.lexeme)
      && (WellFormed(v) ==> forall k :: 0 <= k < |v.lexeme| ==> !IsDelimiter(v.lexeme[k]))
    ensures v.String? ==>
      && Print(v) == PrintString(v.items) && Read(v, depth) == Words(StringOf(v.items))
      && (WellFormed(v) ==> WellFormedItems(v.items))
    ensures v.Container? ==> |Print(v)| == |Inside(v)| + 2 && (depth > DEEPEST ==> Read(v, depth) == Skipped)
  {
    hide PrintString, PrintItems, PrintEntries, StringOf, FieldsOf, ItemsOf, WellFormedItems, WellFormedEntry;
  }

  /** How a value's first character tells its kind. */
  lemma FirstUnit(text: Text, at: nat, v: Value)
    requires WellFormed(v) && Holds(text, at, Print(v))
    ensures at < |text| && !IsSpace(text[at])
    ensures IsOpen(text[at]) <==> v.Container?
    ensures v.Container? ==> (text[at] == OpenOf(true) <==> v.isObject)
    ensures text[at] == QUOTE <==> v.String?
    ensures v.Primitive? ==> text[at..at + |Print(v)|] == v.lexeme
  {
    assert text[at] == Print(v)[0];
  }

  lemma TokenHeld(text: Text, at: nat, isObject: bool, e: Entry)
    requires WellFormedEntry(e) && Holds(text, at, EntryToken(isObject, e))
    requires EntryEnds(text, at + |EntryToken(isObject, e)|)
    ensures at < |text| && !IsSpace(text[at]) && !IsSpace(COLON)
    ensures Spaces(e.between) && Spaces(e.lead) && Spaces(e.after) && WellFormedItems(e.name) && WellFormed(e.value)
    ensures isObject ==>
              var i := at + |PrintString(e.name)|;
              var j := i + |e.between| + 1 + |e.lead|;
              && Holds(text, at, PrintString(e.name))
              && Holds(text, i, e.between) && i + |e.between| < |text| && text[i + |e.between|] == COLON
              && Holds(text, i + |e.between| + 1, e.lead)
              && Holds(text, j, Print(e.value)) && Ends(text, j + |Print(e.value)|)
              && Holds(text, j + |Print(e.value)|, e.after)
              && j + |Print(e.value)| + |e.after| == at + |EntryToken(isObject, e)|
    ensures !isObject ==>
              && Holds(text, at, Print(e.value)) && Ends(text, at + |Print(e.value)|)
              && Holds(text, at + |Print(e.value)|, e.after)
              && |Print(e.value)| + |e.after| == |EntryToken(isObject, e)|
  {
    hide Holds, Print, PrintString, EntryToken, WellFormed, WellFormedItems, WellFormedEntry, Spaces, Ends;
    EntryIs(e);
    TokenLength(isObject, e);
    var p := Print(e.value);
    if isObject {
      var s := PrintString(e.name);
      ObjectTokenHeld(text, at, e);
      AfterValue(text, at + |s| + |e.between| + 1 + |e.lead| + |p|, e.after);
    } else {
      ArrayTokenHeld(text, at, e);
      FirstUnit(text, at, e.value);
      AfterValue(text, at + |p|, e.after);
    }
  }

  lemma ArrayTokenHeld(text: Text, at: nat, e: Entry)
    requires Holds(text, at, EntryToken(false, e))
    ensures Holds(text, at, Print(e.value)) && Holds(text, at + |Print(e.value)|, e.after)
  {
    hide Holds, Print;
    HoldsJoin(text, at, Print(e.value), e.after);
  }

  lemma TokenLength(isObject: bool, e: Entry)
    ensures var s, p := PrintString(e.name), Print(e.value);
            |EntryToken(isObject, e)| ==
              if isObject then |s| + |e.between| + 1 + |e.lead| + |p| + |e.after| else |p| + |e.after|
  {
    hide PrintString, Print;
  }

  lemma TokenIs(isObject: bool, e: Entry)
    ensures var s, p := PrintString(e.name), Print(e.value);
            EntryToken(isObject, e) == if isObject then s + e.between + [COLON] + e.lead + p + e.after else p + e.after
  {
    hide PrintString, Print;
  }

  lemma EntryIs(e: Entry)
    requires WellFormedEntry(e)
    ensures Spaces(e.between) && Spaces(e.lead) && Spaces(e.after) && WellFormedItems(e.name) && WellFormed(e.value)
  {
    hide Spaces, WellFormedItems, WellFormed;
  }

  lemma ObjectTokenHeld(text: Text, at: nat, e: Entry)
    requires Holds(text, at, EntryToken(true, e))
    ensures var s, p := PrintString(e.name), Print(e.value);
            var i := at + |s|;
            var j := i + |e.between| + 1 + |e.lead|;
            && Holds(text, at, s) && at < |text| && text[at] == QUOTE
            && Holds(text, i, e.between) && i + |e.between| < |text| && text[i + |e.between|] == COLON
            && Holds(text, i + |e.between| + 1, e.lead)
            && Holds(text, j, p) && Holds(text, j + |p|, e.after)
  {
    hide Print, Holds, PrintString, EntryToken, PrintItems;
    var s, p := PrintString(e.name), Print(e.value);
    TokenIs(true, e);
    SixHeld(text, at, s, e.between, COLON, e.lead, p, e.after);
    StringStarts(text, at, e.name);
  }

  lemma StringStarts(text: Text, at: nat, items: seq<Item>)
    requires Holds(text, at, PrintString(items))
    ensures at < |text| && text[at] == QUOTE
  {
    hide Holds, PrintItems, PrintString;
    StringHeld(text, at, items);
  }

  lemma SixHeld(text: Text, at: nat, a: Text, b: Text, u: Unit, c: Text, d: Text, e: Text)
    requires Holds(text, at, a + b + [u] + c + d + e)
    ensures var i := at + |a|;
            var j := i + |b| + 1 + |c|;
            && Holds(text, at, a) && Holds(text, i, b) && i + |b| < |text| && text[i + |b|] == u
            && Holds(text, i + |b| + 1, c) && Holds(text, j, d) && Holds(text, j + |d|, e)
  {
    hide Holds;
    var ab := a + b;
    var abu := ab + [u];
    var abuc := abu + c;
    HoldsJoin(text, at, abuc + d, e);
    HoldsJoin(text, at, abuc, d);
    HoldsJoin(text, at, abu, c);
    HoldsJoin(text, at, ab, [u]);
    HoldsJoin(text, at, a, b);
    HoldsUnit(text, at + |a| + |b|, u);
  }

  lemma AfterValue(text: Text, at: nat, after: Text)
    requires Spaces(after) && Holds(text, at, after)
    requires at + |after| < |text| && IsDelimiter(text[at + |after|])
    ensures Ends(text, at)
  {
    if after != [] { assert text[at] == after[0]; }
  }

  /** The whole reader: for every well-formed text it reads exactly one value and
      keeps what `Read` says of it. */
  method ReadText(text: Text, ghost lead: Text, ghost v: Value, ghost trail: Text) returns (r: Reading)
    requires Spaces(lead) && WellFormed(v) && Spaces(trail)
    requires text == lead + Print(v) + trail
    ensures r == Read(v, 0) && AllRead(r, v, 0)
    ensures Agrees(r, Parse(v), 0)
  {
    ReadAll(v, 0);
    hide Print, Read, Parse, WellFormed, AllRead;
    HoldsJoin(text, 0, lead + Print(v), trail);
    HoldsJoin(text, 0, lead, Print(v));
    ReadAgrees(v, 0);
    var reader := new Reader(text);
    r := reader.ReadValue(0, lead, v);
  }
}
