/** Splitting instructions into entries of bounded size: after a line where one ends in
    the second half, never inside a code point and never inside an escaped tag. */
module Utf8Parts {

  type byte = x: int | 0 <= x < 256

  const NEWLINE: byte := 0x0a
  const AMPERSAND: byte := 0x26
  const ESCAPED: seq<byte> := [0x26, 0x6c, 0x74, 0x3b]

  predicate Continues(b: byte) {
    0x80 <= b < 0xc0
  }

  // ---------------------------------------------------------------- UTF-8 (section 4 of RFC 3629)

  function Width(lead: byte): nat {
    if lead < 0x80 then 1 else if 0xc2 <= lead <= 0xdf then 2 else if 0xe0 <= lead <= 0xef then 3
    else if 0xf0 <= lead <= 0xf4 then 4 else 0
  }

  predicate SecondOk(lead: byte, second: byte) {
    if lead == 0xe0 then 0xa0 <= second < 0xc0
    else if lead == 0xed then 0x80 <= second < 0xa0
    else if lead == 0xf0 then 0x90 <= second < 0xc0
    else if lead == 0xf4 then 0x80 <= second < 0x90
    else Continues(second)
  }

  /** One code point at the start of the bytes. */
  predicate Starts(s: seq<byte>) {
    && s != [] && 0 < Width(s[0]) <= |s| && (Width(s[0]) > 1 ==> SecondOk(s[0], s[1]))
    && forall i | 2 <= i < Width(s[0]) :: Continues(s[i])
  }

  predicate Utf8(s: seq<byte>)
    decreases |s|
  {
    s == [] || (Starts(s) && Utf8(s[Width(s[0])..]))
  }

  /** Where a code point begins, or the text ends. */
  predicate Boundary(s: seq<byte>, i: nat) {
    i == |s| || (i < |s| && !Continues(s[i]))
  }

  lemma StartsShape(s: seq<byte>, i: nat)
    requires Starts(s) && i < Width(s[0])
    ensures Continues(s[i]) <==> i > 0
  {
  }

  /** Text may be cut at any boundary. */
  lemma {:induction false} CutUtf8(s: seq<byte>, i: nat)
    requires Utf8(s) && i <= |s| && Boundary(s, i)
    ensures Utf8(s[..i]) && Utf8(s[i..])
    decreases |s|
  {
    hide Utf8, Starts, Width, Continues;
    if i == 0 {
      Utf8Nothing(s);
    } else {
      Utf8Head(s);
      var w := Width(s[0]);
      FirstWhole(s, i);
      var rest := s[w..];
      var n: nat := i - w;
      assert n < |rest| ==> rest[n] == s[i];
      CutUtf8(rest, n);
      assert rest[n..] == s[i..];
      assert s[..i][w..] == rest[..n];
      Utf8Cons(s[..i], w);
    }
  }

  /** A cut after the start is not inside the first code point, and leaves it as it is. */
  lemma FirstWhole(s: seq<byte>, i: nat)
    requires Starts(s) && 0 < i <= |s| && Boundary(s, i)
    ensures Width(s[0]) <= i && Starts(s[..i]) && s[..i][0] == s[0]
  {
    if i < Width(s[0]) { StartsShape(s, i); }
  }

  lemma Utf8Nothing(s: seq<byte>)
    ensures Utf8(s[..0]) && s[0..] == s
  {
    hide Starts;
  }

  lemma Utf8Head(s: seq<byte>)
    requires Utf8(s) && s != []
    ensures Starts(s) && 0 < Width(s[0]) <= |s| && Utf8(s[Width(s[0])..])
  {
  }

  lemma Utf8Cons(s: seq<byte>, w: nat)
    requires s != [] && Starts(s) && w == Width(s[0]) <= |s| && Utf8(s[w..])
    ensures Utf8(s)
  {
    hide Starts;
  }

  /** Any four bytes in a row hold a boundary. */
  lemma {:induction false} NearBoundary(s: seq<byte>, i: nat)
    requires Utf8(s) && i < |s|
    ensures exists j: nat :: j <= i < j + 4 && !Continues(s[j])
    decreases |s|
  {
    var w := Width(s[0]);
    if i < w {
      StartsShape(s, 0);
      assert !Continues(s[0]);
    } else {
      NearBoundary(s[w..], i - w);
      var j: nat :| j <= i - w < j + 4 && !Continues(s[w..][j]);
      assert s[w..][j] == s[w + j];
    }
  }

  /** After a byte below 0x80 comes a boundary. */
  lemma {:induction false} AfterAscii(s: seq<byte>, i: nat)
    requires Utf8(s) && i < |s| && s[i] < 0x80
    ensures Boundary(s, i + 1)
    decreases |s|
  {
    var w := Width(s[0]);
    if i < w {
      StartsShape(s, i);
      if w < |s| { StartsShape(s[w..], 0); }
    } else {
      AfterAscii(s[w..], i - w);
    }
  }

  // ---------------------------------------------------------------- what valid text is

  /** A Unicode scalar value. */
  predicate Scalar(c: nat) {
    c < 0xd800 || 0xe000 <= c < 0x110000
  }

  /** Its bytes (section 3 of RFC 3629). */
  function Encode(c: nat): seq<byte>
    requires Scalar(c)
  {
    if c < 0x80 then [c]
    else if c < 0x800 then [0xc0 + c / 0x40, 0x80 + c % 0x40]
    else if c < 0x10000 then [0xe0 + c / 0x1000, 0x80 + c / 0x40 % 0x40, 0x80 + c % 0x40]
    else [0xf0 + c / 0x40000, 0x80 + c / 0x1000 % 0x40, 0x80 + c / 0x40 % 0x40, 0x80 + c % 0x40]
  }

  predicate Scalars(text: seq<nat>) {
    forall i | 0 <= i < |text| :: Scalar(text[i])
  }

  function EncodeAll(text: seq<nat>): seq<byte>
    requires Scalars(text)
  {
    if text == [] then [] else Encode(text[0]) + EncodeAll(text[1..])
  }

  lemma EncodedStarts(c: nat, rest: seq<byte>)
    requires Scalar(c)
    ensures var s := Encode(c) + rest; Starts(s) && Width(s[0]) == |Encode(c)| && s[|Encode(c)|..] == rest
  {
    EncodedLead(c);
    hide Encode, Scalar;
    var e := Encode(c);
    assert forall i :: 0 <= i < |e| ==> (e + rest)[i] == e[i];
  }

  lemma EncodedLead(c: nat)
    requires Scalar(c)
    ensures var e := Encode(c); Starts(e) && Width(e[0]) == |e|
  {
  }

  lemma StartsEncoded(s: seq<byte>) returns (c: nat)
    requires Starts(s)
    ensures Scalar(c) && Encode(c) == s[..Width(s[0])]
  {
    var w := Width(s[0]);
    if w == 1 {
      c := s[0];
    } else if w == 2 {
      c := TwoEncoded(s[0], s[1]);
      assert s[..2] == [s[0], s[1]];
    } else if w == 3 {
      c := ThreeEncoded(s[0], s[1], s[2]);
      assert s[..3] == [s[0], s[1], s[2]];
    } else {
      c := FourEncoded(s[0], s[1], s[2], s[3]);
      assert s[..4] == [s[0], s[1], s[2], s[3]];
    }
    hide Encode, Scalar;
  }

  lemma TwoEncoded(lead: int, second: int) returns (c: nat)
    requires 0xc2 <= lead <= 0xdf && 0x80 <= second < 0xc0
    ensures Scalar(c) && Encode(c) == [lead, second]
  {
    c := (lead - 0xc0) * 0x40 + (second - 0x80);
    assert c / 0x40 == lead - 0xc0 && c % 0x40 == second - 0x80;
  }

  lemma ThreeEncoded(lead: int, second: int, third: int) returns (c: nat)
    requires 0xe0 <= lead <= 0xef && 0x80 <= third < 0xc0 && 0 <= second < 256 && SecondOk(lead, second)
    ensures Scalar(c) && Encode(c) == [lead, second, third]
  {
    var (a, b, d) := (lead - 0xe0, second - 0x80, third - 0x80);
    c := (a * 0x40 + b) * 0x40 + d;
    assert c / 0x40 == a * 0x40 + b && c % 0x40 == d;
    assert c / 0x1000 == a && (a * 0x40 + b) % 0x40 == b;
  }

  lemma FourEncoded(lead: int, second: int, third: int, fourth: int) returns (c: nat)
    requires 0xf0 <= lead <= 0xf4 && 0x80 <= third < 0xc0 && 0x80 <= fourth < 0xc0
    requires 0 <= second < 256 && SecondOk(lead, second)
    ensures Scalar(c) && Encode(c) == [lead, second, third, fourth]
  {
    var (a, b, d, e) := (lead - 0xf0, second - 0x80, third - 0x80, fourth - 0x80);
    c := ((a * 0x40 + b) * 0x40 + d) * 0x40 + e;
    assert c / 0x40 == (a * 0x40 + b) * 0x40 + d && c % 0x40 == e;
    assert c / 0x1000 == a * 0x40 + b && ((a * 0x40 + b) * 0x40 + d) % 0x40 == d;
    assert c / 0x40000 == a && (a * 0x40 + b) % 0x40 == b;
  }

  /** The bytes accepted as text are exactly the encodings of sequences of scalar values. */
  lemma {:induction false} EncodedIsUtf8(text: seq<nat>)
    requires Scalars(text)
    ensures Utf8(EncodeAll(text))
  {
    if text != [] {
      EncodedIsUtf8(text[1..]);
      EncodedStarts(text[0], EncodeAll(text[1..]));
      hide Starts, Width, Encode;
      Utf8Cons(EncodeAll(text), |Encode(text[0])|);
    }
  }

  lemma {:induction false} Utf8IsEncoded(s: seq<byte>) returns (text: seq<nat>)
    requires Utf8(s)
    ensures Scalars(text) && EncodeAll(text) == s
    decreases |s|
  {
    hide Starts, Width, Encode, EncodeAll, Utf8, Scalar, Scalars;
    if s == [] {
      EncodeNone();
      text := [];
    } else {
      Utf8Head(s);
      var w := Width(s[0]);
      var (front, back) := (s[..w], s[w..]);
      assert s == front + back;
      var c := StartsEncoded(s);
      var rest := Utf8IsEncoded(back);
      text := [c] + rest;
      EncodeCons(c, rest);
    }
  }

  lemma EncodeNone()
    ensures Scalars([]) && EncodeAll([]) == []
  {
  }

  lemma EncodeCons(c: nat, rest: seq<nat>)
    requires Scalar(c) && Scalars(rest)
    ensures Scalars([c] + rest) && EncodeAll([c] + rest) == Encode(c) + EncodeAll(rest)
  {
    hide Encode;
    assert ([c] + rest)[1..] == rest;
  }

  // ---------------------------------------------------------------- where a part ends

  /** The last boundary after `start`, at or before `end`, or `start`. */
  function BackUp(s: seq<byte>, start: nat, end: nat): (e: nat)
    requires start <= end < |s|
    ensures start <= e <= end && (e > start ==> !Continues(s[e])) && forall k :: e < k <= end ==> Continues(s[k])
    decreases end
  {
    if end > start && Continues(s[end]) then BackUp(s, start, end - 1) else end
  }

  /** The last place of a byte before `end`, or -1. */
  function LastIndex(s: seq<byte>, b: byte, end: nat): (i: int)
    requires end <= |s|
    ensures -1 <= i < end && (i >= 0 ==> s[i] == b) && forall k :: i < k < end ==> s[k] != b
  {
    if end == 0 then -1 else if s[end - 1] == b then end - 1 else LastIndex(s, b, end - 1)
  }

  predicate EscapedAt(s: seq<byte>, i: int) {
    0 <= i && i + 4 <= |s| && s[i..i + 4] == ESCAPED
  }

  /** After the last line that ends in the second half, else at the last code point. */
  function LineEnd(s: seq<byte>, start: nat, limit: nat): nat
    requires start + limit < |s|
  {
    var whole := BackUp(s, start, start + limit);
    var newline := LastIndex(s, NEWLINE, whole);
    if 2 * (newline - start) >= limit then newline + 1 else whole
  }

  /** Before an escaped tag that would be cut. */
  function EscapeEnd(s: seq<byte>, start: nat, line: nat): nat
    requires line <= |s|
  {
    var escape := LastIndex(s, AMPERSAND, line);
    if escape > start && escape > line - 4 && EscapedAt(s, escape) then escape else line
  }

  function PartEnd(s: seq<byte>, start: nat, limit: nat): nat
    requires start < |s|
  {
    if start + limit >= |s| then |s|
    else EscapeEnd(s, start, LineEnd(s, start, limit))
  }

  /** "&lt;" */
  predicate Tag(s: seq<byte>, i: nat) {
    i + 4 <= |s| && s[i] == '&' as int && s[i + 1] == 'l' as int && s[i + 2] == 't' as int && s[i + 3] == ';' as int
  }

  lemma TagIs(s: seq<byte>, i: nat)
    ensures EscapedAt(s, i) <==> Tag(s, i)
  {
    if i + 4 <= |s| { assert s[i..i + 4] == [s[i], s[i + 1], s[i + 2], s[i + 3]]; }
  }

  /** A cut inside an escaped tag. */
  ghost predicate SplitsEscape(s: seq<byte>, cut: nat) {
    exists i: nat :: i < cut < i + 4 && Tag(s, i)
  }

  /** The last place within reach where a code point begins. */
  predicate Reach(s: seq<byte>, start: nat, limit: nat, r: nat) {
    && start < r <= start + limit < |s| && !(0x80 <= s[r] < 0xc0)
    && forall k | r < k <= start + limit :: 0x80 <= s[k] < 0xc0
  }

  /** A line end within reach in the second half. */
  predicate HalfLine(s: seq<byte>, start: nat, limit: nat, r: nat, n: nat) {
    start <= n < r <= |s| && s[n] == '\n' as int && 2 * (n - start) >= limit
  }

  /** A part takes all that is left if that fits; else it ends after the last line end in
      its second half, or where the last code point within reach ends; but before an
      escaped tag that this would cut. */
  ghost predicate PartRule(s: seq<byte>, start: nat, limit: nat, end: nat) {
    if start + limit >= |s| then end == |s|
    else
      exists r: nat, line: nat ::
        Reach(s, start, limit, r) && LineRule(s, start, limit, r, line) && TagRule(s, line, end)
  }

  ghost predicate LineRule(s: seq<byte>, start: nat, limit: nat, r: nat, line: nat) {
    || (line == r && forall n: nat :: !HalfLine(s, start, limit, r, n))
    || (line > 0 && HalfLine(s, start, limit, r, line - 1)
        && forall n: nat :: n >= line ==> !HalfLine(s, start, limit, r, n))
  }

  ghost predicate TagRule(s: seq<byte>, line: nat, end: nat) {
    (end == line && !SplitsEscape(s, line)) || (end < line < end + 4 && Tag(s, end))
  }

  lemma PartEndRule(s: seq<byte>, start: nat, limit: nat)
    requires Utf8(s) && start < |s| && limit >= 4 && !SplitsEscape(s, start)
    ensures PartRule(s, start, limit, PartEnd(s, start, limit))
  {
    if start + limit < |s| {
      var whole := BackUp(s, start, start + limit);
      FarEnough(s, start, start + limit);
      LineEndGood(s, start, limit);
      var line := LineEnd(s, start, limit);
      assert Reach(s, start, limit, whole);
      assert LineRule(s, start, limit, whole, line) by { LineEndRule(s, start, limit); }
      assert TagRule(s, line, EscapeEnd(s, start, line)) by { EscapeEndRule(s, start, line); }
    }
  }

  lemma LineEndRule(s: seq<byte>, start: nat, limit: nat)
    requires start + limit < |s| && limit >= 4 && BackUp(s, start, start + limit) > start
    ensures LineRule(s, start, limit, BackUp(s, start, start + limit), LineEnd(s, start, limit))
  {
    hide BackUp, LastIndex;
  }

  lemma EscapeEndRule(s: seq<byte>, start: nat, line: nat)
    requires start < line < |s| && !SplitsEscape(s, start) && (EscapedAt(s, start) ==> line >= start + 4)
    ensures TagRule(s, line, EscapeEnd(s, start, line))
  {
    forall i: nat ensures EscapedAt(s, i) <==> Tag(s, i) { TagIs(s, i); }
    forall i: nat | i < line < i + 4 && Tag(s, i) ensures EscapeEnd(s, start, line) == i {
      SpanningEscape(s, i, line);
    }
  }

  /** What every part promises. */
  ghost predicate GoodPart(s: seq<byte>, start: nat, end: nat, limit: nat) {
    start < end <= |s| && end - start <= limit && Boundary(s, end) && !SplitsEscape(s, end)
  }

  /** An escape that spans a cut begins at the last ampersand before the cut. */
  lemma SpanningEscape(s: seq<byte>, i: nat, cut: nat)
    requires i < cut < i + 4 && cut <= |s| && EscapedAt(s, i)
    ensures LastIndex(s, AMPERSAND, cut) == i
  {
    var escaped := s[i..i + 4];
    assert s[i] == escaped[0] && s[i + 1] == escaped[1] && s[i + 2] == escaped[2] && s[i + 3] == escaped[3];
  }

  lemma PartEndGood(s: seq<byte>, start: nat, limit: nat)
    requires Utf8(s) && start < |s| && limit >= 4 && !SplitsEscape(s, start)
    ensures GoodPart(s, start, PartEnd(s, start, limit), limit)
  {
    hide Utf8, BackUp, LastIndex, EscapeEnd, LineEnd, EscapedAt;
    if start + limit < |s| {
      LineEndGood(s, start, limit);
      CutAtLine(s, start, LineEnd(s, start, limit));
    } else {
      WholeEnd(s);
    }
  }

  lemma WholeEnd(s: seq<byte>)
    ensures Boundary(s, |s|) && !SplitsEscape(s, |s|)
  {
  }

  lemma SliceOfRest(s: seq<byte>, start: nat, end: nat)
    requires start <= end <= |s|
    ensures s[start..][..end - start] == s[start..end]
  {
  }

  lemma PartText(s: seq<byte>, start: nat, end: nat)
    requires Utf8(s) && start <= end <= |s| && Boundary(s, start) && Boundary(s, end)
    ensures Utf8(s[start..end])
  {
    hide Utf8;
    CutUtf8(s, start);
    var rest := s[start..];
    var n: nat := end - start;
    assert n < |rest| ==> rest[n] == s[end];
    assert Boundary(rest, n);
    CutUtf8(rest, n);
    SliceOfRest(s, start, end);
  }

  lemma LineEndGood(s: seq<byte>, start: nat, limit: nat)
    requires Utf8(s) && start + limit < |s| && limit >= 4
    ensures start < LineEnd(s, start, limit) <= start + limit && Boundary(s, LineEnd(s, start, limit))
    ensures EscapedAt(s, start) ==> LineEnd(s, start, limit) >= start + 4
  {
    hide Utf8;
    FarEnough(s, start, start + limit);
    if EscapedAt(s, start) { PastEscape(s, start, start + limit); }
    var newline := LastIndex(s, NEWLINE, BackUp(s, start, start + limit));
    if newline >= 0 { AfterAscii(s, newline); }
  }

  /** A part that begins with an escaped tag holds all of it. */
  lemma PastEscape(s: seq<byte>, start: nat, end: nat)
    requires Utf8(s) && start + 4 <= end < |s| && EscapedAt(s, start)
    ensures BackUp(s, start, end) >= start + 4
    ensures forall k :: start <= k < start + 4 ==> s[k] != NEWLINE
  {
    hide Utf8;
    assert s[start..start + 4][0] == s[start] && s[start..start + 4][1] == s[start + 1];
    assert s[start..start + 4][2] == s[start + 2] && s[start..start + 4][3] == s[start + 3];
    AfterAscii(s, start + 3);
    assert !Continues(s[start + 4]);
  }

  lemma FarEnough(s: seq<byte>, start: nat, end: nat)
    requires Utf8(s) && start + 4 <= end < |s|
    ensures BackUp(s, start, end) > start && BackUp(s, start, end) > end - 4
  {
    hide Utf8;
    NearBoundary(s, end);
    var j: nat :| j <= end < j + 4 && !Continues(s[j]);
    assert BackUp(s, start, end) >= j;
  }

  lemma CutAtLine(s: seq<byte>, start: nat, line: nat)
    requires start < line < |s| && Boundary(s, line) && (EscapedAt(s, start) ==> line >= start + 4)
    requires !SplitsEscape(s, start)
    ensures start < EscapeEnd(s, start, line) <= line && Boundary(s, EscapeEnd(s, start, line))
    ensures !SplitsEscape(s, EscapeEnd(s, start, line))
  {
    var end := EscapeEnd(s, start, line);
    forall i: nat | i < end < i + 4 && Tag(s, i) ensures false {
      TagIs(s, i);
      SpanningEscape(s, i, end);
    }
  }

  // ---------------------------------------------------------------- the parts

  function Joined(parts: seq<seq<byte>>): seq<byte> {
    if parts == [] then [] else Joined(parts[..|parts| - 1]) + parts[|parts| - 1]
  }

  /** Where part `k` begins. */
  function Offset(parts: seq<seq<byte>>, k: nat): nat
    requires k <= |parts|
  {
    if k == 0 then 0 else Offset(parts, k - 1) + |parts[k - 1]|
  }

  /** Part `k` is text of its own and ends at a good place of the whole. */
  ghost predicate PartOk(s: seq<byte>, parts: seq<seq<byte>>, k: nat, limit: nat)
    requires k < |parts|
  {
    && Utf8(parts[k]) && GoodPart(s, Offset(parts, k), Offset(parts, k + 1), limit)
    && parts[k] == s[Offset(parts, k)..Offset(parts, k + 1)]
    && PartRule(s, Offset(parts, k), limit, Offset(parts, k + 1))
  }

  ghost predicate AllOk(s: seq<byte>, parts: seq<seq<byte>>, limit: nat) {
    forall k: nat :: k < |parts| ==> PartOk(s, parts, k, limit)
  }

  lemma {:induction false} OffsetPrefix(parts: seq<seq<byte>>, more: seq<seq<byte>>, k: nat)
    requires k <= |parts|
    ensures Offset(parts + more, k) == Offset(parts, k)
  {
    if k > 0 {
      OffsetPrefix(parts, more, k - 1);
      assert (parts + more)[k - 1] == parts[k - 1];
    }
  }

  lemma AppendPart(s: seq<byte>, parts: seq<seq<byte>>, start: nat, limit: nat)
    requires Utf8(s) && limit >= 4 && AllOk(s, parts, limit) && start == Offset(parts, |parts|) < |s|
    requires Boundary(s, start) && !SplitsEscape(s, start) && Joined(parts) == s[..start]
    ensures var end := PartEnd(s, start, limit);
            var after := parts + [s[start..end]];
            && start < end <= |s| && Boundary(s, end) && !SplitsEscape(s, end) && AllOk(s, after, limit)
            && Offset(after, |after|) == end && Joined(after) == s[..end]
  {
    hide PartEnd, PartRule, Utf8, Boundary, SplitsEscape;
    PartEndGood(s, start, limit);
    var end := PartEnd(s, start, limit);
    PartText(s, start, end);
    PartEndRule(s, start, limit);
    AppendOk(s, parts, start, end, limit);
    var after := parts + [s[start..end]];
    assert after[..|after| - 1] == parts;
    assert s[..start] + s[start..end] == s[..end];
  }

  lemma AppendOk(s: seq<byte>, parts: seq<seq<byte>>, start: nat, end: nat, limit: nat)
    requires AllOk(s, parts, limit) && start == Offset(parts, |parts|) < |s| && PartRule(s, start, limit, end)
    requires GoodPart(s, start, end, limit) && Utf8(s[start..end])
    ensures AllOk(s, parts + [s[start..end]], limit) && Offset(parts + [s[start..end]], |parts| + 1) == end
  {
    var more := [s[start..end]];
    hide Utf8, PartRule, GoodPart, Offset, PartOk;
    var after := parts + more;
    forall k: nat | k < |parts| ensures PartOk(s, after, k, limit) { EarlierPartOk(s, parts, more, k, limit); }
    LastPartOk(s, parts, start, end, limit);
  }

  lemma OffsetNext(parts: seq<seq<byte>>, k: nat)
    requires k < |parts|
    ensures Offset(parts, k + 1) == Offset(parts, k) + |parts[k]|
  {
  }

  lemma EarlierPartOk(s: seq<byte>, parts: seq<seq<byte>>, more: seq<seq<byte>>, k: nat, limit: nat)
    requires k < |parts| && PartOk(s, parts, k, limit)
    ensures PartOk(s, parts + more, k, limit)
  {
    hide Utf8, PartRule, GoodPart, Offset;
    OffsetPrefix(parts, more, k);
    OffsetPrefix(parts, more, k + 1);
    assert (parts + more)[k] == parts[k];
  }

  lemma LastPartOk(s: seq<byte>, parts: seq<seq<byte>>, start: nat, end: nat, limit: nat)
    requires start == Offset(parts, |parts|) < |s| && PartRule(s, start, limit, end)
    requires GoodPart(s, start, end, limit) && Utf8(s[start..end])
    ensures var after := parts + [s[start..end]];
            PartOk(s, after, |parts|, limit) && Offset(after, |parts| + 1) == end
  {
    hide Utf8, PartRule, Boundary, SplitsEscape, Offset;
    var part := s[start..end];
    var after := parts + [part];
    OffsetPrefix(parts, [part], |parts|);
    OffsetNext(after, |parts|);
    assert after[|parts|] == part;
  }

  method LastIndexOf(s: seq<byte>, b: byte, end: nat) returns (i: int)
    requires end <= |s|
    ensures i == LastIndex(s, b, end)
  {
    i := end - 1;
    while i >= 0 && s[i] != b
      invariant -1 <= i < end && LastIndex(s, b, i + 1) == LastIndex(s, b, end)
    {
      i := i - 1;
    }
  }

  /** The parts are text of their own, non-empty and within the limit; they begin and end
      at code points, split no escaped tag, and together are the input. */
  method Utf8PartsOf(bytes: seq<byte>, limit: nat) returns (parts: seq<seq<byte>>)
    requires Utf8(bytes) && limit >= 4
    ensures Joined(parts) == bytes && AllOk(bytes, parts, limit) && Offset(parts, |parts|) == |bytes|
  {
    hide Utf8, EscapedAt;
    parts := [];
    var start := 0;
    Beginning(bytes);
    while start < |bytes|
      invariant start <= |bytes| && Boundary(bytes, start) && !SplitsEscape(bytes, start)
      invariant start == Offset(parts, |parts|)
      invariant AllOk(bytes, parts, limit) && Joined(parts) == bytes[..start]
      decreases |bytes| - start
    {
      AppendPart(bytes, parts, start, limit);
      hide AllOk, Boundary, Joined, Offset, PartEnd, SplitsEscape;
      var end := PartEndOf(bytes, start, limit);
      parts := parts + [bytes[start..end]];
      start := end;
    }
    assert bytes[..|bytes|] == bytes;
  }

  method PartEndOf(bytes: seq<byte>, start: nat, limit: nat) returns (end: nat)
    requires start < |bytes| && limit > 0
    ensures end == PartEnd(bytes, start, limit)
  {
    hide EscapedAt, LastIndex;
    end := if start + limit <= |bytes| then start + limit else |bytes|;
    if end < |bytes| {
      while end > start && Continues(bytes[end])
        invariant start <= end < |bytes| && BackUp(bytes, start, end) == BackUp(bytes, start, start + limit)
      {
        end := end - 1;
      }
      assert end == BackUp(bytes, start, start + limit);
      hide BackUp;
      var newline := LastIndexOf(bytes, NEWLINE, end);
      if 2 * (newline - start) >= limit { end := newline + 1; }
      assert end == LineEnd(bytes, start, limit);
      hide LineEnd;
      var escape := LastIndexOf(bytes, AMPERSAND, end);
      if escape > start && escape > end - 4 && EscapedAt(bytes, escape) { end := escape; }
    }
  }

  lemma Beginning(s: seq<byte>)
    requires Utf8(s)
    ensures Boundary(s, 0)
  {
    if s != [] { StartsShape(s, 0); }
  }

  /** Four is exact: below it a four-byte code point leaves no room for a part, and the
      loop would not move. */
  lemma SmallLimitStalls(limit: nat)
    requires limit < 4
    ensures Utf8([0xf0, 0x9f, 0x98, 0x80]) && PartEnd([0xf0, 0x9f, 0x98, 0x80], 0, limit) == 0
  {
    var s: seq<byte> := [0xf0, 0x9f, 0x98, 0x80];
    assert s[Width(s[0])..] == [];
    assert BackUp(s, 0, limit) == 0;
  }
}
