/** Replacing the written forms of a hidden path in the text of an approval card.

    Texts are sequences of UTF-16 code units, as the program reads them.  The
    reference definition (`Spans`, `Render`) walks the text by code point and at
    each place takes the longest form that stands there as a whole path.  The
    method `HidePaths` sorts the forms once and narrows a range of them unit by
    unit, within a budget of comparisons. */
module HidePaths {

  import opened Utf16
  import opened Wrappers

  type Text = seq<Unit>

  /** The comparisons one text may take before it is hidden whole. */
  const ALLOWANCE := 4_000_000

  /** "[REDACTED]" */
  const MARK: Text := [0x5b, 0x52, 0x45, 0x44, 0x41, 0x43, 0x54, 0x45, 0x44, 0x5d]

  const UNDERSCORE: Unit := 0x5f
  const DOT: Unit := 0x2e
  const DASH: Unit := 0x2d

  // ---------------------------------------------------------------- code points

  predicate LeadAt(text: Text, i: int) {
    0 <= i < |text| && IsLead(text[i])
  }

  predicate TrailAt(text: Text, i: int) {
    0 <= i < |text| && IsTrail(text[i])
  }

  /** A lead surrogate before a trail is one code point; any other surrogate
      stands alone. */
  function CodePointLength(text: Text, i: nat): (n: nat)
    ensures n == 1 || n == 2
    ensures i < |text| ==> i + n <= |text|
  {
    if LeadAt(text, i) && TrailAt(text, i + 1) then 2 else 1
  }

  function CodePointAt(text: Text, i: nat): Text {
    if i < |text| then text[i..i + CodePointLength(text, i)] else []
  }

  function CodePointBefore(text: Text, i: nat): Text
    requires i <= |text|
  {
    if i >= 2 && TrailAt(text, i - 1) && LeadAt(text, i - 2) then text[i - 2..i]
    else if i >= 1 then text[i - 1..i]
    else []
  }

  /** Not between the two halves of one code point. */
  predicate Boundary(text: Text, i: int) {
    !(LeadAt(text, i - 1) && TrailAt(text, i))
  }

  // ---------------------------------------------------------------- whole paths

  // `alnum` stands for the letters and numbers of Unicode, tested on one code point.

  predicate JoinsBefore(alnum: Text -> bool, c: Text) {
    c != [] && (alnum(c) || c == [UNDERSCORE] || c == [DOT] || c == [DASH])
  }

  predicate JoinsAfter(alnum: Text -> bool, c: Text) {
    c != [] && (alnum(c) || c == [UNDERSCORE] || c == [DASH])
  }

  /** A form that ends here is not cut inside a code point and does not go on
      with a name character or an extension. */
  predicate EndsWhole(alnum: Text -> bool, text: Text, end: nat) {
    && Boundary(text, end)
    && !JoinsAfter(alnum, CodePointAt(text, end))
    && (CodePointAt(text, end) == [DOT] ==>
          var after := CodePointAt(text, end + 1); after == [] || !alnum(after))
  }

  predicate MayStart(alnum: Text -> bool, text: Text, i: nat)
    requires i <= |text|
  {
    !JoinsBefore(alnum, CodePointBefore(text, i))
  }

  predicate Occurs(text: Text, i: nat, form: Text) {
    i + |form| <= |text| && text[i..i + |form|] == form
  }

  /** `form` stands as a whole path at `i`. */
  predicate Stands(alnum: Text -> bool, text: Text, i: nat, form: Text) {
    && form != []
    && Occurs(text, i, form)
    && MayStart(alnum, text, i)
    && EndsWhole(alnum, text, i + |form|)
  }

  // ---------------------------------------------------------------- reference definition

  datatype Span = Span(start: nat, end: nat)

  /** A form of `n` units occurs at `i` and ends whole. */
  predicate EndsAt(alnum: Text -> bool, text: Text, forms: set<Text>, i: nat, n: nat) {
    i + n <= |text| && text[i..i + n] in forms && EndsWhole(alnum, text, i + n)
  }

  /** The longest such form of at most `n` units; 0 when there is none. */
  function LongestUpTo(alnum: Text -> bool, text: Text, forms: set<Text>, i: nat, n: nat): (length: nat)
    ensures length <= n
    ensures length > 0 ==> EndsAt(alnum, text, forms, i, length)
    ensures forall k :: length < k <= n ==> !EndsAt(alnum, text, forms, i, k)
  {
    if n == 0 then 0
    else if EndsAt(alnum, text, forms, i, n) then n
    else LongestUpTo(alnum, text, forms, i, n - 1)
  }

  function LongestAt(alnum: Text -> bool, text: Text, forms: set<Text>, i: nat): (n: nat)
    requires i <= |text|
    ensures i + n <= |text|
    ensures n > 0 ==> MayStart(alnum, text, i) && EndsAt(alnum, text, forms, i, n)
  {
    if MayStart(alnum, text, i) then LongestUpTo(alnum, text, forms, i, |text| - i) else 0
  }

  /** Where the scan goes on after `i`. */
  function Next(alnum: Text -> bool, text: Text, forms: set<Text>, i: nat): (next: nat)
    requires i < |text|
    ensures i < next <= |text|
  {
    var n := LongestAt(alnum, text, forms, i);
    i + if n > 0 then n else CodePointLength(text, i)
  }

  /** Leftmost, longest first: the spans the card hides from `i` on. */
  function Spans(alnum: Text -> bool, text: Text, forms: set<Text>, i: nat): seq<Span>
    requires i <= |text|
    decreases |text| - i
  {
    if i == |text| then [] else
      var next := Next(alnum, text, forms, i);
      (if LongestAt(alnum, text, forms, i) > 0 then [Span(i, next)] else [])
      + Spans(alnum, text, forms, next)
  }

  /** Non-empty spans in text order that do not overlap, the first from `from` on. */
  ghost predicate Ordered(text: Text, spans: seq<Span>, from: nat) {
    && (forall k :: 0 <= k < |spans| ==> from <= spans[k].start < spans[k].end <= |text|)
    && (forall j, k :: 0 <= j < k < |spans| ==> spans[j].end <= spans[k].start)
  }

  function Render(text: Text, spans: seq<Span>, kept: nat): Text
    requires kept <= |text| && Ordered(text, spans, kept)
    decreases |spans|
  {
    if spans == [] then text[kept..]
    else text[kept..spans[0].start] + MARK + Render(text, spans[1..], spans[0].end)
  }

  lemma {:induction false} SpansOrdered(alnum: Text -> bool, text: Text, forms: set<Text>, i: nat)
    requires i <= |text|
    ensures Ordered(text, Spans(alnum, text, forms, i), i)
    decreases |text| - i
  {
    hide EndsAt, MayStart;
    if i < |text| { SpansOrdered(alnum, text, forms, Next(alnum, text, forms, i)); }
  }

  lemma LongestIsLongest(alnum: Text -> bool, text: Text, forms: set<Text>, i: nat, f: Text)
    requires i <= |text| && f in forms && Stands(alnum, text, i, f)
    ensures |f| <= LongestAt(alnum, text, forms, i)
  {
    hide MayStart, EndsWhole;
    assert EndsAt(alnum, text, forms, i, |f|);
  }

  /** What the card shows. */
  function Shown(alnum: Text -> bool, text: Text, forms: set<Text>): Text {
    SpansOrdered(alnum, text, forms, 0);
    Render(text, Spans(alnum, text, forms, 0), 0)
  }

  /** Every replaced span is a form that stands there as a whole path, and no
      longer form does. */
  lemma {:induction false} SpansStand(alnum: Text -> bool, text: Text, forms: set<Text>, i: nat, k: nat)
    requires i <= |text| && [] !in forms
    requires k < |Spans(alnum, text, forms, i)|
    ensures var s := Spans(alnum, text, forms, i)[k];
            && s.start < s.end <= |text|
            && text[s.start..s.end] in forms
            && Stands(alnum, text, s.start, text[s.start..s.end])
            && forall f :: f in forms && Stands(alnum, text, s.start, f) ==> |f| <= s.end - s.start
    decreases |text| - i
  {
    hide MayStart, EndsWhole;
    var n := LongestAt(alnum, text, forms, i);
    if n > 0 && k == 0 {
      assert Spans(alnum, text, forms, i)[0] == Span(i, i + n);
      assert |text[i..i + n]| == n;
      forall f | f in forms && Stands(alnum, text, i, f) ensures |f| <= n {
        LongestIsLongest(alnum, text, forms, i, f);
      }
    } else {
      SpansStand(alnum, text, forms, Next(alnum, text, forms, i), if n > 0 then k - 1 else k);
    }
  }

  /** The scan stays on code-point boundaries, and only a span passes one. */
  lemma NextBoundary(alnum: Text -> bool, text: Text, forms: set<Text>, i: nat)
    requires i < |text| && Boundary(text, i)
    ensures Boundary(text, Next(alnum, text, forms, i))
    ensures LongestAt(alnum, text, forms, i) == 0 ==>
              forall at :: i < at < Next(alnum, text, forms, i) ==> !Boundary(text, at)
  {
    hide MayStart, JoinsAfter;
  }

  /** Nothing is missed: a whole-path occurrence that starts on a code-point
      boundary starts within a replaced span. */
  lemma {:induction false} OccurrenceHidden(alnum: Text -> bool, text: Text, forms: set<Text>, i: nat, at: nat,
                                            form: Text)
    requires i <= at <= |text| && [] !in forms
    requires Boundary(text, i) && Boundary(text, at)
    requires form in forms && Stands(alnum, text, at, form)
    ensures exists s :: s in Spans(alnum, text, forms, i) && s.start <= at < s.end
    decreases |text| - i
  {
    hide MayStart, EndsWhole, Boundary, EndsAt;
    var spans := Spans(alnum, text, forms, i);
    var n := LongestAt(alnum, text, forms, i);
    if i == at {
      LongestIsLongest(alnum, text, forms, i, form);
      assert spans[0] == Span(i, i + n) && spans[0] in spans;
    } else {
      var next := Next(alnum, text, forms, i);
      NextBoundary(alnum, text, forms, i);
      if at < next {
        assert spans[0] == Span(i, i + n) && spans[0] in spans;
      } else {
        OccurrenceHidden(alnum, text, forms, next, at, form);
        assert forall s :: s in Spans(alnum, text, forms, next) ==> s in spans;
      }
    }
  }

  // ---------------------------------------------------------------- whole paths, read off the text

  /** The code point at `i`: a surrogate pair, or one unit that does not begin a pair. */
  predicate PointAt(text: Text, i: nat, c: Text) {
    && i + |c| <= |text| && text[i..i + |c|] == c
    && ((|c| == 2 && 0xd800 <= c[0] <= 0xdbff && 0xdc00 <= c[1] <= 0xdfff)
        || (|c| == 1 && !(0xd800 <= c[0] <= 0xdbff && i + 1 < |text| && 0xdc00 <= text[i + 1] <= 0xdfff)))
  }

  /** The code point that ends at `i`. */
  predicate PointUpTo(text: Text, i: nat, c: Text) {
    && |c| <= i <= |text| && text[i - |c|..i] == c
    && ((|c| == 2 && 0xd800 <= c[0] <= 0xdbff && 0xdc00 <= c[1] <= 0xdfff)
        || (|c| == 1 && !(0xdc00 <= c[0] <= 0xdfff && i >= 2 && 0xd800 <= text[i - 2] <= 0xdbff)))
  }

  /** `i` is inside a surrogate pair. */
  predicate InPair(text: Text, i: nat) {
    0 < i < |text| && 0xd800 <= text[i - 1] <= 0xdbff && 0xdc00 <= text[i] <= 0xdfff
  }

  /** A letter, a digit, "_", "." or "-" comes right before `i`. */
  ghost predicate NameBefore(alnum: Text -> bool, text: Text, i: nat) {
    exists c :: PointUpTo(text, i, c) && (alnum(c) || c == [0x5f] || c == [0x2e] || c == [0x2d])
  }

  /** A letter, a digit, "_" or "-" comes next. */
  ghost predicate NameAfter(alnum: Text -> bool, text: Text, i: nat) {
    exists c :: PointAt(text, i, c) && (alnum(c) || c == [0x5f] || c == [0x2d])
  }

  /** A dot and then a letter or a digit come next. */
  ghost predicate ExtensionAfter(alnum: Text -> bool, text: Text, i: nat) {
    i < |text| && text[i] == 0x2e && exists c :: PointAt(text, i + 1, c) && alnum(c)
  }

  /** What stands from `start` to `end` is not part of a longer name. */
  ghost predicate Whole(alnum: Text -> bool, text: Text, start: nat, end: nat) {
    && !InPair(text, end) && !NameBefore(alnum, text, start)
    && !NameAfter(alnum, text, end) && !ExtensionAfter(alnum, text, end)
  }

  lemma PointAtIs(text: Text, i: nat, c: Text)
    ensures PointAt(text, i, c) <==> c != [] && CodePointAt(text, i) == c
  {
    var n := CodePointLength(text, i);
    if i < |text| { assert |text[i..i + n]| == n; }
  }

  lemma PointUpToIs(text: Text, i: nat, c: Text)
    requires i <= |text|
    ensures PointUpTo(text, i, c) <==> c != [] && CodePointBefore(text, i) == c
  {
  }

  lemma WholeIs(alnum: Text -> bool, text: Text, start: nat, end: nat)
    requires start <= |text|
    ensures Whole(alnum, text, start, end) <==> MayStart(alnum, text, start) && EndsWhole(alnum, text, end)
  {
    NameBeforeIs(alnum, text, start);
    NameAfterIs(alnum, text, end);
    ExtensionAfterIs(alnum, text, end);
    hide NameBefore, NameAfter, ExtensionAfter, JoinsBefore, JoinsAfter, CodePointAt, CodePointBefore;
  }

  lemma NameBeforeIs(alnum: Text -> bool, text: Text, i: nat)
    requires i <= |text|
    ensures NameBefore(alnum, text, i) <==> JoinsBefore(alnum, CodePointBefore(text, i))
  {
    var before := CodePointBefore(text, i);
    PointUpToIs(text, i, before);
    if NameBefore(alnum, text, i) {
      var c :| PointUpTo(text, i, c) && (alnum(c) || c == [0x5f] || c == [0x2e] || c == [0x2d]);
      PointUpToIs(text, i, c);
    }
    hide PointUpTo, CodePointBefore;
  }

  lemma NameAfterIs(alnum: Text -> bool, text: Text, i: nat)
    ensures NameAfter(alnum, text, i) <==> JoinsAfter(alnum, CodePointAt(text, i))
  {
    PointAtIs(text, i, CodePointAt(text, i));
    if NameAfter(alnum, text, i) {
      var c :| PointAt(text, i, c) && (alnum(c) || c == [0x5f] || c == [0x2d]);
      PointAtIs(text, i, c);
    }
    hide PointAt, CodePointAt;
  }

  lemma ExtensionAfterIs(alnum: Text -> bool, text: Text, i: nat)
    ensures ExtensionAfter(alnum, text, i) <==>
            CodePointAt(text, i) == [DOT] && CodePointAt(text, i + 1) != [] && alnum(CodePointAt(text, i + 1))
  {
    PointAtIs(text, i + 1, CodePointAt(text, i + 1));
    assert CodePointAt(text, i) == [DOT] <==> i < |text| && text[i] == 0x2e;
    if ExtensionAfter(alnum, text, i) {
      var c :| PointAt(text, i + 1, c) && alnum(c);
      PointAtIs(text, i + 1, c);
    }
    hide PointAt, CodePointAt;
  }

  /** The occurrences to hide: a form, on code-point boundaries, that is a whole path. */
  ghost predicate WholeForm(alnum: Text -> bool, text: Text, forms: set<Text>, start: nat, end: nat) {
    start < end <= |text| && text[start..end] in forms && !InPair(text, start) && Whole(alnum, text, start, end)
  }

  /** Leftmost, longest: each span is such an occurrence and the longest from its start, and
      every such occurrence starts within a span. */
  ghost predicate LeftmostLongest(alnum: Text -> bool, text: Text, forms: set<Text>, spans: seq<Span>) {
    && Ordered(text, spans, 0)
    && (forall s :: s in spans ==> WholeForm(alnum, text, forms, s.start, s.end))
    && (forall s, end: nat :: s in spans && WholeForm(alnum, text, forms, s.start, end) ==> end <= s.end)
    && (forall start: nat, end: nat :: WholeForm(alnum, text, forms, start, end) ==>
          exists s :: s in spans && s.start <= start < s.end)
  }

  lemma FormStands(alnum: Text -> bool, text: Text, forms: set<Text>, start: nat, end: nat)
    requires start < end <= |text|
    ensures WholeForm(alnum, text, forms, start, end) <==>
            text[start..end] in forms && Boundary(text, start) && Stands(alnum, text, start, text[start..end])
    ensures |text[start..end]| == end - start
  {
    hide MayStart, EndsWhole, Whole;
    WholeIs(alnum, text, start, end);
  }

  lemma {:induction false} SpansOnBoundaries(alnum: Text -> bool, text: Text, forms: set<Text>, i: nat)
    requires i <= |text| && Boundary(text, i)
    ensures forall s :: s in Spans(alnum, text, forms, i) ==> Boundary(text, s.start)
    decreases |text| - i
  {
    hide EndsAt, MayStart, Boundary;
    if i < |text| {
      NextBoundary(alnum, text, forms, i);
      SpansOnBoundaries(alnum, text, forms, Next(alnum, text, forms, i));
    }
  }

  /** The spans the card hides are the leftmost, longest ones. */
  lemma SpansLeftmostLongest(alnum: Text -> bool, text: Text, forms: set<Text>)
    requires [] !in forms
    ensures LeftmostLongest(alnum, text, forms, Spans(alnum, text, forms, 0))
  {
    var spans := Spans(alnum, text, forms, 0);
    SpansOrdered(alnum, text, forms, 0);
    SpansOnBoundaries(alnum, text, forms, 0);
    hide Spans, Stands, Boundary, WholeForm;
    forall s | s in spans
      ensures WholeForm(alnum, text, forms, s.start, s.end)
      ensures forall end: nat :: WholeForm(alnum, text, forms, s.start, end) ==> end <= s.end
    {
      var k :| 0 <= k < |spans| && spans[k] == s;
      SpansStand(alnum, text, forms, 0, k);
      FormStands(alnum, text, forms, s.start, s.end);
      forall end: nat | WholeForm(alnum, text, forms, s.start, end) ensures end <= s.end {
        FormIn(alnum, text, forms, s.start, end);
        FormStands(alnum, text, forms, s.start, end);
      }
    }
    forall start: nat, end: nat | WholeForm(alnum, text, forms, start, end)
      ensures exists s :: s in spans && s.start <= start < s.end
    {
      FormIn(alnum, text, forms, start, end);
      FormStands(alnum, text, forms, start, end);
      assert Boundary(text, 0) by { StartBoundary(text); }
      OccurrenceHidden(alnum, text, forms, 0, start, text[start..end]);
    }
  }

  lemma FormIn(alnum: Text -> bool, text: Text, forms: set<Text>, start: nat, end: nat)
    requires WholeForm(alnum, text, forms, start, end)
    ensures start < end <= |text|
  {
  }

  lemma StartBoundary(text: Text)
    ensures Boundary(text, 0)
  {
  }

  lemma SpanFacts(alnum: Text -> bool, text: Text, forms: set<Text>, spans: seq<Span>, k: nat)
    requires LeftmostLongest(alnum, text, forms, spans) && k < |spans|
    ensures WholeForm(alnum, text, forms, spans[k].start, spans[k].end) && Ordered(text, spans, 0)
  {
    hide WholeForm;
    assert spans[k] in spans;
  }

  lemma SpanAround(alnum: Text -> bool, text: Text, forms: set<Text>, spans: seq<Span>, start: nat, end: nat)
    returns (j: nat)
    requires LeftmostLongest(alnum, text, forms, spans) && WholeForm(alnum, text, forms, start, end)
    ensures j < |spans| && spans[j].start <= start < spans[j].end && Ordered(text, spans, 0)
    ensures start == spans[j].start ==> end <= spans[j].end
  {
    hide WholeForm;
    var s :| s in spans && s.start <= start < s.end;
    j :| 0 <= j < |spans| && spans[j] == s;
  }

  /** Lists that agree up to `k` agree there. */
  lemma SpanNotBefore(alnum: Text -> bool, text: Text, forms: set<Text>, a: seq<Span>, b: seq<Span>, k: nat)
    requires LeftmostLongest(alnum, text, forms, a) && LeftmostLongest(alnum, text, forms, b)
    requires k < |a| && k <= |b| && forall j :: 0 <= j < k ==> a[j] == b[j]
    ensures k < |b| && b[k].start <= a[k].start && (b[k].start == a[k].start ==> a[k].end <= b[k].end)
  {
    hide LeftmostLongest, WholeForm;
    SpanFacts(alnum, text, forms, a, k);
    assert forall i :: 0 <= i < k ==> b[i] == a[i] && b[i].end <= a[k].start;
    var j := SpanAround(alnum, text, forms, b, a[k].start, a[k].end);
    assert k <= j;
    assert k < j ==> b[k].start < b[k].end <= b[j].start;
  }

  lemma {:induction false} SpansAgree(alnum: Text -> bool, text: Text, forms: set<Text>, a: seq<Span>, b: seq<Span>,
                                      k: nat)
    requires LeftmostLongest(alnum, text, forms, a) && LeftmostLongest(alnum, text, forms, b) && k <= |a|
    ensures k <= |b| && forall j :: 0 <= j < k ==> a[j] == b[j]
  {
    hide LeftmostLongest;
    if k > 0 {
      SpansAgree(alnum, text, forms, a, b, k - 1);
      SpanNotBefore(alnum, text, forms, a, b, k - 1);
      SpanNotBefore(alnum, text, forms, b, a, k - 1);
    }
  }

  /** There is only one such list of spans. */
  lemma LeftmostLongestUnique(alnum: Text -> bool, text: Text, forms: set<Text>, a: seq<Span>, b: seq<Span>)
    requires LeftmostLongest(alnum, text, forms, a) && LeftmostLongest(alnum, text, forms, b)
    ensures a == b
  {
    hide LeftmostLongest;
    SpansAgree(alnum, text, forms, a, b, |a|);
    SpansAgree(alnum, text, forms, b, a, |b|);
  }

  // ---------------------------------------------------------------- the text with marks, unit by unit

  /** Ten units: "[REDACTED]". */
  lemma MarkIs()
    ensures |MARK| == 10 && forall k :: 0 <= k < 10 ==> MARK[k] == "[REDACTED]"[k] as int
  {
  }

  /** The units that the first `k` spans take away. */
  function Taken(spans: seq<Span>, k: nat): int
    requires k <= |spans|
  {
    if k == 0 then 0 else Taken(spans, k - 1) + spans[k - 1].end - spans[k - 1].start
  }

  lemma {:induction false} TakenRest(spans: seq<Span>, k: nat)
    requires 0 < k <= |spans|
    ensures Taken(spans, k) == spans[0].end - spans[0].start + Taken(spans[1..], k - 1)
  {
    if k > 1 {
      TakenRest(spans, k - 1);
      assert spans[1..][k - 2] == spans[k - 1];
    }
  }

  /** Where a unit of the text is shown when `k` spans come before it. */
  function Place(spans: seq<Span>, kept: nat, k: nat, p: nat): int
    requires k <= |spans|
  {
    p - kept - Taken(spans, k) + 10 * k
  }

  /** The first span splits what is shown. */
  lemma RenderRest(text: Text, spans: seq<Span>, kept: nat, k: nat, p: nat)
    requires kept <= |text| && Ordered(text, spans, kept) && 0 < k <= |spans|
    ensures var (front, rest, end) := (text[kept..spans[0].start], spans[1..], spans[0].end);
            && Ordered(text, rest, end) && Render(text, spans, kept) == (front + MARK) + Render(text, rest, end)
            && Place(spans, kept, k, p) == |front + MARK| + Place(rest, end, k - 1, p)
  {
    hide Taken;
    TakenRest(spans, k);
  }

  lemma {:induction false} RenderLength(text: Text, spans: seq<Span>, kept: nat)
    requires kept <= |text| && Ordered(text, spans, kept)
    ensures |Render(text, spans, kept)| == Place(spans, kept, |spans|, |text|)
    decreases |spans|
  {
    if spans != [] {
      RenderRest(text, spans, kept, |spans|, |text|);
      RenderLength(text, spans[1..], spans[0].end);
      hide Render, Place, Ordered;
    }
  }

  /** Each span is shown as its mark. */
  lemma {:induction false} RenderMarks(text: Text, spans: seq<Span>, kept: nat, k: nat)
    requires kept <= |text| && Ordered(text, spans, kept) && k < |spans|
    ensures var at := Place(spans, kept, k, spans[k].start);
            0 <= at && at + 10 <= |Render(text, spans, kept)| && Render(text, spans, kept)[at..at + 10] == MARK
    decreases |spans|
  {
    var (front, rest, end) := (text[kept..spans[0].start], spans[1..], spans[0].end);
    var shown := Render(text, spans, kept);
    if k == 0 {
      RenderRest(text, spans, kept, 1, 0);
      hide Render;
      assert shown[|front|..|front| + 10] == MARK;
    } else {
      RenderRest(text, spans, kept, k, spans[k].start);
      RenderMarks(text, rest, end, k - 1);
      var at := Place(rest, end, k - 1, spans[k].start);
      hide Render, Place;
      SliceAfter(front + MARK, Render(text, rest, end), at, at + 10);
    }
  }

  lemma SliceAfter(a: Text, b: Text, from: nat, to: nat)
    requires from <= to <= |b|
    ensures (a + b)[|a| + from..|a| + to] == b[from..to]
  {
  }

  /** Every unit before, between and after the spans is kept. */
  lemma {:induction false} RenderKeeps(text: Text, spans: seq<Span>, kept: nat, k: nat, p: nat)
    requires kept <= |text| && Ordered(text, spans, kept) && k <= |spans|
    requires if k == 0 then kept <= p else spans[k - 1].end <= p
    requires if k == |spans| then p < |text| else p < spans[k].start
    ensures var at := Place(spans, kept, k, p);
            0 <= at < |Render(text, spans, kept)| && Render(text, spans, kept)[at] == text[p]
    decreases |spans|
  {
    if k == 0 {
      RenderFront(text, spans, kept, p);
    } else {
      var (front, rest, end) := (text[kept..spans[0].start], spans[1..], spans[0].end);
      RenderRest(text, spans, kept, k, p);
      RenderKeeps(text, rest, end, k - 1, p);
      var (at, shown) := (Place(rest, end, k - 1, p), Render(text, rest, end));
      hide Render, Place, Ordered;
      UnitAfter(front + MARK, shown, at);
    }
  }

  lemma RenderFront(text: Text, spans: seq<Span>, kept: nat, p: nat)
    requires kept <= |text| && Ordered(text, spans, kept) && kept <= p
    requires if spans == [] then p < |text| else p < spans[0].start
    ensures var at := Place(spans, kept, 0, p);
            0 <= at < |Render(text, spans, kept)| && Render(text, spans, kept)[at] == text[p]
  {
    if spans != [] {
      var front := text[kept..spans[0].start];
      RenderRest(text, spans, kept, 1, 0);
      hide Render, Ordered;
      assert front[p - kept] == text[p];
    }
  }

  lemma UnitAfter(a: Text, b: Text, i: nat)
    requires i < |b|
    ensures (a + b)[|a| + i] == b[i]
  {
  }

  // ---------------------------------------------------------------- the cost of narrowing

  function Pow2(k: nat): (p: nat)
    ensures p > 0
  {
    if k == 0 then 1 else 2 * Pow2(k - 1)
  }

  /** ceil(log2(n)) */
  function CeilLog2(n: nat): (k: nat)
    requires n > 0
    ensures n <= Pow2(k)
    ensures k > 0 ==> Pow2(k - 1) < n
  {
    if n == 1 then 0 else 1 + CeilLog2((n + 1) / 2)
  }

  /** The forms longer than `d` that agree with the text on its `d` units from `i`. */
  ghost function Agreeing(text: Text, forms: set<Text>, i: nat, d: nat): set<Text>
    requires i + d <= |text|
  {
    set f | f in forms && |f| > d && f[..d] == text[i..i + d]
  }

  ghost function StepCost(n: nat): nat {
    if n == 1 then 1 else 2 * CeilLog2(n + 1)
  }

  ghost function NarrowCost(text: Text, forms: set<Text>, i: nat, d: nat): nat
    requires i + d <= |text|
    decreases |text| - i - d
  {
    var n := |Agreeing(text, forms, i, d)|;
    if n == 0 || i + d == |text| then 0
    else StepCost(n) + NarrowCost(text, forms, i, d + 1)
  }

  ghost predicate SomeStartsWith(forms: set<Text>, u: Unit) {
    exists f :: f in forms && f != [] && f[0] == u
  }

  ghost function PlaceCost(alnum: Text -> bool, text: Text, forms: set<Text>, i: nat): nat
    requires i < |text|
  {
    if !SomeStartsWith(forms, text[i]) then 0
    else if MayStart(alnum, text, i) then 1 + NarrowCost(text, forms, i, 1)
    else 1
  }

  /** The comparisons charged from `i` on, counted from the forms themselves:
      at each place one, and for each unit read there the halvings of the forms
      that still agree with the text. */
  ghost function Cost(alnum: Text -> bool, text: Text, forms: set<Text>, i: nat): nat
    requires i <= |text|
    decreases |text| - i
  {
    if i == |text| then 0 else
      PlaceCost(alnum, text, forms, i)
      + Cost(alnum, text, forms, Next(alnum, text, forms, i))
  }

  /** The last comparison charged at `i` from `d` on is that of the one form left with a
      unit that differs from the text: the scan does not look at its budget after it. */
  ghost predicate NarrowEndsAlone(text: Text, forms: set<Text>, i: nat, d: nat)
    requires i + d <= |text|
    decreases |text| - i - d
  {
    var agreeing := Agreeing(text, forms, i, d);
    if agreeing == {} || i + d == |text| then false
    else if NarrowCost(text, forms, i, d + 1) > 0 then NarrowEndsAlone(text, forms, i, d + 1)
    else |agreeing| == 1 && forall f :: f in agreeing ==> f[d] != text[i + d]
  }

  ghost predicate PlaceEndsAlone(alnum: Text -> bool, text: Text, forms: set<Text>, i: nat)
    requires i < |text|
  {
    SomeStartsWith(forms, text[i]) && MayStart(alnum, text, i) && NarrowEndsAlone(text, forms, i, 1)
  }

  /** The last comparison charged from `i` on is one after which the budget is not looked
      at.  What it depends on can be read off the text and the forms. */
  ghost predicate EndsUnchecked(alnum: Text -> bool, text: Text, forms: set<Text>, i: nat)
    requires i <= |text|
    decreases |text| - i
  {
    i < |text|
    && var next := Next(alnum, text, forms, i);
       if Cost(alnum, text, forms, next) > 0 then EndsUnchecked(alnum, text, forms, next)
       else PlaceEndsAlone(alnum, text, forms, i)
  }

  /** Whether a scan that may charge `allowance` comparisons gets to the end of the text. */
  ghost predicate Affordable(alnum: Text -> bool, text: Text, forms: set<Text>, allowance: int) {
    var cost := Cost(alnum, text, forms, 0);
    cost <= allowance || (cost == allowance + 1 && EndsUnchecked(alnum, text, forms, 0))
  }

  // ---------------------------------------------------------------- sorting

  /** The order of JavaScript's sort: by code unit, a text before those it starts. */
  predicate Less(a: Text, b: Text) {
    b != [] && (a == [] || a[0] < b[0] || (a[0] == b[0] && Less(a[1..], b[1..])))
  }

  lemma {:induction false} LessTotal(a: Text, b: Text)
    ensures Less(a, b) || Less(b, a) || a == b
  {
    if a != [] && b != [] && a[0] == b[0] {
      LessTotal(a[1..], b[1..]);
      assert a == [a[0]] + a[1..] && b == [b[0]] + b[1..];
    }
  }

  lemma {:induction false} LessTransitive(a: Text, b: Text, c: Text)
    requires Less(a, b) && Less(b, c)
    ensures Less(a, c)
  {
    if a != [] && a[0] == b[0] == c[0] { LessTransitive(a[1..], b[1..], c[1..]); }
  }

  /** Sorted texts that share `d` units are sorted by the unit after them, and
      one that ends there comes first. */
  lemma {:induction false} LessAfterShared(a: Text, b: Text, d: nat)
    requires Less(a, b) && d <= |a| && d <= |b| && a[..d] == b[..d]
    ensures |b| > d
    ensures |a| > d ==> a[d] <= b[d]
  {
    if d > 0 {
      assert a[0] == a[..d][0] == b[..d][0] == b[0];
      assert a[1..][..d - 1] == a[..d][1..] == b[..d][1..] == b[1..][..d - 1];
      LessAfterShared(a[1..], b[1..], d - 1);
    }
  }

  ghost predicate Sorted(s: seq<Text>) {
    forall j, k :: 0 <= j < k < |s| ==> Less(s[j], s[k])
  }

  function Insert(s: seq<Text>, f: Text): (r: seq<Text>)
    requires Sorted(s)
    ensures Sorted(r)
    ensures forall g :: g in r <==> g in s || g == f
  {
    if s == [] then [f]
    else if s[0] == f then s
    else if Less(f, s[0]) then
      assert forall k :: 0 < k < |s| ==> Less(f, s[k]) by {
        forall k | 0 < k < |s| ensures Less(f, s[k]) { LessTransitive(f, s[0], s[k]); }
      }
      [f] + s
    else
      LessTotal(f, s[0]);
      assert s == [s[0]] + s[1..];
      var rest := Insert(s[1..], f);
      assert forall k :: 0 <= k < |rest| ==> rest[k] in s[1..] || rest[k] == f;
      [s[0]] + rest
  }

  /** The distinct non-empty forms in sorted order. */
  function SortedForms(forms: seq<Text>): (r: seq<Text>)
    ensures Sorted(r)
    ensures forall g :: g in r <==> g in forms && g != []
  {
    if forms == [] then []
    else
      assert forall g :: g in forms <==> g == forms[0] || g in forms[1..];
      var rest := SortedForms(forms[1..]);
      if forms[0] == [] then rest else Insert(rest, forms[0])
  }

  lemma SortedDistinct(s: seq<Text>)
    requires Sorted(s)
    ensures forall j, k :: 0 <= j < k < |s| ==> s[j] != s[k]
  {
    forall j, k | 0 <= j < k < |s| ensures s[j] != s[k] {
      if s[j] == s[k] { NotLessItself(s[j]); }
    }
  }

  lemma {:induction false} NotLessItself(a: Text)
    ensures !Less(a, a)
  {
    if a != [] { NotLessItself(a[1..]); }
  }

  lemma {:induction false} DistinctCount(s: seq<Text>, low: nat, high: nat)
    requires Sorted(s) && low <= high <= |s|
    ensures |set k | low <= k < high :: s[k]| == high - low
    decreases high - low
  {
    var all := set k | low <= k < high :: s[k];
    if low < high {
      var rest := set k | low + 1 <= k < high :: s[k];
      DistinctCount(s, low + 1, high);
      FirstApart(s, low, high);
      hide Sorted;
      assert all == rest + {s[low]};
    } else {
      assert all == {};
    }
  }

  lemma FirstApart(s: seq<Text>, low: nat, high: nat)
    requires Sorted(s) && low < high <= |s|
    ensures s[low] !in (set k | low + 1 <= k < high :: s[k])
  {
    SortedDistinct(s);
    hide Sorted;
  }

  // ---------------------------------------------------------------- the scan

  /** sorted[low..high) share their first `depth` units with the text at `i`. */
  ghost predicate SharedRange(text: Text, sorted: seq<Text>, i: nat, depth: nat, low: nat, high: nat) {
    && low <= high <= |sorted|
    && i + depth <= |text|
    && forall k :: low <= k < high ==> |sorted[k]| >= depth && sorted[k][..depth] == text[i..i + depth]
  }

  /** The first form of the range whose unit at `depth` is at least `unit`,
      found by halving. */
  method FirstFrom(sorted: seq<Text>, low: nat, high: nat, depth: nat, unit: nat)
    returns (first: nat, ghost compared: nat)
    requires low <= high <= |sorted|
    requires forall k :: low <= k < high ==> |sorted[k]| > depth
    requires forall j, k :: low <= j < k < high ==> sorted[j][depth] <= sorted[k][depth]
    ensures low <= first <= high
    ensures forall k :: low <= k < first ==> sorted[k][depth] < unit
    ensures forall k :: first <= k < high ==> sorted[k][depth] >= unit
    ensures compared <= CeilLog2(high - low + 1)
  {
    hide CeilLog2;
    first := low;
    var to := high;
    compared := 0;
    while first < to
      invariant low <= first <= to <= high
      invariant forall k :: low <= k < first ==> sorted[k][depth] < unit
      invariant forall k :: to <= k < high ==> sorted[k][depth] >= unit
      invariant compared + CeilLog2(to - first + 1) <= CeilLog2(high - low + 1)
    {
      var middle := (first + to) / 2;
      ghost var before := to - first + 1;
      if sorted[middle][depth] < unit { first := middle + 1; } else { to := middle; }
      CeilLog2Halves(to - first + 1, before);
      compared := compared + 1;
    }
  }

  lemma CeilLog2Halves(m: nat, n: nat)
    requires n > 1 && 0 < m <= (n + 1) / 2
    ensures CeilLog2(m) + 1 <= CeilLog2(n)
  {
    CeilLog2Monotone(m, (n + 1) / 2);
  }

  lemma {:induction false} CeilLog2Monotone(m: nat, n: nat)
    requires 0 < m <= n
    ensures CeilLog2(m) <= CeilLog2(n)
  {
    if m > 1 { CeilLog2Monotone((m + 1) / 2, (n + 1) / 2); }
  }

  /** For each unit a form of the first `n` starts with, the range of those that
      start with it. */
  ghost predicate Ranges(sorted: seq<Text>, n: nat, starting: map<Unit, (nat, nat)>)
    requires n <= |sorted| && [] !in sorted
  {
    && (forall u :: u in starting ==> starting[u].0 < starting[u].1 <= n)
    && (forall u, k :: u in starting && starting[u].0 <= k < starting[u].1 ==> sorted[k][0] == u)
    && (forall k :: 0 <= k < n ==>
          sorted[k][0] in starting && starting[sorted[k][0]].0 <= k < starting[sorted[k][0]].1)
  }

  lemma FirstUnitsSorted(sorted: seq<Text>, j: nat, k: nat)
    requires Sorted(sorted) && [] !in sorted && j <= k < |sorted|
    ensures sorted[j][0] <= sorted[k][0]
  {
    if j < k { LessAfterShared(sorted[j], sorted[k], 0); }
  }

  /** The next form starts with a unit already met: its range grows by one. */
  lemma RangeGrows(sorted: seq<Text>, n: nat, starting: map<Unit, (nat, nat)>)
    requires n < |sorted| && Sorted(sorted) && [] !in sorted && Ranges(sorted, n, starting)
    requires sorted[n][0] in starting
    ensures var u := sorted[n][0];
            Ranges(sorted, n + 1, starting[u := (starting[u].0, n + 1)])
  {
    hide Sorted;
    var u := sorted[n][0];
    var low := starting[u].0;
    forall k | low <= k < n ensures sorted[k][0] == u {
      FirstUnitsSorted(sorted, low, k);
      FirstUnitsSorted(sorted, k, n);
    }
  }

  lemma RangeBegins(sorted: seq<Text>, n: nat, starting: map<Unit, (nat, nat)>)
    requires n < |sorted| && [] !in sorted && Ranges(sorted, n, starting) && sorted[n][0] !in starting
    ensures Ranges(sorted, n + 1, starting[sorted[n][0] := (n, n + 1)])
  {
  }

  method StartingRanges(sorted: seq<Text>) returns (starting: map<Unit, (nat, nat)>)
    requires Sorted(sorted) && [] !in sorted
    ensures Ranges(sorted, |sorted|, starting)
  {
    starting := map[];
    assert Ranges(sorted, 0, starting);
    hide Sorted, Ranges;
    for position := 0 to |sorted|
      invariant Ranges(sorted, position, starting)
    {
      var first := sorted[position][0];
      if first in starting {
        RangeGrows(sorted, position, starting);
        starting := starting[first := (starting[first].0, position + 1)];
      } else {
        RangeBegins(sorted, position, starting);
        starting := starting[first := (position, position + 1)];
      }
    }
  }

  ghost predicate Ascending(s: seq<nat>) {
    forall j, k :: 0 <= j < k < |s| ==> s[j] < s[k]
  }

  /** `depth` units of the text at `i` are a form. */
  ghost predicate FormOf(text: Text, sorted: seq<Text>, i: nat, depth: nat) {
    i + depth <= |text| && text[i..i + depth] in sorted
  }

  /** The lengths of the forms that occur at `i`, shortest first. */
  ghost predicate AllLengths(text: Text, sorted: seq<Text>, i: nat, found: seq<nat>) {
    Ascending(found) && forall n :: n in found <==> n >= 1 && FormOf(text, sorted, i, n)
  }

  /** What the narrowing at one place knows at `depth`: the range holds every form
      that still agrees with the text, and `found` every form already met. */
  ghost predicate Narrowed(text: Text, sorted: seq<Text>, i: nat, depth: nat, low: nat, high: nat, found: seq<nat>) {
    && depth >= 1
    && SharedRange(text, sorted, i, depth, low, high)
    && (forall k :: 0 <= k < |sorted| && |sorted[k]| > depth && sorted[k][..depth] == text[i..i + depth] ==>
         low <= k < high)
    && Ascending(found)
    && (forall n :: n in found ==> 1 <= n <= depth && FormOf(text, sorted, i, n))
    && (forall n :: 1 <= n < depth && FormOf(text, sorted, i, n) ==> n in found)
    && (depth in found ==> forall k :: low <= k < high ==> |sorted[k]| > depth)
    && (FormOf(text, sorted, i, depth) && depth !in found ==> low < high && |sorted[low]| == depth)
  }

  /** The form of `depth` units is the first of its range; it is taken out. */
  lemma TakeFound(text: Text, sorted: seq<Text>, i: nat, depth: nat, low: nat, high: nat, found: seq<nat>)
    requires Sorted(sorted) && Narrowed(text, sorted, i, depth, low, high, found)
    requires low < high && |sorted[low]| == depth
    ensures Narrowed(text, sorted, i, depth, low + 1, high, found + [depth])
  {
    assert sorted[low] == sorted[low][..depth] == text[i..i + depth];
    forall k | 0 <= k < |found| ensures found[k] < depth {
      assert found[k] in found;
    }
    forall k | low < k < high ensures |sorted[k]| > depth {
      LessAfterShared(sorted[low], sorted[k], depth);
    }
    forall k | 0 <= k < |sorted| && |sorted[k]| > depth && sorted[k][..depth] == text[i..i + depth]
      ensures low + 1 <= k < high
    {
      assert k != low;
    }
  }

  /** No form longer than `depth` agrees with the text, so all are found. */
  lemma AllFound(text: Text, sorted: seq<Text>, forms: set<Text>, i: nat, depth: nat, low: nat, high: nat,
                 found: seq<nat>)
    requires forall f :: f in forms <==> f in sorted
    requires Narrowed(text, sorted, i, depth, low, high, found)
    requires low <= high <= |sorted| && i + depth <= |text|
    requires low < high ==> |sorted[low]| != depth
    requires low == high || i + depth == |text|
             || (high == low + 1 && |sorted[low]| > depth && sorted[low][depth] != text[i + depth])
    ensures AllLengths(text, sorted, i, found)
    ensures low == high || i + depth == |text| ==> NarrowCost(text, forms, i, depth) == 0
    ensures low < high && i + depth < |text| ==>
      NarrowCost(text, forms, i, depth + 1) == 0 && NarrowEndsAlone(text, forms, i, depth)
  {
    if low == high {
      NothingAgrees(text, sorted, forms, i, depth);
    } else if i + depth < |text| {
      LoneMismatch(text, sorted, forms, i, depth, low, found);
    }
    forall n: nat | n > depth && i + n <= |text| ensures !FormOf(text, sorted, i, n) {
      var here := text[i..i + n];
      assert here[..depth] == text[i..i + depth] && here[depth] == text[i + depth];
      forall k | 0 <= k < |sorted| ensures sorted[k] != here {
        assert |sorted[k]| > depth && sorted[k][..depth] == text[i..i + depth] ==> low <= k < high;
      }
    }
  }

  /** A form agrees on one more unit exactly when it agrees so far and on that unit. */
  lemma OneMoreUnit(form: Text, text: Text, i: nat, depth: nat)
    requires |form| > depth && i + depth < |text|
    ensures form[..depth + 1] == text[i..i + depth + 1] <==>
            form[..depth] == text[i..i + depth] && form[depth] == text[i + depth]
  {
    var a, b := form[..depth + 1], text[i..i + depth + 1];
    assert a == form[..depth] + [form[depth]];
    assert b == text[i..i + depth] + [text[i + depth]];
    assert a[..depth] == form[..depth] && b[..depth] == text[i..i + depth];
  }

  /** Reading one more unit keeps what the narrowing knows. */
  lemma Deeper(text: Text, sorted: seq<Text>, i: nat, depth: nat, low: nat, high: nat, found: seq<nat>, low': nat,
               high': nat)
    requires Sorted(sorted) && Narrowed(text, sorted, i, depth, low, high, found)
    requires i + depth < |text| && low <= low' <= high' <= high
    requires low < high && |sorted[low]| > depth
    requires forall k :: low <= k < high ==> |sorted[k]| > depth
    requires forall k :: low <= k < high ==> (low' <= k < high' <==> sorted[k][depth] == text[i + depth])
    ensures Narrowed(text, sorted, i, depth + 1, low', high', found)
  {
    forall k | low' <= k < high' ensures sorted[k][..depth + 1] == text[i..i + depth + 1] {
      OneMoreUnit(sorted[k], text, i, depth);
    }
    forall k | 0 <= k < |sorted| && |sorted[k]| >= depth + 1 && sorted[k][..depth + 1] == text[i..i + depth + 1]
      ensures low' <= k < high'
    {
      OneMoreUnit(sorted[k], text, i, depth);
    }
    if FormOf(text, sorted, i, depth + 1) {
      var k :| 0 <= k < |sorted| && sorted[k] == text[i..i + depth + 1];
      assert sorted[k][..depth + 1] == sorted[k];
      if low' < k { LessAfterShared(sorted[low'], sorted[k], depth + 1); }
    }
  }

  lemma FirstUnit(text: Text, sorted: seq<Text>, i: nat, low: nat, high: nat)
    requires Sorted(sorted) && [] !in sorted && i < |text| && low <= high <= |sorted|
    requires forall k :: low <= k < high ==> sorted[k][0] == text[i]
    requires forall k :: 0 <= k < |sorted| && sorted[k][0] == text[i] ==> low <= k < high
    ensures Narrowed(text, sorted, i, 1, low, high, [])
  {
    assert forall k :: 0 <= k < |sorted| ==> sorted[k][..1] == [sorted[k][0]];
    assert text[i..i + 1] == [text[i]];
    if FormOf(text, sorted, i, 1) {
      var k :| 0 <= k < |sorted| && sorted[k] == text[i..i + 1];
      if low < k { LessAfterShared(sorted[low], sorted[k], 1); }
    }
  }

  /** A range that does not start with a form of `depth` units is sorted by the
      unit there. */
  lemma RangeSorted(text: Text, sorted: seq<Text>, i: nat, depth: nat, low: nat, high: nat, found: seq<nat>)
    requires Sorted(sorted) && Narrowed(text, sorted, i, depth, low, high, found)
    requires low < high <= |sorted| && |sorted[low]| != depth
    ensures forall k :: low <= k < high ==> |sorted[k]| > depth
    ensures forall j, k :: low <= j < k < high ==> sorted[j][depth] <= sorted[k][depth]
  {
    forall k | low <= k < high ensures |sorted[k]| > depth {
      if k > low { LessAfterShared(sorted[low], sorted[k], depth); }
    }
    forall j, k | low <= j < k < high ensures sorted[j][depth] <= sorted[k][depth] {
      LessAfterShared(sorted[j], sorted[k], depth);
    }
  }

  /** The range is what the cost counts. */
  lemma RangeCost(text: Text, sorted: seq<Text>, forms: set<Text>, i: nat, depth: nat, low: nat, high: nat,
                  found: seq<nat>)
    requires Sorted(sorted) && (forall f :: f in forms <==> f in sorted)
    requires Narrowed(text, sorted, i, depth, low, high, found)
    requires i + depth < |text| && low < high <= |sorted|
    requires forall k :: low <= k < high ==> |sorted[k]| > depth
    ensures NarrowCost(text, forms, i, depth) ==
              (if high - low == 1 then 1 else 2 * CeilLog2(high - low + 1)) + NarrowCost(text, forms, i, depth + 1)
  {
    hide CeilLog2;
    DistinctCount(sorted, low, high);
    var range := set k | low <= k < high :: sorted[k];
    var agreeing := Agreeing(text, forms, i, depth);
    assert range <= agreeing;
    assert agreeing <= range;
    assert agreeing == range;
  }

  lemma NothingAgrees(text: Text, sorted: seq<Text>, forms: set<Text>, i: nat, depth: nat)
    requires forall f :: f in forms <==> f in sorted
    requires i + depth <= |text|
    requires forall k :: 0 <= k < |sorted| && |sorted[k]| > depth ==> sorted[k][..depth] != text[i..i + depth]
    ensures NarrowCost(text, forms, i, depth) == 0
  {
    assert Agreeing(text, forms, i, depth) == {};
  }

  lemma LoneMismatch(text: Text, sorted: seq<Text>, forms: set<Text>, i: nat, depth: nat, low: nat, found: seq<nat>)
    requires forall f :: f in forms <==> f in sorted
    requires Narrowed(text, sorted, i, depth, low, low + 1, found)
    requires i + depth < |text| && |sorted[low]| > depth && sorted[low][depth] != text[i + depth]
    ensures NarrowCost(text, forms, i, depth + 1) == 0 && NarrowEndsAlone(text, forms, i, depth)
  {
    LoneNarrowCost(text, sorted, forms, i, depth, low, found);
    hide NarrowCost;
    var agreeing := Agreeing(text, forms, i, depth);
    forall f | f in agreeing ensures f == sorted[low] {
      var k :| 0 <= k < |sorted| && sorted[k] == f;
    }
    assert sorted[low] in agreeing;
    assert agreeing == {sorted[low]};
  }

  lemma LoneNarrowCost(text: Text, sorted: seq<Text>, forms: set<Text>, i: nat, depth: nat, low: nat, found: seq<nat>)
    requires forall f :: f in forms <==> f in sorted
    requires Narrowed(text, sorted, i, depth, low, low + 1, found)
    requires i + depth < |text| && |sorted[low]| > depth && sorted[low][depth] != text[i + depth]
    ensures NarrowCost(text, forms, i, depth + 1) == 0
  {
    forall k | 0 <= k < |sorted| && |sorted[k]| > depth + 1 ensures sorted[k][..depth + 1] != text[i..i + depth + 1] {
      var here := text[i..i + depth + 1];
      assert here[..depth] == text[i..i + depth] && here[depth] == text[i + depth];
      assert sorted[k][..depth] == sorted[k][..depth + 1][..depth];
      assert sorted[k][depth] == sorted[k][..depth + 1][depth];
    }
    NothingAgrees(text, sorted, forms, i, depth + 1);
  }

  /** After a comparison that is checked, the charges still to come decide. */
  lemma CheckedStep(text: Text, sorted: seq<Text>, forms: set<Text>, i: nat, depth: nat, low: nat, high: nat,
                    found: seq<nat>)
    requires Sorted(sorted) && (forall f :: f in forms <==> f in sorted)
    requires Narrowed(text, sorted, i, depth, low, high, found)
    requires i + depth < |text| && low < high <= |sorted| && forall k :: low <= k < high ==> |sorted[k]| > depth
    requires high - low == 1 ==> sorted[low][depth] == text[i + depth]
    ensures NarrowEndsAlone(text, forms, i, depth) <==> NarrowEndsAlone(text, forms, i, depth + 1)
    ensures NarrowCost(text, forms, i, depth + 1) == 0 ==> !NarrowEndsAlone(text, forms, i, depth + 1)
  {
    hide NarrowCost;
    NoChargeNotAlone(text, forms, i, depth + 1);
    var agreeing := Agreeing(text, forms, i, depth);
    assert sorted[low] in agreeing;
    if high - low == 1 {
      assert sorted[low][depth] == text[i + depth];
    } else {
      LoneIsAlone(text, sorted, forms, i, depth, low, high, found);
    }
  }

  lemma NoChargeNotAlone(text: Text, forms: set<Text>, i: nat, d: nat)
    requires i + d <= |text|
    ensures NarrowCost(text, forms, i, d) == 0 ==> !NarrowEndsAlone(text, forms, i, d)
  {
    var agreeing := Agreeing(text, forms, i, d);
    assert |agreeing| == 0 ==> agreeing == {};
  }

  lemma LoneIsAlone(text: Text, sorted: seq<Text>, forms: set<Text>, i: nat, depth: nat, low: nat, high: nat,
                    found: seq<nat>)
    requires Sorted(sorted) && (forall f :: f in forms <==> f in sorted)
    requires Narrowed(text, sorted, i, depth, low, high, found)
    requires i + depth < |text| && low + 1 < high <= |sorted| && forall k :: low <= k < high ==> |sorted[k]| > depth
    ensures |Agreeing(text, forms, i, depth)| != 1
  {
    var agreeing := Agreeing(text, forms, i, depth);
    SortedDistinct(sorted);
    assert sorted[low] in agreeing && sorted[low + 1] in agreeing - {sorted[low]};
    assert |agreeing - {sorted[low]}| == |agreeing| - 1;
  }

  /** Narrows the forms that start with the text at `i`, and answers the lengths
      of those that occur there, shortest first. */
  method MatchesAt(text: Text, sorted: seq<Text>, ghost forms: set<Text>, i: nat, range: (nat, nat), allowance: int)
    returns (exhausted: bool, found: seq<nat>, left: int)
    requires Sorted(sorted) && [] !in sorted && (forall f :: f in forms <==> f in sorted)
    requires i < |text| && allowance >= 0
    requires range.0 <= range.1 <= |sorted|
    requires forall k :: range.0 <= k < range.1 ==> sorted[k][0] == text[i]
    requires forall k :: 0 <= k < |sorted| && sorted[k][0] == text[i] ==> range.0 <= k < range.1
    ensures var cost := NarrowCost(text, forms, i, 1);
            exhausted <==> cost > allowance && !(cost == allowance + 1 && NarrowEndsAlone(text, forms, i, 1))
    ensures !exhausted ==> left == allowance - NarrowCost(text, forms, i, 1)
    ensures !exhausted ==> AllLengths(text, sorted, i, found)
  {
    hide Narrowed, Sorted, NarrowCost, NarrowEndsAlone, AllLengths;
    found, left := [], allowance;
    var low: nat, high: nat := range.0, range.1;
    var depth: nat := 1;
    FirstUnit(text, sorted, i, low, high);
    ghost var cost, alone := NarrowCost(text, forms, i, 1), NarrowEndsAlone(text, forms, i, 1);
    while low < high
      invariant low <= high <= |sorted| && i + depth <= |text|
      invariant Narrowed(text, sorted, i, depth, low, high, found)
      invariant left >= 0 && left == allowance - (cost - NarrowCost(text, forms, i, depth))
      invariant alone <==> NarrowEndsAlone(text, forms, i, depth)
      decreases |text| - i - depth, high - low
    {
      if |sorted[low]| == depth {
        TakeFound(text, sorted, i, depth, low, high, found);
        found := found + [depth];
        low := low + 1;
        continue;
      }
      if i + depth >= |text| {
        AllFound(text, sorted, forms, i, depth, low, high, found);
        return false, found, left;
      }
      var unit: int := text[i + depth];
      RangeSorted(text, sorted, i, depth, low, high, found);
      RangeCost(text, sorted, forms, i, depth, low, high, found);
      ghost var low0, high0 := low, high;
      if high - low == 1 {
        left := left - 1;
        if sorted[low][depth] != unit {
          AllFound(text, sorted, forms, i, depth, low, high, found);
          return false, found, left;
        }
        CheckedStep(text, sorted, forms, i, depth, low, high, found);
      } else {
        CheckedStep(text, sorted, forms, i, depth, low, high, found);
        left := left - 2 * CeilLog2(high - low + 1);
        ghost var compared;
        low, compared := FirstFrom(sorted, low, high, depth, unit);
        high, compared := FirstFrom(sorted, low, high, depth, unit + 1);
      }
      if left < 0 { return true, found, left; }
      Deeper(text, sorted, i, depth, low0, high0, found, low, high);
      depth := depth + 1;
    }
    AllFound(text, sorted, forms, i, depth, low, high, found);
    return false, found, left;
  }

  /** The longest of the forms found at `i` that ends whole, 0 when none does. */
  method LongestWhole(alnum: Text -> bool, text: Text, sorted: seq<Text>, ghost forms: set<Text>, i: nat,
                      found: seq<nat>)
    returns (length: nat)
    requires i <= |text| && [] !in sorted && (forall f :: f in forms <==> f in sorted)
    requires MayStart(alnum, text, i)
    requires AllLengths(text, sorted, i, found)
    ensures length == LongestAt(alnum, text, forms, i)
  {
    hide EndsWhole, MayStart;
    ghost var longest := LongestAt(alnum, text, forms, i);
    assert longest > 0 ==> longest in found;
    var k := |found|;
    while k > 0
      invariant 0 <= k <= |found|
      invariant forall j :: k <= j < |found| ==> !EndsWhole(alnum, text, i + found[j])
    {
      k := k - 1;
      assert found[k] in found;
      if EndsWhole(alnum, text, i + found[k]) {
        assert EndsAt(alnum, text, forms, i, found[k]);
        return found[k];
      }
    }
    return 0;
  }

  lemma SomeStartsHere(alnum: Text -> bool, text: Text, forms: set<Text>, i: nat)
    requires i < |text|
    ensures LongestAt(alnum, text, forms, i) > 0 ==> SomeStartsWith(forms, text[i])
  {
    hide EndsWhole, MayStart;
    var here := text[i..i + LongestAt(alnum, text, forms, i)];
    assert here != [] ==> here in forms && here[0] == text[i];
  }

  lemma RenderStep(alnum: Text -> bool, text: Text, forms: set<Text>, i: nat, kept: nat)
    requires kept <= i < |text|
    ensures Ordered(text, Spans(alnum, text, forms, i), kept)
    ensures var n := LongestAt(alnum, text, forms, i);
            var next := Next(alnum, text, forms, i);
            && Ordered(text, Spans(alnum, text, forms, next), if n > 0 then next else kept)
            && Render(text, Spans(alnum, text, forms, i), kept) ==
                 if n > 0 then text[kept..i] + MARK + Render(text, Spans(alnum, text, forms, next), next)
                 else Render(text, Spans(alnum, text, forms, next), kept)
  {
    hide EndsAt, MayStart;
    SpansOrdered(alnum, text, forms, i);
    SpansOrdered(alnum, text, forms, Next(alnum, text, forms, i));
    var rest := Spans(alnum, text, forms, Next(alnum, text, forms, i));
    if LongestAt(alnum, text, forms, i) > 0 {
      assert Spans(alnum, text, forms, i)[1..] == rest;
    } else {
      assert Spans(alnum, text, forms, i) == rest;
    }
  }

  ghost function NonEmpty(forms: seq<Text>): set<Text> {
    set f | f in forms && f != []
  }

  lemma CostStep(alnum: Text -> bool, text: Text, forms: set<Text>, i: nat)
    requires i < |text|
    ensures Cost(alnum, text, forms, i) ==
              PlaceCost(alnum, text, forms, i) + Cost(alnum, text, forms, Next(alnum, text, forms, i))
  {
    hide PlaceCost, Next;
  }

  lemma AtEnd(alnum: Text -> bool, text: Text, forms: set<Text>, kept: nat)
    requires kept <= |text| && Ordered(text, Spans(alnum, text, forms, |text|), kept)
    ensures Render(text, Spans(alnum, text, forms, |text|), kept) == text[kept..]
    ensures Cost(alnum, text, forms, |text|) == 0
  {
  }

  lemma UncheckedStep(alnum: Text -> bool, text: Text, forms: set<Text>, i: nat)
    requires i < |text|
    ensures var next := Next(alnum, text, forms, i);
            EndsUnchecked(alnum, text, forms, i) <==>
              if Cost(alnum, text, forms, next) > 0 then EndsUnchecked(alnum, text, forms, next)
              else PlaceEndsAlone(alnum, text, forms, i)
  {
    hide PlaceEndsAlone, Next, Cost;
  }

  lemma ShownIs(alnum: Text -> bool, text: Text, forms: set<Text>)
    ensures Ordered(text, Spans(alnum, text, forms, 0), 0)
    ensures Shown(alnum, text, forms) == Render(text, Spans(alnum, text, forms, 0), 0)
  {
    hide Spans, Ordered, Render;
    SpansOrdered(alnum, text, forms, 0);
  }

  /** The scan with a given budget shows the reference text exactly when it can be
      afforded, and else hides the text whole. */
  method HideWithin(alnum: Text -> bool, text: Text, forms: seq<Text>, budget: nat) returns (shown: Text)
    ensures shown ==
      if Affordable(alnum, text, NonEmpty(forms), budget) then Shown(alnum, text, NonEmpty(forms)) else MARK
  {
    ghost var all := NonEmpty(forms);
    hide EndsAt, MayStart, PlaceCost, LongestAt, Spans, Ordered, Shown;
    hide Cost, EndsUnchecked, PlaceEndsAlone, Sorted, Ranges, Render, CodePointLength;
    var sorted := SortedForms(forms);
    ghost var cost, unchecked := Cost(alnum, text, all, 0), EndsUnchecked(alnum, text, all, 0);
    var starting := StartingRanges(sorted);
    var allowance: int := budget;
    shown := [];
    var kept: nat, index: nat := 0, 0;
    ShownIs(alnum, text, all);
    while index < |text|
      invariant kept <= index <= |text|
      invariant Ordered(text, Spans(alnum, text, all, index), kept)
      invariant shown + Render(text, Spans(alnum, text, all, index), kept) == Shown(alnum, text, all)
      invariant allowance >= -1 && allowance == budget - (cost - Cost(alnum, text, all, index))
      invariant Cost(alnum, text, all, index) > 0 ==> (unchecked <==> EndsUnchecked(alnum, text, all, index))
      invariant allowance == -1 && Cost(alnum, text, all, index) == 0 ==> unchecked
      decreases |text| - index
    {
      var exhausted, length, left := PlaceAt(alnum, text, sorted, all, starting, index, allowance);
      CostStep(alnum, text, all, index);
      UncheckedStep(alnum, text, all, index);
      if exhausted { return MARK; }
      allowance := left;
      RenderStep(alnum, text, all, index, kept);
      if length > 0 {
        ghost var rest := Render(text, Spans(alnum, text, all, index + length), index + length);
        Joined(shown, text[kept..index] + MARK, rest);
        Joined(shown, text[kept..index], MARK);
        shown := shown + text[kept..index] + MARK;
        index := index + length;
        kept := index;
      } else {
        index := index + CodePointLength(text, index);
      }
    }
    AtEnd(alnum, text, all, kept);
    shown := shown + text[kept..];
  }

  method HidePaths(alnum: Text -> bool, text: Text, forms: seq<Text>) returns (shown: Text)
    ensures shown ==
      if Affordable(alnum, text, NonEmpty(forms), 4_000_000) then Shown(alnum, text, NonEmpty(forms)) else MARK
    ensures Affordable(alnum, text, NonEmpty(forms), 4_000_000) ==>
      exists spans ::
        && LeftmostLongest(alnum, text, (set f | f in forms && f != []), spans)
        && shown == Render(text, spans, 0)
  {
    hide Affordable, Shown, LeftmostLongest, Render;
    ghost var all := set f | f in forms && f != [];
    SpansLeftmostLongest(alnum, text, all);
    ShownIs(alnum, text, all);
    assert all == NonEmpty(forms);
    shown := HideWithin(alnum, text, forms, ALLOWANCE);
  }

  /** One place of the text: charges it and finds the form to replace there. */
  method PlaceAt(alnum: Text -> bool, text: Text, sorted: seq<Text>, ghost forms: set<Text>,
                 starting: map<Unit, (nat, nat)>, i: nat, allowance: int)
    returns (exhausted: bool, length: nat, left: int)
    requires Sorted(sorted) && [] !in sorted && (forall f :: f in forms <==> f in sorted)
    requires i < |text| && allowance >= -1
    requires Ranges(sorted, |sorted|, starting)
    ensures var cost := PlaceCost(alnum, text, forms, i);
            exhausted <==>
              cost > 0 && cost > allowance && !(cost == allowance + 1 && PlaceEndsAlone(alnum, text, forms, i))
    ensures !exhausted ==> length == LongestAt(alnum, text, forms, i)
    ensures !exhausted ==> left == allowance - PlaceCost(alnum, text, forms, i)
  {
    hide EndsAt, MayStart;
    if text[i] in starting {
      var range := starting[text[i]];
      assert sorted[range.0] in forms && sorted[range.0][0] == text[i];
      assert SomeStartsWith(forms, text[i]);
      left := allowance - 1;
      if left < 0 { return true, 0, left; }
      if MayStart(alnum, text, i) {
        var found;
        exhausted, found, left := MatchesAt(text, sorted, forms, i, range, left);
        if exhausted { return true, 0, left; }
        length := LongestWhole(alnum, text, sorted, forms, i, found);
        return false, length, left;
      }
      return false, 0, left;
    } else {
      SomeStartsHere(alnum, text, forms, i);
      return false, 0, allowance;
    }
  }

  /** The narrowing of "a" and one more unit against the one form "ax". */
  lemma OneFormNarrows(u: Unit)
    ensures var forms: set<Text> := {[0x61, 0x78]};
            && NarrowCost([0x61, u], forms, 0, 1) == 1
            && (NarrowEndsAlone([0x61, u], forms, 0, 1) <==> u != 0x78)
  {
    var form: Text, text: Text := [0x61, 0x78], [0x61, u];
    var forms: set<Text> := {form};
    assert form[..1] == [0x61] == text[0..1];
    assert Agreeing(text, forms, 0, 1) == {form};
    assert Agreeing(text, forms, 0, 2) == {};
    assert NarrowCost(text, forms, 0, 2) == 0;
  }

  /** Its second unit costs nothing. */
  lemma OneFormRest(alnum: Text -> bool, u: Unit)
    requires u != 0x61
    ensures var forms: set<Text> := {[0x61, 0x78]};
            Cost(alnum, [0x61, u], forms, 1) == 0 && Cost(alnum, [0x61, u], forms, 2) == 0
  {
    hide EndsAt, MayStart, NarrowCost, LongestAt;
    var text: Text, forms: set<Text> := [0x61, u], {[0x61, 0x78]};
    assert text[1] == u;
    assert !SomeStartsWith(forms, u);
    assert Next(alnum, text, forms, 1) == 2;
  }

  /** One over the budget, both ways: with the one form "ax" and a budget of one, every
      text of "a" and another unit costs two comparisons; it is hidden whole exactly when
      that unit is "x", for otherwise the second comparison is a lone mismatch. */
  lemma OneOverBothWays(alnum: Text -> bool, u: Unit)
    requires u != 0x61
    ensures var forms: set<Text> := {[0x61, 0x78]};
            && Cost(alnum, [0x61, u], forms, 0) == 2
            && (Affordable(alnum, [0x61, u], forms, 1) <==> u != 0x78)
  {
    hide EndsAt, NarrowCost, NarrowEndsAlone, LongestAt;
    var form: Text, text: Text := [0x61, 0x78], [0x61, u];
    var forms: set<Text> := {form};
    OneFormNarrows(u);
    OneFormRest(alnum, u);
    assert form in forms && form[0] == 0x61;
    assert SomeStartsWith(forms, text[0]) && MayStart(alnum, text, 0);
    CostStep(alnum, text, forms, 0);
    UncheckedStep(alnum, text, forms, 0);
    hide Cost, EndsUnchecked, MayStart, SomeStartsWith;
    assert Next(alnum, text, forms, 0) == 1 || Next(alnum, text, forms, 0) == 2;
  }
}
