/** The sentence that says which file a request reaches, and reading it back. */
module FileLine {

  import opened Wrappers

  datatype Line = Inside(file: string) | Outside(file: string) | Link(file: string, link: string)

  const START := "The file "
  const INSIDE := " in the session worktree"
  const OUTSIDE := ", outside the session worktree"
  const THROUGH := ", through a link at "
  const MIDDLE := OUTSIDE + THROUGH

  /** The sentence after its fixed start and before its full stop. */
  function Body(line: Line): string {
    match line
    case Inside(file) => file + INSIDE
    case Outside(file) => file + OUTSIDE
    case Link(file, link) => file + MIDDLE + link
  }

  function Rendered(line: Line): string {
    START + Body(line) + "."
  }

  function Paths(line: Line): seq<string> {
    if line.Link? then [line.link, line.file] else [line.file]
  }

  predicate NonEmpty(line: Line) {
    forall i | 0 <= i < |Paths(line)| :: Paths(line)[i] != ""
  }

  predicate At(s: string, p: nat, w: string) {
    p + |w| <= |s| && s[p..p + |w|] == w
  }

  predicate Contains(s: string, w: string) {
    exists p: nat | p <= |s| :: At(s, p, w)
  }

  predicate EndsWith(s: string, w: string) {
    |w| <= |s| && s[|s| - |w|..] == w
  }

  // ---------------------------------------------------------------- reading

  /** The first place from `from` on where `w` stands. */
  method IndexOf(s: string, w: string, from: nat) returns (at: Option<nat>)
    ensures at.Some? ==>
        && from <= at.value <= |s| && At(s, at.value, w)
        && forall p: nat :: from <= p < at.value ==> !At(s, p, w)
    ensures at.None? ==> forall p: nat :: from <= p ==> !At(s, p, w)
  {
    var p := from;
    while p + |w| <= |s|
      invariant from <= p && forall q: nat :: from <= q < p ==> !At(s, q, w)
      decreases |s| - p
    {
      if s[p..p + |w|] == w { return Some(p); }
      p := p + 1;
    }
    at := None;
  }

  function LinkAt(rest: string, at: nat): Line
    requires At(rest, at, MIDDLE)
  {
    Link(rest[..at], rest[at + |MIDDLE|..])
  }

  lemma LinkBody(rest: string, at: nat)
    requires At(rest, at, MIDDLE)
    ensures Body(LinkAt(rest, at)) == rest && |LinkAt(rest, at).file| == at
  {
    assert rest == rest[..at] + rest[at..at + |MIDDLE|] + rest[at + |MIDDLE|..];
  }

  lemma LinkFound(line: Line)
    requires line.Link?
    ensures At(Body(line), |line.file|, MIDDLE) && LinkAt(Body(line), |line.file|) == line
  {
    var rest := Body(line);
    assert rest[|line.file|..|line.file| + |MIDDLE|] == MIDDLE;
    assert rest[..|line.file|] == line.file;
    assert rest[|line.file| + |MIDDLE|..] == line.link;
  }

  ghost predicate Distinct(lines: seq<Line>) {
    forall i, j :: 0 <= i < j < |lines| ==> lines[i] != lines[j]
  }

  ghost predicate LinksBelow(lines: seq<Line>, bound: nat) {
    forall i :: 0 <= i < |lines| && lines[i].Link? ==> |lines[i].file| < bound
  }

  /** Every link reading whose middle stands before `bound`, and the other two forms. */
  ghost predicate Read(lines: seq<Line>, rest: string, bound: nat) {
    && (forall r :: r in lines ==> Body(r) == rest)
    && (forall r :: Body(r) == rest && (!r.Link? || |r.file| < bound) ==> r in lines)
    && LinksBelow(lines, bound) && Distinct(lines)
  }

  lemma ReadMore(lines: seq<Line>, rest: string, bound: nat, at: nat)
    requires Read(lines, rest, bound) && bound <= at && At(rest, at, MIDDLE)
    requires forall p: nat :: bound <= p < at ==> !At(rest, p, MIDDLE)
    ensures Read(lines + [LinkAt(rest, at)], rest, at + 1)
  {
    LinkBody(rest, at);
    var more := lines + [LinkAt(rest, at)];
    forall r | Body(r) == rest && (!r.Link? || |r.file| < at + 1) ensures r in more {
      if r.Link? {
        LinkFound(r);
        if |r.file| < bound { assert r in lines; }
        else { assert r == more[|lines|]; }
      } else {
        assert r in lines;
      }
    }
    forall i, j | 0 <= i < j < |more| ensures more[i] != more[j] {
      if j == |lines| { assert more[i] == lines[i]; }
    }
  }

  lemma ReadEnd(lines: seq<Line>, rest: string, bound: nat)
    requires Read(lines, rest, bound) && forall p: nat :: bound <= p ==> !At(rest, p, MIDDLE)
    ensures (forall r :: r in lines <==> Body(r) == rest) && Distinct(lines)
  {
    forall r | Body(r) == rest ensures r in lines {
      if r.Link? { LinkFound(r); }
    }
  }

  function Filtered(lines: seq<Line>): seq<Line> {
    if lines == [] then [] else (if NonEmpty(lines[0]) then [lines[0]] else []) + Filtered(lines[1..])
  }

  lemma {:induction false} FilteredIs(lines: seq<Line>)
    ensures forall r :: r in Filtered(lines) <==> r in lines && NonEmpty(r)
    ensures Distinct(lines) ==> Distinct(Filtered(lines))
  {
    if lines != [] {
      FilteredIs(lines[1..]);
      assert forall r :: r in lines <==> r == lines[0] || r in lines[1..];
      assert Distinct(lines) ==> Distinct(lines[1..]) && lines[0] !in lines[1..];
    }
  }

  /** Exactly the lines with non-empty paths that are written as this text, each once. */
  method FileLineReadings(affects: string) returns (readings: seq<Line>)
    ensures forall r :: r in readings <==> NonEmpty(r) && Rendered(r) == affects
    ensures Distinct(readings)
  {
    if |affects| < |START| || affects[..|START|] != START {
      assert forall r :: Rendered(r)[..|START|] == START;
      return [];
    }
    var body := affects[|START|..];
    if !EndsWith(body, ".") {
      NoStop(affects, body);
      return [];
    }
    var rest := body[..|body| - 1];
    Unframed(affects, rest);
    var lines := BodyReadings(rest);
    hide Rendered, Body;
    FilteredIs(lines);
    readings := Filtered(lines);
  }

  /** Every line with this body, each once. */
  method BodyReadings(rest: string) returns (lines: seq<Line>)
    ensures forall r :: r in lines <==> Body(r) == rest
    ensures Distinct(lines)
  {
    lines := EndReadings(rest);
    hide EndsWith, InsideRead, OutsideRead, Body, Read, Distinct, At, LinkAt;
    ReadStart(lines, rest);
    var at := IndexOf(rest, MIDDLE, 0);
    ghost var bound: nat := 0;
    while at.Some?
      invariant Read(lines, rest, bound)
      invariant at.Some? ==> bound <= at.value <= |rest| && At(rest, at.value, MIDDLE)
      invariant at.Some? ==> forall p: nat :: bound <= p < at.value ==> !At(rest, p, MIDDLE)
      invariant at.None? ==> forall p: nat :: bound <= p ==> !At(rest, p, MIDDLE)
      decreases |rest| + 1 - bound, at.Some?
    {
      ReadMore(lines, rest, bound, at.value);
      lines := lines + [LinkAt(rest, at.value)];
      bound := at.value + 1;
      at := IndexOf(rest, MIDDLE, at.value + 1);
    }
    ReadEnd(lines, rest, bound);
  }

  method EndReadings(rest: string) returns (lines: seq<Line>)
    ensures lines == InsideRead(rest) + OutsideRead(rest)
  {
    lines := [];
    if EndsWith(rest, INSIDE) { lines := lines + [Inside(rest[..|rest| - |INSIDE|])]; }
    if EndsWith(rest, OUTSIDE) { lines := lines + [Outside(rest[..|rest| - |OUTSIDE|])]; }
  }

  lemma EndSplits(rest: string, end: string)
    ensures EndsWith(rest, end) ==> rest[..|rest| - |end|] + end == rest
  {
  }

  lemma EndFound(file: string, end: string)
    ensures EndsWith(file + end, end) && (file + end)[..|file + end| - |end|] == file
  {
  }

  lemma ReadStart(lines: seq<Line>, rest: string)
    requires lines == InsideRead(rest) + OutsideRead(rest)
    ensures Read(lines, rest, 0)
  {
    InsideReads(rest);
    OutsideReads(rest);
    hide InsideRead, OutsideRead, Body;
    var a, b := InsideRead(rest), OutsideRead(rest);
    assert forall r :: r in lines <==> r in a || r in b;
    assert |a| > 0 ==> a[0] in a && lines[0] == a[0];
    assert |b| > 0 ==> b[0] in b && lines[|a|] == b[0];
    assert Distinct(lines);
  }

  /** The inside line with this body, if there is one. */
  function InsideRead(rest: string): seq<Line> {
    if EndsWith(rest, INSIDE) then [Inside(rest[..|rest| - |INSIDE|])] else []
  }

  function OutsideRead(rest: string): seq<Line> {
    if EndsWith(rest, OUTSIDE) then [Outside(rest[..|rest| - |OUTSIDE|])] else []
  }

  lemma InsideReads(rest: string)
    ensures forall r :: r in InsideRead(rest) <==> r.Inside? && Body(r) == rest
    ensures |InsideRead(rest)| <= 1
  {
    EndSplits(rest, INSIDE);
    forall r: Line | r.Inside? && Body(r) == rest ensures r in InsideRead(rest) { EndRead(r); }
    hide EndsWith;
  }

  lemma OutsideReads(rest: string)
    ensures forall r :: r in OutsideRead(rest) <==> r.Outside? && Body(r) == rest
    ensures |OutsideRead(rest)| <= 1
  {
    EndSplits(rest, OUTSIDE);
    forall r: Line | r.Outside? && Body(r) == rest ensures r in OutsideRead(rest) { EndRead(r); }
    hide EndsWith;
  }

  /** A line of the first two forms is read off the end of its body. */
  lemma EndRead(r: Line)
    requires !r.Link?
    ensures var (rest, end) := (Body(r), if r.Inside? then INSIDE else OUTSIDE);
            EndsWith(rest, end) && rest[..|rest| - |end|] == r.file
  {
    hide EndsWith;
    EndFound(r.file, if r.Inside? then INSIDE else OUTSIDE);
  }

  lemma NoStop(affects: string, body: string)
    requires |affects| >= |START| && body == affects[|START|..]
    ensures forall r :: Rendered(r) == affects ==> EndsWith(body, ".")
  {
    forall r | Rendered(r) == affects ensures EndsWith(body, ".") {
      assert body == Body(r) + ".";
    }
  }

  lemma Unframed(affects: string, rest: string)
    requires |affects| > |START| && affects[..|START|] == START && affects[|affects| - 1..] == "."
    requires rest == affects[|START|..|affects| - 1]
    ensures forall r :: Rendered(r) == affects <==> Body(r) == rest
  {
    assert affects == START + rest + ".";
    forall r ensures Rendered(r) == affects <==> Body(r) == rest {
      if Rendered(r) == affects {
        assert |Body(r)| == |rest|;
        assert affects[|START|..|affects| - 1] == Body(r);
      }
    }
  }

  // ---------------------------------------------------------------- when there is one reading

  /** No path holds any of the sentences' own wording. */
  predicate Free(line: Line) {
    forall i | 0 <= i < |Paths(line)| ::
      !Contains(Paths(line)[i], INSIDE) && !Contains(Paths(line)[i], OUTSIDE) && !Contains(Paths(line)[i], THROUGH)
  }

  /** The one link name that reads as the end of another sentence. */
  const AMBIGUOUS := "in the session worktree"

  lemma Commas(i: nat)
    requires 0 < i < |MIDDLE| && MIDDLE[i] == ','
    ensures i == 30
  {
  }

  lemma OutsideCharacters(i: nat)
    requires 20 <= i < 30
    ensures OUTSIDE[i] != ',' && (26 <= i ==> OUTSIDE[i] != ' ')
  {
  }

  lemma InsideBlanks(i: nat)
    requires i < 24 && INSIDE[i] == ' '
    ensures i == 0 || i == 3 || i == 7 || i == 15
  {
  }

  lemma OutsideBlanks(i: nat)
    requires i < 30 && OUTSIDE[i] == ' '
    ensures i == 1 || i == 9 || i == 13 || i == 21
  {
  }

  lemma Within(whole: string, from: nat, part: string, p: nat, w: string)
    requires At(whole, from, part) && from <= p && p + |w| <= from + |part| && At(whole, p, w)
    ensures Contains(part, w)
  {
    var d: nat := p - from;
    var a, b := part[d..d + |w|], whole[p..p + |w|];
    forall i | 0 <= i < |w| ensures a[i] == b[i] {
      assert a[i] == part[d + i];
      AtIndex(whole, from, part, d + i);
      assert whole[from + (d + i)] == whole[p + i];
    }
    assert a == b;
    assert At(part, p - from, w);
  }

  /** Where the three fixed wordings stand in a body. */
  lemma Stands(line: Line)
    ensures At(Body(line), 0, line.file)
    ensures line.Inside? ==> At(Body(line), |line.file|, INSIDE)
    ensures !line.Inside? ==> At(Body(line), |line.file|, OUTSIDE)
    ensures line.Link? ==> At(Body(line), |line.file|, MIDDLE) && At(Body(line), |line.file| + 50, line.link)
  {
    var b := Body(line);
    assert b[..|line.file|] == line.file;
    match line
    case Inside(f) => assert b[|f|..|f| + |INSIDE|] == INSIDE;
    case Outside(f) => assert b[|f|..|f| + |OUTSIDE|] == OUTSIDE;
    case Link(f, l) =>
      assert b[|f|..|f| + 50] == MIDDLE;
      assert b[|f|..|f| + 30] == b[|f|..|f| + 50][..30] == OUTSIDE;
      assert b[|f| + 50..|f| + 50 + |l|] == l;
  }

  lemma AtIndex(s: string, p: nat, w: string, i: nat)
    requires At(s, p, w) && i < |w|
    ensures s[p + i] == w[i]
  {
    assert s[p..p + |w|][i] == s[p + i];
  }

  /** Another line with the same text whose file is longer or shorter overlaps the
      fixed wording in a way that only paths with that wording allow. */
  lemma InsideAsLink(r: Line, q: Line)
    requires r.Inside? && q.Link? && Body(q) == Body(r)
    ensures Contains(r.file, OUTSIDE)
  {
    Stands(r);
    Stands(q);
    var f, p := |r.file|, |q.file|;
    assert |Body(r)| == f + 24 && |Body(q)| == p + 50 + |q.link|;
    if p + 30 <= f {
      Within(Body(r), 0, r.file, p, OUTSIDE);
    } else {
      AtIndex(Body(r), f, INSIDE, 0);
      AtIndex(Body(q), p, OUTSIDE, f - p);
      OutsideCharacters(f - p);
    }
  }

  lemma OutsideAsLink(r: Line, q: Line)
    requires r.Outside? && q.Link? && Body(q) == Body(r)
    ensures Contains(r.file, OUTSIDE)
  {
    Stands(r);
    Stands(q);
    var f, p := |r.file|, |q.file|;
    assert |Body(r)| == f + 30 && |Body(q)| == p + 50 + |q.link|;
    if p + 30 <= f {
      Within(Body(r), 0, r.file, p, OUTSIDE);
    } else {
      AtIndex(Body(r), f, OUTSIDE, 0);
      AtIndex(Body(q), p, OUTSIDE, f - p);
      OutsideCharacters(f - p);
    }
  }

  lemma LinkAsLink(r: Line, q: Line)
    requires r.Link? && q.Link? && Body(q) == Body(r) && q != r
    ensures Contains(r.file, OUTSIDE) || Contains(r.link, OUTSIDE)
  {
    Stands(r);
    Stands(q);
    LinkFound(r);
    LinkFound(q);
    var f, p := |r.file|, |q.file|;
    assert f != p;
    if p < f {
      if p + 50 > f { EarlierMiddle(Body(r), p, f); }
      Within(Body(r), 0, r.file, p, OUTSIDE);
    } else if p < f + 50 {
      LaterMiddle(Body(r), f, p);
    } else {
      Within(Body(r), f + 50, r.link, p, OUTSIDE);
    }
  }

  lemma EarlierMiddle(b: string, p: nat, f: nat)
    requires At(b, f, MIDDLE) && At(b, p, MIDDLE) && p < f < p + 50
    ensures p + 30 <= f
  {
    AtIndex(b, f, MIDDLE, 0);
    AtIndex(b, p, MIDDLE, f - p);
    Commas(f - p);
  }

  /** The middle does not stand twice overlapping. */
  lemma LaterMiddle(b: string, f: nat, p: nat)
    requires At(b, f, MIDDLE) && At(b, p, MIDDLE) && f <= p < f + 50
    ensures p == f
  {
    if f < p {
      AtIndex(b, p, MIDDLE, 0);
      AtIndex(b, f, MIDDLE, p - f);
      Commas(p - f);
      AtIndex(b, p, MIDDLE, 2);
      AtIndex(b, f, MIDDLE, 32);
    }
  }

  lemma InsideNotOutside(r: Line, q: Line)
    requires r.Inside? && q.Outside?
    ensures Body(r) != Body(q)
  {
    Stands(r);
    Stands(q);
    AtIndex(Body(r), |r.file|, INSIDE, 0);
    AtIndex(Body(q), |q.file|, OUTSIDE, 6);
  }

  /** How a word can end a link sentence: it lies in the link, or its blank falls on the
      last blank of the middle. */
  lemma LinkEnd(r: Line, w: string, g: string)
    requires r.Link? && w != "" && Body(r) == g + w && |w| <= 30
    ensures |r.link| >= |w| ==> Contains(r.link, w)
    ensures |r.link| < |w| ==>
      w[|w| - 1 - |r.link|] == ' ' && (|w| - 1 - |r.link| >= 1 ==> w[|w| - 2 - |r.link|] == 't')
  {
    Stands(r);
    var b := Body(r);
    assert |b| == |r.file| + 50 + |r.link|;
    assert At(b, |g|, w);
    if |r.link| >= |w| {
      Within(b, |r.file| + 50, r.link, |g|, w);
    } else {
      AtIndex(b, |g|, w, |w| - 1 - |r.link|);
      AtIndex(b, |r.file|, MIDDLE, 49);
      if |w| - 1 - |r.link| >= 1 {
        AtIndex(b, |g|, w, |w| - 2 - |r.link|);
        AtIndex(b, |r.file|, MIDDLE, 48);
      }
    }
  }

  lemma LinkAsInside(r: Line, q: Line)
    requires r.Link? && q.Inside? && Body(q) == Body(r)
    ensures Contains(r.link, INSIDE) || (r.link == AMBIGUOUS && q == Inside(r.file + MIDDLE[..49]))
  {
    LinkEnd(r, INSIDE, q.file);
    if |r.link| < 24 {
      InsideBlanks(23 - |r.link|);
      assert |r.link| == 23;
      assert r.link == Body(r)[|Body(r)| - 23..] == INSIDE[1..];
      assert q.file == Body(r)[..|r.file| + 49] == r.file + MIDDLE[..49];
    }
  }

  lemma LinkAsOutside(r: Line, q: Line)
    requires r.Link? && q.Outside? && Body(q) == Body(r)
    ensures Contains(r.link, OUTSIDE)
  {
    LinkEnd(r, OUTSIDE, q.file);
    if |r.link| < 30 {
      OutsideBlanks(29 - |r.link|);
    }
  }

  /** A line whose paths hold none of the wording has no other reading, except one whose
      link is named like the end of the inside sentence: that has exactly one other. */
  lemma OneReading(r: Line, q: Line)
    requires Free(r) && Rendered(q) == Rendered(r)
    ensures q == r || (r.Link? && r.link == AMBIGUOUS && q == Inside(r.file + MIDDLE[..49]))
  {
    assert Body(q) == Body(r) by { SameBody(q, r); }
    hide Contains, Body;
    assert forall i | 0 <= i < |Paths(r)| :: !Contains(Paths(r)[i], OUTSIDE) && !Contains(Paths(r)[i], INSIDE);
    assert Paths(r)[|Paths(r)| - 1] == r.file && (r.Link? ==> Paths(r)[0] == r.link);
    if q != r {
      match (r, q)
      case (Inside(_), Link(_, _)) => InsideAsLink(r, q);
      case (Outside(_), Link(_, _)) => OutsideAsLink(r, q);
      case (Link(_, _), Link(_, _)) => LinkAsLink(r, q);
      case (Link(_, _), Inside(_)) => LinkAsInside(r, q);
      case (Link(_, _), Outside(_)) => LinkAsOutside(r, q);
      case (Inside(_), Outside(_)) => InsideNotOutside(r, q);
      case (Outside(_), Inside(_)) => InsideNotOutside(q, r);
      case _ => SameForm(r, q);
    }
  }

  lemma SameForm(r: Line, q: Line)
    requires !r.Link? && r.Inside? == q.Inside? && !q.Link? && Body(r) == Body(q)
    ensures r == q
  {
    var n := |Body(r)| - if r.Inside? then |INSIDE| else |OUTSIDE|;
    assert Body(r)[..n] == r.file && Body(q)[..n] == q.file;
  }

  lemma SameBody(r: Line, q: Line)
    requires Rendered(r) == Rendered(q)
    ensures Body(r) == Body(q)
  {
    Unframed(Rendered(q), Body(q));
  }

  /** The exception really is ambiguous. */
  lemma AmbiguousLink(file: string)
    ensures Rendered(Link(file, AMBIGUOUS)) == Rendered(Inside(file + MIDDLE[..49]))
    ensures NonEmpty(Inside(file + MIDDLE[..49]))
  {
    assert MIDDLE == MIDDLE[..49] + " ";
    assert INSIDE == " " + AMBIGUOUS;
    assert Body(Link(file, AMBIGUOUS)) == Body(Inside(file + MIDDLE[..49]));
  }

  // ---------------------------------------------------------------- reading a saved line back

  datatype Saved = Unreadable | Hidden | Named(paths: seq<string>)

  const REDACTED := "[REDACTED]"

  predicate LowerHex(c: char) { '0' <= c <= '9' || 'a' <= c <= 'f' }

  /** A backslash that an escape of a control or other character could have put there. */
  predicate EscapeAt(s: string, i: nat) {
    && i + 1 < |s| && s[i] == '\\'
    && (|| s[i + 1] in ['n', 'r', 't']
        || (s[i + 1] == 'u' && i + 5 < |s| && forall k | i + 2 <= k < i + 6 :: LowerHex(s[k])))
  }

  predicate ShortenedOrEscaped(s: string) {
    exists i: nat | i < |s| :: s[i] == '\U{2026}' || EscapeAt(s, i)
  }

  function Mapped(line: Line, shown: string -> string): Line {
    match line
    case Inside(file) => Inside(shown(file))
    case Outside(file) => Outside(shown(file))
    case Link(file, link) => Link(shown(file), shown(link))
  }

  predicate Ambiguous(line: Line) {
    line.Link? && line.link == AMBIGUOUS
  }

  /** What a line written for `r` is read back as. */
  function Judged(r: Line, shown: string -> string): Saved {
    if !Free(r) || Ambiguous(r) then Unreadable
    else if exists i | 0 <= i < |Paths(r)| :: Contains(Paths(r)[i], REDACTED) then Hidden
    else if exists i | 0 <= i < |Paths(r)| :: ShortenedOrEscaped(Paths(r)[i]) then Unreadable
    else if Rendered(Mapped(r, shown)) == Rendered(r) then Named(Paths(r))
    else Unreadable
  }

  lemma AmbiguousHasTwo(affects: string, readings: seq<Line>, r: Line)
    requires forall q :: q in readings <==> NonEmpty(q) && Rendered(q) == affects
    requires r in readings && Ambiguous(r)
    ensures |readings| != 1
  {
    AmbiguousLink(r.file);
    assert r == Link(r.file, AMBIGUOUS);
    var q := Inside(r.file + MIDDLE[..49]);
    assert q in readings && q != r;
  }

  lemma FreeHasOne(affects: string, readings: seq<Line>, r: Line)
    requires (forall q :: q in readings <==> NonEmpty(q) && Rendered(q) == affects) && Distinct(readings)
    requires r in readings && Free(r) && !Ambiguous(r)
    ensures readings == [r]
  {
    assert |readings| > 1 ==> readings[0] != readings[1] && readings[0] in readings && readings[1] in readings;
    forall q | q in readings ensures q == r { OneReading(r, q); }
    assert forall i :: 0 <= i < |readings| ==> readings[i] in readings;
    assert forall i :: 0 <= i < |readings| ==> readings[i] == r;
  }

  /** Whatever line with non-empty paths a text was written for decides what is read back;
      so if paths are named, they are the ones the text was written from. */
  method SavedFilePaths(affects: string, shown: string -> string) returns (saved: Saved)
    ensures forall r :: NonEmpty(r) && Rendered(r) == affects ==> saved == Judged(r, shown)
    ensures (forall r :: NonEmpty(r) ==> Rendered(r) != affects) ==> saved == Unreadable
  {
    hide Rendered, Contains, Mapped, ShortenedOrEscaped;
    var readings := FileLineReadings(affects);
    if |readings| != 1 {
      forall r | r in readings ensures Judged(r, shown) == Unreadable {
        if Free(r) && !Ambiguous(r) { FreeHasOne(affects, readings, r); }
      }
      return Unreadable;
    }
    var reading := readings[0];
    assert forall r :: r in readings ==> r == reading;
    assert reading in readings && NonEmpty(reading) && Rendered(reading) == affects;
    var paths := Paths(reading);
    if !Free(reading) { return Unreadable; }
    assert !Ambiguous(reading) by {
      if Ambiguous(reading) { AmbiguousHasTwo(affects, readings, reading); }
    }
    if exists i | 0 <= i < |paths| :: Contains(paths[i], REDACTED) { return Hidden; }
    if exists i | 0 <= i < |paths| :: ShortenedOrEscaped(paths[i]) { return Unreadable; }
    saved := if Rendered(Mapped(reading, shown)) == affects then Named(paths) else Unreadable;
  }

  // ---------------------------------------------------------------- the sentences, written out

  /** The three sentences. */
  ghost predicate Says(text: string, line: Line) {
    match line
    case Inside(file) => text == "The file " + file + " in the session worktree."
    case Outside(file) => text == "The file " + file + ", outside the session worktree."
    case Link(file, link) =>
      text == "The file " + file + ", outside the session worktree, through a link at " + link + "."
  }

  ghost predicate Has(s: string, part: string) {
    exists a, b :: s == a + part + b
  }

  /** A path of the line. */
  predicate IsPath(line: Line, path: string) {
    path == line.file || (line.Link? && path == line.link)
  }

  /** A path holds wording of the sentences, or its link name reads as the end of one. */
  ghost predicate Worded(line: Line) {
    || (line.Link? && line.link == "in the session worktree")
    || exists path :: IsPath(line, path)
         && (Has(path, " in the session worktree") || Has(path, ", outside the session worktree")
             || Has(path, ", through a link at "))
  }

  /** A path that was shortened, or shown with an escape: of a line end, a tab, or a
      character by its number. */
  ghost predicate Altered(path: string) {
    || Has(path, "\U{2026}") || Has(path, "\\n") || Has(path, "\\r") || Has(path, "\\t")
    || exists digits :: Has(path, "\\u" + digits) && |digits| == 4
         && forall k :: 0 <= k < 4 ==> digits[k] in "0123456789abcdef"
  }

  lemma RenderedSays(line: Line, text: string)
    ensures Rendered(line) == text <==> Says(text, line)
  {
    WordingIs();
    match line
    case Inside(file) => Framed(START, file, INSIDE, ".");
    case Outside(file) => Framed(START, file, OUTSIDE, ".");
    case Link(file, link) =>
      Framed(START, file + MIDDLE, link, ".");
      Framed(START, file, MIDDLE, link + ".");
      Framed(START, file, MIDDLE, link);
  }

  lemma WordingIs()
    ensures START == "The file " && INSIDE + "." == " in the session worktree."
    ensures OUTSIDE + "." == ", outside the session worktree."
    ensures MIDDLE == ", outside the session worktree, through a link at "
  {
  }

  lemma Framed(a: string, b: string, c: string, d: string)
    ensures a + (b + c) + d == a + b + (c + d) == a + b + c + d
  {
  }

  lemma ContainsIs(s: string, w: string)
    ensures Contains(s, w) <==> Has(s, w)
  {
    if Contains(s, w) {
      var p: nat :| p <= |s| && At(s, p, w);
      assert s == s[..p] + w + s[p + |w|..];
    }
    if a, b :| s == a + w + b { assert At(s, |a|, w); }
  }

  lemma AlteredIs(s: string)
    ensures ShortenedOrEscaped(s) <==> Altered(s)
  {
    hide Altered, ShortenedOrEscaped;
    if ShortenedOrEscaped(s) { StandsAltered(s); }
    if Altered(s) { AlteredStands(s); }
  }

  lemma StandsAltered(s: string)
    requires ShortenedOrEscaped(s)
    ensures Altered(s)
  {
    var i: nat :| i < |s| && (s[i] == '\U{2026}' || EscapeAt(s, i));
    hide Altered;
    if s[i] == '\U{2026}' { DotsAltered(s, i); } else { EscapeAltered(s, i); }
  }

  lemma DotsAltered(s: string, i: nat)
    requires i < |s| && s[i] == '\U{2026}'
    ensures Altered(s)
  {
    HasAt(s, i, "\U{2026}");
    hide Has;
  }

  lemma EscapeAltered(s: string, i: nat)
    requires EscapeAt(s, i)
    ensures Altered(s)
  {
    hide Altered;
    if s[i + 1] in ['n', 'r', 't'] {
      LetterAltered(s, i, ['\\', s[i + 1]]);
    } else {
      NumberAltered(s, i, s[i + 2..i + 6]);
    }
  }

  lemma LetterAltered(s: string, i: nat, w: string)
    requires i + 2 <= |s| && |w| == 2 && s[i] == w[0] && s[i + 1] == w[1] && w[0] == '\\' && w[1] in ['n', 'r', 't']
    ensures Altered(s)
  {
    HasAt(s, i, w);
    hide Has;
    assert w == "\\n" || w == "\\r" || w == "\\t";
  }

  lemma NumberAltered(s: string, i: nat, digits: string)
    requires i + 6 <= |s| && s[i] == '\\' && s[i + 1] == 'u' && digits == s[i + 2..i + 6]
    requires forall k :: i + 2 <= k < i + 6 ==> LowerHex(s[k])
    ensures Altered(s)
  {
    HasAt(s, i, "\\u" + digits);
    hide Has;
    forall k | 0 <= k < 4 ensures digits[k] in "0123456789abcdef" { DigitIn(s[i + 2 + k]); }
    hide LowerHex;
    assert |digits| == 4 && Has(s, "\\u" + digits);
  }

  lemma DigitIn(c: char)
    requires LowerHex(c)
    ensures c in "0123456789abcdef"
  {
  }

  lemma HasAt(s: string, i: nat, w: string)
    requires i + |w| <= |s| && forall k :: 0 <= k < |w| ==> s[i + k] == w[k]
    ensures Has(s, w)
  {
    assert s == s[..i] + w + s[i + |w|..];
  }

  lemma HasStands(s: string, w: string) returns (i: nat)
    requires Has(s, w)
    ensures At(s, i, w) && i + |w| <= |s|
  {
    var a, b :| s == a + w + b;
    i := |a|;
    assert s[|a|..|a| + |w|] == w;
  }

  lemma AlteredStands(s: string)
    requires Altered(s)
    ensures ShortenedOrEscaped(s)
  {
    hide Has;
    if Has(s, "\U{2026}") {
      var i := HasStands(s, "\U{2026}");
      AtIndex(s, i, "\U{2026}", 0);
    } else if Has(s, "\\n") {
      EscapeStands(s, "\\n");
    } else if Has(s, "\\r") {
      EscapeStands(s, "\\r");
    } else if Has(s, "\\t") {
      EscapeStands(s, "\\t");
    } else {
      var digits :|
        Has(s, "\\u" + digits) && |digits| == 4 && forall k :: 0 <= k < 4 ==> digits[k] in "0123456789abcdef";
      NumberStands(s, digits);
    }
  }

  lemma EscapeStands(s: string, w: string)
    requires Has(s, w) && |w| == 2 && w[0] == '\\' && w[1] in ['n', 'r', 't']
    ensures ShortenedOrEscaped(s)
  {
    var i := HasStands(s, w);
    AtIndex(s, i, w, 0);
    AtIndex(s, i, w, 1);
    assert EscapeAt(s, i);
  }

  lemma NumberStands(s: string, digits: string)
    requires Has(s, "\\u" + digits) && |digits| == 4 && forall k :: 0 <= k < 4 ==> digits[k] in "0123456789abcdef"
    ensures ShortenedOrEscaped(s)
  {
    var a, b :| s == a + ("\\u" + digits) + b;
    var i := |a|;
    assert s[i] == '\\' && s[i + 1] == 'u' && s[i + 2..i + 6] == digits;
    forall k | 0 <= k < 4 ensures LowerHex(digits[k]) { HexIn(digits[k]); }
    hide Has, LowerHex;
    forall k | i + 2 <= k < i + 6 ensures LowerHex(s[k]) {
      assert s[k] == s[i + 2..i + 6][k - i - 2];
    }
    assert EscapeAt(s, i);
  }

  lemma HexIn(c: char)
    requires c in "0123456789abcdef"
    ensures LowerHex(c)
  {
  }

  /** What a saved line is read back as, from the line it was written for: nothing if a path
      holds wording or was altered, or is not shown as it stands; else that it is hidden, or
      its paths, the link before the file. */
  lemma JudgedExactly(r: Line, shown: string -> string)
    ensures Judged(r, shown).Hidden? <==> !Worded(r) && exists path :: IsPath(r, path) && Has(path, "[REDACTED]")
    ensures Judged(r, shown).Named? <==>
            && !Worded(r)
            && (forall path :: IsPath(r, path) ==> !Has(path, "[REDACTED]") && !Altered(path))
            && exists text :: Says(text, r) && Says(text, ShownLine(r, shown))
    ensures Judged(r, shown).Named? ==>
            Judged(r, shown).paths == if r.Link? then [r.link, r.file] else [r.file]
  {
    RenderedSays(r, Rendered(r));
    forall text { RenderedSays(r, text); }
    forall text { RenderedSays(ShownLine(r, shown), text); }
    forall path, w { ContainsIs(path, w); }
    forall path { AlteredIs(path); }
    PathsAre(r);
    hide Contains, Has, Says, Rendered, ShortenedOrEscaped, Altered;
  }

  lemma PathsAre(r: Line)
    ensures forall path :: IsPath(r, path) <==> exists i :: 0 <= i < |Paths(r)| && Paths(r)[i] == path
  {
    assert Paths(r)[|Paths(r)| - 1] == r.file && (r.Link? ==> Paths(r)[0] == r.link);
  }

  /** The line with its paths as a card shows them. */
  function ShownLine(r: Line, shown: string -> string): Line {
    if r.Inside? then Inside(shown(r.file)) else if r.Outside? then Outside(shown(r.file))
    else Link(shown(r.file), shown(r.link))
  }
}
