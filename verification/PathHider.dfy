/** Finding the start of a hidden path that ends at a given place of a text.

    The search reads "/"-separated pieces from the right.  It stops once more names
    stay than any hidden path has, and it skips a start whose first component no
    hidden path holds.  It is proved to pick the same start as trying every
    admissible one. */
module PathHider {
  import opened PathKeys
  import opened Wrappers

  /** What a hider is made from: the hidden paths' keys, the home directory, and
      the character classes and grapheme boundaries of Unicode. */
  datatype Hider = Hider(home: string, keys: set<Key>, isName: char -> bool)

  const STEP_LIMIT: nat := 4_000_000

  /** The steps of work a hider may take, across every text it is given. */
  class Work {
    var steps: nat

    constructor ()
      ensures steps == 0
    {
      steps := 0;
    }

    /** Past the limit nothing more is spent, and the text is hidden whole. */
    method Spend(n: nat) returns (exhausted: bool)
      requires steps <= STEP_LIMIT
      modifies this
      ensures exhausted <==> old(steps) + n > 4_000_000
      ensures steps == if exhausted then 4_000_000 else old(steps) + n
    {
      exhausted := steps + n > STEP_LIMIT;
      steps := if exhausted then STEP_LIMIT else steps + n;
    }
  }

  /** What spending `steps` in all does to a budget: it runs out exactly when they do not
      fit, and is then pinned at its limit. */
  predicate Spent(before: nat, after: nat, steps: nat, exhausted: bool) {
    && (exhausted <==> before + steps > STEP_LIMIT)
    && after == if exhausted then STEP_LIMIT else before + steps
  }

  // ---------------------------------------------------------------- the reference search

  /** A path can start at the start of the text, or after a character that is
      neither a name character nor a separator. */
  predicate Admissible(h: Hider, text: string, s: nat) {
    s == 0 || (s < |text| && !h.isName(text[s - 1]) && !IsSeparator(text[s - 1]))
  }

  function NamingAt(h: Hider, text: string, s: nat, end: nat): Naming
    requires s <= end <= |text|
  {
    NamingOf(h.home, h.keys, text[s..end])
  }

  /** The start a search over every admissible start picks: the first that names a
      hidden path as written, or else the last that names one with ".." applied. */
  ghost predicate IsStartFor(h: Hider, text: string, end: nat, r: Option<nat>)
    requires end <= |text|
  {
    match r
    case None => forall s :: 0 <= s < end && Admissible(h, text, s) ==> NamingAt(h, text, s, end).Not?
    case Some(s) =>
      && s < end && Admissible(h, text, s)
      && !NamingAt(h, text, s, end).Not?
      && (NamingAt(h, text, s, end).AsWritten? ==>
            forall s' :: 0 <= s' < s && Admissible(h, text, s') ==> !NamingAt(h, text, s', end).AsWritten?)
      && (NamingAt(h, text, s, end).OnceCollapsed? ==>
            && (forall s' :: 0 <= s' < end && Admissible(h, text, s') ==> !NamingAt(h, text, s', end).AsWritten?)
            && (forall s' :: s < s' < end && Admissible(h, text, s') ==> NamingAt(h, text, s', end).Not?))
  }

  // ---------------------------------------------------------------- the bounds read from the keys

  /** A hider with no hidden path shows every text; the keys of a path have
      components, none of them empty. */
  ghost predicate Hides(h: Hider) {
    h.keys != {} && forall k :: k in h.keys ==> k.parts != [] && "" !in k.parts
  }

  ghost predicate InSomeKey(keys: set<Key>, part: string) {
    exists k :: k in keys && part in k.parts
  }

  /** No key has more components than `most`. */
  ghost predicate MostComponents(keys: set<Key>, most: nat) {
    forall k :: k in keys ==> |k.parts| <= most
  }

  /** The components of the hidden paths, the longest of them, and the most one
      path has. */
  datatype Bounds = Bounds(components: set<string>, longest: nat, most: nat)

  ghost predicate BoundsOf(keys: set<Key>, b: Bounds) {
    && (forall part :: part in b.components <==> InSomeKey(keys, part))
    && (forall part :: part in b.components ==> |part| <= b.longest)
    && MostComponents(keys, b.most)
    && (b.longest == 0 || LengthOf(b.components, b.longest)) && (b.most == 0 || CountOf(keys, b.most))
  }

  ghost predicate LengthOf(components: set<string>, n: nat) {
    exists part :: part in components && |part| == n
  }

  ghost predicate CountOf(keys: set<Key>, n: nat) {
    exists k :: k in keys && |k.parts| == n
  }

  /** The bounds are determined by the keys. */
  lemma BoundsUnique(keys: set<Key>, a: Bounds, b: Bounds)
    requires BoundsOf(keys, a) && BoundsOf(keys, b)
    ensures a == b
  {
    assert a.components == b.components;
    assert a.longest == b.longest;
    assert a.most == b.most;
  }

  /** Reads the bounds off the keys, one key after another. */
  method ReadBounds(keys: set<Key>) returns (b: Bounds)
    ensures BoundsOf(keys, b)
  {
    b := Bounds({}, 0, 0);
    var rest := keys;
    while rest != {}
      invariant rest <= keys && BoundsOf(keys - rest, b)
      decreases rest
    {
      var key :| key in rest;
      var longest := b.longest;
      for i := 0 to |key.parts|
        invariant b.longest <= longest
        invariant forall j :: 0 <= j < i ==> |key.parts[j]| <= longest
        invariant longest == b.longest || exists j :: 0 <= j < i && |key.parts[j]| == longest
      {
        if |key.parts[i]| > longest { longest := |key.parts[i]|; }
      }
      var parts := set part | part in key.parts;
      AddKey(keys - rest, key, b, longest);
      assert keys - rest + {key} == keys - (rest - {key});
      b := Bounds(b.components + parts, longest, if |key.parts| > b.most then |key.parts| else b.most);
      rest := rest - {key};
    }
    assert keys - {} == keys;
  }

  lemma AddParts(keys: set<Key>, key: Key, part: string)
    ensures InSomeKey(keys + {key}, part) <==> InSomeKey(keys, part) || part in key.parts
  {
    if InSomeKey(keys, part) {
      var k :| k in keys && part in k.parts;
      assert k in keys + {key};
    }
    if part in key.parts { assert key in keys + {key}; }
  }

  lemma AddCount(keys: set<Key>, key: Key, most: nat)
    requires MostComponents(keys, most) && (most == 0 || CountOf(keys, most))
    ensures var more := if |key.parts| > most then |key.parts| else most;
            MostComponents(keys + {key}, more) && (more == 0 || CountOf(keys + {key}, more))
  {
    if |key.parts| > most {
      assert key in keys + {key};
    } else if most != 0 {
      var k :| k in keys && |k.parts| == most;
      assert k in keys + {key};
    }
  }

  lemma AddKey(keys: set<Key>, key: Key, b: Bounds, longest: nat)
    requires BoundsOf(keys, b) && b.longest <= longest && (forall part :: part in key.parts ==> |part| <= longest)
    requires longest == b.longest || exists j :: 0 <= j < |key.parts| && |key.parts[j]| == longest
    ensures BoundsOf(keys + {key}, Bounds(b.components + (set part | part in key.parts), longest,
                                          if |key.parts| > b.most then |key.parts| else b.most))
  {
    hide InSomeKey, MostComponents, CountOf;
    var components := b.components + (set part | part in key.parts);
    forall part ensures part in components <==> InSomeKey(keys + {key}, part) { AddParts(keys, key, part); }
    AddCount(keys, key, b.most);
    if longest != b.longest {
      var j :| 0 <= j < |key.parts| && |key.parts[j]| == longest;
      assert key.parts[j] in components;
    } else if longest != 0 {
      var part :| part in b.components && |part| == longest;
      assert part in components;
    }
  }

  // ---------------------------------------------------------------- what the pieces say

  datatype Step = Step(names: nat, up: nat)

  /** What one piece between slashes does to the path around it.  A piece with a
      backslash can be several components, or one once escapes are removed. */
  function StepOf(piece: string): Step {
    if '\\' in piece then Step(0, Backslashes(piece) + 1)
    else if piece == "" || piece == "." then Step(0, 0)
    else if piece == ".." then Step(0, 1)
    else Step(1, 0)
  }

  /** `names` and `up` bound what both readings of the text do. */
  ghost predicate Estimate(t: string, names: nat, up: nat) {
    && Ups(Components(t)) <= up && names <= Stay(Components(t))
    && Ups(Components(Unescape(t))) <= up && names <= Stay(Components(Unescape(t)))
  }

  lemma {:induction false} ComponentsCount(s: string)
    requires '/' !in s
    ensures |Components(s)| <= Backslashes(s) + 1
    decreases |s|
  {
    var n := RunLength(s);
    if n < |s| {
      ComponentsCount(s[n + 1..]);
      BackslashesSplit(s, n);
    }
  }

  lemma {:induction false} BackslashesSplit(s: string, n: nat)
    requires n < |s| && s[n] == '\\'
    ensures Backslashes(s) >= 1 + Backslashes(s[n + 1..])
  {
    if n > 0 {
      BackslashesSplit(s[1..], n - 1);
      assert s[1..][n..] == s[n + 1..];
    }
  }

  lemma {:induction false} UnescapeShrinks(s: string)
    ensures Backslashes(Unescape(s)) <= Backslashes(s)
    ensures '/' !in s ==> '/' !in Unescape(s)
    ensures '\\' !in s ==> Unescape(s) == s
    decreases |s|
  {
    if s != [] {
      if s[0] == '\\' && |s| > 1 && !IsLineBreak(s[1]) {
        UnescapeShrinks(s[2..]);
        assert s[1..][1..] == s[2..];
        assert Unescape(s)[1..] == Unescape(s[2..]);
      } else {
        UnescapeShrinks(s[1..]);
        assert Unescape(s)[1..] == Unescape(s[1..]);
      }
    }
  }

  /** One reading of a piece, before what is already estimated. */
  lemma StepBounds(piece: string, reading: string, rest: seq<string>, names: nat, up: nat)
    requires '/' !in piece && '/' !in reading
    requires Backslashes(reading) <= Backslashes(piece)
    requires '\\' !in piece ==> reading == piece
    requires Ups(rest) <= up && names <= Stay(rest)
    ensures var step := StepOf(piece);
            var taken := if up < step.names then up else step.names;
            && Ups(Components(reading) + rest) <= up + step.up - taken
            && names + step.names - taken <= Stay(Components(reading) + rest)
  {
    if '\\' in piece {
      ComponentsCount(reading);
      PrependAny(Components(reading), rest);
    } else {
      ComponentsOfOne(piece);
      var parts := Components(piece) + rest;
      if piece == "" || piece == "." {
        assert parts == rest;
      } else {
        assert parts == [piece] + rest && parts[1..] == rest;
      }
    }
  }

  /** Reading one more piece keeps the estimate: the last piece of a candidate. */
  lemma EstimateLast(piece: string)
    requires '/' !in piece
    ensures Estimate(piece, StepOf(piece).names, StepOf(piece).up)
  {
    UnescapeShrinks(piece);
    StepBounds(piece, piece, [], 0, 0);
    StepBounds(piece, Unescape(piece), [], 0, 0);
    assert Components(piece) + [] == Components(piece);
    assert Components(Unescape(piece)) + [] == Components(Unescape(piece));
  }

  /** Reading one more piece keeps the estimate: a piece before others. */
  lemma EstimateStep(piece: string, t: string, names: nat, up: nat)
    requires '/' !in piece && Estimate(t, names, up)
    ensures var step := StepOf(piece);
            var taken := if up < step.names then up else step.names;
            Estimate(piece + "/" + t, names + step.names - taken, up + step.up - taken)
  {
    StepBounds(piece, piece, Components(t), names, up);
    ComponentsJoin(piece, '/', t);
    var piece' := UnescapeJoin(piece, t);
    StepBounds(piece, piece', Components(Unescape(t)), names, up);
    ComponentsJoin(piece', '/', Unescape(t));
  }

  // ---------------------------------------------------------------- what is pruned names nothing

  /** Whatever stands before a "/", both forms keep the names that stay after it. */
  lemma ReadingTooLong(h: Hider, a: string, t: string, most: nat)
    requires MostComponents(h.keys, most) && most < Stay(Components(t))
    ensures ReadingNames(h.home, h.keys, a + "/" + t).Not?
  {
    hide Components, Collapse, Stay;
    var form := a + "/" + t;
    var a' := if Expand(h.home, form) == form then a else h.home + a[1..];
    assert Expand(h.home, form) == a' + "/" + t;
    ComponentsJoin(a', '/', t);
    var parts := Components(a') + Components(t);
    assert Written(h.home, form).parts == parts;
    StayFits(Components(t));
    CollapseAppend([], Components(a'), Components(t));
    CollapseKeepsNames(Collapse([], Components(a')), Components(t));
  }

  lemma TooManyNames(h: Hider, a: string, t: string, names: nat, up: nat, most: nat)
    requires MostComponents(h.keys, most) && Estimate(t, names, up) && most < names
    ensures NamingOf(h.home, h.keys, a + "/" + t).Not?
  {
    hide ReadingNames, Unescape, Stay, Ups, Components;
    ReadingTooLong(h, a, t, most);
    var a' := UnescapeJoin(a, t);
    ReadingTooLong(h, a', Unescape(t), most);
  }

  /** A first component that no ".." reaches is in both forms. */
  lemma ReadingNeedsFirst(h: Hider, first: string, rest: seq<string>, form: string)
    requires first != "" && first != "." && first != "~"
    requires forall k :: 0 <= k < |first| ==> !IsSeparator(first[k])
    requires Components(form) == [first] + rest && Ups(rest) == 0
    requires first <= form && (form == first || form[|first|] == '/')
    ensures !InSomeKey(h.keys, first) ==> ReadingNames(h.home, h.keys, form).Not?
  {
    hide Components;
    assert Expand(h.home, form) == form by {
      if |first| > 1 { assert form[1] == first[1]; }
    }
    CollapseOver([first], [], rest);
    assert Push([], first) == [first] + [];
    assert ([first] + rest)[1..] == rest;
    assert Collapse([], [first] + rest) == Collapse([first] + [], rest);
    assert Collapse([], [first] + rest)[0] == first;
  }

  lemma UnknownFirst(h: Hider, first: string, t: string)
    requires first != "" && first != "." && first != "~"
    requires forall k :: 0 <= k < |first| ==> !IsSeparator(first[k])
    requires Estimate(t, 0, 0) && !InSomeKey(h.keys, first)
    ensures NamingOf(h.home, h.keys, first + "/" + t).Not?
  {
    hide ReadingNames, Components, Unescape, Collapse, InSomeKey;
    assert Kept(first) == Components(first) by { ComponentsOfOne(first); }
    ComponentsJoin(first, '/', t);
    ReadingNeedsFirst(h, first, Components(t), first + "/" + t);
    var first' := UnescapeJoin(first, t);
    ComponentsJoin(first, '/', Unescape(t));
    ReadingNeedsFirst(h, first, Components(Unescape(t)), first + "/" + Unescape(t));
  }

  lemma UnknownOnly(h: Hider, first: string)
    requires first != "" && first != "." && first != "~"
    requires forall k :: 0 <= k < |first| ==> !IsSeparator(first[k])
    requires !InSomeKey(h.keys, first)
    ensures NamingOf(h.home, h.keys, first).Not?
  {
    hide ReadingNames, Unescape, Collapse, InSomeKey;
    ComponentsOfOne(first);
    UnescapeShrinks(first);
    ReadingNeedsFirst(h, first, [], first);
  }

  /** A separator alone names nothing. */
  lemma SlashNamesNothing(h: Hider)
    ensures NamingOf(h.home, h.keys, "/").Not?
  {
    ComponentsJoin("", '/', "");
    assert "" + "/" + "" == "/";
    ComponentsOfOne("");
    assert Unescape("/") == "/";
  }

  // ---------------------------------------------------------------- pieces and starts

  ghost predicate NoSlash(text: string, from: nat, to: nat) {
    from <= to <= |text| && '/' !in text[from..to]
  }

  /** The pieces of the text between its slashes, in order. */
  ghost predicate Pieces(text: string, upTo: nat, pieces: seq<(nat, nat)>) {
    && upTo <= |text|
    && (forall k :: 0 <= k < |pieces| ==> pieces[k].1 <= upTo && NoSlash(text, pieces[k].0, pieces[k].1))
    && (|pieces| > 0 ==> pieces[0].0 == 0)
    && (forall j, k :: 0 <= j < k < |pieces| && k == j + 1 ==>
          pieces[k].0 == pieces[j].1 + 1 && text[pieces[j].1] == '/')
  }

  /** The pieces before `index`, and the one that began at `start`. */
  ghost predicate Cut(text: string, index: nat, start: nat, pieces: seq<(nat, nat)>) {
    && start <= index && Pieces(text, index, pieces) && NoSlash(text, start, index)
    && (pieces == [] ==> start == 0)
    && (pieces != [] ==> pieces[|pieces| - 1].1 + 1 == start && text[pieces[|pieces| - 1].1] == '/')
  }

  lemma CutOn(text: string, index: nat, start: nat, pieces: seq<(nat, nat)>)
    requires Cut(text, index, start, pieces) && index < |text| && text[index] != '/'
    ensures Cut(text, index + 1, start, pieces)
  {
    assert text[start..index + 1] == text[start..index] + [text[index]];
  }

  lemma CutHere(text: string, index: nat, start: nat, pieces: seq<(nat, nat)>)
    requires Cut(text, index, start, pieces)
    ensures Pieces(text, index, pieces + [(start, index)])
    ensures index < |text| && text[index] == '/' ==> Cut(text, index + 1, index + 1, pieces + [(start, index)])
  {
    var more := pieces + [(start, index)];
    assert forall k :: 0 <= k < |pieces| ==> more[k] == pieces[k];
  }

  /** All the pieces, up to the end of the text. */
  ghost predicate AllPieces(text: string, pieces: seq<(nat, nat)>) {
    Pieces(text, |text|, pieces) && |pieces| > 0 && pieces[|pieces| - 1].1 == |text|
  }

  method SlashComponents(text: string) returns (pieces: seq<(nat, nat)>)
    ensures AllPieces(text, pieces)
  {
    pieces := [];
    var start: nat := 0;
    assert Cut(text, 0, 0, []);
    hide Cut, Pieces;
    for index := 0 to |text|
      invariant Cut(text, index, start, pieces)
    {
      if text[index] == '/' {
        CutHere(text, index, start, pieces);
        pieces := pieces + [(start, index)];
        start := index + 1;
      } else {
        CutOn(text, index, start, pieces);
      }
    }
    CutHere(text, |text|, start, pieces);
    pieces := pieces + [(start, |text|)];
  }

  predicate Increasing(a: seq<nat>) {
    forall j, k :: 0 <= j < k < |a| ==> a[j] < a[k]
  }

  ghost predicate Starts(h: Hider, text: string, starts: seq<nat>) {
    && Increasing(starts)
    && (forall s :: s in starts <==> Admissible(h, text, s))
  }

  method AdmissibleStarts(h: Hider, text: string) returns (starts: seq<nat>)
    ensures Starts(h, text, starts)
  {
    starts := [0];
    for offset := 0 to |text|
      invariant Increasing(starts)
      invariant forall s :: s in starts ==> s <= offset
      invariant forall s: nat :: s <= offset ==> (s in starts <==> Admissible(h, text, s))
    {
      assert forall k :: 0 <= k < |starts| ==> starts[k] in starts;
      var next := offset + 1;
      if next < |text| && !h.isName(text[offset]) && !IsSeparator(text[offset]) {
        starts := starts + [next];
      }
    }
  }

  // ---------------------------------------------------------------- the pruned search

  predicate FirstKnown(b: Bounds, first: string) {
    first == "" || first == "." || first == "~" || first in b.components
  }

  /** Whether a candidate that starts at `s`, in the piece that stops at `stop`, can
      name a hidden path, read cheaply: a first component that no ".." after it
      takes away is a component of a hidden path, "." or "~". */
  predicate FirstMayName(b: Bounds, boundary: nat -> bool, text: string, s: nat, stop: nat, up: nat, steps: bool)
    requires s <= stop <= |text|
  {
    || up > 0 || steps
    || !boundary(s) || !boundary(stop)
    || (stop - s <= b.longest && FirstKnown(b, text[s..stop]))
  }

  /** The starts of one piece that are kept, right to left: the slash before it, and
      those that pass the cheap test.  `index` starts are still to be looked at. */
  function PieceFound(b: Bounds, boundary: nat -> bool, text: string, starts: seq<nat>,
                      from: nat, stop: nat, up: nat, index: nat): (found: seq<nat>)
    requires index <= |starts| && from <= stop <= |text|
    ensures forall s :: s in found ==> s < stop
    decreases index
  {
    if index == 0 then [] else
      var start := starts[index - 1];
      if start < from - 1 then []
      else
        var rest := PieceFound(b, boundary, text, starts, from, stop, up, index - 1);
        if start < stop
           && (start == from - 1 || FirstMayName(b, boundary, text, start, stop, up, StepOf(text[from..stop]).up > 0))
        then [start] + rest else rest
  }

  /** The steps spent on them: one for each start looked at. */
  function PieceSteps(starts: seq<nat>, from: nat, index: nat): nat
    requires index <= |starts|
  {
    if index == 0 then 0 else 1 + if starts[index - 1] < from - 1 then 0 else PieceSteps(starts, from, index - 1)
  }

  lemma PieceIs(b: Bounds, boundary: nat -> bool, text: string, starts: seq<nat>, from: nat, stop: nat, up: nat,
                index: nat)
    requires index <= |starts| && from <= stop <= |text|
    ensures var found := PieceFound(b, boundary, text, starts, from, stop, up, index);
            var steps := PieceSteps(starts, from, index);
            if index == 0 then found == [] && steps == 0
            else if starts[index - 1] < from - 1 then found == [] && steps == 1
            else
              var start := starts[index - 1];
              var rest := PieceFound(b, boundary, text, starts, from, stop, up, index - 1);
              && steps == 1 + PieceSteps(starts, from, index - 1)
              && found == if start < stop
                             && (start == from - 1
                                 || FirstMayName(b, boundary, text, start, stop, up, StepOf(text[from..stop]).up > 0))
                          then [start] + rest else rest
  {
    hide FirstMayName, StepOf;
  }

  /** The piece in which the text before `end` stops, or -1. */
  function LastPieceOf(pieces: seq<(nat, nat)>, end: nat, k: nat): (piece: int)
    requires k <= |pieces|
    ensures -1 <= piece < k
  {
    if k == 0 then -1
    else if pieces[k - 1].0 < end || (pieces[k - 1].0 == end && end == 0) then k - 1
    else LastPieceOf(pieces, end, k - 1)
  }

  /** The pieces lie in the text. */
  predicate InText(text: string, pieces: seq<(nat, nat)>) {
    forall k | 0 <= k < |pieces| :: pieces[k].0 <= pieces[k].1 <= |text|
  }

  function Earlier(a: nat, b: nat): nat { if a < b then a else b }

  function NamesAfter(names: nat, up: nat, step: Step): nat { names + step.names - Earlier(up, step.names) }

  function UpAfter(up: nat, step: Step): nat { up + step.up - Earlier(up, step.names) }

  /** All starts kept from a piece leftward, until more names stay than any key has. */
  function SearchFound(b: Bounds, boundary: nat -> bool, text: string, pieces: seq<(nat, nat)>, starts: seq<nat>,
                       end: nat, piece: int, names: nat, up: nat): (found: seq<nat>)
    requires piece < |pieces| && InText(text, pieces) && end <= |text|
    ensures forall s :: s in found ==> s < end
    decreases piece
  {
    if piece < 0 || names > b.most || pieces[piece].0 > end then [] else
      var from, stop := pieces[piece].0, Earlier(pieces[piece].1, end);
      var step := StepOf(text[from..stop]);
      PieceFound(b, boundary, text, starts, from, stop, up, |starts|)
      + SearchFound(b, boundary, text, pieces, starts, end, piece - 1, NamesAfter(names, up, step), UpAfter(up, step))
  }

  /** The steps spent on it: one for each piece, its length, and its starts. */
  function SearchSteps(b: Bounds, text: string, pieces: seq<(nat, nat)>, starts: seq<nat>,
                       end: nat, piece: int, names: nat, up: nat): nat
    requires piece < |pieces| && InText(text, pieces) && end <= |text|
    decreases piece
  {
    if piece < 0 || names > b.most || pieces[piece].0 > end then 0 else
      var from, stop := pieces[piece].0, Earlier(pieces[piece].1, end);
      var step := StepOf(text[from..stop]);
      1 + stop - from + PieceSteps(starts, from, |starts|)
      + SearchSteps(b, text, pieces, starts, end, piece - 1, NamesAfter(names, up, step), UpAfter(up, step))
  }

  /** What is known of the text after `edge`: nothing stands there, or a slash and
      then pieces with this estimate. */
  ghost predicate Tail(text: string, edge: nat, end: nat, names: nat, up: nat) {
    && edge <= end <= |text|
    && (edge == end ==> names == 0 && up == 0)
    && (edge < end ==> text[edge] == '/' && Estimate(text[edge + 1..end], names, up))
  }

  /** A start that is skipped names nothing. */
  lemma SkippedStart(h: Hider, b: Bounds, boundary: nat -> bool, text: string, from: nat, s: nat, stop: nat,
                     end: nat, names: nat, up: nat)
    requires Hides(h) && BoundsOf(h.keys, b) && Tail(text, stop, end, names, up)
    requires from <= s < stop && NoSlash(text, from, stop)
    requires !FirstMayName(b, boundary, text, s, stop, up, StepOf(text[from..stop]).up > 0)
    ensures NamingAt(h, text, s, end).Not?
  {
    hide Estimate, NamingOf;
    var first := text[s..stop];
    FirstFacts(h, b, boundary, text, from, s, stop, up);
    hide Hides, BoundsOf, FirstMayName, StepOf, NoSlash;
    if stop == end {
      UnknownOnly(h, first);
    } else {
      assert text[s..end] == first + "/" + text[stop + 1..end];
      assert Estimate(text[stop + 1..end], 0, 0) by { EstimateWeaker(text[stop + 1..end], names, up); }
      UnknownFirst(h, first, text[stop + 1..end]);
    }
  }

  lemma FirstFacts(h: Hider, b: Bounds, boundary: nat -> bool, text: string, from: nat, s: nat, stop: nat, up: nat)
    requires Hides(h) && BoundsOf(h.keys, b) && from <= s < stop && NoSlash(text, from, stop)
    requires !FirstMayName(b, boundary, text, s, stop, up, StepOf(text[from..stop]).up > 0)
    ensures var first := text[s..stop];
            && up == 0 && first != "" && first != "." && first != "~" && !InSomeKey(h.keys, first)
            && forall k :: 0 <= k < |first| ==> !IsSeparator(first[k])
  {
    var piece, first := text[from..stop], text[s..stop];
    assert '\\' !in piece;
    forall k | 0 <= k < |first| ensures !IsSeparator(first[k]) {
      assert first[k] == piece[k + s - from];
    }
    hide StepOf;
    if |first| == 1 { AnyComponent(h, b); }
  }

  lemma AnyComponent(h: Hider, b: Bounds)
    requires Hides(h) && BoundsOf(h.keys, b)
    ensures b.longest > 0
  {
    var k :| k in h.keys;
    assert k.parts[0] in k.parts && InSomeKey(h.keys, k.parts[0]);
  }

  lemma EstimateWeaker(t: string, names: nat, up: nat)
    requires Estimate(t, names, up)
    ensures Estimate(t, 0, up)
  {
  }

  /** The estimate moves one piece to the left. */
  lemma TailStep(text: string, from: nat, stop: nat, end: nat, names: nat, up: nat)
    requires Tail(text, stop, end, names, up) && NoSlash(text, from, stop)
    requires from > 0 ==> text[from - 1] == '/'
    ensures var step := StepOf(text[from..stop]);
            from > 0 ==> Tail(text, from - 1, end, NamesAfter(names, up, step), UpAfter(up, step))
  {
    hide Estimate, StepOf;
    var piece := text[from..stop];
    if stop == end {
      EstimateLast(piece);
    } else {
      EstimateStep(piece, text[stop + 1..end], names, up);
      assert text[from..end] == piece + "/" + text[stop + 1..end];
    }
  }

  /** Every admissible start from `edge` on is found or names nothing. */
  ghost predicate Searched(h: Hider, text: string, end: nat, edge: int, found: seq<nat>)
    requires end <= |text|
  {
    && (forall j, k :: 0 <= j < k < |found| ==> found[j] > found[k])
    && (forall s :: s in found ==> edge <= s < end && Admissible(h, text, s))
    && (forall s :: edge <= s < end && 0 <= s && Admissible(h, text, s) && s !in found ==>
         NamingAt(h, text, s, end).Not?)
  }

  /** Too many names stay, so no start further left names a hidden path. */
  lemma StopSearch(h: Hider, b: Bounds, text: string, end: nat, edge: nat, found: seq<nat>, names: nat, up: nat)
    requires BoundsOf(h.keys, b) && b.most < names
    requires Tail(text, edge, end, names, up) && Searched(h, text, end, edge, found)
    ensures Searched(h, text, end, -1, found)
  {
    hide Estimate, NamingOf, Admissible;
    forall s | 0 <= s < edge ensures NamingAt(h, text, s, end).Not? {
      assert text[s..end] == text[s..edge] + "/" + text[edge + 1..end];
      TooManyNames(h, text[s..edge], text[edge + 1..end], names, up, b.most);
    }
  }

  /** The piece the text before `end` stops in. */
  method LastPiece(text: string, pieces: seq<(nat, nat)>, end: nat) returns (piece: nat)
    requires AllPieces(text, pieces)
    requires end <= |text|
    ensures piece < |pieces| && pieces[piece].0 <= end
    ensures end > 0 ==> pieces[piece].0 < end
    ensures pieces[piece].1 < end ==> pieces[piece].1 + 1 == end && text[pieces[piece].1] == '/'
    ensures piece == LastPieceOf(pieces, end, |pieces|)
  {
    piece := |pieces| - 1;
    while !(pieces[piece].0 < end || (pieces[piece].0 == end && end == 0))
      invariant piece < |pieces| && LastPieceOf(pieces, end, piece + 1) == LastPieceOf(pieces, end, |pieces|)
      invariant piece < |pieces| - 1 ==> pieces[piece + 1].0 >= end
      decreases piece
    {
      piece := piece - 1;
    }
  }

  /** The search goes on to the next admissible start on the left. */
  lemma SearchedStep(h: Hider, text: string, end: nat, edge: int, found: seq<nat>, start: int, keep: bool)
    requires end <= |text| && Searched(h, text, end, edge, found)
    requires start < edge <= end
    requires forall s :: start < s < edge && 0 <= s ==> !Admissible(h, text, s)
    requires keep ==> 0 <= start && Admissible(h, text, start)
    requires !keep && 0 <= start && Admissible(h, text, start) ==> NamingAt(h, text, start, end).Not?
    ensures Searched(h, text, end, start, if keep then found + [start] else found)
  {
    hide NamingAt, Admissible;
    assert forall k :: 0 <= k < |found| ==> found[k] in found;
  }

  /** Of the starts, those from `index` on are at `edge` or after it, and those before it
      that lie before `stop` lie before `edge`. */
  ghost predicate Looked(starts: seq<nat>, stop: nat, index: nat, edge: int) {
    && index <= |starts|
    && (forall j :: 0 <= j < index ==> starts[j] < edge || starts[j] >= stop)
    && (forall j :: index <= j < |starts| ==> starts[j] >= edge)
  }

  lemma LookedStart(starts: seq<nat>, stop: nat)
    ensures Looked(starts, stop, |starts|, stop)
  {
  }

  lemma LookedPast(h: Hider, text: string, starts: seq<nat>, stop: nat, index: nat, edge: int)
    requires Starts(h, text, starts) && index < |starts| && Looked(starts, stop, index + 1, edge)
    requires edge <= stop <= starts[index]
    ensures Looked(starts, stop, index, edge)
  {
  }

  /** Between one start and the last one looked at there is none. */
  lemma GapBefore(h: Hider, text: string, starts: seq<nat>, stop: nat, index: nat, edge: int)
    requires Starts(h, text, starts) && index < |starts| && Looked(starts, stop, index + 1, edge)
    requires starts[index] < stop && edge <= stop
    ensures starts[index] < edge && Admissible(h, text, starts[index])
    ensures forall s :: starts[index] < s < edge && 0 <= s ==> !Admissible(h, text, s)
    ensures Looked(starts, stop, index, starts[index])
  {
    hide Admissible;
    assert starts[index] in starts;
    forall s: nat | Admissible(h, text, s) ensures s <= starts[index] || s >= edge {
      var j :| 0 <= j < |starts| && starts[j] == s;
    }
  }

  lemma NoneLeft(h: Hider, text: string, starts: seq<nat>, from: nat, stop: nat, index: nat, edge: int)
    requires Starts(h, text, starts) && Looked(starts, stop, index, edge) && edge <= stop
    requires index > 0 ==> starts[index - 1] < from - 1
    ensures forall s :: from - 1 <= s < edge && 0 <= s ==> !Admissible(h, text, s)
  {
    hide Admissible;
    forall s: nat | Admissible(h, text, s) ensures s < from - 1 || s >= edge {
      var j :| 0 <= j < |starts| && starts[j] == s;
    }
  }

  /** The starts of one piece, right to left, that may name a hidden path. */
  method PieceStarts(h: Hider, b: Bounds, boundary: nat -> bool, text: string, starts: seq<nat>,
                     from: nat, stop: nat, end: nat, ghost names: nat, up: nat, found: seq<nat>, work: Work)
    returns (exhausted: bool, found': seq<nat>)
    requires Hides(h) && BoundsOf(h.keys, b) && Starts(h, text, starts)
    requires from <= stop <= end <= |text| && Tail(text, stop, end, names, up) && NoSlash(text, from, stop)
    requires Searched(h, text, end, stop, found)
    requires work.steps <= STEP_LIMIT
    modifies work
    ensures Spent(old(work.steps), work.steps, PieceSteps(starts, from, |starts|), exhausted)
    ensures !exhausted ==> Searched(h, text, end, from - 1, found')
    ensures !exhausted ==> found' == found + PieceFound(b, boundary, text, starts, from, stop, up, |starts|)
  {
    hide Hides, BoundsOf, Tail, Searched, NamingAt, Admissible;
    hide FirstMayName, StepOf, PieceFound, PieceSteps, Starts, Looked, NoSlash;
    ghost var all := PieceFound(b, boundary, text, starts, from, stop, up, |starts|);
    found' := found;
    var step := StepOf(text[from..stop]);
    var index := |starts|;
    ghost var edge: int := stop;
    LookedStart(starts, stop);
    while index > 0
      invariant 0 <= index <= |starts| && work.steps <= STEP_LIMIT
      invariant work.steps + PieceSteps(starts, from, index) == old(work.steps) + PieceSteps(starts, from, |starts|)
      invariant found' + PieceFound(b, boundary, text, starts, from, stop, up, index) == found + all
      invariant from - 1 <= edge <= stop && Searched(h, text, end, edge, found')
      invariant Looked(starts, stop, index, edge)
    {
      PieceIs(b, boundary, text, starts, from, stop, up, index);
      exhausted := work.Spend(1);
      if exhausted { return; }
      index := index - 1;
      var start := starts[index];
      if start >= stop {
        LookedPast(h, text, starts, stop, index, edge);
        continue;
      }
      if start < from - 1 {
        index := index + 1;
        break;
      }
      GapBefore(h, text, starts, stop, index, edge);
      if start == from - 1 || FirstMayName(b, boundary, text, start, stop, up, step.up > 0) {
        SearchedStep(h, text, end, edge, found', start, true);
        ghost var rest := PieceFound(b, boundary, text, starts, from, stop, up, index);
        Joined(found', [start], rest);
        found' := found' + [start];
      } else {
        SkippedStart(h, b, boundary, text, from, start, stop, end, names, up);
        SearchedStep(h, text, end, edge, found', start, false);
      }
      edge := start;
    }
    PieceIs(b, boundary, text, starts, from, stop, up, index);
    if from - 1 < edge {
      NoneLeft(h, text, starts, from, stop, index, edge);
      SearchedStep(h, text, end, edge, found', from - 1, false);
    }
    exhausted := false;
  }

  function Reversed(s: seq<nat>): (r: seq<nat>)
    ensures |r| == |s| && forall k :: 0 <= k < |s| ==> r[k] == s[|s| - 1 - k]
  {
    seq(|s|, k requires 0 <= k < |s| => s[|s| - 1 - k])
  }

  /** Admissible starts in order; every other one names nothing. */
  ghost predicate Candidates(h: Hider, text: string, end: nat, found: seq<nat>)
    requires end <= |text|
  {
    && (forall j, k :: 0 <= j < k < |found| ==> found[j] < found[k])
    && (forall s :: s in found ==> s < end && Admissible(h, text, s))
    && (forall s :: 0 <= s < end && Admissible(h, text, s) && s !in found ==> NamingAt(h, text, s, end).Not?)
  }

  lemma ReversedCandidates(h: Hider, text: string, end: nat, found: seq<nat>)
    requires end <= |text| && Searched(h, text, end, -1, found)
    ensures Candidates(h, text, end, Reversed(found))
  {
    hide NamingAt, Admissible;
    var r := Reversed(found);
    forall s | s in r ensures s in found { }
    forall s | s in found ensures s in r {
      var k :| 0 <= k < |found| && found[k] == s;
      assert r[|found| - 1 - k] == s;
    }
  }

  lemma SearchStart(h: Hider, text: string, edge: nat, end: nat)
    requires edge <= end <= |text| && (edge < end ==> edge + 1 == end && text[edge] == '/')
    ensures Searched(h, text, end, edge, []) && Tail(text, edge, end, 0, 0)
  {
    hide NamingOf, Estimate, Admissible;
    EstimateNothing();
    if edge < end {
      assert text[edge..end] == "/" && text[end..end] == "";
      SlashNamesNothing(h);
    }
  }

  lemma EstimateNothing()
    ensures Estimate("", 0, 0)
  {
    EstimateLast("");
  }

  lemma PartNoSlash(text: string, from: nat, to: nat, stop: nat)
    requires NoSlash(text, from, to) && from <= stop <= to
    ensures NoSlash(text, from, stop)
  {
    assert forall k :: 0 <= k < stop - from ==> text[from..stop][k] == text[from..to][k];
  }

  /** The candidates of the pruned search, oldest first, and the steps it takes. */
  function CandidatesOf(b: Bounds, boundary: nat -> bool, text: string, pieces: seq<(nat, nat)>, starts: seq<nat>,
                        end: nat): (candidates: seq<nat>)
    requires InText(text, pieces) && end <= |text|
    ensures AllBefore(candidates, end)
  {
    var found := SearchFound(b, boundary, text, pieces, starts, end, LastPieceOf(pieces, end, |pieces|), 0, 0);
    assert forall k :: 0 <= k < |found| ==> found[k] in found;
    Reversed(found)
  }

  predicate AllBefore(candidates: seq<nat>, end: nat) {
    forall k | 0 <= k < |candidates| :: candidates[k] < end
  }

  function CandidateSteps(b: Bounds, text: string, pieces: seq<(nat, nat)>, starts: seq<nat>, end: nat): nat
    requires InText(text, pieces) && end <= |text|
  {
    SearchSteps(b, text, pieces, starts, end, LastPieceOf(pieces, end, |pieces|), 0, 0)
  }

  lemma SearchIs(b: Bounds, boundary: nat -> bool, text: string, pieces: seq<(nat, nat)>, starts: seq<nat>,
                 end: nat, piece: int, names: nat, up: nat)
    requires piece < |pieces| && InText(text, pieces) && end <= |text|
    ensures piece < 0 || names > b.most ==>
      && SearchFound(b, boundary, text, pieces, starts, end, piece, names, up) == []
      && SearchSteps(b, text, pieces, starts, end, piece, names, up) == 0
    ensures 0 <= piece && names <= b.most && pieces[piece].0 <= end ==>
      var from, stop := pieces[piece].0, Earlier(pieces[piece].1, end);
      var step := StepOf(text[from..stop]);
      var names', up' := NamesAfter(names, up, step), UpAfter(up, step);
      && SearchFound(b, boundary, text, pieces, starts, end, piece, names, up) ==
           PieceFound(b, boundary, text, starts, from, stop, up, |starts|)
           + SearchFound(b, boundary, text, pieces, starts, end, piece - 1, names', up')
      && SearchSteps(b, text, pieces, starts, end, piece, names, up) ==
           1 + stop - from + PieceSteps(starts, from, |starts|)
           + SearchSteps(b, text, pieces, starts, end, piece - 1, names', up')
  {
    hide StepOf, PieceFound, PieceSteps;
  }

  lemma PiecesInText(text: string, pieces: seq<(nat, nat)>)
    requires Pieces(text, |text|, pieces)
    ensures InText(text, pieces)
  {
  }

  /** The steps of naming candidate after candidate, up to the first that names a key as
      written. */
  function NamingSteps(h: Hider, text: string, end: nat, candidates: seq<nat>, i: nat): nat
    requires end <= |text| && i <= |candidates| && AllBefore(candidates, end)
    decreases |candidates| - i
  {
    if i == |candidates| then 0 else
      var s := candidates[i];
      2 * (end - s)
      + if NamingAt(h, text, s, end).AsWritten? then 0 else NamingSteps(h, text, end, candidates, i + 1)
  }

  /** Where the search stands before it reads `piece`. */
  ghost predicate Reached(h: Hider, text: string, pieces: seq<(nat, nat)>, end: nat, piece: int, edge: int,
                          names: nat, up: nat, found: seq<nat>)
  {
    && -1 <= piece < |pieces| && edge <= end <= |text|
    && (piece < 0 ==> edge == -1)
    && (piece >= 0 ==> pieces[piece].0 <= edge == Earlier(pieces[piece].1, end) && Tail(text, edge, end, names, up))
    && Searched(h, text, end, edge, found)
  }

  lemma ReachedStart(h: Hider, text: string, pieces: seq<(nat, nat)>, end: nat, piece: nat)
    requires Pieces(text, |text|, pieces) && piece < |pieces| && pieces[piece].0 <= end <= |text|
    requires pieces[piece].1 < end ==> pieces[piece].1 + 1 == end && text[pieces[piece].1] == '/'
    ensures Reached(h, text, pieces, end, piece, Earlier(pieces[piece].1, end), 0, 0, [])
  {
    hide Searched, Tail;
    SearchStart(h, text, Earlier(pieces[piece].1, end), end);
  }

  /** What reading a piece starts from. */
  lemma ReachedPiece(h: Hider, text: string, pieces: seq<(nat, nat)>, end: nat, piece: nat, edge: int,
                     names: nat, up: nat, found: seq<nat>)
    requires Pieces(text, |text|, pieces) && Reached(h, text, pieces, end, piece, edge, names, up, found)
    ensures var from, stop := pieces[piece].0, Earlier(pieces[piece].1, end);
            && from <= stop == edge && stop <= end <= |text| && NoSlash(text, from, stop)
            && Tail(text, stop, end, names, up) && Searched(h, text, end, stop, found)
  {
    hide Searched, Tail;
    PartNoSlash(text, pieces[piece].0, pieces[piece].1, Earlier(pieces[piece].1, end));
  }

  lemma ReachedNext(h: Hider, text: string, pieces: seq<(nat, nat)>, end: nat, piece: nat, edge: int,
                    names: nat, up: nat, found: seq<nat>, found': seq<nat>)
    requires Pieces(text, |text|, pieces) && Reached(h, text, pieces, end, piece, edge, names, up, found)
    requires Searched(h, text, end, pieces[piece].0 as int - 1, found')
    ensures var from, stop := pieces[piece].0, Earlier(pieces[piece].1, end);
            && from <= stop <= |text|
            && var step := StepOf(text[from..stop]);
               Reached(h, text, pieces, end, piece - 1, from - 1, NamesAfter(names, up, step), UpAfter(up, step),
                       found')
  {
    hide Searched, Tail, StepOf, NamesAfter, UpAfter;
    ReachedPiece(h, text, pieces, end, piece, edge, names, up, found);
    var from, stop := pieces[piece].0, Earlier(pieces[piece].1, end);
    if piece > 0 {
      assert pieces[piece - 1].1 + 1 == from && text[from - 1] == '/';
      TailStep(text, from, stop, end, names, up);
    }
  }

  lemma ReachedEnd(h: Hider, b: Bounds, text: string, pieces: seq<(nat, nat)>, end: nat, piece: int, edge: int,
                   names: nat, up: nat, found: seq<nat>)
    requires BoundsOf(h.keys, b) && Reached(h, text, pieces, end, piece, edge, names, up, found)
    requires piece < 0 || names > b.most
    ensures end <= |text| && Candidates(h, text, end, Reversed(found))
  {
    hide BoundsOf, Searched, Tail, Candidates, Reversed;
    if piece >= 0 { StopSearch(h, b, text, end, edge, found, names, up); }
    ReversedCandidates(h, text, end, found);
  }

  /** The starts a path that ends at `end` can have, oldest first. */
  method CandidateStarts(h: Hider, b: Bounds, boundary: nat -> bool, text: string, pieces: seq<(nat, nat)>,
                         starts: seq<nat>,
                         end: nat, work: Work)
    returns (exhausted: bool, found: seq<nat>)
    requires Hides(h) && BoundsOf(h.keys, b) && Starts(h, text, starts)
    requires AllPieces(text, pieces)
    requires end <= |text| && work.steps <= STEP_LIMIT
    modifies work
    ensures InText(text, pieces)
    ensures Spent(old(work.steps), work.steps, CandidateSteps(b, text, pieces, starts, end), exhausted)
    ensures !exhausted ==> Candidates(h, text, end, found)
    ensures !exhausted ==> found == CandidatesOf(b, boundary, text, pieces, starts, end)
  {
    hide Hides, BoundsOf, Searched, StepOf, Starts;
    hide PieceFound, PieceSteps, LastPieceOf, FirstMayName, Candidates, Reversed;
    hide SearchFound, SearchSteps, InText, NamesAfter, UpAfter, Reached, Tail, NoSlash, Pieces;
    PiecesInText(text, pieces);
    found := [];
    var piece: int := LastPiece(text, pieces, end);
    var names: nat, up: nat := 0, 0;
    ghost var steps := SearchSteps(b, text, pieces, starts, end, piece, 0, 0);
    ghost var all := SearchFound(b, boundary, text, pieces, starts, end, piece, 0, 0);
    ghost var edge: int := Earlier(pieces[piece].1, end);
    ReachedStart(h, text, pieces, end, piece);
    while piece >= 0 && names <= b.most
      invariant -1 <= piece < |pieces| && work.steps <= STEP_LIMIT
      invariant Reached(h, text, pieces, end, piece, edge, names, up, found)
      invariant work.steps + SearchSteps(b, text, pieces, starts, end, piece, names, up) == old(work.steps) + steps
      invariant found + SearchFound(b, boundary, text, pieces, starts, end, piece, names, up) == all
      decreases piece
    {
      ReachedPiece(h, text, pieces, end, piece, edge, names, up, found);
      var from: nat, to: nat := pieces[piece].0, pieces[piece].1;
      var stop := Earlier(to, end);
      SearchIs(b, boundary, text, pieces, starts, end, piece, names, up);
      exhausted := work.Spend(1 + stop - from);
      if exhausted { return; }
      var step := StepOf(text[from..stop]);
      ghost var before := found;
      exhausted, found := PieceStarts(h, b, boundary, text, starts, from, stop, end, names, up, found, work);
      if exhausted { return; }
      ReachedNext(h, text, pieces, end, piece, edge, names, up, before, found);
      edge := from - 1;
      names, up := NamesAfter(names, up, step), UpAfter(up, step);
      piece := piece - 1;
    }
    SearchIs(b, boundary, text, pieces, starts, end, piece, names, up);
    ReachedEnd(h, b, text, pieces, end, piece, edge, names, up, found);
    assert found == all;
    found := Reversed(found);
    exhausted := false;
  }

  /** The steps of finding the start: the pruned search, then the naming. */
  ghost function StartSteps(h: Hider, b: Bounds, boundary: nat -> bool, text: string, pieces: seq<(nat, nat)>,
                            starts: seq<nat>, end: nat): nat
    requires InText(text, pieces) && end <= |text|
  {
    CandidateSteps(b, text, pieces, starts, end)
    + NamingSteps(h, text, end, CandidatesOf(b, boundary, text, pieces, starts, end), 0)
  }

  /** The choice after looking at `i` candidates. */
  ghost predicate Chosen(h: Hider, text: string, end: nat, candidates: seq<nat>, i: nat, start: Option<nat>)
    requires end <= |text| && i <= |candidates| && AllBefore(candidates, end)
  {
    && (forall j :: 0 <= j < i ==> !NamingAt(h, text, candidates[j], end).AsWritten?)
    && match start
       case None => forall j :: 0 <= j < i ==> NamingAt(h, text, candidates[j], end).Not?
       case Some(s) =>
         exists at ::
           && 0 <= at < i && candidates[at] == s && NamingAt(h, text, s, end).OnceCollapsed?
           && forall j :: at < j < i ==> NamingAt(h, text, candidates[j], end).Not?
  }

  lemma ChosenNext(h: Hider, text: string, end: nat, candidates: seq<nat>, i: nat, start: Option<nat>)
    requires end <= |text| && i < |candidates| && AllBefore(candidates, end)
    requires Chosen(h, text, end, candidates, i, start) && !NamingAt(h, text, candidates[i], end).AsWritten?
    ensures Chosen(h, text, end, candidates, i + 1,
                   if NamingAt(h, text, candidates[i], end).Not? then start else Some(candidates[i]))
  {
    hide NamingAt;
    if NamingAt(h, text, candidates[i], end).Not? {
      if start.Some? {
        var at :| 0 <= at < i && candidates[at] == start.value && NamingAt(h, text, start.value, end).OnceCollapsed?
                  && forall j :: at < j < i ==> NamingAt(h, text, candidates[j], end).Not?;
        assert forall j :: at < j < i + 1 ==> NamingAt(h, text, candidates[j], end).Not?;
      }
    } else {
      assert candidates[i] == candidates[i];
    }
  }

  lemma ChosenWritten(h: Hider, text: string, end: nat, candidates: seq<nat>, i: nat, start: Option<nat>)
    requires end <= |text| && i < |candidates| && AllBefore(candidates, end) && Candidates(h, text, end, candidates)
    requires Chosen(h, text, end, candidates, i, start) && NamingAt(h, text, candidates[i], end).AsWritten?
    ensures IsStartFor(h, text, end, Some(candidates[i]))
  {
    hide NamingAt, Admissible;
    assert candidates[i] in candidates;
    forall s: nat | s < candidates[i] && Admissible(h, text, s) ensures !NamingAt(h, text, s, end).AsWritten? {
      if s in candidates {
        var j :| 0 <= j < |candidates| && candidates[j] == s;
        assert j < i;
      }
    }
  }

  lemma ChosenEnd(h: Hider, text: string, end: nat, candidates: seq<nat>, start: Option<nat>)
    requires end <= |text| && AllBefore(candidates, end) && Candidates(h, text, end, candidates)
    requires Chosen(h, text, end, candidates, |candidates|, start)
    ensures IsStartFor(h, text, end, start)
  {
    hide NamingAt, Admissible;
    forall s: nat | s < end && Admissible(h, text, s) ensures !NamingAt(h, text, s, end).AsWritten? {
      if s in candidates { var j :| 0 <= j < |candidates| && candidates[j] == s; }
    }
    if start.Some? {
      var at :| 0 <= at < |candidates| && candidates[at] == start.value
                && forall j :: at < j < |candidates| ==> NamingAt(h, text, candidates[j], end).Not?;
      assert candidates[at] in candidates;
      forall s: nat | start.value < s < end && Admissible(h, text, s) ensures NamingAt(h, text, s, end).Not? {
        if s in candidates {
          var j :| 0 <= j < |candidates| && candidates[j] == s;
          assert at < j;
        }
      }
    } else {
      forall s: nat | s < end && Admissible(h, text, s) ensures NamingAt(h, text, s, end).Not? {
        if s in candidates { var j :| 0 <= j < |candidates| && candidates[j] == s; }
      }
    }
  }

  /** The start of the hidden path that ends at `end`: the one a search over every
      admissible start picks, unless the steps it takes do not fit in what is left. */
  method StartFor(h: Hider, b: Bounds, boundary: nat -> bool, text: string, pieces: seq<(nat, nat)>, starts: seq<nat>,
                  end: nat, work: Work)
    returns (exhausted: bool, start: Option<nat>)
    requires Hides(h) && BoundsOf(h.keys, b) && Starts(h, text, starts)
    requires AllPieces(text, pieces)
    requires end <= |text| && work.steps <= STEP_LIMIT
    modifies work
    ensures InText(text, pieces)
    ensures Spent(old(work.steps), work.steps, StartSteps(h, b, boundary, text, pieces, starts, end), exhausted)
    ensures !exhausted ==> IsStartFor(h, text, end, start)
  {
    hide Hides, BoundsOf, Starts, Pieces, NamingAt;
    hide CandidatesOf, CandidateSteps, Candidates, IsStartFor, Chosen, AllBefore;
    var candidates;
    start := None;
    exhausted, candidates := CandidateStarts(h, b, boundary, text, pieces, starts, end, work);
    if exhausted { return; }
    ghost var steps := NamingSteps(h, text, end, candidates, 0);
    ghost var before := work.steps;
    NothingChosen(h, text, end, candidates);
    for i := 0 to |candidates|
      invariant work.steps <= STEP_LIMIT
      invariant work.steps + NamingSteps(h, text, end, candidates, i) == before + steps
      invariant Chosen(h, text, end, candidates, i, start)
    {
      var s := candidates[i];
      BeforeEnd(candidates, end, i);
      exhausted := work.Spend(2 * (end - s));
      if exhausted { return; }
      match NamingAt(h, text, s, end) {
        case AsWritten =>
          ChosenWritten(h, text, end, candidates, i, start);
          return false, Some(s);
        case OnceCollapsed =>
          ChosenNext(h, text, end, candidates, i, start);
          start := Some(s);
        case Not =>
          ChosenNext(h, text, end, candidates, i, start);
      }
    }
    ChosenEnd(h, text, end, candidates, start);
    exhausted := false;
  }

  lemma NothingChosen(h: Hider, text: string, end: nat, candidates: seq<nat>)
    requires end <= |text| && AllBefore(candidates, end)
    ensures Chosen(h, text, end, candidates, 0, None)
  {
  }

  lemma BeforeEnd(candidates: seq<nat>, end: nat, i: nat)
    requires AllBefore(candidates, end) && i < |candidates|
    ensures candidates[i] < end
  {
  }

  // ---------------------------------------------------------------- from the hidden paths

  const MAXIMUM_HIDDEN_LENGTH := 4096
  const MARK := "[REDACTED]"

  predicate Holds(s: string, w: string) {
    exists i: nat | i <= |s| :: StandsAt(s, i, w)
  }

  predicate StandsAt(s: string, i: nat, w: string) {
    i + |w| <= |s| && s[i..i + |w|] == w
  }

  /** An empty path and one that is hidden already are passed over. */
  predicate PassedOver(path: string) {
    path == "" || Holds(path, MARK)
  }

  function KeysOfPath(home: string, path: string): set<Key> {
    if PassedOver(path) || |path| > MAXIMUM_HIDDEN_LENGTH then {} else PathKeysOf(home, path)
  }

  /** The keys of the hidden paths. */
  function HiddenKeys(home: string, paths: seq<string>): (keys: set<Key>)
    ensures forall k :: k in keys ==> k.parts != [] && "" !in k.parts
  {
    if paths == [] then {} else HiddenKeys(home, paths[..|paths| - 1]) + KeysOfPath(home, paths[|paths| - 1])
  }

  /** A path counts if it is not empty, not hidden already and no longer than a file's. */
  ghost predicate Counts(path: string) {
    path != "" && |path| <= 4096 && forall a, b :: path != a + "[REDACTED]" + b
  }

  lemma CountsIs(path: string)
    ensures Counts(path) <==> !PassedOver(path) && |path| <= MAXIMUM_HIDDEN_LENGTH
  {
    if Holds(path, MARK) {
      var i: nat :| i <= |path| && StandsAt(path, i, MARK);
      assert path == path[..i] + "[REDACTED]" + path[i + |MARK|..];
    }
    if a, b :| path == a + "[REDACTED]" + b { assert StandsAt(path, |a|, MARK); }
  }

  /** The keys hidden are exactly those of the paths that count, read with "~" as the home
      directory. */
  lemma {:induction false} HiddenKeysAre(home: string, paths: seq<string>, k: Key)
    ensures k in HiddenKeys(home, paths) <==>
      exists path, full :: path in paths && Counts(path) && ReadsAs(home, path, full) && IsKey(full, k)
  {
    hide PathKeysOf, PassedOver, ReadsAs, IsKey, Counts;
    if paths != [] {
      var (front, last) := (paths[..|paths| - 1], paths[|paths| - 1]);
      HiddenKeysAre(home, front, k);
      CountsIs(last);
      var full := ReadsOneWay(home, last);
      KeysExactly(home, last, full, k);
      assert paths == front + [last];
    }
  }

  /** A path too long to be a file hides every text. */
  ghost predicate HidesAll(paths: seq<string>) {
    exists i :: 0 <= i < |paths| && !PassedOver(paths[i]) && |paths[i]| > MAXIMUM_HIDDEN_LENGTH
  }

  method ReadPaths(home: string, paths: seq<string>) returns (keys: set<Key>, hidesAll: bool)
    ensures keys == HiddenKeys(home, paths) && (hidesAll <==> HidesAll(paths))
  {
    hide PathKeysOf, PassedOver;
    keys, hidesAll := {}, false;
    for i := 0 to |paths|
      invariant keys == HiddenKeys(home, paths[..i]) && (hidesAll <==> HidesAll(paths[..i]))
    {
      assert paths[..i + 1][..i] == paths[..i];
      if PassedOver(paths[i]) { continue; }
      if |paths[i]| > MAXIMUM_HIDDEN_LENGTH {
        assert paths[..i + 1][i] == paths[i];
        hidesAll := true;
        continue;
      }
      var more := ReadKeys(home, paths[i]);
      keys := keys + more;
    }
    assert paths[..|paths|] == paths;
  }

  /** What the search is given, all of it read off the keys and the text. */
  ghost predicate Prepared(h: Hider, text: string, b: Bounds, pieces: seq<(nat, nat)>, starts: seq<nat>) {
    BoundsOf(h.keys, b) && AllPieces(text, pieces) && Starts(h, text, starts)
  }

  /** The keys and the text determine what the search is given, and so its steps. */
  lemma PreparedUnique(h: Hider, text: string, b: Bounds, pieces: seq<(nat, nat)>, starts: seq<nat>,
                       c: Bounds, others: seq<(nat, nat)>, more: seq<nat>)
    requires Prepared(h, text, b, pieces, starts) && Prepared(h, text, c, others, more)
    ensures b == c && pieces == others && starts == more
  {
    hide BoundsOf, AllPieces, Admissible, Increasing;
    BoundsUnique(h.keys, b, c);
    PiecesUnique(text, pieces, others);
    IncreasingUnique(starts, more);
  }

  lemma PieceEnds(text: string, pieces: seq<(nat, nat)>, k: nat)
    requires AllPieces(text, pieces) && k < |pieces|
    ensures pieces[k].0 <= pieces[k].1 <= |text| && '/' !in text[pieces[k].0..pieces[k].1]
    ensures if k == |pieces| - 1 then pieces[k].1 == |text|
            else pieces[k].1 < |text| && text[pieces[k].1] == '/' && pieces[k + 1].0 == pieces[k].1 + 1
  {
    if k < |pieces| - 1 { assert NoSlash(text, pieces[k + 1].0, pieces[k + 1].1); }
  }

  /** Pieces that begin at one place end at one place. */
  lemma SamePiece(text: string, a: seq<(nat, nat)>, b: seq<(nat, nat)>, k: nat)
    requires AllPieces(text, a) && AllPieces(text, b) && k < |a| && k < |b| && a[k].0 == b[k].0
    ensures a[k] == b[k] && (k == |a| - 1 <==> k == |b| - 1)
  {
    hide AllPieces;
    PieceEnds(text, a, k);
    PieceEnds(text, b, k);
    OneEnd(text, a[k].0, a[k].1, b[k].1);
  }

  lemma OneEnd(text: string, start: nat, x: nat, y: nat)
    requires start <= x <= |text| && start <= y <= |text| && '/' !in text[start..x] && '/' !in text[start..y]
    requires (x < |text| ==> text[x] == '/') && (y < |text| ==> text[y] == '/')
    ensures x == y
  {
    assert forall i :: start <= i < x ==> text[start..x][i - start] == text[i];
    assert forall i :: start <= i < y ==> text[start..y][i - start] == text[i];
  }

  lemma {:induction false} SamePieces(text: string, a: seq<(nat, nat)>, b: seq<(nat, nat)>, k: nat)
    requires AllPieces(text, a) && AllPieces(text, b) && k < |a|
    ensures k < |b| && a[k] == b[k] && (k == |a| - 1 <==> k == |b| - 1)
  {
    if k > 0 {
      SamePieces(text, a, b, k - 1);
      PieceEnds(text, a, k - 1);
      PieceEnds(text, b, k - 1);
    }
    SamePiece(text, a, b, k);
  }

  lemma PiecesUnique(text: string, a: seq<(nat, nat)>, b: seq<(nat, nat)>)
    requires AllPieces(text, a) && AllPieces(text, b)
    ensures a == b
  {
    forall k | 0 <= k < |a| ensures k < |b| && a[k] == b[k] && (k == |a| - 1 <==> k == |b| - 1) {
      SamePieces(text, a, b, k);
    }
    assert |a| - 1 == |b| - 1;
  }

  lemma FrontOf(a: seq<nat>, s: nat)
    requires Increasing(a) && s in a
    ensures a != [] && s <= a[|a| - 1] && Increasing(a[..|a| - 1]) && a == a[..|a| - 1] + [a[|a| - 1]]
    ensures s in a[..|a| - 1] <==> s != a[|a| - 1]
  {
  }

  /** Increasing sequences of the same elements are equal. */
  lemma {:induction false} IncreasingUnique(a: seq<nat>, b: seq<nat>)
    requires Increasing(a) && Increasing(b) && forall s :: s in a <==> s in b
    ensures a == b
  {
    hide Increasing;
    assert (|a| > 0 ==> a[0] in b) && (|b| > 0 ==> b[0] in a);
    if a != [] {
      var (x, y, c, d) := (a[|a| - 1], b[|b| - 1], a[..|a| - 1], b[..|b| - 1]);
      assert x in a && y in b;
      FrontOf(a, y);
      FrontOf(b, x);
      assert x == y;
      forall s ensures s in c <==> s in d {
        assert s in c ==> s in a;
        assert s in d ==> s in b;
        if s in a {
          FrontOf(a, s);
          FrontOf(b, s);
        }
      }
      IncreasingUnique(c, d);
    }
  }

  lemma NoKeysNoNames(h: Hider, text: string, end: nat)
    requires h.keys == {} && end <= |text|
    ensures IsStartFor(h, text, end, None)
  {
    hide Written, Collapsed, Unescape;
  }

  /** The whole way from the hidden paths and a text to the start of the one that ends at
      `end`; with no keys nothing is spent and nothing found. */
  method FindStart(home: string, isName: char -> bool, paths: seq<string>, boundary: nat -> bool, text: string,
                   end: nat, work: Work)
    returns (exhausted: bool, start: Option<nat>)
    requires end <= |text| && work.steps <= STEP_LIMIT
    modifies work
    ensures !exhausted ==> IsStartFor(Hider(home, HiddenKeys(home, paths), isName), text, end, start)
    ensures HiddenKeys(home, paths) == {} ==> !exhausted && work.steps == old(work.steps)
    ensures HiddenKeys(home, paths) != {} ==>
      var h := Hider(home, HiddenKeys(home, paths), isName);
      exists b, pieces, starts ::
        && Prepared(h, text, b, pieces, starts) && InText(text, pieces)
        && Spent(old(work.steps), work.steps, StartSteps(h, b, boundary, text, pieces, starts, end), exhausted)
  {
    hide HiddenKeys, IsStartFor, StartSteps, Pieces, Starts, BoundsOf;
    var keys, hidesAll := ReadPaths(home, paths);
    var h := Hider(home, keys, isName);
    if keys == {} {
      NoKeysNoNames(h, text, end);
      return false, None;
    }
    var b := ReadBounds(keys);
    var pieces := SlashComponents(text);
    var starts := AdmissibleStarts(h, text);
    exhausted, start := StartFor(h, b, boundary, text, pieces, starts, end, work);
    assert Prepared(h, text, b, pieces, starts);
  }
}
