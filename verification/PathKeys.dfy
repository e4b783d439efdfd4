/** The forms two path texts are compared in: their components as written and
    with ".." applied, a leading "~" read as the home directory, and whether the
    path starts at a root.  Unicode folding is the identity here. */
module PathKeys {

  datatype Key = Key(rooted: bool, parts: seq<string>)

  predicate IsSeparator(c: char) {
    c == '/' || c == '\\'
  }

  /** The number of characters before the first separator. */
  function RunLength(s: string): (n: nat)
    ensures n <= |s|
    ensures forall k :: 0 <= k < n ==> !IsSeparator(s[k])
    ensures n < |s| ==> IsSeparator(s[n])
  {
    if s == [] || IsSeparator(s[0]) then 0 else 1 + RunLength(s[1..])
  }

  function Kept(part: string): seq<string> {
    if part == "" || part == "." then [] else [part]
  }

  /** The components of a path as written. */
  function Components(s: string): seq<string>
    decreases |s|
  {
    var n := RunLength(s);
    if n == |s| then Kept(s) else Kept(s[..n]) + Components(s[n + 1..])
  }

  /** One step of applying "..": it takes away the name before it. */
  function Push(stack: seq<string>, part: string): seq<string> {
    if part == ".." && stack != [] && stack[|stack| - 1] != ".." then stack[..|stack| - 1]
    else stack + [part]
  }

  function Collapse(stack: seq<string>, parts: seq<string>): seq<string>
    decreases |parts|
  {
    if parts == [] then stack else Collapse(Push(stack, parts[0]), parts[1..])
  }

  method CollapseParts(written: seq<string>) returns (collapsed: seq<string>)
    ensures collapsed == Collapse([], written)
  {
    collapsed := [];
    for i := 0 to |written|
      invariant Collapse(collapsed, written[i..]) == Collapse([], written)
    {
      assert written[i..][1..] == written[i + 1..];
      collapsed := Push(collapsed, written[i]);
    }
  }

  function Expand(home: string, path: string): string {
    if path != [] && path[0] == '~' && (|path| == 1 || IsSeparator(path[1])) then home + path[1..] else path
  }

  function Written(home: string, path: string): Key {
    var expanded := Expand(home, path);
    Key(expanded != [] && IsSeparator(expanded[0]), Components(expanded))
  }

  function Collapsed(home: string, path: string): Key {
    var written := Written(home, path);
    Key(written.rooted, Collapse([], written.parts))
  }

  /** The keys of a path: as written and with ".." applied, without empty ones. */
  function PathKeysOf(home: string, path: string): (keys: set<Key>)
    ensures forall k :: k in keys ==> k.parts != [] && "" !in k.parts
  {
    ComponentsNotEmpty(Expand(home, path));
    CollapseWithin([], Components(Expand(home, path)), "");
    set k | k in {Written(home, path), Collapsed(home, path)} && k.parts != []
  }

  method ReadKeys(home: string, path: string) returns (keys: set<Key>)
    ensures keys == PathKeysOf(home, path)
  {
    var written := Written(home, path);
    var parts := CollapseParts(written.parts);
    var collapsed := Key(written.rooted, parts);
    keys := {};
    if written.parts != [] { keys := keys + {written}; }
    if parts != [] { keys := keys + {collapsed}; }
  }

  lemma {:induction false} ComponentsNotEmpty(s: string)
    ensures "" !in Components(s)
    decreases |s|
  {
    var n := RunLength(s);
    if n < |s| { ComponentsNotEmpty(s[n + 1..]); }
  }

  lemma {:induction false} CollapseWithin(stack: seq<string>, parts: seq<string>, part: string)
    requires part !in stack && part !in parts
    ensures part !in Collapse(stack, parts)
    decreases |parts|
  {
    if parts != [] { CollapseWithin(Push(stack, parts[0]), parts[1..], part); }
  }

  datatype Naming = AsWritten | OnceCollapsed | Not

  /** How one reading of a candidate names a hidden path. */
  function ReadingNames(home: string, keys: set<Key>, form: string): Naming {
    if Written(home, form).parts == [] then Not
    else if Written(home, form) in keys then AsWritten
    else if Collapsed(home, form).parts != [] && Collapsed(home, form) in keys then OnceCollapsed
    else Not
  }

  predicate IsLineBreak(c: char) {
    c == '\n' || c == '\r' || c == '\U{2028}' || c == '\U{2029}'
  }

  /** The text with backslash escapes removed. */
  function Unescape(s: string): string
    decreases |s|
  {
    if s == [] then []
    else if s[0] == '\\' && |s| > 1 && !IsLineBreak(s[1]) then [s[1]] + Unescape(s[2..])
    else [s[0]] + Unescape(s[1..])
  }

  /** How a candidate names a hidden path: as written in either reading, or once
      ".." is applied in either. */
  function NamingOf(home: string, keys: set<Key>, candidate: string): Naming {
    var first := ReadingNames(home, keys, candidate);
    var second := ReadingNames(home, keys, Unescape(candidate));
    if first.AsWritten? || second.AsWritten? then AsWritten
    else if first.OnceCollapsed? || second.OnceCollapsed? then OnceCollapsed
    else Not
  }

  // ---------------------------------------------------------------- splitting

  lemma {:induction false} RunLengthIs(s: string, n: nat)
    requires n <= |s| && (forall k :: 0 <= k < n ==> !IsSeparator(s[k])) && (n < |s| ==> IsSeparator(s[n]))
    ensures RunLength(s) == n
  {
    if n > 0 { RunLengthIs(s[1..], n - 1); }
  }

  /** The components of a path whose first separator is known. */
  lemma ComponentsCut(s: string, n: nat)
    requires n < |s| && IsSeparator(s[n]) && forall k :: 0 <= k < n ==> !IsSeparator(s[k])
    ensures Components(s) == Kept(s[..n]) + Components(s[n + 1..])
  {
    RunLengthIs(s, n);
    hide RunLength, Kept, IsSeparator;
  }

  predicate NoSeparator(s: string, n: nat)
    requires n <= |s|
  {
    forall k | 0 <= k < n :: !IsSeparator(s[k])
  }

  lemma JoinedRest(a: string, c: char, b: string, n: nat)
    requires n < |a| && IsSeparator(a[n]) && NoSeparator(a, n)
    ensures Components(a + [c] + b) == Kept(a[..n]) + Components(a[n + 1..] + [c] + b)
  {
    hide Components, Kept, RunLength;
    var s := a + [c] + b;
    assert s[n] == a[n] && NoSeparator(s, n);
    ComponentsCut(s, n);
    assert s[..n] == a[..n];
    assert s[n + 1..] == a[n + 1..] + [c] + b;
  }

  lemma JoinedOne(a: string, c: char, b: string)
    requires IsSeparator(c) && NoSeparator(a, |a|)
    ensures Components(a + [c] + b) == Kept(a) + Components(b)
  {
    hide Components, Kept, RunLength;
    var s := a + [c] + b;
    assert s[|a|] == c && NoSeparator(s, |a|);
    ComponentsCut(s, |a|);
    assert s[..|a|] == a && s[|a| + 1..] == b;
  }

  /** A separator splits the components of a path. */
  lemma {:induction false} ComponentsJoin(a: string, c: char, b: string)
    requires IsSeparator(c)
    ensures Components(a + [c] + b) == Components(a) + Components(b)
    decreases |a|
  {
    hide Components, Kept;
    var n := RunLength(a);
    if n == |a| {
      ComponentsOfOne(a);
      JoinedOne(a, c, b);
    } else {
      ComponentsCut(a, n);
      JoinedRest(a, c, b, n);
      ComponentsJoin(a[n + 1..], c, b);
    }
  }

  lemma ComponentsOfOne(a: string)
    requires forall k :: 0 <= k < |a| ==> !IsSeparator(a[k])
    ensures Components(a) == Kept(a)
  {
    RunLengthIs(a, |a|);
  }

  /** A text without slashes is one component, and none if it is empty or ".". */
  lemma OneComponent(a: string)
    requires '/' !in a && '\\' !in a
    ensures Components(a) == if a == "" || a == "." then [] else [a]
  {
    ComponentsOfOne(a);
  }

  // ---------------------------------------------------------------- the keys, read off the text

  /** A leading "~" is the home directory where it is a whole component; any other text is
      read as it is. */
  ghost predicate ReadsAs(home: string, path: string, full: string) {
    || (path == "~" && full == home)
    || (exists p :: path == "~/" + p && full == home + "/" + p)
    || (exists p :: path == "~\\" + p && full == home + "\\" + p)
    || (full == path && path != "~" && !("~/" <= path) && !("~\\" <= path))
  }

  /** The components of a text, and whether it starts at a root. */
  function LiteralKey(full: string): Key {
    Key("/" <= full || "\\" <= full, Components(full))
  }

  /** The same with every ".." applied. */
  function AppliedKey(full: string): Key {
    Key("/" <= full || "\\" <= full, Collapse([], Components(full)))
  }

  predicate IsKey(full: string, k: Key) {
    k.parts != [] && (k == LiteralKey(full) || k == AppliedKey(full))
  }

  lemma ReadsOneWay(home: string, path: string) returns (full: string)
    ensures ReadsAs(home, path, full) && full == Expand(home, path)
    ensures forall other :: ReadsAs(home, path, other) ==> other == full
  {
    full := Expand(home, path);
    if path != [] && path[0] == '~' && |path| > 1 && IsSeparator(path[1]) {
      assert path == (if path[1] == '/' then "~/" else "~\\") + path[2..];
      assert full == home + ((if path[1] == '/' then "/" else "\\") + path[2..]);
      assert full == home + (if path[1] == '/' then "/" else "\\") + path[2..];
    }
    forall other | ReadsAs(home, path, other) ensures other == full { ReadsSame(home, path, other); }
  }

  lemma ReadsSame(home: string, path: string, other: string)
    requires ReadsAs(home, path, other)
    ensures other == Expand(home, path)
  {
    if p :| path == "~/" + p && other == home + "/" + p {
      assert path[1..] == "/" + p && other == home + ("/" + p);
    } else if p :| path == "~\\" + p && other == home + "\\" + p {
      assert path[1..] == "\\" + p && other == home + ("\\" + p);
    }
  }

  /** The keys of a path are those of the text it reads as. */
  lemma KeysExactly(home: string, path: string, full: string, k: Key)
    requires ReadsAs(home, path, full)
    ensures k in PathKeysOf(home, path) <==> IsKey(full, k)
  {
    ReadsSame(home, path, full);
    hide Components, Collapse, Expand, ReadsAs;
  }

  /** "~" and "~/p" have exactly the keys of the home directory and of p in it. */
  lemma HomeKeys(home: string, p: string, name: string, k: Key)
    ensures k in PathKeysOf(home, "~") <==> IsKey(home, k)
    ensures k in PathKeysOf(home, "~/" + p) <==> IsKey(home + "/" + p, k)
    ensures name != "" && !IsSeparator(name[0]) ==>
      (k in PathKeysOf(home, "~" + name) <==> IsKey("~" + name, k))
    ensures !("~" <= home) ==> (k in PathKeysOf(home, "~/" + p) <==> k in PathKeysOf(home, home + "/" + p))
  {
    KeysExactly(home, "~", home, k);
    assert ReadsAs(home, "~/" + p, home + "/" + p);
    KeysExactly(home, "~/" + p, home + "/" + p, k);
    if name != "" && !IsSeparator(name[0]) {
      assert ("~" + name)[1] == name[0];
      KeysExactly(home, "~" + name, "~" + name, k);
    }
    if !("~" <= home) {
      HomeReadsItself(home, p);
      KeysExactly(home, home + "/" + p, home + "/" + p, k);
    }
    hide IsKey, PathKeysOf;
  }

  lemma HomeReadsItself(home: string, p: string)
    requires !("~" <= home)
    ensures ReadsAs(home, home + "/" + p, home + "/" + p)
  {
    var full := home + "/" + p;
    assert full[0] == if home == "" then '/' else home[0];
    assert home != "" ==> home[..1] == [home[0]];
  }

  /** A reading of a candidate: as it is, or without its escapes. */
  ghost predicate Reading(home: string, candidate: string, full: string) {
    ReadsAs(home, candidate, full) || ReadsAs(home, Unescape(candidate), full)
  }

  lemma ReadingNamesIs(home: string, keys: set<Key>, form: string, full: string)
    requires ReadsAs(home, form, full)
    ensures ReadingNames(home, keys, form).AsWritten? <==> IsKey(full, LiteralKey(full)) && LiteralKey(full) in keys
    ensures ReadingNames(home, keys, form).Not? <==> forall k :: k in keys ==> !IsKey(full, k)
  {
    ReadsSame(home, form, full);
    hide Components, Expand, ReadsAs;
    assert Components(full) == [] ==> Collapse([], Components(full)) == [];
    hide Collapse;
  }

  /** A candidate names a hidden path as written when a reading has it as a key as it
      stands, and not at all when no reading has any key. */
  lemma NamingExactly(home: string, keys: set<Key>, candidate: string)
    ensures NamingOf(home, keys, candidate).AsWritten? <==>
      exists full :: Reading(home, candidate, full) && IsKey(full, LiteralKey(full)) && LiteralKey(full) in keys
    ensures NamingOf(home, keys, candidate).Not? <==>
      forall full, k :: Reading(home, candidate, full) && k in keys ==> !IsKey(full, k)
  {
    hide Reading, IsKey, Unescape, LiteralKey, NamingOf;
    var first, second := ReadingsAre(home, candidate);
    NamingIs(home, keys, candidate, first, second);
  }

  lemma ReadingsAre(home: string, candidate: string) returns (first: string, second: string)
    ensures ReadsAs(home, candidate, first) && ReadsAs(home, Unescape(candidate), second)
    ensures forall full :: Reading(home, candidate, full) <==> full == first || full == second
  {
    first := ReadsOneWay(home, candidate);
    second := ReadsOneWay(home, Unescape(candidate));
    hide ReadsAs, Unescape;
  }

  lemma NamingIs(home: string, keys: set<Key>, candidate: string, first: string, second: string)
    requires ReadsAs(home, candidate, first) && ReadsAs(home, Unescape(candidate), second)
    ensures NamingOf(home, keys, candidate).AsWritten? <==>
            || (IsKey(first, LiteralKey(first)) && LiteralKey(first) in keys)
            || (IsKey(second, LiteralKey(second)) && LiteralKey(second) in keys)
    ensures NamingOf(home, keys, candidate).Not? <==> forall k :: k in keys ==> !IsKey(first, k) && !IsKey(second, k)
  {
    ReadingNamesIs(home, keys, candidate, first);
    ReadingNamesIs(home, keys, Unescape(candidate), second);
    hide ReadsAs, ReadingNames, IsKey, Unescape, LiteralKey;
  }

  /** A text that starts with neither a slash nor "~" names nothing that starts at a root,
      and one that starts with "/" names only what does. */
  lemma RootedNaming(home: string, keys: set<Key>, candidate: string)
    requires candidate != ""
    ensures !IsSeparator(candidate[0]) && candidate[0] != '~' && (forall k :: k in keys ==> k.rooted) ==>
      NamingOf(home, keys, candidate).Not?
    ensures candidate[0] == '/' && (forall k :: k in keys ==> !k.rooted) ==> NamingOf(home, keys, candidate).Not?
  {
    var plain := Unescape(candidate);
    assert candidate[0] != '\\' ==> plain != "" && plain[0] == candidate[0];
    NamingExactly(home, keys, candidate);
    if candidate[0] != '\\' && candidate[0] != '~' {
      forall full | Reading(home, candidate, full) ensures full != "" && full[0] == candidate[0] {
        FirstStays(home, candidate, plain, full);
      }
    }
    hide Reading, Unescape, NamingOf, Components, Collapse;
  }

  lemma FirstStays(home: string, a: string, b: string, full: string)
    requires a != "" && b != "" && a[0] == b[0] != '~' && (ReadsAs(home, a, full) || ReadsAs(home, b, full))
    ensures full != "" && full[0] == a[0]
  {
  }

  // ---------------------------------------------------------------- what survives ".."

  /** A ".." takes away the name right before it, wherever the two stand. */
  lemma CollapseCancels(a: seq<string>, name: string, b: seq<string>)
    requires name != ".."
    ensures Collapse([], a + [name, ".."] + b) == Collapse([], a + b)
  {
    var stack := Collapse([], a);
    assert a + [name, ".."] + b == a + ([name] + ([".."] + b));
    CollapseAppend([], a, [name] + ([".."] + b));
    CollapseAppend([], a, b);
    CollapseCons(stack, name, [".."] + b);
    CollapseCons(stack + [name], "..", b);
    assert (stack + [name])[..|stack|] == stack;
  }

  lemma CollapseCons(stack: seq<string>, part: string, rest: seq<string>)
    ensures Collapse(stack, [part] + rest) == Collapse(Push(stack, part), rest)
  {
    assert ([part] + rest)[1..] == rest;
  }

  /** Nothing else changes a path: with no name right before a "..", it stays. */
  lemma {:induction false} CollapseDone(stack: seq<string>, parts: seq<string>)
    requires forall k :: 0 < k < |stack + parts| && (stack + parts)[k] == ".." ==> (stack + parts)[k - 1] == ".."
    ensures Collapse(stack, parts) == stack + parts
    decreases |parts|
  {
    if parts != [] {
      var whole := stack + parts;
      assert whole[|stack|] == parts[0] && (stack != [] ==> whole[|stack| - 1] == stack[|stack| - 1]);
      assert stack + [parts[0]] + parts[1..] == whole;
      CollapseDone(stack + [parts[0]], parts[1..]);
    } else {
      assert stack + parts == stack;
    }
  }

  /** Read from the right: how many ".." are still to be applied, and how many
      names stay whatever stands before them. */
  function Ups(parts: seq<string>): nat {
    if parts == [] then 0
    else if parts[0] == ".." then Ups(parts[1..]) + 1
    else if Ups(parts[1..]) > 0 then Ups(parts[1..]) - 1
    else 0
  }

  function Stay(parts: seq<string>): nat {
    if parts == [] then 0
    else if parts[0] == ".." || Ups(parts[1..]) > 0 then Stay(parts[1..])
    else Stay(parts[1..]) + 1
  }

  /** Names stacked for the ".." still to come are taken away, what is below them
      stays, and the surviving names are added. */
  lemma {:induction false} CollapseOver(stack: seq<string>, taken: seq<string>, parts: seq<string>)
    requires |taken| == Ups(parts) && (forall k :: 0 <= k < |taken| ==> taken[k] != "..")
    ensures stack <= Collapse(stack + taken, parts)
    ensures |Collapse(stack + taken, parts)| == |stack| + Stay(parts)
    decreases |parts|
  {
    if parts != [] {
      var part, rest := parts[0], parts[1..];
      if part == ".." {
        assert (stack + taken)[..|stack + taken| - 1] == stack + taken[..|taken| - 1];
        CollapseOver(stack, taken[..|taken| - 1], rest);
      } else if Ups(rest) > 0 {
        assert stack + taken + [part] == stack + (taken + [part]);
        CollapseOver(stack, taken + [part], rest);
      } else {
        assert stack + taken + [part] == stack + [part] + [];
        CollapseOver(stack + [part], [], rest);
      }
    }
  }

  lemma {:induction false} CollapseKeepsNames(stack: seq<string>, parts: seq<string>)
    ensures |Collapse(stack, parts)| >= Stay(parts)
    decreases |parts|
  {
    if parts != [] {
      var part, rest := parts[0], parts[1..];
      if part != ".." && Ups(rest) == 0 {
        assert stack + [part] + [] == stack + [part];
        CollapseOver(stack + [part], [], rest);
      } else {
        CollapseKeepsNames(Push(stack, part), rest);
      }
    }
  }

  lemma {:induction false} CollapseAppend(stack: seq<string>, a: seq<string>, b: seq<string>)
    ensures Collapse(stack, a + b) == Collapse(Collapse(stack, a), b)
    decreases |a|
  {
    if a == [] {
      assert a + b == b;
    } else {
      assert (a + b)[1..] == a[1..] + b;
      CollapseAppend(Push(stack, a[0]), a[1..], b);
    }
  }

  lemma {:induction false} StayFits(parts: seq<string>)
    ensures Stay(parts) <= |parts|
  {
    if parts != [] { StayFits(parts[1..]); }
  }

  /** More components on the left add at most one ".." each and take no name. */
  lemma {:induction false} PrependAny(a: seq<string>, b: seq<string>)
    ensures Ups(a + b) <= |a| + Ups(b)
    ensures Stay(a + b) >= Stay(b)
  {
    if a == [] {
      assert a + b == b;
    } else {
      assert (a + b)[1..] == a[1..] + b;
      PrependAny(a[1..], b);
    }
  }

  // ---------------------------------------------------------------- escapes

  /** A "/" is never joined to what is after it by an escape. */
  lemma UnescapePlain(c: char, s: string)
    requires c != '\\' || s == [] || IsLineBreak(s[0])
    ensures Unescape([c] + s) == [c] + Unescape(s)
  {
    assert ([c] + s)[1..] == s;
  }

  lemma UnescapePair(c: char, s: string)
    requires !IsLineBreak(c)
    ensures Unescape(['\\', c] + s) == [c] + Unescape(s)
  {
    assert (['\\', c] + s)[2..] == s;
  }

  lemma BackslashesCons(c: char, s: string)
    ensures Backslashes([c] + s) == (if c == '\\' then 1 else 0) + Backslashes(s)
  {
    assert ([c] + s)[1..] == s;
  }

  lemma {:induction false} UnescapeJoin(a: string, b: string) returns (a': string)
    ensures Unescape(a + "/" + b) == a' + "/" + Unescape(b)
    ensures '\\' !in a ==> a' == a
    ensures '/' !in a ==> '/' !in a'
    ensures Backslashes(a') <= Backslashes(a)
    decreases |a|
  {
    hide Unescape, Backslashes, IsLineBreak;
    if a == [] {
      a' := [];
      UnescapePlain('/', b);
      assert a + "/" + b == ['/'] + b;
    } else if a[0] == '\\' && |a| == 1 {
      a' := [];
      NoLineBreak('/');
      UnescapePair('/', b);
      BackslashesCons('\\', []);
      assert a == ['\\'] + [] && a + "/" + b == ['\\', '/'] + b;
    } else if a[0] == '\\' && !IsLineBreak(a[1]) {
      var c, more := a[1], a[2..];
      var rest := UnescapeJoin(more, b);
      a' := [c] + rest;
      UnescapePair(c, more + "/" + b);
      BackslashesCons('\\', [c] + more);
      BackslashesCons(c, more);
      BackslashesCons(c, rest);
      assert a == ['\\'] + ([c] + more) && a + "/" + b == ['\\', c] + (more + "/" + b);
    } else {
      var c, more := a[0], a[1..];
      var rest := UnescapeJoin(more, b);
      a' := [c] + rest;
      UnescapePlain(c, more + "/" + b);
      BackslashesCons(c, more);
      BackslashesCons(c, rest);
      assert a == [c] + more && a + "/" + b == [c] + (more + "/" + b);
    }
  }

  /** One character as it can be written: as it is, or after a backslash. */
  datatype Spelt = Bare(c: char) | Escaped(c: char)

  function Spelling(s: seq<Spelt>): string {
    if s == [] then [] else (if s[0].Bare? then [s[0].c] else ['\\', s[0].c]) + Spelling(s[1..])
  }

  function Meaning(s: seq<Spelt>): string {
    if s == [] then [] else [s[0].c] + Meaning(s[1..])
  }

  /** Reading without escapes gives back what was written, whichever characters are
      escaped. */
  lemma {:induction false} UnescapeSpelling(s: seq<Spelt>)
    requires forall x :: x in s ==> if x.Bare? then x.c != '\\' else x.c !in "\n\r\U{2028}\U{2029}"
    ensures Unescape(Spelling(s)) == Meaning(s)
  {
    hide Unescape;
    if s == [] {
      UnescapeNothing();
    } else {
      UnescapeSpelling(s[1..]);
      if s[0].Bare? { UnescapePlain(s[0].c, Spelling(s[1..])); } else { UnescapePair(s[0].c, Spelling(s[1..])); }
    }
  }

  lemma UnescapeNothing()
    ensures Unescape("") == ""
  {
  }

  lemma NoLineBreak(c: char)
    requires c == '/'
    ensures !IsLineBreak(c)
  {
  }

  function Backslashes(s: string): nat {
    if s == [] then 0 else (if s[0] == '\\' then 1 else 0) + Backslashes(s[1..])
  }
}
