/** Closing a set of path spellings under the pairs of spellings the walks of a
    card's paths found for one place.

    The rewriting can go on without end (a link that leads to its own parent), so
    the worklist stops at a bound.  Its answer is compared with the least set that
    holds the seeds and is closed under swapping either side of a pair. */
module SameSpellings {

  type Path = string

  import opened Wrappers

  /** The most spellings one set may grow to. */
  const MAXIMUM_SPELLINGS: nat := 32

  predicate IsAbsolute(path: Path) {
    path != [] && path[0] == '/'
  }

  function WithTrailingSeparator(path: Path): Path {
    if path != [] && path[|path| - 1] == '/' then path else path + "/"
  }

  /** `path` written with `to` where it starts with `from`. */
  function Swap(path: Path, from: Path, to: Path): Option<Path> {
    if path == from then Some(to)
    else if WithTrailingSeparator(from) <= path then
      Some(WithTrailingSeparator(to) + path[|WithTrailingSeparator(from)|..])
    else None
  }

  /** The rules in the order they are tried: each pair forward, then backward. */
  function Rule(pairs: seq<(Path, Path)>, r: nat): (Path, Path)
    requires r < 2 * |pairs|
  {
    if r % 2 == 0 then pairs[r / 2] else (pairs[r / 2].1, pairs[r / 2].0)
  }

  function Rewrite(pairs: seq<(Path, Path)>, path: Path, r: nat): Option<Path>
    requires r < 2 * |pairs|
  {
    Swap(path, Rule(pairs, r).0, Rule(pairs, r).1)
  }

  /** A relative seed is not rewritten; every other spelling is. */
  predicate Expandable(seeds: seq<Path>, path: Path) {
    IsAbsolute(path) || path !in seeds
  }

  /** Every rewriting of `path` by the first `n` rules is in `s`. */
  ghost predicate Expanded(pairs: seq<(Path, Path)>, s: iset<Path>, path: Path, n: nat)
    requires n <= 2 * |pairs|
  {
    forall r :: 0 <= r < n && Rewrite(pairs, path, r).Some? ==> Rewrite(pairs, path, r).value in s
  }

  ghost predicate Closed(pairs: seq<(Path, Path)>, seeds: seq<Path>, s: iset<Path>) {
    && (forall p :: p in seeds ==> p in s)
    && (forall p :: p in s && Expandable(seeds, p) ==> Expanded(pairs, s, p, 2 * |pairs|))
  }

  ghost predicate InEveryClosedSet(pairs: seq<(Path, Path)>, seeds: seq<Path>, p: Path) {
    forall s :: Closed(pairs, seeds, s) ==> p in s
  }

  // ---------------------------------------------------------------- distinct sequences

  ghost predicate Distinct(s: seq<Path>) {
    forall j, k :: 0 <= j < k < |s| ==> s[j] != s[k]
  }

  function Elements(s: seq<Path>): iset<Path> {
    iset p | p in s
  }

  /** The seeds without repetition, in order: what a JavaScript Set keeps. */
  function Unique(s: seq<Path>): (u: seq<Path>)
    ensures Distinct(u)
    ensures forall p :: p in u <==> p in s
  {
    if s == [] then []
    else
      var last := s[|s| - 1];
      var rest := Unique(s[..|s| - 1]);
      assert s == s[..|s| - 1] + [last];
      if last in rest then rest else rest + [last]
  }

  lemma {:induction false} DistinctFits(s: seq<Path>, t: set<Path>)
    requires Distinct(s) && forall p :: p in s ==> p in t
    ensures |s| <= |t|
  {
    if s != [] {
      DistinctFits(s[1..], t - {s[0]});
    }
  }

  lemma {:induction false} DistinctSize(s: seq<Path>)
    requires Distinct(s)
    ensures |set p | p in s| == |s|
  {
    if s != [] {
      DistinctSize(s[1..]);
      assert (set p | p in s) == (set p | p in s[1..]) + {s[0]};
    }
  }

  // ---------------------------------------------------------------- the worklist

  function Bound(seeds: seq<Path>): nat {
    if |Unique(seeds)| > MAXIMUM_SPELLINGS then |Unique(seeds)| else MAXIMUM_SPELLINGS
  }

  /** What holds between two rewritings: `found` grows from the seeds inside every
      closed set, and a spelling not yet expanded is still waiting. */
  ghost predicate Progress(pairs: seq<(Path, Path)>, seeds: seq<Path>, found: seq<Path>, waiting: seq<Path>) {
    && Distinct(found)
    && |found| <= Bound(seeds)
    && (forall p :: p in seeds ==> p in found)
    && (forall p :: p in found ==> InEveryClosedSet(pairs, seeds, p))
    && (forall p :: p in waiting ==> p in found && Expandable(seeds, p))
    && (forall p :: p in found && Expandable(seeds, p) && p !in waiting ==>
          Expanded(pairs, Elements(found), p, 2 * |pairs|))
  }

  lemma RewrittenInEveryClosedSet(pairs: seq<(Path, Path)>, seeds: seq<Path>, p: Path, r: nat)
    requires InEveryClosedSet(pairs, seeds, p) && Expandable(seeds, p)
    requires r < 2 * |pairs| && Rewrite(pairs, p, r).Some?
    ensures InEveryClosedSet(pairs, seeds, Rewrite(pairs, p, r).value)
  {
    forall s | Closed(pairs, seeds, s) ensures Rewrite(pairs, p, r).value in s {
      assert Expanded(pairs, s, p, 2 * |pairs|);
    }
  }

  lemma AddFound(pairs: seq<(Path, Path)>, seeds: seq<Path>, found: seq<Path>, waiting: seq<Path>, p: Path, r: nat)
    requires Progress(pairs, seeds, found, waiting) && p in waiting
    requires r < 2 * |pairs| && Rewrite(pairs, p, r).Some?
    requires Rewrite(pairs, p, r).value !in found && |found| < MAXIMUM_SPELLINGS
    ensures var q := Rewrite(pairs, p, r).value; Progress(pairs, seeds, found + [q], waiting + [q])
  {
    hide InEveryClosedSet;
    var q := Rewrite(pairs, p, r).value;
    RewrittenInEveryClosedSet(pairs, seeds, p, r);
    assert forall x :: x in found ==> x in Elements(found + [q]);
    forall x | x in found + [q] && Expandable(seeds, x) && x !in waiting + [q]
      ensures Expanded(pairs, Elements(found + [q]), x, 2 * |pairs|)
    {
      assert x in found && x !in waiting;
    }
  }

  /** The next spelling of the frontier has been rewritten by every rule. */
  lemma DropWaiting(pairs: seq<(Path, Path)>, seeds: seq<Path>, found: seq<Path>, waiting: seq<Path>, p: Path,
                    rest: seq<Path>)
    requires Progress(pairs, seeds, found, waiting)
    requires Expanded(pairs, Elements(found), p, 2 * |pairs|)
    requires waiting == [p] + rest
    ensures Progress(pairs, seeds, found, rest)
  {
    hide InEveryClosedSet, Expanded;
  }

  /** One more spelling than the bound is in every closed set, so none is that small. */
  lemma TooMany(pairs: seq<(Path, Path)>, seeds: seq<Path>, found: seq<Path>, q: Path)
    requires Distinct(found) && q !in found && MAXIMUM_SPELLINGS <= |found|
    requires forall p :: p in seeds ==> p in found
    requires forall p :: p in found + [q] ==> InEveryClosedSet(pairs, seeds, p)
    ensures forall s: set<Path> :: Closed(pairs, seeds, iset p | p in s) ==> |s| > Bound(seeds)
  {
    forall s: set<Path> | Closed(pairs, seeds, iset p | p in s) ensures |s| > Bound(seeds) {
      var all := iset p | p in s;
      forall p | p in found + [q] ensures p in s { assert p in all; }
      DistinctFits(found + [q], s);
      DistinctSize(found);
      DistinctFits(Unique(seeds), set p | p in found);
    }
  }

  ghost predicate FitsBound(pairs: seq<(Path, Path)>, seeds: seq<Path>) {
    exists s: set<Path> :: Closed(pairs, seeds, iset p | p in s) && |s| <= Bound(seeds)
  }

  /** Rewrites one spelling by every rule, adding what is new. */
  method ExpandPath(pairs: seq<(Path, Path)>, seeds: seq<Path>, path: Path, ghost rest: seq<Path>,
                    found: seq<Path>, next: seq<Path>)
    returns (overflow: bool, found': seq<Path>, next': seq<Path>)
    requires Progress(pairs, seeds, found, [path] + (rest + next))
    ensures |found| <= |found'| && |next| <= |next'| && (|next| < |next'| ==> |found| < |found'|)
    ensures overflow ==> Progress(pairs, seeds, found', [path] + (rest + next'))
    ensures overflow ==> !FitsBound(pairs, seeds)
    ensures !overflow ==> Progress(pairs, seeds, found', rest + next')
  {
    hide InEveryClosedSet, Closed, Distinct;
    found', next' := found, next;
    for r := 0 to 2 * |pairs|
      invariant Progress(pairs, seeds, found', [path] + (rest + next'))
      invariant Expanded(pairs, Elements(found'), path, r)
      invariant |found| <= |found'| && |next| <= |next'| && (|next| < |next'| ==> |found| < |found'|)
    {
      var swapped := Rewrite(pairs, path, r);
      if swapped.None? || swapped.value in found' { continue; }
      if |found'| >= MAXIMUM_SPELLINGS {
        RewrittenInEveryClosedSet(pairs, seeds, path, r);
        TooMany(pairs, seeds, found', swapped.value);
        return true, found', next';
      }
      AddFound(pairs, seeds, found', [path] + (rest + next'), path, r);
      assert [path] + (rest + next') + [swapped.value] == [path] + (rest + (next' + [swapped.value]));
      found' := found' + [swapped.value];
      next' := next' + [swapped.value];
    }
    DropWaiting(pairs, seeds, found', [path] + (rest + next'), path, rest + next');
    return false, found', next';
  }

  /** Complete exactly when some closed set is within the larger of the bound and
      the seeds; the answer is then the least closed set. */
  method SameSpellings(pairs: seq<(Path, Path)>, seeds: seq<Path>) returns (spellings: seq<Path>, complete: bool)
    ensures Distinct(spellings) && |spellings| <= Bound(seeds)
    ensures forall p :: p in seeds ==> p in spellings
    ensures forall p, s :: p in spellings && ClosedUnder(pairs, seeds, s) ==> p in s
    ensures complete ==> ClosedUnder(pairs, seeds, iset p | p in spellings)
    ensures complete <==> SmallClosure(pairs, seeds)
  {
    FitsIs(pairs, seeds);
    hide InEveryClosedSet, Closed, ClosedUnder, Distinct, FitsBound, SmallClosure;
    var found := Unique(seeds);
    var frontier := AbsoluteOf(found);
    Start(pairs, seeds, found, frontier);
    while frontier != []
      invariant Progress(pairs, seeds, found, frontier)
      decreases Bound(seeds) - |found|, |frontier|
    {
      var next: seq<Path> := [];
      ghost var before := |found|;
      for i := 0 to |frontier|
        invariant Progress(pairs, seeds, found, frontier[i..] + next)
        invariant before <= |found| && (next != [] ==> before < |found|)
      {
        assert frontier[i..] + next == [frontier[i]] + (frontier[i + 1..] + next);
        var overflow;
        overflow, found, next := ExpandPath(pairs, seeds, frontier[i], frontier[i + 1..], found, next);
        if overflow {
          FoundMeans(pairs, seeds, found);
          return found, false;
        }
      }
      assert frontier[|frontier|..] + next == next;
      frontier := next;
    }
    FoundMeans(pairs, seeds, found);
    Finish(pairs, seeds, found);
    ClosedIs(pairs, seeds, Elements(found));
    return found, true;
  }

  lemma FoundMeans(pairs: seq<(Path, Path)>, seeds: seq<Path>, found: seq<Path>)
    requires forall p :: p in found ==> InEveryClosedSet(pairs, seeds, p)
    ensures forall p, s :: p in found && ClosedUnder(pairs, seeds, s) ==> p in s
  {
    hide Closed, ClosedUnder;
    forall p, s | p in found && ClosedUnder(pairs, seeds, s) ensures p in s { ClosedIs(pairs, seeds, s); }
  }

  function AbsoluteOf(paths: seq<Path>): (r: seq<Path>)
    ensures forall p :: p in r <==> p in paths && IsAbsolute(p)
  {
    if paths == [] then []
    else
      assert paths == [paths[0]] + paths[1..];
      (if IsAbsolute(paths[0]) then [paths[0]] else []) + AbsoluteOf(paths[1..])
  }

  lemma Start(pairs: seq<(Path, Path)>, seeds: seq<Path>, found: seq<Path>, frontier: seq<Path>)
    requires found == Unique(seeds) && frontier == AbsoluteOf(found)
    ensures Progress(pairs, seeds, found, frontier)
  {
    forall p | p in found ensures InEveryClosedSet(pairs, seeds, p) {
      assert p in seeds;
    }
  }

  lemma Finish(pairs: seq<(Path, Path)>, seeds: seq<Path>, found: seq<Path>)
    requires Progress(pairs, seeds, found, [])
    ensures Closed(pairs, seeds, Elements(found))
    ensures FitsBound(pairs, seeds)
  {
    hide InEveryClosedSet;
    var s := set p | p in found;
    DistinctSize(found);
    assert (iset p | p in s) == Elements(found);
  }

  // ---------------------------------------------------------------- the closure, read off the paths

  /** `path` is `rest` below `root`, which may end in a slash itself. */
  ghost predicate LiesBelow(root: Path, rest: string, path: Path) {
    if root != "" && root[|root| - 1] == '/' then path == root + rest else path == root + "/" + rest
  }

  /** `q` is `p` with the start `from` written as `to`: the whole path, or what it lies below. */
  ghost predicate Swapped(p: Path, from: Path, to: Path, q: Path) {
    (p == from && q == to) || (p != from && exists rest :: LiesBelow(from, rest, p) && LiesBelow(to, rest, q))
  }

  lemma SwapIs(p: Path, from: Path, to: Path, q: Path)
    ensures Swap(p, from, to) == Some(q) <==> Swapped(p, from, to, q)
  {
    var prefix := WithTrailingSeparator(from);
    if prefix <= p {
      var rest := p[|prefix|..];
      assert p == prefix + rest && LiesBelow(from, rest, p);
      assert LiesBelow(to, rest, WithTrailingSeparator(to) + rest);
    }
    if rest :| p != from && LiesBelow(from, rest, p) && LiesBelow(to, rest, q) {
      assert p == prefix + rest && q == WithTrailingSeparator(to) + rest;
      assert prefix <= p && p[|prefix|..] == rest;
    }
  }

  /** The seeds are in it, and so is every path that swapping one side of a pair for the
      other makes of an absolute path, or of one that is no seed. */
  ghost predicate ClosedUnder(pairs: seq<(Path, Path)>, seeds: seq<Path>, s: iset<Path>) {
    && (forall p :: p in seeds ==> p in s)
    && forall p, k, q :: p in s && 0 <= k < |pairs| && ("/" <= p || p !in seeds) ==>
         Swapped(p, pairs[k].0, pairs[k].1, q) || Swapped(p, pairs[k].1, pairs[k].0, q) ==> q in s
  }

  lemma ClosedIs(pairs: seq<(Path, Path)>, seeds: seq<Path>, s: iset<Path>)
    ensures Closed(pairs, seeds, s) <==> ClosedUnder(pairs, seeds, s)
  {
    hide Swap, Swapped;
    if Closed(pairs, seeds, s) {
      forall p, k, q | p in s && 0 <= k < |pairs| && ("/" <= p || p !in seeds)
        && (Swapped(p, pairs[k].0, pairs[k].1, q) || Swapped(p, pairs[k].1, pairs[k].0, q))
        ensures q in s
      {
        var r := if Swapped(p, pairs[k].0, pairs[k].1, q) then 2 * k else 2 * k + 1;
        SwapIs(p, Rule(pairs, r).0, Rule(pairs, r).1, q);
        assert Rewrite(pairs, p, r) == Some(q) && Expanded(pairs, s, p, 2 * |pairs|);
      }
    }
    if ClosedUnder(pairs, seeds, s) {
      forall p, r | p in s && Expandable(seeds, p) && 0 <= r < 2 * |pairs| && Rewrite(pairs, p, r).Some?
        ensures Rewrite(pairs, p, r).value in s
      {
        SwapIs(p, Rule(pairs, r).0, Rule(pairs, r).1, Rewrite(pairs, p, r).value);
        var k := r / 2;
        assert "/" <= p || p !in seeds;
        assert Swapped(p, pairs[k].0, pairs[k].1, Rewrite(pairs, p, r).value)
            || Swapped(p, pairs[k].1, pairs[k].0, Rewrite(pairs, p, r).value);
      }
    }
  }

  /** A closed set of at most 32 paths, or of no more than the seeds. */
  ghost predicate SmallClosure(pairs: seq<(Path, Path)>, seeds: seq<Path>) {
    exists s: set<Path> ::
      ClosedUnder(pairs, seeds, iset p | p in s) && (|s| <= 32 || |s| <= |set p | p in seeds|)
  }

  lemma FitsIs(pairs: seq<(Path, Path)>, seeds: seq<Path>)
    ensures FitsBound(pairs, seeds) <==> SmallClosure(pairs, seeds)
  {
    DistinctSize(Unique(seeds));
    assert (set p | p in Unique(seeds)) == set p | p in seeds;
    hide Closed, ClosedUnder;
    if s: set<Path> :| Closed(pairs, seeds, iset p | p in s) && |s| <= Bound(seeds) {
      ClosedIs(pairs, seeds, iset p | p in s);
    }
    if s: set<Path> :|
      ClosedUnder(pairs, seeds, iset p | p in s) && (|s| <= 32 || |s| <= |set p | p in seeds|)
    {
      ClosedIs(pairs, seeds, iset p | p in s);
    }
  }

  // ---------------------------------------------------------------- what the closure means

  /** The seeds are there, and absolute paths are closed under swapping either side of
      every pair. */
  ghost predicate AbsoluteClosed(pairs: seq<(Path, Path)>, seeds: seq<Path>, s: iset<Path>) {
    && (forall p :: p in seeds ==> p in s)
    && (forall p :: p in s && IsAbsolute(p) ==> Expanded(pairs, s, p, 2 * |pairs|))
  }

  lemma RewriteAbsolute(pairs: seq<(Path, Path)>, p: Path, r: nat)
    requires r < 2 * |pairs| && forall k :: 0 <= k < |pairs| ==> IsAbsolute(pairs[k].0) && IsAbsolute(pairs[k].1)
    ensures Rewrite(pairs, p, r).Some? ==> IsAbsolute(Rewrite(pairs, p, r).value)
  {
  }

  /** With pairs of absolute paths, what every closed set holds is what every set holds
      that has the seeds and is closed for absolute paths: the least such set. */
  lemma LeastForAbsolute(pairs: seq<(Path, Path)>, seeds: seq<Path>, p: Path)
    requires forall k :: 0 <= k < |pairs| ==> IsAbsolute(pairs[k].0) && IsAbsolute(pairs[k].1)
    ensures InEveryClosedSet(pairs, seeds, p) <==> forall s :: AbsoluteClosed(pairs, seeds, s) ==> p in s
  {
    hide IsAbsolute, Rewrite;
    forall s | Closed(pairs, seeds, s) ensures AbsoluteClosed(pairs, seeds, s) { }
    forall s | AbsoluteClosed(pairs, seeds, s) && InEveryClosedSet(pairs, seeds, p) ensures p in s {
      var some := iset q | q in s && (IsAbsolute(q) || q in seeds);
      forall q | q in some && Expandable(seeds, q) ensures Expanded(pairs, some, q, 2 * |pairs|) {
        forall r: nat | r < 2 * |pairs| && Rewrite(pairs, q, r).Some? ensures Rewrite(pairs, q, r).value in some {
          RewriteAbsolute(pairs, q, r);
        }
      }
      assert Closed(pairs, seeds, some);
    }
  }

  /** A reading of paths in which the sides of each pair, and what lies below
      them, are one place. */
  ghost predicate SamePlaces(pairs: seq<(Path, Path)>, place: Path -> int) {
    forall p, r :: 0 <= r < 2 * |pairs| && Rewrite(pairs, p, r).Some? ==> place(Rewrite(pairs, p, r).value) == place(p)
  }

  /** No spelling names a place that no seed names, complete or not. */
  lemma SpellingsKeepPlaces(pairs: seq<(Path, Path)>, seeds: seq<Path>, place: Path -> int, p: Path)
    requires SamePlaces(pairs, place)
    requires InEveryClosedSet(pairs, seeds, p)
    ensures exists seed :: seed in seeds && place(seed) == place(p)
  {
    var s := iset q: Path | exists seed :: seed in seeds && place(seed) == place(q);
    assert Closed(pairs, seeds, s);
  }
}
