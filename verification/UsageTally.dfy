/** Token counts: which usage reports count, and how they add up. */
module UsageTally {

  import opened Wrappers

  const SAFE := 9_007_199_254_740_991
  const RECEIPT_CAP: nat := 16_384

  datatype Usage = Usage(input: int, cached: int, output: int, reasoning: int, total: int)

  /** A reported usage record.  A counter that is missing or no whole number is `None`. */
  datatype Raw = Raw(input: Option<int>, cached: Option<int>, output: Option<int>, reasoning: Option<int>,
                     total: Option<int>,
                     cacheWrite: CacheWrite)

  /** The field for cache writes: missing, a whole number, or anything else. */
  datatype CacheWrite = Missing | Whole(tokens: int) | Other

  predicate Count(value: Option<int>) {
    value.Some? && 0 <= value.value <= SAFE
  }

  predicate Safe(u: Usage) {
    u.input <= SAFE && u.cached <= SAFE && u.output <= SAFE && u.reasoning <= SAFE && u.total <= SAFE
  }

  /** The buckets split the total, and cached input is part of the input. */
  predicate Balanced(u: Usage) {
    && 0 <= u.cached <= u.input && 0 <= u.output && 0 <= u.reasoning
    && u.input + u.output + u.reasoning == u.total && Safe(u)
  }

  const ZERO := Usage(0, 0, 0, 0, 0)

  /** A whole number that JavaScript is exact on. */
  predicate Exact(value: Option<int>) {
    value.Some? && 0 <= value.value <= 9_007_199_254_740_991
  }

  /** A report that adds up exactly: cached input within the input, reasoning within the
      output, both together the total, and no cache writes. */
  predicate AddsUp(r: Raw) {
    && Exact(r.input) && Exact(r.cached) && Exact(r.output) && Exact(r.reasoning) && Exact(r.total)
    && r.cached.value <= r.input.value && r.reasoning.value <= r.output.value
    && r.input.value + r.output.value == r.total.value
    && (r.cacheWrite == Missing || r.cacheWrite == Whole(0))
  }

  /** Reported output holds the reasoning; it is split off.  Exactly the reports that add
      up count. */
  function Expenditure(raw: Option<Raw>): (usage: Option<Usage>)
    ensures usage.Some? <==> raw.Some? && AddsUp(raw.value)
    ensures usage.Some? ==>
      var u, r := usage.value, raw.value;
      && u.input == r.input.value && u.cached == r.cached.value && u.total == r.total.value
      && u.reasoning == r.reasoning.value && u.output + u.reasoning == r.output.value
    ensures usage.Some? ==> Balanced(usage.value)
  {
    if raw.None? then None else
      var r := raw.value;
      if !Count(r.input) || !Count(r.cached) || !Count(r.output) || !Count(r.reasoning) || !Count(r.total) then None
      else if r.cached.value > r.input.value || r.reasoning.value > r.output.value then None
      else if r.input.value + r.output.value != r.total.value then None
      else if r.cacheWrite != Missing && r.cacheWrite != Whole(0) then None
      else Some(Usage(r.input.value, r.cached.value, r.output.value - r.reasoning.value, r.reasoning.value,
                      r.total.value))
  }

  function Plus(a: Usage, b: Usage): Usage {
    Usage(a.input + b.input, a.cached + b.cached, a.output + b.output, a.reasoning + b.reasoning, a.total + b.total)
  }

  predicate AtMost(a: Usage, b: Usage) {
    && a.input <= b.input && a.cached <= b.cached && a.output <= b.output
    && a.reasoning <= b.reasoning && a.total <= b.total
  }

  function OrZero(u: Option<Usage>): Usage {
    if u.Some? then u.value else ZERO
  }

  // ---------------------------------------------------------------- the reference

  datatype ReceiptId = ReceiptId(thread: string, turn: string, response: string)

  /** A receipt message that reached a turn: its id, if it has a usable one, and its usage. */
  datatype Credit = Credit(receipt: Option<ReceiptId>, usage: Option<Usage>)

  function Ids(credits: seq<Credit>): set<ReceiptId> {
    set i | 0 <= i < |credits| && credits[i].receipt.Some? :: credits[i].receipt.value
  }

  /** The first credit of each distinct id, in order. */
  function Firsts(credits: seq<Credit>): seq<Credit> {
    if credits == [] then [] else
      var before := credits[..|credits| - 1];
      var c := credits[|credits| - 1];
      if c.receipt.Some? && c.receipt.value !in Ids(before) then Firsts(before) + [c] else Firsts(before)
  }

  /** Those within the receipt cap. */
  function Counted(credits: seq<Credit>): seq<Credit> {
    var firsts := Firsts(credits);
    if |firsts| <= 16_384 then firsts else firsts[..16_384]
  }

  /** The running sum, which skips any usage that would leave the safe range. */
  function Tally(credits: seq<Credit>): Option<Usage> {
    if credits == [] then None else
      var before := Tally(credits[..|credits| - 1]);
      var u := credits[|credits| - 1].usage;
      if u.Some? && Safe(Plus(OrZero(before), u.value)) then Some(Plus(OrZero(before), u.value)) else before
  }

  /** The plain bucketwise total. */
  function Total(credits: seq<Credit>): Usage {
    if credits == [] then ZERO else Plus(Total(credits[..|credits| - 1]), OrZero(credits[|credits| - 1].usage))
  }

  ghost predicate AllBalanced(credits: seq<Credit>) {
    forall i :: 0 <= i < |credits| && credits[i].usage.Some? ==> Balanced(credits[i].usage.value)
  }

  // ---------------------------------------------------------------- about the reference

  lemma PrefixBalanced(credits: seq<Credit>)
    requires AllBalanced(credits) && credits != []
    ensures AllBalanced(credits[..|credits| - 1])
  {
  }

  /** Every running sum is balanced. */
  lemma {:induction false} TallyBalanced(credits: seq<Credit>)
    requires AllBalanced(credits)
    ensures Tally(credits).Some? ==> Balanced(Tally(credits).value)
  {
    if credits != [] {
      PrefixBalanced(credits);
      TallyBalanced(credits[..|credits| - 1]);
    }
  }

  /** Another credit never lowers a bucket, and never unsets the sum. */
  lemma TallyGrows(credits: seq<Credit>, c: Credit)
    requires AllBalanced(credits + [c])
    ensures Tally(credits).Some? ==> Tally(credits + [c]).Some?
    ensures AtMost(OrZero(Tally(credits)), OrZero(Tally(credits + [c])))
  {
    assert (credits + [c])[..|credits|] == credits;
    assert (credits + [c])[|credits|] == c;
  }

  /** The sum never exceeds the plain total; while the total is safe it is the total. */
  lemma {:induction false} TallyIsTotal(credits: seq<Credit>)
    requires AllBalanced(credits)
    ensures AtMost(OrZero(Tally(credits)), Total(credits)) && AtMost(ZERO, Total(credits))
    ensures Safe(Total(credits)) ==> OrZero(Tally(credits)) == Total(credits)
  {
    if credits != [] {
      var front, usage := credits[..|credits| - 1], credits[|credits| - 1].usage;
      PrefixBalanced(credits);
      TallyIsTotal(front);
      assert (usage.Some? ==> Balanced(usage.value)) && AtMost(ZERO, OrZero(usage));
      var sum, total := Tally(front), Total(front);
      assert Tally(credits) == if usage.Some? && Safe(Plus(OrZero(sum), usage.value))
                               then Some(Plus(OrZero(sum), usage.value)) else sum;
      assert Total(credits) == Plus(total, OrZero(usage));
      hide Tally, Total, AllBalanced, AtMost, Safe, Plus, Balanced;
      TotalNext(OrZero(sum), total, OrZero(usage));
    }
  }

  /** Adding to a sum and to the total. */
  lemma TotalNext(sum: Usage, total: Usage, u: Usage)
    requires AtMost(sum, total) && AtMost(ZERO, total) && (Safe(total) ==> sum == total) && AtMost(ZERO, u)
    ensures AtMost(Plus(sum, u), Plus(total, u)) && AtMost(sum, Plus(total, u)) && AtMost(ZERO, Plus(total, u))
    ensures Safe(Plus(total, u)) ==> Safe(total) && sum == total && Safe(Plus(sum, u))
    ensures Plus(sum, ZERO) == sum
  {
  }

  lemma IdsAppend(credits: seq<Credit>, c: Credit)
    ensures Ids(credits + [c]) == Ids(credits) + if c.receipt.Some? then {c.receipt.value} else {}
  {
    var all := credits + [c];
    assert forall i :: 0 <= i < |credits| ==> all[i] == credits[i];
    assert all[|credits|] == c;
  }

  lemma FirstsAppend(credits: seq<Credit>, c: Credit)
    ensures Firsts(credits + [c]) ==
            if c.receipt.Some? && c.receipt.value !in Ids(credits) then Firsts(credits) + [c] else Firsts(credits)
  {
    assert (credits + [c])[..|credits|] == credits;
    assert (credits + [c])[|credits|] == c;
  }

  /** First credits have distinct ids, and all of the ids. */
  lemma {:induction false} FirstsDistinct(credits: seq<Credit>)
    ensures Ids(Firsts(credits)) == Ids(credits)
    ensures |Ids(Firsts(credits))| == |Firsts(credits)|
    ensures AllBalanced(credits) ==> AllBalanced(Firsts(credits))
  {
    if credits != [] {
      var before := credits[..|credits| - 1];
      var c := credits[|credits| - 1];
      FirstsDistinct(before);
      assert credits == before + [c];
      IdsAppend(before, c);
      IdsAppend(Firsts(before), c);
    }
  }

  /** What a turn remembers of the credits it got: the counted ids and their sum. */
  ghost predicate Remembers(receipts: set<ReceiptId>, sum: Option<Usage>, credits: seq<Credit>) {
    && receipts == Ids(Counted(credits)) && |receipts| == |Counted(credits)|
    && sum == Tally(Counted(credits)) && AllBalanced(credits)
  }

  lemma {:induction false} PrefixDistinct(credits: seq<Credit>, n: nat)
    requires n <= |credits| && |Ids(credits)| == |credits|
    ensures |Ids(credits[..n])| == n
    decreases |credits| - n
  {
    if n < |credits| {
      PrefixDistinct(credits, n + 1);
      assert credits[..n + 1] == credits[..n] + [credits[n]];
      IdsAppend(credits[..n], credits[n]);
      IdsSize(credits[..n]);
    } else {
      assert credits[..n] == credits;
    }
  }

  lemma {:induction false} IdsSize(credits: seq<Credit>)
    ensures |Ids(credits)| <= |credits|
  {
    if credits != [] {
      var before := credits[..|credits| - 1];
      assert credits == before + [credits[|credits| - 1]];
      IdsAppend(before, credits[|credits| - 1]);
      IdsSize(before);
    }
  }

  /** One more credit: unless its id is missing, known or over the cap, it is remembered
      and its usage, if valid, is added. */
  lemma RememberAppend(receipts: set<ReceiptId>, sum: Option<Usage>, credits: seq<Credit>, c: Credit)
    requires Remembers(receipts, sum, credits) && (c.usage.Some? ==> Balanced(c.usage.value))
    ensures c.receipt.None? || c.receipt.value in receipts || |receipts| >= RECEIPT_CAP ==>
            Remembers(receipts, sum, credits + [c])
    ensures c.receipt.Some? && c.receipt.value !in receipts && |receipts| < RECEIPT_CAP ==>
            Remembers(receipts + {c.receipt.value},
                      if c.usage.Some? && Safe(Plus(OrZero(sum), c.usage.value))
                        then Some(Plus(OrZero(sum), c.usage.value)) else sum,
                      credits + [c])
  {
    assert AllBalanced(credits + [c]);
    FirstsDistinct(credits);
    CountedAppend(credits, c);
    hide Firsts, Balanced, Safe, Plus, AllBalanced;
    var counted := Counted(credits);
    IdsAppend(counted, c);
    TallyAppend(counted, c);
    hide Tally, Ids, Counted;
  }

  lemma TallyAppend(credits: seq<Credit>, c: Credit)
    ensures var before := Tally(credits);
            Tally(credits + [c]) ==
              if c.usage.Some? && Safe(Plus(OrZero(before), c.usage.value))
                then Some(Plus(OrZero(before), c.usage.value)) else before
  {
    hide Safe, Plus;
    assert (credits + [c])[..|credits|] == credits;
    assert (credits + [c])[|credits|] == c;
  }

  /** Another credit is counted exactly if its id is new among those counted and the cap
      is not reached. */
  lemma CountedAppend(credits: seq<Credit>, c: Credit)
    ensures |Ids(Counted(credits))| == |Counted(credits)| <= RECEIPT_CAP
    ensures Counted(credits + [c]) ==
            if c.receipt.Some? && c.receipt.value !in Ids(Counted(credits)) && |Counted(credits)| < RECEIPT_CAP
            then Counted(credits) + [c] else Counted(credits)
  {
    FirstsAppend(credits, c);
    FirstsDistinct(credits);
    var firsts := Firsts(credits);
    hide Firsts, Ids;
    if |firsts| >= RECEIPT_CAP {
      PrefixDistinct(firsts, RECEIPT_CAP);
      assert firsts[..RECEIPT_CAP] == Counted(credits);
      assert (firsts + [c])[..RECEIPT_CAP] == firsts[..RECEIPT_CAP];
    }
  }

  /** A replay of a credit already seen, whatever usage it claims, counts for nothing. */
  lemma ReplayCountsNothing(credits: seq<Credit>, c: Credit)
    requires c.receipt.Some? ==> c.receipt.value in Ids(credits)
    ensures Counted(credits + [c]) == Counted(credits) && Tally(Counted(credits + [c])) == Tally(Counted(credits))
  {
    FirstsAppend(credits, c);
  }

  /** A remembered sum is balanced, at most the total of the distinct receipts, and that
      total itself whenever it is safe. */
  lemma RememberedSum(receipts: set<ReceiptId>, sum: Option<Usage>, credits: seq<Credit>)
    requires Remembers(receipts, sum, credits)
    ensures sum.Some? ==> Balanced(sum.value)
    ensures AtMost(OrZero(sum), Total(Counted(credits)))
    ensures Safe(Total(Counted(credits))) ==> OrZero(sum) == Total(Counted(credits))
  {
    FirstsDistinct(credits);
    assert AllBalanced(Counted(credits));
    TallyBalanced(Counted(credits));
    TallyIsTotal(Counted(credits));
  }
}
