/** Usage accounting of one Codex connection: active, sealed and child turns, receipts
    counted once, and what is published. */
module CodexUsage {

  import opened UsageTally
  import opened Wrappers

  const ACTIVE_CAP := 256
  const SEALED_CAP := 128
  const CHILD_CAP := 256
  const RAW_THREAD_CAP := 4096

  datatype Key = Key(thread: string, turn: string)

  datatype Context = Context(tokens: int, window: int)

  /** `number` counts the turns begun on this connection; it tells apart two turns that
      reuse one identity.  A child refers to its root by the root's identity. */
  datatype Turn = Turn(number: nat, rawEligible: bool, rawSeen: bool, receipts: set<ReceiptId>, children: set<Key>,
                       sum: Option<Usage>, fallback: Option<Usage>, context: Option<Context>, warned: bool)

  /** Which count a published observation carries. */
  datatype Origin = Receipts | Snapshot | ContextOnly

  datatype Event = Event(number: nat, key: Key, origin: Origin, usage: Usage, context: Option<Context>)

  /** An identity that counts: not empty and of at most 512 units. */
  predicate Usable(value: Option<string>) {
    value.Some? && value.value != "" && |value.value| <= 512
  }

  predicate IsId(value: Option<string>) {
    value.Some? && 0 < |value.value| <= 512
  }

  // ---------------------------------------------------------------- the linked tables

  /** Each child points to one root that is there and lists it, and conversely; no
      identity is both a root and a child. */
  ghost predicate Linked(turns: map<Key, Turn>, children: map<Key, Key>) {
    && (forall c :: c in children ==> c !in turns && children[c] in turns && c in turns[children[c]].children)
    && (forall r, c :: r in turns && c in turns[r].children ==> c in children && children[c] == r)
  }

  ghost predicate Bounded(turns: map<Key, Turn>) {
    forall k :: k in turns ==> |turns[k].children| <= CHILD_CAP && |turns[k].receipts| <= RECEIPT_CAP
  }

  ghost predicate Numbered(turns: map<Key, Turn>, next: nat) {
    && (forall k :: k in turns ==> turns[k].number < next)
    && (forall j, k :: j in turns && k in turns && turns[j].number == turns[k].number ==> j == k)
  }

  /** The sealed turns, oldest first. */
  ghost predicate Listed(order: seq<Key>, sealed: map<Key, Turn>) {
    && (forall i :: 0 <= i < |order| ==> order[i] in sealed)
    && (forall k :: k in sealed ==> k in order)
    && (forall i, j :: 0 <= i < j < |order| ==> order[i] != order[j])
  }

  // ---------------------------------------------------------------- counting

  /** A turn's sum is the tally of the credits it got, and a turn without raw receipts
      got none. */
  ghost predicate Honest(t: Turn, credits: seq<Credit>) {
    && Remembers(t.receipts, t.sum, credits)
    && (t.rawSeen <==> credits != []) && (credits != [] ==> t.rawEligible)
    && (t.fallback.Some? ==> Balanced(t.fallback.value))
  }

  ghost predicate AllHonest(turns: map<Key, Turn>, credits: map<nat, seq<Credit>>) {
    forall k :: k in turns ==> turns[k].number in credits && Honest(turns[k], credits[turns[k].number])
  }

  ghost predicate CreditsBelow(credits: map<nat, seq<Credit>>, next: nat) {
    forall n :: n in credits ==> n < next
  }

  // ---------------------------------------------------------------- publishing

  /** What `publish` emits for a turn: the sum if there is one; else, before any raw
      receipt, the snapshot (at once or at the end); else only the context, if known. */
  function Published(k: Key, t: Turn, terminal: bool): seq<Event> {
    if t.sum.Some? then [Event(t.number, k, Receipts, t.sum.value, t.context)]
    else if !t.rawSeen && (!t.rawEligible || terminal) && t.fallback.Some? then
      [Event(t.number, k, Snapshot, t.fallback.value, t.context)]
    else if t.context.Some? then [Event(t.number, k, ContextOnly, ZERO, t.context)]
    else []
  }

  /** What an observation says, whichever way it comes about: the turn's sum once there is
      one; while no raw receipt has come, the largest snapshot, at once where receipts are
      not expected and else at the end; else the context alone; and it comes with the
      turn's context, once. */
  lemma ObservationIs(k: Key, t: Turn, terminal: bool)
    ensures |Published(k, t, terminal)| <= 1
    ensures forall e :: e in Published(k, t, terminal) ==> e.number == t.number && e.key == k && e.context == t.context
    ensures t.sum.Some? ==>
      exists e :: e in Published(k, t, terminal) && e.origin == Receipts && e.usage == t.sum.value
    ensures t.sum.None? && !t.rawSeen && (!t.rawEligible || terminal) && t.fallback.Some? ==>
      exists e :: e in Published(k, t, terminal) && e.origin == Snapshot && e.usage == t.fallback.value
    ensures t.sum.None? && (t.rawSeen || (t.rawEligible && !terminal) || t.fallback.None?) ==>
      && (t.context.None? ==> Published(k, t, terminal) == [])
      && (t.context.Some? ==> exists e :: e in Published(k, t, terminal) && e.origin == ContextOnly
                                          && e.usage == Usage(0, 0, 0, 0, 0))
  {
    var all := Published(k, t, terminal);
    if all != [] { assert all[0] in all; }
  }

  /** Once a turn's sum was published, every later observation of it is a sum, and no
      bucket goes down. */
  ghost predicate Orderly(events: seq<Event>) {
    && (forall i, j :: 0 <= i < j < |events| && events[i].number == events[j].number && events[i].origin == Receipts ==>
      events[j].origin == Receipts && AtMost(events[i].usage, events[j].usage))
    && (forall i :: 0 <= i < |events| ==> Balanced(events[i].usage))
  }

  /** Published sums of turns still there are covered by the turn's present sum. */
  ghost predicate Covered(events: seq<Event>, turns: map<Key, Turn>, next: nat) {
    && (forall i :: 0 <= i < |events| ==> events[i].number < next)
    && (forall i, k :: 0 <= i < |events| && k in turns && turns[k].number == events[i].number ==>
      (events[i].origin == Receipts ==> turns[k].sum.Some? && AtMost(events[i].usage, turns[k].sum.value)))
  }

  // ---------------------------------------------------------------- lemmas about the tables

  /** The part of the state that concerns turns, wherever they are kept. */
  ghost predicate Sound(turns: map<Key, Turn>, children: map<Key, Key>, next: nat, credits: map<nat, seq<Credit>>,
                        events: seq<Event>) {
    && Linked(turns, children) && Bounded(turns) && Numbered(turns, next) && AllHonest(turns, credits)
    && CreditsBelow(credits, next)
    && Orderly(events) && Covered(events, turns, next)
  }

  lemma SoundTurn(turns: map<Key, Turn>, children: map<Key, Key>, next: nat, credits: map<nat, seq<Credit>>,
                  events: seq<Event>, k: Key)
    requires Sound(turns, children, next, credits, events) && k in turns
    ensures turns[k].number in credits && Honest(turns[k], credits[turns[k].number])
    ensures |turns[k].receipts| <= RECEIPT_CAP && |turns[k].children| <= CHILD_CAP
  {
    hide Linked, Numbered, Orderly, Covered, Honest;
  }

  lemma SoundChild(turns: map<Key, Turn>, children: map<Key, Key>, next: nat, credits: map<nat, seq<Credit>>,
                   events: seq<Event>, c: Key)
    requires Sound(turns, children, next, credits, events) && c in children
    ensures c !in turns && children[c] in turns && c in turns[children[c]].children
  {
    hide Bounded, Numbered, Orderly, Covered, AllHonest;
  }

  /** What a turn's record becomes on a credit: remembered unless its id is missing, known
      or over the cap; then added, if it is valid and the sum stays safe. */
  function Credited(t: Turn, c: Credit): Turn {
    var seen := t.(rawSeen := true);
    if !Taken(t, c) then seen
    else
      var kept := seen.(receipts := t.receipts + {c.receipt.value});
      if Adds(t, c) then kept.(sum := Some(Plus(OrZero(t.sum), c.usage.value))) else kept
  }

  predicate Taken(t: Turn, c: Credit) {
    c.receipt.Some? && c.receipt.value !in t.receipts && |t.receipts| < RECEIPT_CAP
  }

  predicate Adds(t: Turn, c: Credit) {
    Taken(t, c) && c.usage.Some? && Safe(Plus(OrZero(t.sum), c.usage.value))
  }

  lemma CreditedHonest(t: Turn, got: seq<Credit>, c: Credit)
    requires Honest(t, got) && |t.receipts| <= RECEIPT_CAP && t.rawEligible
    requires (c.usage.Some? ==> Balanced(c.usage.value))
    ensures Honest(Credited(t, c), got + [c]) && |Credited(t, c).receipts| <= RECEIPT_CAP
    ensures Credited(t, c).number == t.number && Credited(t, c).children == t.children
    ensures t.sum.Some? ==> Credited(t, c).sum.Some? && AtMost(t.sum.value, Credited(t, c).sum.value)
  {
    hide Remembers;
    RememberAppend(t.receipts, t.sum, got, c);
  }

  /** In every reachable state a turn's sum is balanced and is the total of the distinct
      receipts credited to it, whenever that total is a safe integer. */
  lemma SumIsTotal(turns: map<Key, Turn>, children: map<Key, Key>, next: nat, credits: map<nat, seq<Credit>>,
                   events: seq<Event>, k: Key)
    requires Sound(turns, children, next, credits, events) && k in turns
    ensures turns[k].number in credits
    ensures var total := Total(Counted(credits[turns[k].number]));
            && (turns[k].sum.Some? ==>
                  Balanced(turns[k].sum.value) && turns[k].sum.value.total <= 9_007_199_254_740_991)
            && AtMost(OrZero(turns[k].sum), total) && (Safe(total) ==> OrZero(turns[k].sum) == total)
  {
    SoundTurn(turns, children, next, credits, events, k);
    assert forall u: Usage :: Balanced(u) ==> u.total <= 9_007_199_254_740_991;
    hide Sound, Remembers, Balanced, Safe, AtMost;
    RememberedSum(turns[k].receipts, turns[k].sum, credits[turns[k].number]);
  }

  lemma PublishSound(turns: map<Key, Turn>, children: map<Key, Key>, next: nat, credits: map<nat, seq<Credit>>,
                     events: seq<Event>, k: Key, terminal: bool)
    requires Sound(turns, children, next, credits, events) && k in turns
    ensures Sound(turns, children, next, credits, events + Published(k, turns[k], terminal))
  {
    hide Linked, Bounded, Remembers;
    var t := turns[k];
    var more := Published(k, t, terminal);
    RememberedSum(t.receipts, t.sum, credits[t.number]);
    if more != [] { PublishOrderly(events, turns, next, k, more[0]); }
    else { assert events + more == events; }
  }

  lemma PublishOrderly(events: seq<Event>, turns: map<Key, Turn>, next: nat, k: Key, e: Event)
    requires Orderly(events) && Covered(events, turns, next) && Numbered(turns, next) && k in turns
    requires e.number == turns[k].number
    requires Balanced(e.usage)
    requires turns[k].sum.Some? ==> e.origin == Receipts && e.usage == turns[k].sum.value
    requires turns[k].sum.None? ==> e.origin != Receipts
    ensures Orderly(events + [e]) && Covered(events + [e], turns, next)
  {
    var all := events + [e];
    assert forall i :: 0 <= i < |events| ==> all[i] == events[i];
    assert all[|events|] == e;
  }

  lemma PutLinked(turns: map<Key, Turn>, children: map<Key, Key>, k: Key, t: Turn)
    requires Linked(turns, children)
    requires if k in turns then t.children == turns[k].children else k !in children && t.children == {}
    ensures Linked(turns[k := t], children)
  {
  }

  lemma PutNumbered(turns: map<Key, Turn>, next: nat, next': nat, k: Key, t: Turn)
    requires Numbered(turns, next) && Bounded(turns) && next <= next' && t.number < next'
    requires if k in turns then t.number == turns[k].number else t.number >= next
    requires |t.children| <= CHILD_CAP && |t.receipts| <= RECEIPT_CAP
    ensures Numbered(turns[k := t], next') && Bounded(turns[k := t])
  {
  }

  lemma PutHonest(turns: map<Key, Turn>, credits: map<nat, seq<Credit>>, next: nat, k: Key, t: Turn, got: seq<Credit>)
    requires AllHonest(turns, credits) && Numbered(turns, next) && Honest(t, got)
    requires if k in turns then t.number == turns[k].number else t.number >= next
    ensures AllHonest(turns[k := t], credits[t.number := got])
  {
    hide Honest;
  }

  lemma PutCovered(events: seq<Event>, turns: map<Key, Turn>, next: nat, next': nat, k: Key, t: Turn)
    requires Covered(events, turns, next) && next <= next'
    requires k in turns ==>
      t.number == turns[k].number && (turns[k].sum.Some? ==> t.sum.Some? && AtMost(turns[k].sum.value, t.sum.value))
    requires k !in turns ==> t.number >= next
    ensures Covered(events, turns[k := t], next')
  {
  }

  /** A new root: its identity is neither a root nor a child yet. */
  lemma BeginSound(turns: map<Key, Turn>, children: map<Key, Key>, next: nat, credits: map<nat, seq<Credit>>,
                   events: seq<Event>, k: Key, t: Turn)
    requires Sound(turns, children, next, credits, events) && k !in turns && k !in children
    requires t.number == next && t.children == {} && t.receipts == {} && t.sum.None? && !t.rawSeen && t.fallback.None?
    ensures Sound(turns[k := t], children, next + 1, credits[next := []], events)
  {
    hide Linked, Bounded, Numbered, AllHonest, Orderly, Covered;
    assert Remembers(t.receipts, t.sum, []);
    PutLinked(turns, children, k, t);
    PutNumbered(turns, next, next + 1, k, t);
    PutHonest(turns, credits, next, k, t, []);
    PutCovered(events, turns, next, next + 1, k, t);
  }

  lemma AdoptLinked(turns: map<Key, Turn>, children: map<Key, Key>, r: Key, c: Key)
    requires Linked(turns, children) && r in turns && c !in turns && c !in children
    ensures Linked(turns[r := turns[r].(children := turns[r].children + {c})], children[c := r])
  {
  }

  lemma AdoptSound(turns: map<Key, Turn>, children: map<Key, Key>, next: nat, credits: map<nat, seq<Credit>>,
                   events: seq<Event>, r: Key, c: Key)
    requires Sound(turns, children, next, credits, events)
    requires r in turns && c !in turns && c !in children && |turns[r].children| < CHILD_CAP
    ensures Sound(turns[r := turns[r].(children := turns[r].children + {c})], children[c := r], next, credits, events)
  {
    var t := turns[r].(children := turns[r].children + {c});
    AdoptLinked(turns, children, r, c);
    PutNumbered(turns, next, next, r, t);
    PutHonest(turns, credits, next, r, t, credits[t.number]);
    PutCovered(events, turns, next, next, r, t);
    hide Linked, Bounded, Numbered, AllHonest, Orderly, Covered, Honest, CreditsBelow;
    assert credits[t.number := credits[t.number]] == credits;
  }

  /** A changed turn: same number and children, an honest sum that only grew. */
  lemma ChangeSound(turns: map<Key, Turn>, children: map<Key, Key>, next: nat, credits: map<nat, seq<Credit>>,
                    events: seq<Event>, k: Key, t: Turn, got: seq<Credit>)
    requires Sound(turns, children, next, credits, events) && k in turns
    requires t.number == turns[k].number && t.children == turns[k].children && |t.receipts| <= RECEIPT_CAP
    requires Honest(t, got)
    requires turns[k].sum.Some? ==> t.sum.Some? && AtMost(turns[k].sum.value, t.sum.value)
    ensures Sound(turns[k := t], children, next, credits[t.number := got], events)
  {
    assert t.number < next && |t.children| <= CHILD_CAP;
    hide Linked, Bounded, Numbered, AllHonest, Orderly, Covered, Honest;
    PutLinked(turns, children, k, t);
    PutNumbered(turns, next, next, k, t);
    PutHonest(turns, credits, next, k, t, got);
    PutCovered(events, turns, next, next, k, t);
  }

  function Without(children: map<Key, Key>, gone: set<Key>): map<Key, Key> {
    map c | c in children && c !in gone :: children[c]
  }

  lemma EvictLinked(turns: map<Key, Turn>, children: map<Key, Key>, k: Key)
    requires Linked(turns, children) && k in turns
    ensures Linked(turns - {k}, Without(children, turns[k].children))
  {
    var rest, fewer := turns - {k}, Without(children, turns[k].children);
    forall c | c in fewer ensures c !in rest && fewer[c] in rest && c in rest[fewer[c]].children {
      assert children[c] != k;
    }
    forall r, c | r in rest && c in rest[r].children ensures c in fewer && fewer[c] == r {
      assert children[c] == r;
      assert c !in turns[k].children;
    }
  }

  lemma EvictSound(turns: map<Key, Turn>, children: map<Key, Key>, next: nat, credits: map<nat, seq<Credit>>,
                   events: seq<Event>, k: Key)
    requires Sound(turns, children, next, credits, events) && k in turns
    ensures Sound(turns - {k}, Without(children, turns[k].children), next, credits, events)
  {
    EvictLinked(turns, children, k);
    hide Remembers, Linked, Honest;
  }

  // ---------------------------------------------------------------- the accounting

  /** All turns, wherever they are kept. */
  function Either(active: map<Key, Turn>, sealed: map<Key, Turn>): map<Key, Turn> {
    map k | k in active.Keys + sealed.Keys :: if k in active then active[k] else sealed[k]
  }

  lemma EitherHas(active: map<Key, Turn>, sealed: map<Key, Turn>, k: Key)
    requires active.Keys !! sealed.Keys
    ensures k in active ==> k in Either(active, sealed) && Either(active, sealed)[k] == active[k]
    ensures k in sealed ==> k in Either(active, sealed) && Either(active, sealed)[k] == sealed[k]
    ensures k in Either(active, sealed) ==> k in active || k in sealed
  {
  }

  class Accounting {
    var rawThreads: set<string>
    var expected: set<string>
    var active: map<Key, Turn>
    var sealed: map<Key, Turn>
    var order: seq<Key>
    var children: map<Key, Key>
    var next: nat
    var emitted: seq<Event>
    ghost var credits: map<nat, seq<Credit>>

    /** All turns that can still be counted for, by identity. */
    ghost function Turns(): map<Key, Turn>
      reads this
    {
      Either(active, sealed)
    }

    ghost predicate Valid()
      reads this
    {
      && active.Keys !! sealed.Keys && Listed(order, sealed)
      && |active| <= 256 && |sealed| <= 128 && |rawThreads| <= 4096
      && Sound(Either(active, sealed), children, next, credits, emitted)
    }

    constructor ()
      ensures Valid() && Turns() == map[] && emitted == []
    {
      rawThreads, expected, active, sealed, order, children := {}, {}, map[], map[], [], map[];
      next, emitted, credits := 0, [], map[];
    }

    method Opened(thread: string, rawEligible: bool)
      requires Valid()
      modifies this`rawThreads
      ensures Valid()
      ensures rawThreads == if rawEligible && |old(rawThreads)| < 4096
          then old(rawThreads) + {thread}
          else old(rawThreads) - {thread}
    {
      hide Sound, Listed, Either;
      if rawEligible && |rawThreads| < RAW_THREAD_CAP {
        rawThreads := rawThreads + {thread};
      } else {
        WithoutOne(rawThreads, thread);
        rawThreads := rawThreads - {thread};
      }
    }

    method Publish(k: Key, terminal: bool)
      requires Valid() && k in Either(active, sealed)
      modifies this`emitted
      ensures Valid() && emitted == old(emitted) + Published(k, Either(active, sealed)[k], terminal)
    {
      hide Sound, Listed, Published, Either;
      EitherHas(active, sealed, k);
      PublishSound(Either(active, sealed), children, next, credits, emitted, k, terminal);
      var turn := if k in active then active[k] else sealed[k];
      emitted := emitted + Published(k, turn, terminal);
    }

    /** A turn's record changes in place, wherever the turn is kept. */
    method Put(k: Key, turn: Turn, ghost got: seq<Credit>)
      requires Valid() && k in Either(active, sealed)
      requires turn.number == Either(active, sealed)[k].number && turn.children == Either(active, sealed)[k].children
      requires |turn.receipts| <= RECEIPT_CAP && Honest(turn, got)
      requires Either(active, sealed)[k].sum.Some? ==>
        turn.sum.Some? && AtMost(Either(active, sealed)[k].sum.value, turn.sum.value)
      modifies this`active, this`sealed, this`credits
      ensures Valid() && Turns() == old(Turns())[k := turn] && credits == old(credits)[turn.number := got]
      ensures active.Keys == old(active.Keys) && sealed.Keys == old(sealed.Keys)
    {
      hide Sound, Honest, AtMost, Listed, Either;
      ChangeSound(Either(active, sealed), children, next, credits, emitted, k, turn, got);
      ListedPut(order, sealed, k, turn);
      PutEither(active, sealed, k, turn);
      credits := credits[turn.number := got];
      if k in active { active := active[k := turn]; } else { sealed := sealed[k := turn]; }
    }

    /** The turn a message of this identity counts for. */
    ghost function RootOf(k: Key): Option<Key>
      reads this
    {
      if k in active then Some(k) else if k in children then Some(children[k]) else None
    }

    /** A receipt for an identity that is live, or the child of a turn still there, is
        credited to that turn if it takes receipts. */
    method Receipt(k: Key, response: Option<string>, usage: Option<Raw>)
      requires Valid()
      modifies this`active, this`sealed, this`credits, this`emitted
      ensures Valid() && active.Keys == old(active.Keys) && sealed.Keys == old(sealed.Keys)
      ensures Received(old(Turns()), old(credits), old(emitted), old(RootOf(k)), k, response, usage)
    {
      hide Sound, Listed, Honest, Published, Either;
      EitherHas(active, sealed, k);
      var receipt := if IsId(response) then Some(ReceiptId(k.thread, k.turn, response.value)) else None;
      if k !in active && k !in children {
        if k in sealed && receipt.Some? && receipt.value !in sealed[k].receipts && !sealed[k].warned { Warn(k); }
        return;
      }
      EitherHas(active, sealed, k);
      if k !in active { SoundChild(Either(active, sealed), children, next, credits, emitted, k); }
      var root := if k in active then k else children[k];
      EitherHas(active, sealed, root);
      var turn := if root in active then active[root] else sealed[root];
      if turn.rawEligible { CreditTurn(root, receipt, usage); }
    }

    /** The turn the message counts for gets the credit, if it takes receipts; otherwise a
        sealed turn is marked as warned about when the receipt is a new one of its own. */
    ghost predicate Received(turns: map<Key, Turn>, before: map<nat, seq<Credit>>, events: seq<Event>,
                             root: Option<Key>, k: Key, response: Option<string>, usage: Option<Raw>)
      reads this
    {
      var receipt := if Usable(response) then Some(ReceiptId(k.thread, k.turn, response.value)) else None;
      if root.Some? && root.value in turns && turns[root.value].rawEligible
      then CreditedTo(turns, before, events, root.value, Credit(receipt, Expenditure(usage)))
      else
        && credits == before && emitted == events
        && Turns() == if root.None? && k in turns && receipt.Some? && receipt.value !in turns[k].receipts
                      then turns[k := turns[k].(warned := true)] else turns
    }

    method CreditTurn(root: Key, receipt: Option<ReceiptId>, usage: Option<Raw>)
      requires Valid() && root in Turns() && Turns()[root].rawEligible
      modifies this`active, this`sealed, this`credits, this`emitted
      ensures Valid() && active.Keys == old(active.Keys) && sealed.Keys == old(sealed.Keys)
      ensures CreditedTo(old(Turns()), old(credits), old(emitted), root, Credit(receipt, Expenditure(usage)))
    {
      hide Sound, Listed, Honest, Published, Either;
      EitherHas(active, sealed, root);
      var turn := if root in active then active[root] else sealed[root];
      SoundTurn(Either(active, sealed), children, next, credits, emitted, root);
      ghost var got, c := credits[turn.number], Credit(receipt, Expenditure(usage));
      CreditedHonest(turn, got, c);
      ghost var target, adds := Credited(turn, c), Adds(turn, c);
      turn := turn.(rawSeen := true);
      if receipt.None? || receipt.value in turn.receipts || |turn.receipts| >= RECEIPT_CAP {
        assert turn == target && !adds;
        hide Credited, Adds, Safe, Plus, AtMost;
        Put(root, turn, got + [c]);
        return;
      }
      turn := turn.(receipts := turn.receipts + {receipt.value});
      var spent := Expenditure(usage);
      if spent.None? || !Safe(Plus(OrZero(turn.sum), spent.value)) {
        assert turn == target && !adds;
        hide Credited, Adds, Safe, Plus, AtMost;
        Put(root, turn, got + [c]);
        return;
      }
      turn := turn.(sum := Some(Plus(OrZero(turn.sum), spent.value)));
      assert turn == target && adds;
      hide Credited, Adds, Safe, Plus, AtMost;
      Put(root, turn, got + [c]);
      Publish(root, false);
    }

    /** One turn got one credit, and its sum is published if it counted; nothing else changed. */
    ghost predicate CreditedTo(turns: map<Key, Turn>, before: map<nat, seq<Credit>>, events: seq<Event>,
                               root: Key, c: Credit)
      reads this
      requires root in turns
    {
      var n := turns[root].number;
      && n in before && credits == before[n := before[n] + [c]]
      && Turns() == turns[root := Credited(turns[root], c)]
      && emitted == events + if Adds(turns[root], c) then Published(root, Credited(turns[root], c), false) else []
    }

    /** A late receipt of a sealed turn only warns, once. */
    method Warn(k: Key)
      requires Valid() && k in sealed
      modifies this`active, this`sealed, this`credits
      ensures Valid() && Turns() == old(Turns())[k := old(sealed)[k].(warned := true)] && credits == old(credits)
      ensures active.Keys == old(active.Keys) && sealed.Keys == old(sealed.Keys)
    {
      hide Sound, Listed, Remembers, AtMost, Either;
      EitherHas(active, sealed, k);
      SoundTurn(Either(active, sealed), children, next, credits, emitted, k);
      ghost var got := credits[sealed[k].number];
      assert credits[sealed[k].number := got] == credits;
      assert AtMost(OrZero(sealed[k].sum), OrZero(sealed[k].sum)) by { AtMostSelf(OrZero(sealed[k].sum)); }
      Put(k, sealed[k].(warned := true), got);
    }

    /** A receipt message as it comes in: without usable identities it is ignored. */
    method ReceiptMessage(thread: Option<string>, turnId: Option<string>, response: Option<string>, usage: Option<Raw>)
      requires Valid()
      modifies this`active, this`sealed, this`credits, this`emitted
      ensures Valid() && active.Keys == old(active.Keys) && sealed.Keys == old(sealed.Keys)
      ensures !Usable(thread) || !Usable(turnId) ==>
        Turns() == old(Turns()) && credits == old(credits) && emitted == old(emitted)
      ensures Usable(thread) && Usable(turnId) ==>
        var k := Key(thread.value, turnId.value);
        Received(old(Turns()), old(credits), old(emitted), old(RootOf(k)), k, response, usage)
    {
      hide Sound, Listed, Either, Received;
      if !IsId(thread) || !IsId(turnId) { return; }
      Receipt(Key(thread.value, turnId.value), response, usage);
    }

    method Expect(thread: string)
      requires Valid()
      modifies this`expected
      ensures Valid() && expected == old(expected) + {thread}
    {
      hide Sound, Listed, Either;
      expected := expected + {thread};
    }

    method Cancel(thread: string)
      requires Valid()
      modifies this`expected
      ensures Valid() && expected == old(expected) - {thread}
    {
      hide Sound, Listed, Either;
      expected := expected - {thread};
    }

    /** The one turn whose turn id is `rootTurn`, unless there is none or several. */
    method FindRoot(rootTurn: string) returns (root: Option<Key>)
      requires Valid()
      ensures root.Some? ==> OnlyRoot(Turns().Keys, rootTurn, root.value)
      ensures root.None? ==> forall r :: !OnlyRoot(Turns().Keys, rootTurn, r)
    {
      hide Sound, Listed;
      root := None;
      var left := active.Keys + sealed.Keys;
      assert left == Turns().Keys;
      while left != {}
        invariant left <= Turns().Keys
        invariant root.Some? ==> root.value in Turns().Keys - left && root.value.turn == rootTurn
        invariant forall r :: r in Turns().Keys - left && r.turn == rootTurn ==> root == Some(r)
        decreases left
      {
        var k :| k in left;
        left := left - {k};
        if k.turn == rootTurn {
          if root.Some? {
            assert root.value in Turns().Keys && k in Turns().Keys && root.value != k;
            return None;
          }
          root := Some(k);
        }
      }
    }

    /** An expected turn becomes active if there is room; any other becomes a child of
        the one root it names, if that takes receipts and has room.  An identity that is
        known already changes nothing. */
    method Started(thread: Option<string>, turnId: Option<string>, rootTurn: Option<string>)
      requires Valid()
      modifies this`expected, this`active, this`sealed, this`children, this`next, this`credits
      ensures Valid() && sealed.Keys == old(sealed.Keys)
      ensures !(Usable(thread) && Usable(turnId)) ==>
        expected == old(expected) && Turns() == old(Turns()) && children == old(children)
      ensures Usable(thread) && Usable(turnId) ==>
        var k := Key(thread.value, turnId.value);
        && expected == old(expected) - {k.thread}
        && if k in old(active) || k in old(sealed) || k in old(children)
          then Turns() == old(Turns()) && children == old(children)
           else if k.thread in old(expected) then
             children == old(children)
             && active == if |old(active)| < 256
                 then old(active)[k := Turn(old(next), k.thread in rawThreads, false, {}, {}, None, None, None, false)]
                 else old(active)
           else ChildStarted(old(Turns()), old(children), rootTurn, k)
    {
      hide Sound, Listed, Either;
      if !IsId(thread) || !IsId(turnId) { return; }
      var k := Key(thread.value, turnId.value);
      var wasExpected := k.thread in expected;
      expected := expected - {k.thread};
      if k in active || k in sealed || k in children { return; }
      if !wasExpected {
        StartChild(k, rootTurn);
        return;
      }
      if |active| >= ACTIVE_CAP { return; }
      Begin(k);
    }

    /** A child of the one eligible root with room, if there is one; else nothing. */
    ghost predicate ChildStarted(turns: map<Key, Turn>, before: map<Key, Key>, rootTurn: Option<string>, c: Key)
      reads this
    {
      if Usable(rootTurn) && AnyMayAdopt(turns, rootTurn.value)
      then exists r :: MayAdopt(turns, rootTurn.value, r) && Adopted(turns, before, r, c)
      else Turns() == turns && children == before
    }

    method StartChild(c: Key, rootTurn: Option<string>)
      requires Valid() && c !in active && c !in sealed && c !in children
      modifies this`active, this`sealed, this`children
      ensures Valid() && active.Keys == old(active.Keys) && sealed.Keys == old(sealed.Keys)
      ensures ChildStarted(old(Turns()), old(children), rootTurn, c)
    {
      hide Sound, Listed, Either, Adopted;
      if !IsId(rootTurn) { return; }
      var root := FindRoot(rootTurn.value);
      if root.None? {
        assert !AnyMayAdopt(Turns(), rootTurn.value);
        return;
      }
      OneRoot(Turns(), rootTurn.value, root.value);
      Adopt(root.value, c);
    }

    ghost predicate Adopted(turns: map<Key, Turn>, before: map<Key, Key>, r: Key, c: Key)
      reads this
    {
      && r in turns
      && Turns() == turns[r := turns[r].(children := turns[r].children + {c})] && children == before[c := r]
    }

    method Adopt(r: Key, c: Key)
      requires Valid() && r in Turns() && c !in active && c !in sealed && c !in children
      modifies this`active, this`sealed, this`children
      ensures Valid() && active.Keys == old(active.Keys) && sealed.Keys == old(sealed.Keys)
      ensures if old(Turns())[r].rawEligible && |old(Turns())[r].children| < CHILD_CAP
              then Adopted(old(Turns()), old(children), r, c) else Turns() == old(Turns()) && children == old(children)
    {
      hide Sound, Listed, Either;
      EitherHas(active, sealed, r);
      EitherHas(active, sealed, c);
      var turn := if r in active then active[r] else sealed[r];
      if !turn.rawEligible || |turn.children| >= CHILD_CAP { return; }
      AdoptSound(Either(active, sealed), children, next, credits, emitted, r, c);
      var parent := turn.(children := turn.children + {c});
      PutEither(active, sealed, r, parent);
      ListedPut(order, sealed, r, parent);
      if r in active { active := active[r := parent]; } else { sealed := sealed[r := parent]; }
      children := children[c := r];
    }

    method Begin(k: Key)
      requires Valid() && k !in active && k !in sealed && k !in children && |active| < ACTIVE_CAP
      modifies this`active, this`next, this`credits
      ensures Valid() && active == old(active)[k := FirstTurn(old(next), k.thread in rawThreads)]
    {
      hide Sound, Listed, Either;
      EitherHas(active, sealed, k);
      var turn := FirstTurn(next, k.thread in rawThreads);
      BeginSound(Either(active, sealed), children, next, credits, emitted, k, turn);
      AddEither(active, sealed, k, turn);
      active := active[k := turn];
      credits := credits[next := []];
      next := next + 1;
    }

    /** A snapshot of a live turn: its context is taken if it is plausible, and its count
        is kept as the fallback if it is the largest yet. */
    method SnapshotMessage(k: Key, last: Option<Raw>, window: Option<int>)
      requires Valid()
      modifies this`active, this`sealed, this`credits, this`emitted
      ensures Valid() && active.Keys == old(active.Keys) && sealed.Keys == old(sealed.Keys) && credits == old(credits)
      ensures k !in old(active) ==> Turns() == old(Turns()) && emitted == old(emitted)
      ensures k in old(active) ==>
        && k in old(Turns())
        && var t := Snapped(old(Turns())[k], last, window);
           Turns() == old(Turns())[k := t] && emitted == old(emitted) + Published(k, t, false)
    {
      hide Sound, Listed, Honest, AtMost, Either, Published, Expenditure;
      if k !in active { return; }
      EitherHas(active, sealed, k);
      SoundTurn(Either(active, sealed), children, next, credits, emitted, k);
      ghost var got := credits[active[k].number];
      assert credits[active[k].number := got] == credits;
      AtMostSelf(OrZero(active[k].sum));
      var turn := active[k];
      if Plausible(last, window) {
        turn := turn.(context := Some(Context(last.value.total.value, window.value)));
      }
      var fallback := Expenditure(last);
      if fallback.Some? && (turn.fallback.None? || fallback.value.total > turn.fallback.value.total) {
        turn := turn.(fallback := fallback);
      }
      assert turn == Snapped(active[k], last, window);
      SnappedHonest(active[k], last, window, got);
      hide Snapped;
      Put(k, turn, got);
      Publish(k, false);
    }

    /** The turn is published for the last time and sealed; when the sealed table is full
        its oldest turn goes first, with exactly the children it lists. */
    method Complete(k: Key)
      requires Valid()
      modifies this`active, this`sealed, this`order, this`children, this`emitted
      ensures Valid()
      ensures k !in old(active) ==>
        && active == old(active) && sealed == old(sealed) && order == old(order) && children == old(children)
        && emitted == old(emitted)
      ensures k in old(active) ==>
        && active == old(active) - {k} && k in sealed && sealed[k] == old(active)[k]
        && order == Newest(old(order) + [k])
        && emitted == old(emitted) + Published(k, old(active)[k], true)
        && (|old(sealed)| < 128 ==> sealed == old(sealed)[k := old(active)[k]] && children == old(children))
        && (|old(sealed)| >= 128 ==>
          && old(order) != [] && old(order)[0] in old(sealed)
          && sealed == (old(sealed) - {old(order)[0]})[k := old(active)[k]]
          && children == Without(old(children), old(sealed)[old(order)[0]].children))
    {
      hide Sound, Listed, Either, Published;
      if k !in active { return; }
      EitherHas(active, sealed, k);
      Publish(k, true);
      ListedSize(order, sealed);
      NewestAfter(order, k);
      if |sealed| >= SEALED_CAP { EvictOldest(); }
      hide Newest, Without;
      Seal(k);
    }

    /** Moves a live turn to the end of the sealed ones, where there is room. */
    method Seal(k: Key)
      requires Valid() && k in active && |sealed| < SEALED_CAP
      modifies this`active, this`sealed, this`order
      ensures Valid() && active == old(active) - {k}
      ensures sealed == old(sealed)[k := old(active)[k]] && order == old(order) + [k]
    {
      hide Sound, Listed, Either;
      EitherHas(active, sealed, k);
      ListedMore(order, sealed, k, active[k]);
      EitherSeal(active, sealed, k);
      AddSize(sealed, k, active[k]);
      DropSize(active, k);
      var turn := active[k];
      active := active - {k};
      sealed := sealed[k := turn];
      order := order + [k];
    }

    method EvictOldest()
      requires Valid() && |sealed| >= SEALED_CAP
      modifies this`sealed, this`order, this`children
      ensures Valid() && |sealed| < SEALED_CAP
      ensures old(order) != [] && old(order)[0] in old(sealed) && sealed == old(sealed) - {old(order)[0]}
      ensures order == old(order)[1..]
      ensures children == Without(old(children), old(sealed)[old(order)[0]].children)
    {
      hide Sound, Either, Listed, Without;
      NotEmpty(order, sealed);
      FirstListed(order, sealed);
      var oldest := order[0];
      EitherHas(active, sealed, oldest);
      EvictSound(Either(active, sealed), children, next, credits, emitted, oldest);
      ListedRest(order, sealed);
      DropSize(sealed, oldest);
      EitherDrop(active, sealed, oldest);
      DeleteChildren(sealed[oldest].children);
      sealed := sealed - {oldest};
      order := order[1..];
    }

    method DeleteChildren(gone: set<Key>)
      modifies this`children
      ensures children == Without(old(children), gone)
    {
      var left := gone;
      while left != {}
        invariant left <= gone
        invariant children == Without(old(children), gone - left)
        decreases left
      {
        var child :| child in left;
        WithoutMore(old(children), gone - left, gone - (left - {child}), child);
        left := left - {child};
        children := children - {child};
      }
      assert gone - {} == gone;
    }

    /** Archiving a thread completes every live turn of it and no other, in the order
        `done`: each is observed a last time and sealed, the oldest sealed making room. */
    method Archived(thread: string) returns (ghost done: seq<Key>)
      requires Valid()
      modifies this`rawThreads, this`expected, this`active, this`sealed, this`order, this`children, this`emitted
      ensures Valid() && rawThreads == old(rawThreads) - {thread} && expected == old(expected) - {thread}
      ensures active == map k | k in old(active) && k.thread != thread :: old(active)[k]
      ensures Enumerates(done, OfThread(old(active), thread))
      ensures Completed(sealed, order, emitted, old(active), old(sealed), old(order), old(emitted), done)
    {
      hide Sound, Listed, Either, Published, Without, RestOf, Enumerates, Completed, OfThread;
      WithoutOne(rawThreads, thread);
      rawThreads := rawThreads - {thread};
      expected := expected - {thread};
      done := CompleteThread(thread);
    }

    method CompleteThread(thread: string) returns (ghost done: seq<Key>)
      requires Valid()
      modifies this`active, this`sealed, this`order, this`children, this`emitted
      ensures Valid() && active == (map k | k in old(active) && k.thread != thread :: old(active)[k])
      ensures Enumerates(done, OfThread(old(active), thread))
      ensures Completed(sealed, order, emitted, old(active), old(sealed), old(order), old(emitted), done)
    {
      hide Sound, Listed, Either, Published, Without, RestOf, Observations, Newest, OfThread, Completed, Enumerates;
      ghost var before := active;
      var left := OfThread(active, thread);
      ghost var all := left;
      done := [];
      RestStart(before, thread);
      CompletedNone(before, order, emitted, sealed);
      EnumeratesNone(all);
      while left != {}
        invariant Valid() && RestOf(before, active, thread, left)
        invariant left <= all && Enumerates(done, all - left)
        invariant Completed(sealed, order, emitted, before, old(sealed), old(order), old(emitted), done)
        decreases left
      {
        var k :| k in left;
        RestStep(before, active, thread, left, k);
        EnumeratesMore(done, all, left, k);
        left := left - {k};
        CompleteOne(k, before, old(sealed), old(order), old(emitted), done);
        done := done + [k];
      }
      assert all - {} == all;
      RestDone(before, active, thread);
    }

    method CompleteOne(k: Key, ghost was: map<Key, Turn>, ghost before: map<Key, Turn>, ghost listed: seq<Key>,
                       ghost events: seq<Event>, ghost done: seq<Key>)
      requires Valid() && k in active && k in was && was[k] == active[k]
      requires Completed(sealed, order, emitted, was, before, listed, events, done)
      modifies this`active, this`sealed, this`order, this`children, this`emitted
      ensures Valid() && active == old(active) - {k}
      ensures Completed(sealed, order, emitted, was, before, listed, events, done + [k])
    {
      hide Sound, Listed, Either, Published, Without, Newest, Completed;
      Complete(k);
      CompletedMore(old(sealed), old(order), old(emitted), sealed, order, emitted,
                    was, before, listed, events, done, k);
    }

    lemma CompletedNone(was: map<Key, Turn>, listed: seq<Key>, events: seq<Event>, before: map<Key, Turn>)
      requires Valid() && order == listed && emitted == events && sealed == before
      ensures Completed(sealed, order, emitted, was, before, listed, events, [])
    {
      hide Sound, Either;
      ListedSize(order, sealed);
      assert listed + [] == listed;
    }

    /** Everything goes, after a last observation of each live turn, in the order `seen`. */
    method Clear() returns (ghost seen: seq<Key>)
      requires Valid()
      modifies this
      ensures Valid() && Turns() == map[] && children == map[] && expected == {} && rawThreads == {}
      ensures Enumerates(seen, old(active).Keys) && Observed(emitted, old(active), old(emitted), seen)
    {
      hide Sound, Listed, Either;
      seen := ObserveAll();
      hide Observed;
      DropAll(Either(active, sealed), children, next, credits, emitted);
      active, sealed, order, children, expected, rawThreads := map[], map[], [], map[], {}, {};
    }

    method ObserveAll() returns (ghost seen: seq<Key>)
      requires Valid()
      modifies this`emitted
      ensures Valid() && Enumerates(seen, active.Keys) && Observed(emitted, active, old(emitted), seen)
    {
      hide Sound, Listed, Either, Published, Enumerates, Observed;
      var left := active.Keys;
      seen := [];
      EnumeratesNone(left);
      ObservedNone(emitted, active);
      while left != {}
        invariant Valid() && left <= active.Keys && Enumerates(seen, active.Keys - left)
        invariant Observed(emitted, active, old(emitted), seen)
        decreases left
      {
        var k :| k in left;
        EnumeratesMore(seen, active.Keys, left, k);
        left := left - {k};
        EitherHas(active, sealed, k);
        ghost var emitted1 := emitted;
        Publish(k, true);
        ObservedMore(emitted1, emitted, active, old(emitted), seen, k);
        seen := seen + [k];
      }
      assert active.Keys - {} == active.Keys;
    }
  }

  /** What completing turns one after the other leaves: their last observations, the
      newest of the sealed turns, and every sealed turn as it was. */
  ghost predicate Completed(sealed: map<Key, Turn>, order: seq<Key>, emitted: seq<Event>,
                            was: map<Key, Turn>, before: map<Key, Turn>, listed: seq<Key>, events: seq<Event>,
                            done: seq<Key>)
  {
    && Observed(emitted, was, events, done) && order == Newest(listed + done)
    && forall k :: k in sealed ==> (k in was && sealed[k] == was[k]) || (k in before && sealed[k] == before[k])
  }

  lemma CompletedMore(sealed: map<Key, Turn>, order: seq<Key>, emitted: seq<Event>,
                      sealed': map<Key, Turn>, order': seq<Key>, emitted': seq<Event>,
                      was: map<Key, Turn>, before: map<Key, Turn>, listed: seq<Key>, events: seq<Event>,
                      done: seq<Key>, k: Key)
    requires Completed(sealed, order, emitted, was, before, listed, events, done) && k in was
    requires order' == Newest(order + [k]) && emitted' == emitted + Published(k, was[k], true)
    requires forall j :: j in sealed' ==> (j == k && sealed'[j] == was[k]) || (j in sealed && sealed'[j] == sealed[j])
    ensures Completed(sealed', order', emitted', was, before, listed, events, done + [k])
  {
    hide Observed, Newest, Published;
    ObservedMore(emitted, emitted', was, events, done, k);
    NewestMore(listed, done, k);
  }

  /** The events are those before and then the last observations of these turns. */
  ghost predicate Observed(emitted: seq<Event>, was: map<Key, Turn>, events: seq<Event>, done: seq<Key>) {
    (forall i :: 0 <= i < |done| ==> done[i] in was) && emitted == events + Observations(was, done)
  }

  lemma ObservedNone(events: seq<Event>, was: map<Key, Turn>)
    ensures Observed(events, was, events, [])
  {
  }

  lemma ObservedMore(emitted: seq<Event>, emitted': seq<Event>, was: map<Key, Turn>, events: seq<Event>,
                     done: seq<Key>, k: Key)
    requires Observed(emitted, was, events, done) && k in was && emitted' == emitted + Published(k, was[k], true)
    ensures Observed(emitted', was, events, done + [k])
  {
    hide Published, Observations;
    ObservationsMore(was, done, k);
  }

  /** The last observations of turns, in order. */
  function Observations(turns: map<Key, Turn>, order: seq<Key>): seq<Event>
    requires forall i :: 0 <= i < |order| ==> order[i] in turns
  {
    if order == [] then [] else
      var k := order[|order| - 1];
      Observations(turns, order[..|order| - 1]) + Published(k, turns[k], true)
  }

  lemma ObservationsMore(turns: map<Key, Turn>, order: seq<Key>, k: Key)
    requires k in turns && forall i :: 0 <= i < |order| ==> order[i] in turns
    ensures Observations(turns, order + [k]) == Observations(turns, order) + Published(k, turns[k], true)
  {
    hide Published;
    assert (order + [k])[..|order|] == order && (order + [k])[|order|] == k;
  }

  /** Every element once. */
  ghost predicate Enumerates(order: seq<Key>, keys: set<Key>) {
    (forall k :: k in order <==> k in keys) && forall i, j :: 0 <= i < j < |order| ==> order[i] != order[j]
  }

  lemma EnumeratesNone(all: set<Key>)
    ensures Enumerates([], all - all)
  {
  }

  lemma EnumeratesMore(order: seq<Key>, all: set<Key>, left: set<Key>, k: Key)
    requires left <= all && k in left && Enumerates(order, all - left)
    ensures Enumerates(order + [k], all - (left - {k}))
  {
    var more := order + [k];
    assert k !in order;
    forall i | 0 <= i < |order| ensures order[i] != k { assert order[i] in order; }
    assert more[|order|] == k;
  }

  /** The sealed table keeps the newest. */
  function Newest(order: seq<Key>): seq<Key> {
    if |order| <= 128 then order else order[|order| - 128..]
  }

  lemma NewestMore(listed: seq<Key>, done: seq<Key>, k: Key)
    ensures Newest(Newest(listed + done) + [k]) == Newest(listed + (done + [k]))
  {
    var all := listed + done;
    assert listed + (done + [k]) == all + [k];
    if |all| > SEALED_CAP {
      assert Newest(all) + [k] == (all + [k])[|all| - SEALED_CAP..];
    }
  }

  lemma NewestAfter(order: seq<Key>, k: Key)
    requires |order| <= SEALED_CAP
    ensures Newest(order + [k]) == if |order| < SEALED_CAP then order + [k] else order[1..] + [k]
  {
  }

  /** A listing is as long as its table. */
  lemma {:induction false} ListedSize(order: seq<Key>, sealed: map<Key, Turn>)
    requires Listed(order, sealed)
    ensures |order| == |sealed|
  {
    if order == [] {
      assert forall k :: k !in sealed;
      assert sealed == map[];
    } else {
      FirstListed(order, sealed);
      ListedRest(order, sealed);
      DropSize(sealed, order[0]);
      ListedSize(order[1..], sealed - {order[0]});
    }
  }

  /** A context size that fits its window. */
  predicate Plausible(last: Option<Raw>, window: Option<int>) {
    && last.Some? && Count(last.value.total) && Count(window)
    && 0 < window.value && last.value.total.value <= window.value
  }

  function Snapped(t: Turn, last: Option<Raw>, window: Option<int>): Turn {
    var c := if Plausible(last, window)
             then t.(context := Some(Context(last.value.total.value, window.value))) else t;
    var fallback := Expenditure(last);
    if fallback.Some? && (c.fallback.None? || fallback.value.total > c.fallback.value.total)
    then c.(fallback := fallback) else c
  }

  /** What snapshots leave of a turn, one after the other. */
  function AllSnapped(t: Turn, messages: seq<(Option<Raw>, Option<int>)>): Turn {
    if messages == [] then t else
      var (last, window) := messages[|messages| - 1];
      Snapped(AllSnapped(t, messages[..|messages| - 1]), last, window)
  }

  /** A context that fits its window, both of them whole numbers JavaScript is exact on. */
  predicate GoodContext(message: (Option<Raw>, Option<int>)) {
    && message.0.Some? && message.0.value.total.Some? && message.1.Some?
    && 0 <= message.0.value.total.value <= message.1.value
    && 0 < message.1.value <= 9_007_199_254_740_991
  }

  predicate UsageAt(messages: seq<(Option<Raw>, Option<int>)>, i: nat, u: Usage) {
    i < |messages| && Expenditure(messages[i].0) == Some(u)
  }

  /** The first of the largest totals among the messages that add up. */
  ghost predicate Largest(fallback: Option<Usage>, messages: seq<(Option<Raw>, Option<int>)>) {
    match fallback
    case None => forall i: nat, u :: !UsageAt(messages, i, u)
    case Some(most) => exists i: nat :: UsageAt(messages, i, most) && NoneLarger(messages, i, most)
  }

  ghost predicate NoneLarger(messages: seq<(Option<Raw>, Option<int>)>, i: nat, most: Usage) {
    forall j: nat, u :: UsageAt(messages, j, u) ==> u.total <= most.total && (j < i ==> u.total < most.total)
  }

  /** The last good context. */
  ghost predicate Latest(context: Option<Context>, messages: seq<(Option<Raw>, Option<int>)>) {
    match context
    case None => forall i :: 0 <= i < |messages| ==> !GoodContext(messages[i])
    case Some(c) => exists i :: 0 <= i < |messages| && LastGood(messages, i, c)
  }

  ghost predicate LastGood(messages: seq<(Option<Raw>, Option<int>)>, i: nat, c: Context)
    requires i < |messages|
  {
    && GoodContext(messages[i]) && c == Context(messages[i].0.value.total.value, messages[i].1.value)
    && forall j :: i < j < |messages| ==> !GoodContext(messages[j])
  }

  /** After any snapshots of a turn that had none, the fallback is the first of the largest
      totals that add up, the context is the last good one, and nothing else changed. */
  lemma {:induction false} SnapshotsAre(t: Turn, messages: seq<(Option<Raw>, Option<int>)>)
    requires t.fallback.None? && t.context.None?
    ensures var s := AllSnapped(t, messages);
            && s == t.(fallback := s.fallback, context := s.context)
            && Largest(s.fallback, messages) && Latest(s.context, messages)
  {
    if messages != [] {
      var front, last := messages[..|messages| - 1], messages[|messages| - 1];
      SnapshotsAre(t, front);
      assert messages == front + [last];
      assert GoodContext(last) <==> Plausible(last.0, last.1);
      var s, s' := AllSnapped(t, front), AllSnapped(t, messages);
      LargestNext(s.fallback, s'.fallback, front, last);
      hide Expenditure, Plausible, GoodContext;
      LatestNext(s.context, s'.context, front, last);
      hide Largest, Latest;
    }
  }

  lemma LatestNext(before: Option<Context>, after: Option<Context>, front: seq<(Option<Raw>, Option<int>)>,
                   last: (Option<Raw>, Option<int>))
    requires Latest(before, front)
    requires GoodContext(last) ==> after == Some(Context(last.0.value.total.value, last.1.value))
    requires !GoodContext(last) ==> after == before
    ensures Latest(after, front + [last])
  {
    var all := front + [last];
    assert all[|front|] == last && forall i :: 0 <= i < |front| ==> all[i] == front[i];
    if GoodContext(last) {
      assert LastGood(all, |front|, after.value);
    } else if before.Some? {
      var i :| 0 <= i < |front| && LastGood(front, i, before.value);
      assert LastGood(all, i, before.value);
    }
  }

  lemma LargestNext(before: Option<Usage>, after: Option<Usage>, front: seq<(Option<Raw>, Option<int>)>,
                    last: (Option<Raw>, Option<int>))
    requires Largest(before, front)
    requires var u := Expenditure(last.0);
             after == if u.Some? && (before.None? || u.value.total > before.value.total) then u else before
    ensures Largest(after, front + [last])
  {
    hide Expenditure;
    var all := front + [last];
    forall i: nat, u ensures UsageAt(all, i, u) <==>
      UsageAt(front, i, u) || (i == |front| && Expenditure(last.0) == Some(u)) {}
    forall i: nat, u | UsageAt(front, i, u) ensures i < |front| { AtWithin(front, i, u); }
    hide UsageAt;
    if after.Some? && after != before {
      assert UsageAt(all, |front|, after.value) && NoneLarger(all, |front|, after.value);
    } else if before.Some? {
      var i: nat :| UsageAt(front, i, before.value) && NoneLarger(front, i, before.value);
      assert UsageAt(all, i, before.value) && NoneLarger(all, i, before.value);
    }
  }

  lemma AtWithin(messages: seq<(Option<Raw>, Option<int>)>, i: nat, u: Usage)
    requires UsageAt(messages, i, u)
    ensures i < |messages|
  {
  }

  lemma SnappedHonest(t: Turn, last: Option<Raw>, window: Option<int>, got: seq<Credit>)
    requires Honest(t, got)
    ensures Honest(Snapped(t, last, window), got)
    ensures var u := Snapped(t, last, window);
            u.number == t.number && u.children == t.children && u.receipts == t.receipts && u.sum == t.sum
  {
    hide Remembers, Plausible, Balanced;
  }

  /** What is still active part-way through archiving a thread. */
  ghost predicate RestOf(before: map<Key, Turn>, active: map<Key, Turn>, thread: string, left: set<Key>) {
    && (forall k :: k in left ==> k.thread == thread && k in before)
    && (forall k :: k in active <==> k in before && (k.thread != thread || k in left))
    && (forall k :: k in active ==> active[k] == before[k])
  }

  function OfThread(active: map<Key, Turn>, thread: string): set<Key> {
    set k | k in active && k.thread == thread
  }

  lemma RestStart(active: map<Key, Turn>, thread: string)
    ensures RestOf(active, active, thread, OfThread(active, thread))
  {
  }

  lemma RestStep(before: map<Key, Turn>, active: map<Key, Turn>, thread: string, left: set<Key>, k: Key)
    requires RestOf(before, active, thread, left) && k in left
    ensures k in active && k in before && active[k] == before[k] && RestOf(before, active - {k}, thread, left - {k})
  {
  }

  lemma RestDone(before: map<Key, Turn>, active: map<Key, Turn>, thread: string)
    requires RestOf(before, active, thread, {})
    ensures active == map k | k in before && k.thread != thread :: before[k]
  {
  }

  lemma NotEmpty(order: seq<Key>, sealed: map<Key, Turn>)
    requires Listed(order, sealed) && |sealed| > 0
    ensures order != []
  {
    assert (forall k :: k !in sealed) ==> sealed == map[];
  }

  lemma FirstListed(order: seq<Key>, sealed: map<Key, Turn>)
    requires Listed(order, sealed) && order != []
    ensures order[0] in sealed
  {
  }

  lemma ListedRest(order: seq<Key>, sealed: map<Key, Turn>)
    requires Listed(order, sealed) && order != []
    ensures Listed(order[1..], sealed - {order[0]})
  {
    var k := order[0];
    forall j | j in sealed - {k} ensures j in order[1..] {
      var i :| 0 <= i < |order| && order[i] == j;
      assert order[1..][i - 1] == j;
    }
  }

  lemma ListedMore(order: seq<Key>, sealed: map<Key, Turn>, k: Key, t: Turn)
    requires Listed(order, sealed) && k !in sealed
    ensures Listed(order + [k], sealed[k := t])
  {
    assert (order + [k])[|order|] == k;
    forall j | j in sealed ensures j in order + [k] {
      var i :| 0 <= i < |order| && order[i] == j;
      assert (order + [k])[i] == j;
    }
  }

  lemma DropSize(turns: map<Key, Turn>, k: Key)
    requires k in turns
    ensures |turns - {k}| == |turns| - 1
  {
    assert (turns - {k}).Keys == turns.Keys - {k};
    assert |turns - {k}| == |(turns - {k}).Keys| && |turns| == |turns.Keys|;
  }

  lemma EitherDrop(active: map<Key, Turn>, sealed: map<Key, Turn>, k: Key)
    requires active.Keys !! sealed.Keys && k in sealed
    ensures Either(active, sealed - {k}) == Either(active, sealed) - {k}
  {
    var a, b := Either(active, sealed - {k}), Either(active, sealed) - {k};
    assert a.Keys == b.Keys;
    assert forall j :: j in a ==> a[j] == b[j];
    assert a == b;
  }

  lemma EitherSeal(active: map<Key, Turn>, sealed: map<Key, Turn>, k: Key)
    requires active.Keys !! sealed.Keys && k in active
    ensures Either(active - {k}, sealed[k := active[k]]) == Either(active, sealed)
  {
    var a, b := Either(active - {k}, sealed[k := active[k]]), Either(active, sealed);
    assert a.Keys == b.Keys;
    assert forall j :: j in a ==> a[j] == b[j];
    assert a == b;
  }

  lemma WithoutMore(children: map<Key, Key>, gone: set<Key>, more: set<Key>, c: Key)
    requires more == gone + {c}
    ensures Without(children, gone) - {c} == Without(children, more)
  {
  }

  lemma DropAll(turns: map<Key, Turn>, children: map<Key, Key>, next: nat, credits: map<nat, seq<Credit>>,
                events: seq<Event>)
    requires Sound(turns, children, next, credits, events)
    ensures Sound(Either(map[], map[]), map[], next, credits, events) && Listed([], map[])
    ensures Either(map[], map[]) == map[]
  {
    hide Honest;
    assert Either(map[], map[]) == map[];
  }

  function FirstTurn(number: nat, rawEligible: bool): Turn {
    Turn(number, rawEligible, false, {}, {}, None, None, None, false)
  }

  /** The only turn with this turn id, whatever its thread. */
  ghost predicate OnlyRoot(keys: set<Key>, rootTurn: string, r: Key) {
    r in keys && r.turn == rootTurn && forall other :: other in keys && other.turn == rootTurn ==> other == r
  }

  ghost predicate MayAdopt(turns: map<Key, Turn>, rootTurn: string, r: Key) {
    OnlyRoot(turns.Keys, rootTurn, r) && turns[r].rawEligible && |turns[r].children| < 256
  }

  ghost predicate AnyMayAdopt(turns: map<Key, Turn>, rootTurn: string) {
    exists r :: MayAdopt(turns, rootTurn, r)
  }

  lemma OneRoot(turns: map<Key, Turn>, rootTurn: string, r: Key)
    requires OnlyRoot(turns.Keys, rootTurn, r)
    ensures AnyMayAdopt(turns, rootTurn) <==> turns[r].rawEligible && |turns[r].children| < CHILD_CAP
    ensures AnyMayAdopt(turns, rootTurn) ==> MayAdopt(turns, rootTurn, r)
  {
    if AnyMayAdopt(turns, rootTurn) {
      var other :| MayAdopt(turns, rootTurn, other);
      assert other == r;
    }
    assert turns[r].rawEligible && |turns[r].children| < CHILD_CAP ==> MayAdopt(turns, rootTurn, r);
  }

  lemma AddEither(active: map<Key, Turn>, sealed: map<Key, Turn>, k: Key, t: Turn)
    requires k !in active && k !in sealed
    ensures Either(active[k := t], sealed) == Either(active, sealed)[k := t] && |active[k := t]| == |active| + 1
  {
    var a, b := Either(active[k := t], sealed), Either(active, sealed)[k := t];
    assert a.Keys == b.Keys;
    assert forall j :: j in a ==> a[j] == b[j];
    assert a == b;
    hide Either;
    AddSize(active, k, t);
  }

  lemma AddSize(turns: map<Key, Turn>, k: Key, t: Turn)
    requires k !in turns
    ensures |turns[k := t]| == |turns| + 1
  {
    assert turns[k := t].Keys == turns.Keys + {k};
    assert |turns[k := t]| == |turns[k := t].Keys| && |turns| == |turns.Keys|;
  }

  lemma WithoutOne(threads: set<string>, thread: string)
    ensures |threads - {thread}| <= |threads|
  {
    assert threads == (threads - {thread}) + (threads * {thread});
  }

  lemma AtMostSelf(u: Usage)
    ensures AtMost(u, u)
  {
  }

  lemma PutEither(active: map<Key, Turn>, sealed: map<Key, Turn>, k: Key, t: Turn)
    requires active.Keys !! sealed.Keys && k in Either(active, sealed)
    ensures k in active ==>
      && Either(active[k := t], sealed) == Either(active, sealed)[k := t]
      && active[k := t].Keys == active.Keys && |active[k := t]| == |active|
    ensures k !in active ==>
      && Either(active, sealed[k := t]) == Either(active, sealed)[k := t]
      && sealed[k := t].Keys == sealed.Keys && |sealed[k := t]| == |sealed|
  {
    SameSize(active, k, t);
    SameSize(sealed, k, t);
  }

  lemma SameSize(turns: map<Key, Turn>, k: Key, t: Turn)
    ensures k in turns ==> turns[k := t].Keys == turns.Keys && |turns[k := t]| == |turns|
  {
    if k in turns {
      assert turns[k := t].Keys == turns.Keys;
      assert |turns[k := t]| == |turns[k := t].Keys| && |turns| == |turns.Keys|;
    }
  }

  lemma ListedPut(order: seq<Key>, sealed: map<Key, Turn>, k: Key, t: Turn)
    requires Listed(order, sealed)
    ensures k in sealed ==> Listed(order, sealed[k := t])
  {
  }
}
