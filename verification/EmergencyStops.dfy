/** The emergency-stop journal and its recovery after a restart.

    A stop writes its intent to the journal before its first effect.  A restart
    reads the journal in rounds of passes, stages what it read, saves the
    workspace, and only then clears the rows.  `Next` says what each transaction
    may do; the lemmas speak of every run of transactions, in any order that
    crashes and restarts allow.  The class performs the transactions and the
    recovery loop against that relation. */
module EmergencyStops {

  import opened Wrappers

  /** SQLite rowids are 64-bit. */
  const MAXIMUM_ROW_ID: int := 0x7fff_ffff_ffff_ffff
  type RowId = id: int | -MAXIMUM_ROW_ID - 1 <= id <= MAXIMUM_ROW_ID

  /** A journal row as stored.  Its SHA-256 identity is taken as the row itself. */
  datatype Row = Row(key: string, record: string)

  /** What can be read from a row: no stop, or the stops it names.  A row with more
      entries than one restart finishes is overflow, and is never cleared. */
  datatype Reading = Unreadable | Stops(ids: set<string>, partial: bool, overflow: bool)

  datatype Listing = Listing(keep: bool, cleared: bool)

  datatype ReadRow = ReadRow(id: RowId, row: Row, keep: bool)

  /** The tables, and the stops whose effect the saved workspace holds. */
  datatype Store = Store(
    journal: map<RowId, Row>,
    listed: map<(RowId, Row), Listing>,
    lines: set<string>,
    stops: set<string>,
    quarantine: set<Row>,
    applied: set<string>)

  predicate InJournal(s: Store, id: RowId, row: Row) {
    id in s.journal && s.journal[id] == row
  }

  /** Listed to be cleared once the round is saved. */
  predicate Due(listed: map<(RowId, Row), Listing>, p: (RowId, Row)) {
    p in listed && !listed[p].keep && !listed[p].cleared
  }

  ghost predicate NothingDue(listed: map<(RowId, Row), Listing>) {
    forall p :: !Due(listed, p)
  }

  // ---------------------------------------------------------------- transactions

  datatype Event =
    | Insert
    | SetAside(id: RowId, row: Row)
    | Copy(row: Row)
    | Stage(read: seq<ReadRow>, acted: set<string>)
    | Save
    | FinishRound
    | FinishRecovery(done: bool)
    | BeginRows
    | BeginLines

  /** The journal may gain rows on any write (a trigger in the store, or another
      writer), and loses no row but those in `leaving`. */
  ghost predicate Keeps(journal: map<RowId, Row>, journal': map<RowId, Row>, leaving: set<(RowId, Row)>) {
    forall id :: id in journal && (id, journal[id]) !in leaving ==> id in journal' && journal'[id] == journal[id]
  }

  ghost function DueRows(listed: map<(RowId, Row), Listing>): set<(RowId, Row)> {
    set p | p in listed && Due(listed, p)
  }

  /** Rows are listed once; a row already listed keeps its listing. */
  function StageRows(listed: map<(RowId, Row), Listing>, read: seq<ReadRow>): map<(RowId, Row), Listing>
    decreases |read|
  {
    if read == [] then listed
    else
      var p := (read[0].id, read[0].row);
      StageRows(if p in listed then listed else listed[p := Listing(read[0].keep, false)], read[1..])
  }

  /** A row staged to be cleared names stops that are staged with it or saved. */
  predicate MayClear(reading: Row -> Reading, s: Store, row: Row, acted: set<string>) {
    reading(row).Stops? && !reading(row).overflow && reading(row).ids <= acted + s.lines + s.applied
  }

  /** The stops a row names are staged with it, staged before, or saved. */
  predicate Covered(reading: Row -> Reading, s: Store, row: Row, acted: set<string>) {
    reading(row).Stops? ==> reading(row).ids <= acted + s.lines + s.applied
  }

  /** A row that was read only in part has its copy set aside. */
  predicate Copied(reading: Row -> Reading, s: Store, row: Row) {
    reading(row).Stops? && reading(row).partial ==> row in s.quarantine
  }

  /** A stop is acted on again if this recovery acted on it before: only a line of an
      earlier start counts as its record. */
  predicate Acted(reading: Row -> Reading, s: Store, row: Row, acted: set<string>) {
    reading(row).Stops? ==> reading(row).ids <= acted + (s.applied - s.stops)
  }

  predicate Named(reading: Row -> Reading, read: seq<ReadRow>, stop: string) {
    exists r :: r in read && reading(r.row).Stops? && stop in reading(r.row).ids
  }

  ghost predicate Next(reading: Row -> Reading, s: Store, e: Event, s': Store) {
    match e
    case Insert =>
      Keeps(s.journal, s'.journal, {}) && s' == s.(journal := s'.journal)
    case SetAside(id, row) =>
      && reading(row).Unreadable?
      && Keeps(s.journal, s'.journal, {(id, row)})
      && s' == s.(journal := s'.journal, quarantine := s.quarantine + {row})
    case Copy(row) =>
      Keeps(s.journal, s'.journal, {}) && s' == s.(journal := s'.journal, quarantine := s.quarantine + {row})
    case Stage(read, acted) =>
      && (forall r :: r in read ==> Acted(reading, s, r.row, acted) && Copied(reading, s, r.row))
      && (forall stop :: stop in acted ==> Named(reading, read, stop))
      && (forall r :: r in read && !r.keep ==> MayClear(reading, s, r.row, acted))
      && Keeps(s.journal, s'.journal, {})
      && s' == s.(journal := s'.journal, listed := StageRows(s.listed, read), lines := s.lines + acted,
                  stops := s.stops + acted)
    case Save =>
      s' == s.(applied := s.applied + s.lines)
    case FinishRound =>
      && s.lines <= s.applied
      && Keeps(s.journal, s'.journal, DueRows(s.listed))
      && NothingDue(s'.listed)
      && (forall p :: p in s'.listed ==> p in s.listed && s'.listed[p].keep == s.listed[p].keep)
      && s' == s.(journal := s'.journal, listed := s'.listed, lines := {})
    case FinishRecovery(done) =>
      if done then
        && NothingDue(s.listed) && s.lines <= s.applied
        && Keeps(s.journal, s'.journal, {})
        && (forall id :: id in s'.journal ==> (id, s'.journal[id]) in s'.listed)
        && s' == s.(journal := s'.journal, lines := {}, stops := {})
      else s' == s
    case BeginRows =>
      Keeps(s.journal, s'.journal, {}) && s' == s.(journal := s'.journal, listed := map[])
    case BeginLines =>
      s.listed == map[] && Keeps(s.journal, s'.journal, {}) && s' == s.(journal := s'.journal, lines := {})
  }

  /** The stops of every row read are staged or saved, and what is about to be cleared
      may be cleared. */
  ghost predicate Inv(reading: Row -> Reading, s: Store) {
    && (forall p :: p in s.listed ==> Covered(reading, s, p.1, {}) && Copied(reading, s, p.1))
    && (forall p :: Due(s.listed, p) ==> MayClear(reading, s, p.1, {}))
  }

  lemma {:induction false} StageRowsListed(listed: map<(RowId, Row), Listing>, read: seq<ReadRow>, p: (RowId, Row))
    ensures p in listed ==> p in StageRows(listed, read) && StageRows(listed, read)[p] == listed[p]
    ensures p !in listed && p in StageRows(listed, read) ==>
              exists r :: r in read && (r.id, r.row) == p && StageRows(listed, read)[p] == Listing(r.keep, false)
    ensures (exists r :: r in read && (r.id, r.row) == p) ==> p in StageRows(listed, read)
    decreases |read|
  {
    if read != [] {
      var q := (read[0].id, read[0].row);
      StageRowsListed(if q in listed then listed else listed[q := Listing(read[0].keep, false)], read[1..], p);
      assert read == [read[0]] + read[1..];
    }
  }

  lemma StageRowsAll(listed: map<(RowId, Row), Listing>, read: seq<ReadRow>)
    ensures forall p :: p in listed ==> p in StageRows(listed, read) && StageRows(listed, read)[p] == listed[p]
    ensures forall r :: r in read ==> (r.id, r.row) in StageRows(listed, read)
    ensures forall p :: p in StageRows(listed, read) && p !in listed ==>
              exists r :: r in read && (r.id, r.row) == p && StageRows(listed, read)[p] == Listing(r.keep, false)
  {
    forall p ensures p in listed ==> p in StageRows(listed, read) && StageRows(listed, read)[p] == listed[p] {
      StageRowsListed(listed, read, p);
    }
    forall r | r in read ensures (r.id, r.row) in StageRows(listed, read) {
      StageRowsListed(listed, read, (r.id, r.row));
    }
    forall p | p in StageRows(listed, read) && p !in listed
      ensures exists r :: r in read && (r.id, r.row) == p && StageRows(listed, read)[p] == Listing(r.keep, false)
    {
      StageRowsListed(listed, read, p);
    }
  }

  lemma NextKeepsInv(reading: Row -> Reading, s: Store, e: Event, s': Store)
    requires Inv(reading, s) && Next(reading, s, e, s')
    ensures Inv(reading, s')
  {
    if e.Stage? {
      forall p | p in s'.listed
        ensures Covered(reading, s', p.1, {}) && Copied(reading, s', p.1)
        ensures Due(s'.listed, p) ==> MayClear(reading, s', p.1, {})
      {
        StageRowsListed(s.listed, e.read, p);
        if p in s.listed { assert Due(s'.listed, p) ==> Due(s.listed, p); }
      }
    } else {
      assert forall p :: Due(s'.listed, p) ==> Due(s.listed, p);
      assert forall p :: p in s'.listed ==> p in s.listed;
    }
  }

  // ---------------------------------------------------------------- runs

  ghost predicate IsRun(reading: Row -> Reading, states: seq<Store>, events: seq<Event>) {
    && |states| == |events| + 1
    && Inv(reading, states[0])
    && forall k :: 0 <= k < |events| ==> Next(reading, states[k], events[k], states[k + 1])
  }

  lemma {:induction false} RunInv(reading: Row -> Reading, states: seq<Store>, events: seq<Event>, k: nat)
    requires IsRun(reading, states, events) && k < |states|
    ensures Inv(reading, states[k])
  {
    if k > 0 {
      RunInv(reading, states, events, k - 1);
      NextKeepsInv(reading, states[k - 1], events[k - 1], states[k]);
    }
  }

  /** No stop is lost: in every run, a row a stop can be read from is still in the
      journal, or every stop it names is in the saved workspace, and its copy is set aside
      if it was read only in part. */
  lemma {:induction false} StopNotLost(reading: Row -> Reading, states: seq<Store>, events: seq<Event>, i: nat,
                                       j: nat, id: RowId, row: Row)
    requires IsRun(reading, states, events) && i <= j < |states|
    requires InJournal(states[i], id, row) && reading(row).Stops?
    ensures InJournal(states[j], id, row) || (reading(row).ids <= states[j].applied && Copied(reading, states[j], row))
    decreases j - i
  {
    if i < j {
      StopNotLost(reading, states, events, i, j - 1, id, row);
      RunInv(reading, states, events, j - 1);
      var s, e, s' := states[j - 1], events[j - 1], states[j];
      assert s.applied <= s'.applied && s.quarantine <= s'.quarantine;
      if e.FinishRound? && Due(s.listed, (id, row)) {
        assert MayClear(reading, s, row, {}) && Copied(reading, s, row);
      }
    }
  }

  /** A run of transactions leads from one store to the other. */
  ghost predicate Path(reading: Row -> Reading, states: seq<Store>, events: seq<Event>) {
    && |states| == |events| + 1
    && forall k :: 0 <= k < |events| ==> Next(reading, states[k], events[k], states[k + 1])
  }

  ghost predicate Reaches(reading: Row -> Reading, s: Store, s': Store) {
    exists states, events :: Path(reading, states, events) && states[0] == s && states[|events|] == s'
  }

  lemma ReachesSelf(reading: Row -> Reading, s: Store)
    ensures Reaches(reading, s, s)
  {
    assert Path(reading, [s], []);
  }

  lemma ReachesStep(reading: Row -> Reading, s: Store, m: Store, e: Event, s': Store)
    requires Reaches(reading, s, m) && Next(reading, m, e, s')
    ensures Reaches(reading, s, s')
  {
    hide Next;
    var states, events :| Path(reading, states, events) && states[0] == s && states[|events|] == m;
    var all, done := states + [s'], events + [e];
    forall k | 0 <= k < |done| ensures Next(reading, all[k], done[k], all[k + 1]) {
      if k < |events| { assert Next(reading, states[k], events[k], states[k + 1]); }
    }
    assert Path(reading, all, done);
  }

  lemma {:induction false} PathReaches(reading: Row -> Reading, s: Store, states: seq<Store>, events: seq<Event>,
                                       n: nat)
    requires Path(reading, states, events) && n <= |events| && Reaches(reading, s, states[0])
    ensures Reaches(reading, s, states[n])
  {
    hide Next, Reaches;
    if n > 0 {
      PathReaches(reading, s, states, events, n - 1);
      assert Next(reading, states[n - 1], events[n - 1], states[n - 1 + 1]);
      ReachesStep(reading, s, states[n - 1], events[n - 1], states[n]);
    }
  }

  lemma ReachesJoin(reading: Row -> Reading, s: Store, m: Store, s': Store)
    requires Reaches(reading, s, m) && Reaches(reading, m, s')
    ensures Reaches(reading, s, s')
  {
    hide Next;
    var states, events :| Path(reading, states, events) && states[0] == m && states[|events|] == s';
    PathReaches(reading, s, states, events, |events|);
  }

  /** Every row is still there, or its stops are in the saved workspace and it has its copy
      if it was read only in part, or it was unreadable and has its copy; and what was saved
      or copied stays. */
  ghost predicate NothingLost(reading: Row -> Reading, s: Store, s': Store) {
    && s.applied <= s'.applied && s.quarantine <= s'.quarantine
    && forall id :: id in s.journal ==>
         || InJournal(s', id, s.journal[id])
         || (reading(s.journal[id]).Stops? && reading(s.journal[id]).ids <= s'.applied
             && (reading(s.journal[id]).partial ==> s.journal[id] in s'.quarantine))
         || (reading(s.journal[id]).Unreadable? && s.journal[id] in s'.quarantine)
  }

  lemma ReachesLosesNothing(reading: Row -> Reading, s: Store, s': Store)
    requires Inv(reading, s) && Reaches(reading, s, s')
    ensures NothingLost(reading, s, s') && Inv(reading, s')
  {
    hide Next, Inv;
    var states, events :| Path(reading, states, events) && states[0] == s && states[|events|] == s';
    assert IsRun(reading, states, events);
    RunInv(reading, states, events, |events|);
    QuarantineKept(reading, states, events, 0, |events|);
    AppliedKept(reading, states, events, 0, |events|);
    forall id | id in s.journal && !InJournal(s', id, s.journal[id])
      ensures if reading(s.journal[id]).Stops?
              then reading(s.journal[id]).ids <= s'.applied
                   && (reading(s.journal[id]).partial ==> s.journal[id] in s'.quarantine)
              else s.journal[id] in s'.quarantine
    {
      var row := s.journal[id];
      if reading(row).Stops? {
        StopNotLost(reading, states, events, 0, |events|, id, row);
      } else {
        UnreadableRowKeepsCopy(reading, states, events, 0, |events|, id, row);
      }
    }
  }

  lemma {:induction false} AppliedKept(reading: Row -> Reading, states: seq<Store>, events: seq<Event>, i: nat, j: nat)
    requires IsRun(reading, states, events) && i <= j < |states|
    ensures states[i].applied <= states[j].applied
    decreases j - i
  {
    if i < j { AppliedKept(reading, states, events, i, j - 1); }
  }

  /** The step at which a row is gone. */
  lemma {:induction false} LeavingStep(reading: Row -> Reading, states: seq<Store>, events: seq<Event>, i: nat,
                                       j: nat, id: RowId, row: Row)
    returns (k: nat)
    requires IsRun(reading, states, events) && i <= j < |states|
    requires InJournal(states[i], id, row) && !InJournal(states[j], id, row)
    ensures i <= k < j && InJournal(states[k], id, row) && !InJournal(states[k + 1], id, row)
    decreases j - i
  {
    if InJournal(states[j - 1], id, row) { return j - 1; }
    k := LeavingStep(reading, states, events, i, j - 1, id, row);
  }

  /** Listed by this recovery: staged with keep false and not forgotten since. */
  ghost predicate StagedSince(events: seq<Event>, k: nat, id: RowId, row: Row)
    requires k <= |events|
  {
    exists m :: 0 <= m < k && events[m].Stage? && ReadRow(id, row, false) in events[m].read
                && forall n :: m < n < k ==> !events[n].BeginRows?
  }

  lemma {:induction false} DueWasStaged(reading: Row -> Reading, states: seq<Store>, events: seq<Event>, k: nat,
                                        id: RowId, row: Row)
    requires IsRun(reading, states, events) && k <= |events|
    requires states[0].listed == map[] && Due(states[k].listed, (id, row))
    ensures StagedSince(events, k, id, row)
  {
    var p := (id, row);
    var s, e, s' := states[k - 1], events[k - 1], states[k];
    assert !e.FinishRound?;
    if Due(s.listed, p) {
      DueWasStaged(reading, states, events, k - 1, id, row);
      var m :| 0 <= m < k - 1 && events[m].Stage? && ReadRow(id, row, false) in events[m].read
               && forall n :: m < n < k - 1 ==> !events[n].BeginRows?;
      assert forall n :: m < n < k ==> !events[n].BeginRows?;
    } else {
      assert e.Stage?;
      StageRowsListed(s.listed, e.read, p);
      assert ReadRow(id, row, false) in events[k - 1].read;
    }
  }

  /** In every run a row a stop can be read from leaves the journal only when a
      round is finished, and only if this recovery staged that row, under that
      rowid, to be cleared. */
  lemma ReadableRowLeavesInFinishRound(reading: Row -> Reading, states: seq<Store>, events: seq<Event>, i: nat,
                                       j: nat, id: RowId, row: Row)
    requires IsRun(reading, states, events) && i <= j < |states| && states[0].listed == map[]
    requires InJournal(states[i], id, row) && !InJournal(states[j], id, row) && reading(row).Stops?
    ensures exists k :: i <= k < j && events[k].FinishRound? && InJournal(states[k], id, row)
                        && StagedSince(events, k, id, row) && !reading(row).overflow
  {
    var k := LeavingStep(reading, states, events, i, j, id, row);
    assert Next(reading, states[k], events[k], states[k + 1]);
    assert events[k].FinishRound? && Due(states[k].listed, (id, row));
    DueWasStaged(reading, states, events, k, id, row);
    RunInv(reading, states, events, k);
    assert MayClear(reading, states[k], row, {});
  }

  lemma {:induction false} QuarantineKept(reading: Row -> Reading, states: seq<Store>, events: seq<Event>, i: nat,
                                          j: nat)
    requires IsRun(reading, states, events) && i <= j < |states|
    ensures states[i].quarantine <= states[j].quarantine
    decreases j - i
  {
    if i < j { QuarantineKept(reading, states, events, i, j - 1); }
  }

  /** In every run an unreadable row leaves the journal only with a copy in the
      quarantine table, which stays. */
  lemma UnreadableRowKeepsCopy(reading: Row -> Reading, states: seq<Store>, events: seq<Event>, i: nat, j: nat,
                               id: RowId, row: Row)
    requires IsRun(reading, states, events) && i <= j < |states|
    requires InJournal(states[i], id, row) && !InJournal(states[j], id, row) && reading(row).Unreadable?
    ensures row in states[j].quarantine
  {
    var k := LeavingStep(reading, states, events, i, j, id, row);
    RunInv(reading, states, events, k);
    assert Next(reading, states[k], events[k], states[k + 1]);
    assert !Due(states[k].listed, (id, row));
    assert row in states[k + 1].quarantine;
    QuarantineKept(reading, states, events, k + 1, j);
  }

  // ---------------------------------------------------------------- pages of rows

  predicate Above(after: Option<RowId>, id: RowId) {
    after.Some? ==> after.value < id
  }

  /** The first `limit` rowids after `after`, in order. */
  ghost predicate IsPage(journal: map<RowId, Row>, after: Option<RowId>, limit: nat, page: seq<RowId>) {
    && |page| <= limit
    && (forall j, k :: 0 <= j < k < |page| ==> page[j] < page[k])
    && (forall id :: id in page ==> id in journal && Above(after, id))
    && (forall id :: id in journal && Above(after, id) && id !in page ==>
         |page| == limit && (limit > 0 ==> page[limit - 1] < id))
  }

  lemma SomeMember(ids: set<RowId>)
    requires ids != {}
    ensures exists id :: id in ids
  {
    assert (forall id :: id !in ids) ==> ids == {};
  }

  method Least(ids: set<RowId>) returns (least: RowId)
    requires ids != {}
    ensures least in ids && forall id :: id in ids ==> least <= id
  {
    SomeMember(ids);
    least :| least in ids;
    var rest := ids - {least};
    while rest != {}
      invariant rest <= ids && least in ids
      invariant forall id :: id in ids && id !in rest ==> least <= id
      decreases rest
    {
      SomeMember(rest);
      var id :| id in rest;
      if id < least { least := id; }
      rest := rest - {id};
    }
  }

  method Page(journal: map<RowId, Row>, after: Option<RowId>, limit: nat) returns (page: seq<RowId>)
    ensures IsPage(journal, after, limit, page)
  {
    page := [];
    var rest := set id | id in journal && Above(after, id);
    while |page| < limit && rest != {}
      invariant |page| <= limit
      invariant forall j, k :: 0 <= j < k < |page| ==> page[j] < page[k]
      invariant forall id :: id in page ==> id in journal && Above(after, id)
      invariant forall id :: id in journal && Above(after, id) && id !in page <==> id in rest
      invariant forall k, id :: 0 <= k < |page| && id in rest ==> page[k] < id
      decreases rest
    {
      var id := Least(rest);
      page := page + [id];
      rest := rest - {id};
    }
  }

  // ---------------------------------------------------------------- the journal

  class Journal {
    const reading: Row -> Reading
    const rowsPerPass: nat
    /** Nothing but this recovery writes to the store, and nothing refuses a delete. */
    const calm: bool

    var journal: map<RowId, Row>
    var listed: map<(RowId, Row), Listing>
    var lines: set<string>
    var stops: set<string>
    var quarantine: set<Row>
    var applied: set<string>

    constructor (reading: Row -> Reading, rowsPerPass: nat, calm: bool, journal: map<RowId, Row>, applied: set<string>)
      requires rowsPerPass > 0
      ensures this.reading == reading && this.rowsPerPass == rowsPerPass && this.calm == calm
      ensures State() == Store(journal, map[], {}, {}, {}, applied)
    {
      this.reading, this.rowsPerPass, this.calm := reading, rowsPerPass, calm;
      this.journal, this.applied := journal, applied;
      listed, lines, stops, quarantine := map[], {}, {}, {};
    }

    function State(): Store
      reads this
    {
      Store(journal, listed, lines, stops, quarantine, applied)
    }

    /** Rows that reach the journal from another writer or a trigger. */
    method Disturb()
      modifies this`journal
      ensures Keeps(old(journal), journal, {})
      ensures calm ==> journal == old(journal)
    {
      var added: map<RowId, Row> := *;
      if !calm && added.Keys !! journal.Keys { journal := journal + added; }
    }

    /** Deletes one row, unless a trigger refuses. */
    method DeleteRow(id: RowId) returns (changed: bool)
      requires id in journal
      modifies this`journal
      ensures Keeps(old(journal), journal, if changed then {(id, old(journal)[id])} else {})
      ensures calm ==> changed && journal == old(journal) - {id}
    {
      var refused: bool := *;
      changed := calm || !refused;
      if changed { journal := journal - {id}; }
      Disturb();
    }

    /** A copy of the row goes to the quarantine table once; with `move` the row
        leaves the journal in the same transaction, while it is the one read. */
    method Quarantine(id: RowId, row: Row, move: bool) returns (moved: bool)
      requires move ==> reading(row).Unreadable?
      modifies this`journal, this`quarantine
      ensures Next(reading, old(State()), if move then SetAside(id, row) else Copy(row), State())
      ensures calm ==> moved == (move && InJournal(old(State()), id, row))
      ensures calm ==> journal == if moved then old(journal) - {id} else old(journal)
    {
      quarantine := quarantine + {row};
      Disturb();
      moved := false;
      if move && id in journal && journal[id] == row {
        moved := DeleteRow(id);
      }
    }

    /** What a pass may do: only unreadable rows leave, each with its copy. */
    ghost predicate Passed(s: Store, s': Store) {
      && (forall id :: id in s.journal && !InJournal(s', id, s.journal[id]) ==>
            reading(s.journal[id]).Unreadable? && s.journal[id] in s'.quarantine)
      && s.quarantine <= s'.quarantine
      && s' == s.(journal := s'.journal, quarantine := s'.quarantine)
      && (calm ==> forall id :: id in s'.journal ==> InJournal(s, id, s'.journal[id]))
      && Reaches(reading, s, s')
    }

    lemma PassedAside(s: Store, m: Store, s': Store, e: Event)
      requires Passed(s, m) && Next(reading, m, e, s') && (e.SetAside? || e.Copy?)
      requires calm ==> forall id :: id in s'.journal ==> InJournal(m, id, s'.journal[id])
      ensures Passed(s, s')
    {
      hide Reaches;
      ReachesStep(reading, s, m, e, s');
    }

    /** A row of the pass is listed already, is among those read, or is set aside. */
    ghost predicate Handled(s: Store, read: seq<ReadRow>, s': Store, id: RowId, row: Row) {
      || (id, row) in s.listed
      || (exists keep :: ReadRow(id, row, keep) in read)
      || (reading(row).Unreadable? && row in s'.quarantine && (calm ==> id !in s'.journal))
    }

    lemma HandledMore(s: Store, read: seq<ReadRow>, m: Store, read': seq<ReadRow>, s': Store)
      requires read <= read' && m.quarantine <= s'.quarantine
      requires calm ==> forall id :: id in s'.journal ==> id in m.journal
      ensures forall id, row :: Handled(s, read, m, id, row) ==> Handled(s, read', s', id, row)
    {
    }

    ghost predicate AllCopied(read: seq<ReadRow>, s: Store) {
      forall r :: r in read ==> Copied(reading, s, r.row)
    }

    /** The rows of a pass that stay in the journal for now. */
    ghost predicate ReadRows(s: Store, read: seq<ReadRow>, ids: set<string>) {
      && (forall stop :: stop in ids ==> Named(reading, read, stop))
      && forall r :: r in read ==>
        && InJournal(s, r.id, r.row) && (r.id, r.row) !in s.listed
        && (reading(r.row).Stops? ==> reading(r.row).ids <= ids)
        && (!r.keep ==> reading(r.row).Stops? && !reading(r.row).overflow)
        && (calm && r.keep ==> reading(r.row).Stops? && reading(r.row).overflow)
    }

    /** One row of a pass. */
    method PassRow(id: RowId, row: Row, read: seq<ReadRow>, ids: set<string>, ghost s: Store)
      returns (read': seq<ReadRow>, ids': set<string>, setAside: bool)
      requires Passed(s, State()) && ReadRows(s, read, ids) && AllCopied(read, State())
      requires InJournal(s, id, row) && (id, row) !in listed
      requires calm ==> InJournal(State(), id, row)
      modifies this`journal, this`quarantine
      ensures Passed(s, State()) && ReadRows(s, read', ids') && AllCopied(read', State())
      ensures Handled(s, read', State(), id, row)
      ensures forall i, r :: Handled(s, read, old(State()), i, r) ==> Handled(s, read', State(), i, r)
      ensures calm ==> forall i :: i in old(journal) && i != id ==> InJournal(State(), i, old(journal)[i])
      ensures setAside || read' != []
    {
      hide Next;
      read', ids', setAside := read, ids, false;
      if reading(row).Unreadable? {
        var moved := Quarantine(id, row, true);
        PassedAside(s, old(State()), State(), SetAside(id, row));
        if !moved { read' := read + [ReadRow(id, row, true)]; }
        setAside := true;
      } else {
        if reading(row).partial {
          var _ := Quarantine(id, row, false);
          PassedAside(s, old(State()), State(), Copy(row));
        }
        read' := read + [ReadRow(id, row, reading(row).overflow)];
        ids' := ids + reading(row).ids;
        assert ReadRow(id, row, reading(row).overflow) in read';
      }
      NamedMore(read, read');
      HandledMore(s, read, old(State()), read', State());
    }

    lemma NamedMore(read: seq<ReadRow>, read': seq<ReadRow>)
      requires read <= read'
      ensures forall stop :: Named(reading, read, stop) ==> Named(reading, read', stop)
    {
    }

    ghost predicate AllListed() reads this {
      forall id :: id in journal ==> (id, journal[id]) in listed
    }

    /** One pass over at most `rowsPerPass` rows after `after`; `ids` are the stops
        its rows name, and `next` is where the next pass starts, if any row is left. */
    method Pending(after: Option<RowId>)
      returns (read: seq<ReadRow>, ids: set<string>, setAside: bool, next: Option<RowId>)
      requires rowsPerPass > 0
      modifies this`journal, this`quarantine
      ensures Passed(old(State()), State())
      ensures ReadRows(old(State()), read, ids) && AllCopied(read, State())
      ensures forall id :: id in old(journal) && Above(after, id) && (next.None? || id <= next.value) ==>
                Handled(old(State()), read, State(), id, old(journal)[id])
      ensures next.Some? ==> Above(after, next.value)
      ensures old(AllListed()) ==> read == [] && !setAside && State() == old(State())
    {
      hide Passed, ReadRows, Handled, AllCopied;
      ghost var s := State();
      assert Passed(s, s) && ReadRows(s, [], {}) && AllCopied([], s) by { PassStart(); }
      var page := Page(journal, after, rowsPerPass);
      assert forall k :: 0 <= k < |page| ==> page[k] in page;
      var rows := journal;
      read, ids, setAside := [], {}, false;
      for k := 0 to |page|
        invariant Passed(s, State()) && ReadRows(s, read, ids) && AllCopied(read, State())
        invariant listed == old(listed)
        invariant forall j :: 0 <= j < k ==> Handled(s, read, State(), page[j], rows[page[j]])
        invariant calm ==> forall j :: k <= j < |page| ==> InJournal(State(), page[j], rows[page[j]])
        invariant old(AllListed()) ==> read == [] && !setAside && State() == old(State())
      {
        var id, row := page[k], rows[page[k]];
        if (id, row) in listed {
          assert Handled(s, read, State(), id, row) by { HandledListed(s, read, State(), id, row); }
          continue;
        }
        var aside;
        read, ids, aside := PassRow(id, row, read, ids, s);
        setAside := setAside || aside;
      }
      next := None;
      if |page| == rowsPerPass && (exists id :: id in journal && page[|page| - 1] < id) {
        next := Some(page[|page| - 1]);
      } else {
        HandledGone(s, read, State(), after, page);
      }
    }

    lemma PassStart()
      ensures Passed(State(), State()) && ReadRows(State(), [], {}) && AllCopied([], State())
    {
      ReachesSelf(reading, State());
    }

    lemma HandledListed(s: Store, read: seq<ReadRow>, s': Store, id: RowId, row: Row)
      requires (id, row) in s.listed
      ensures Handled(s, read, s', id, row)
    {
    }

    /** With no row left after the page, a row past it has been set aside. */
    lemma HandledGone(s: Store, read: seq<ReadRow>, s': Store, after: Option<RowId>, page: seq<RowId>)
      requires IsPage(s.journal, after, rowsPerPass, page) && rowsPerPass > 0 && Passed(s, s')
      requires forall id :: id in page ==> Handled(s, read, s', id, s.journal[id])
      requires |page| == rowsPerPass ==> forall id :: id in s'.journal ==> id <= page[|page| - 1]
      ensures forall id :: id in s.journal && Above(after, id) ==> Handled(s, read, s', id, s.journal[id])
    {
    }

    /** Lists the rows a pass read, the stops it acts on and their lines. */
    method StagePass(read: seq<ReadRow>, acted: set<string>)
      requires forall r :: r in read ==> Acted(reading, State(), r.row, acted) && Copied(reading, State(), r.row)
      requires forall stop :: stop in acted ==> Named(reading, read, stop)
      requires forall r :: r in read && !r.keep ==> MayClear(reading, State(), r.row, acted)
      modifies this`journal, this`listed, this`lines, this`stops
      ensures Next(reading, old(State()), Stage(read, acted), State())
      ensures calm ==> journal == old(journal)
    {
      for k := 0 to |read|
        invariant journal == old(journal) && lines == old(lines) && stops == old(stops)
        invariant StageRows(listed, read[k..]) == StageRows(old(listed), read)
      {
        assert read[k..][1..] == read[k + 1..];
        var p := (read[k].id, read[k].row);
        if p !in listed { listed := listed[p := Listing(read[k].keep, false)]; }
      }
      lines, stops := lines + acted, stops + acted;
      Disturb();
    }

    /** The workspace is saved with the round's lines. */
    method SaveWorkspace()
      modifies this`applied
      ensures Next(reading, old(State()), Save, State())
    {
      applied := applied + lines;
    }

    /** Some rows left to clear, at most a pass of them. */
    method DueBatch() returns (batch: seq<(RowId, Row)>)
      requires rowsPerPass > 0
      ensures forall p :: p in batch ==> Due(listed, p)
      ensures forall j, k :: 0 <= j < k < |batch| ==> batch[j] != batch[k]
      ensures batch == [] ==> NothingDue(listed)
    {
      batch := [];
      var rest := set p | p in listed && !listed[p].keep && !listed[p].cleared;
      while |batch| < rowsPerPass && rest != {}
        invariant forall p :: p in rest ==> Due(listed, p)
        invariant forall p :: p in batch ==> Due(listed, p) && p !in rest
        invariant forall p :: Due(listed, p) ==> p in rest || p in batch
        invariant forall j, k :: 0 <= j < k < |batch| ==> batch[j] != batch[k]
        decreases rest
      {
        var p :| p in rest;
        batch := batch + [p];
        rest := rest - {p};
      }
    }

    /** Between two clears of a round: what was due is due still, or is done with. */
    ghost predicate Clearing(s: Store, s': Store) {
      && Keeps(s.journal, s'.journal, DueRows(s.listed))
      && (forall p :: Due(s'.listed, p) ==> Due(s.listed, p))
      && (forall p :: p in s'.listed ==> p in s.listed && s'.listed[p].keep == s.listed[p].keep)
      && s' == s.(journal := s'.journal, listed := s'.listed)
      && (calm ==> forall id :: id in s'.journal ==> InJournal(s, id, s'.journal[id]))
      && (calm ==> forall p :: p in s.listed && !Due(s.listed, p) ==> p in s'.listed)
      && (calm ==> forall p :: Due(s.listed, p) && !Due(s'.listed, p) ==> p !in s'.listed && !InJournal(s', p.0, p.1))
    }

    /** Clears one row while it is the one the round read. */
    method ClearDue(p: (RowId, Row), ghost s: Store)
      requires Due(listed, p) && Clearing(s, State())
      modifies this`journal, this`listed
      ensures Clearing(s, State())
      ensures DueRows(listed) == DueRows(old(listed)) - {p}
    {
      hide Clearing, DueRows, Keeps;
      ghost var m := State();
      var id, row := p.0, p.1;
      var cleared := false;
      var same := id in journal && journal[id] == row;
      if same { cleared := DeleteRow(id); } else { KeepsAll(journal); }
      if same && !cleared {
        listed := listed[p := Listing(false, true)];
      } else {
        listed := listed - {p};
      }
      ClearingStep(s, m, State(), p, same && !cleared);
    }

    lemma KeepsAll(journal: map<RowId, Row>)
      ensures Keeps(journal, journal, {})
    {
    }

    /** One due row is done with: its row is gone, was another already, or is held. */
    lemma ClearingStep(s: Store, m: Store, m': Store, p: (RowId, Row), held: bool)
      requires Clearing(s, m) && Due(m.listed, p)
      requires m' == m.(journal := m'.journal,
                        listed := if held then m.listed[p := Listing(false, true)] else m.listed - {p})
      requires Keeps(m.journal, m'.journal, if InJournal(m, p.0, p.1) && !held then {p} else {})
      requires calm ==> !held && m'.journal == if InJournal(m, p.0, p.1) then m.journal - {p.0} else m.journal
      ensures Clearing(s, m') && DueRows(m'.listed) == DueRows(m.listed) - {p}
    {
      ClearingKeeps(s, m, m', p);
    }

    lemma ClearingKeeps(s: Store, m: Store, m': Store, p: (RowId, Row))
      requires Keeps(s.journal, m.journal, DueRows(s.listed)) && Keeps(m.journal, m'.journal, {p}) && Due(s.listed, p)
      ensures Keeps(s.journal, m'.journal, DueRows(s.listed))
    {
    }

    /** When nothing is due the round is finished. */
    lemma ClearingEnds(s: Store, m: Store)
      requires Clearing(s, m) && NothingDue(m.listed) && s.lines <= s.applied
      ensures Next(reading, s, FinishRound, m.(lines := {})) && Clearing(s.(lines := {}), m.(lines := {}))
    {
      hide DueRows, Keeps;
    }

    lemma ClearingStart(s: Store)
      ensures Clearing(s, s)
    {
    }

    /** Once the round's save has landed: clears each row it finished. */
    method FinishRoundRows()
      requires rowsPerPass > 0 && lines <= applied
      modifies this`journal, this`listed, this`lines
      ensures Next(reading, old(State()), FinishRound, State())
      ensures Clearing(old(State()).(lines := {}), State())
    {
      ghost var s := State();
      ClearingStart(s);
      hide Clearing, Next;
      while true
        invariant Clearing(s, State())
        decreases |DueRows(listed)|
      {
        var batch := DueBatch();
        if batch == [] { break; }
        ghost var due := DueRows(listed);
        assert forall j :: 0 <= j < |batch| ==> batch[j] in batch;
        for k := 0 to |batch|
          invariant Clearing(s, State())
          invariant forall j :: k <= j < |batch| ==> batch[j] in DueRows(listed)
          invariant DueRows(listed) <= due && (k > 0 ==> batch[0] !in DueRows(listed))
        {
          ClearDue(batch[k], s);
        }
        assert batch[0] in due;
        SmallerSet(DueRows(listed), due, batch[0]);
      }
      ClearingEnds(s, State());
      lines := {};
    }

    lemma SmallerSet(a: set<(RowId, Row)>, b: set<(RowId, Row)>, p: (RowId, Row))
      requires a <= b && p in b && p !in a
      ensures |a| < |b|
    {
      assert a <= b - {p};
      assert |b - {p}| == |b| - 1;
      SubsetSize(a, b - {p});
    }

    /** Whether the journal holds a row this recovery has not read, a page at a time. */
    method Unread() returns (unread: bool)
      requires rowsPerPass > 0
      ensures unread <==> !AllListed()
    {
      var after: Option<RowId> := None;
      while true
        invariant forall id :: id in journal && !Above(after, id) ==> (id, journal[id]) in listed
        decreases MAXIMUM_ROW_ID - (if after.Some? then after.value else -MAXIMUM_ROW_ID - 2)
      {
        var page := Page(journal, after, rowsPerPass);
        for k := 0 to |page|
          invariant forall j :: 0 <= j < k ==> (page[j], journal[page[j]]) in listed
        {
          assert page[k] in page;
          if (page[k], journal[page[k]]) !in listed { return true; }
        }
        if |page| < rowsPerPass { return false; }
        assert page[|page| - 1] in page;
        after := Some(page[|page| - 1]);
      }
    }

    /** Empties the lists if, with that done, every row left has been read; otherwise
        nothing changes. */
    method EndRecovery() returns (done: bool)
      requires rowsPerPass > 0 && NothingDue(listed) && lines <= applied
      modifies this`journal, this`lines, this`stops
      ensures Next(reading, old(State()), FinishRecovery(done), State())
      ensures calm ==> journal == old(journal) && (done <==> AllListed())
    {
      var before := (journal, lines, stops);
      lines := {};
      Disturb();
      stops := {};
      Disturb();
      var unread := Unread();
      if unread { journal, lines, stops := before.0, before.1, before.2; }
      done := !unread;
    }

    /** A new start forgets what the one before it read. */
    method BeginRecovery()
      modifies this`journal, this`listed, this`lines
      ensures exists m :: Next(reading, old(State()), BeginRows, m) && Next(reading, m, BeginLines, State())
      ensures Reaches(reading, old(State()), State())
      ensures calm ==> journal == old(journal)
      ensures listed == map[] && lines == {}
    {
      listed := map[];
      Disturb();
      ghost var m := State();
      lines := {};
      Disturb();
      assert Next(reading, old(State()), BeginRows, m) && Next(reading, m, BeginLines, State());
      ReachesSelf(reading, old(State()));
      ReachesStep(reading, old(State()), old(State()), BeginRows, m);
      ReachesStep(reading, old(State()), m, BeginLines, State());
    }

    // -------------------------------------------------------------- the recovery of one start

    /** Between rounds: what was staged has been saved and cleared. */
    ghost predicate Ready() reads this {
      NothingDue(listed) && lines == {}
    }

    /** With nothing else at work, only rows that overflow are kept. */
    ghost predicate KeptOverflow() reads this {
      calm ==> OverflowKept(listed)
    }

    ghost predicate OverflowKept(listed: map<(RowId, Row), Listing>) {
      forall p :: p in listed && !Due(listed, p) ==> reading(p.1).Stops? && reading(p.1).overflow
    }

    ghost predicate ListedUpTo(after: Option<RowId>) reads this {
      UpTo(State(), after)
    }

    ghost predicate UpTo(s: Store, after: Option<RowId>) {
      forall id :: id in s.journal && !Above(after, id) ==> (id, s.journal[id]) in s.listed
    }

    /** Reads one pass and stages what it read. */
    method ReadPass(after: Option<RowId>) returns (read: bool, acts: bool, next: Option<RowId>)
      requires rowsPerPass > 0 && Inv(reading, State()) && KeptOverflow()
      requires calm && after.Some? ==> ListedUpTo(after)
      modifies this`journal, this`quarantine, this`listed, this`lines, this`stops
      ensures Inv(reading, State()) && KeptOverflow() && Reaches(reading, old(State()), State())
      ensures next.Some? ==> Above(after, next.value)
      ensures calm ==> if next.Some? then ListedUpTo(next) else AllListed()
      ensures calm ==> forall id :: id in journal ==> InJournal(old(State()), id, journal[id])
      ensures !acts ==> lines == old(lines)
      ensures !read ==> listed == old(listed) && lines == old(lines)
      ensures old(AllListed()) ==> !read && State() == old(State())
    {
      hide Inv, OverflowKept, UpTo, AllListed, Passed, ReadRows, Handled, MayClear, Acted, Copied, Named;
      hide InJournal, Reaches;
      ghost var s := State();
      var rows, ids, setAside;
      rows, ids, setAside, next := Pending(after);
      ghost var middle := State();
      PassKeeps(s, middle);
      read, acts := rows != [] || setAside, ids != {};
      if rows != [] {
        var acted := ids - (applied - stops);
        PassClears(s, rows, ids, acted);
        hide StageRows;
        StagePass(rows, acted);
        NextKeepsInv(reading, middle, Stage(rows, acted), State());
        ReachesStep(reading, s, middle, Stage(rows, acted), State());
      }
      PassStays(s, middle);
      if calm {
        PassOverflow(s, rows, ids);
        PassListed(s, middle, rows, after, next);
      }
    }

    lemma PassKeeps(s: Store, s': Store)
      requires Passed(s, s')
      ensures (Inv(reading, s) ==> Inv(reading, s')) && Reaches(reading, s, s')
      ensures s' == s.(journal := s'.journal, quarantine := s'.quarantine)
    {
    }

    /** What a pass read may be staged with the stops it acts on. */
    lemma PassClears(s: Store, rows: seq<ReadRow>, ids: set<string>, acted: set<string>)
      requires ReadRows(s, rows, ids) && AllCopied(rows, State()) && acted == ids - (applied - stops)
      ensures forall r :: r in rows ==> Acted(reading, State(), r.row, acted) && Copied(reading, State(), r.row)
      ensures forall stop :: stop in acted ==> Named(reading, rows, stop)
      ensures forall r :: r in rows && !r.keep ==> MayClear(reading, State(), r.row, acted)
    {
    }

    /** Without disturbance the journal gains no row in a pass. */
    lemma PassStays(s: Store, m: Store)
      requires Passed(s, m) && (calm ==> journal == m.journal)
      ensures calm ==> forall id :: id in journal ==> InJournal(s, id, journal[id])
    {
    }

    lemma PassOverflow(s: Store, rows: seq<ReadRow>, ids: set<string>)
      requires calm && ReadRows(s, rows, ids) && listed == StageRows(s.listed, rows)
      requires OverflowKept(s.listed)
      ensures KeptOverflow()
    {
      hide StageRows;
      StageRowsAll(s.listed, rows);
    }

    /** Every row up to where the pass ended is listed now. */
    lemma PassListed(s: Store, m: Store, rows: seq<ReadRow>, after: Option<RowId>, next: Option<RowId>)
      requires calm && Passed(s, m) && journal == m.journal && listed == StageRows(s.listed, rows)
      requires after.Some? ==> UpTo(s, after)
      requires forall id :: id in s.journal && Above(after, id) && (next.None? || id <= next.value) ==>
                 Handled(s, rows, m, id, s.journal[id])
      ensures if next.Some? then ListedUpTo(next) else AllListed()
    {
      hide StageRows;
      StageRowsAll(s.listed, rows);
      forall id | id in journal && (next.None? || id <= next.value) ensures (id, journal[id]) in listed {
        assert InJournal(s, id, journal[id]);
      }
    }

    /** Saves the workspace, if a pass acted, and clears what the round finished. */
    method SaveAndClear(acted: bool)
      requires rowsPerPass > 0 && Inv(reading, State()) && KeptOverflow() && (!acted ==> lines == {})
      modifies this
      ensures Inv(reading, State()) && Ready() && KeptOverflow()
      ensures Reaches(reading, old(State()), State()) && NothingLost(reading, old(State()), State())
      ensures calm && old(AllListed()) ==> AllListed()
      ensures calm ==> forall id :: id in journal ==> InJournal(old(State()), id, journal[id])
    {
      hide Inv, Keeps, DueRows, Reaches, NothingLost;
      ghost var s := State();
      ReachesSelf(reading, s);
      if acted {
        SaveWorkspace();
        ReachesStep(reading, s, s, Save, State());
      }
      ghost var before := State();
      FinishRoundRows();
      ReachesStep(reading, s, before, FinishRound, State());
      ReachesLosesNothing(reading, s, State());
    }

    /** One round: passes over every row not read yet, one save, then the clears.
        Answers whether it read a row. */
    method RecoverRound() returns (read: bool)
      requires rowsPerPass > 0 && Inv(reading, State()) && Ready() && KeptOverflow()
      modifies this
      ensures Inv(reading, State()) && Ready() && KeptOverflow()
      ensures Reaches(reading, old(State()), State()) && NothingLost(reading, old(State()), State())
      ensures calm ==> AllListed()
      ensures calm ==> forall id :: id in journal ==> InJournal(old(State()), id, journal[id])
      ensures old(AllListed()) ==> !read
    {
      hide Inv, Reaches, NothingLost;
      ReachesSelf(reading, State());
      read := false;
      var acted := false;
      var after: Option<RowId> := None;
      while true
        invariant Inv(reading, State()) && KeptOverflow() && Reaches(reading, old(State()), State())
        invariant calm && after.Some? ==> ListedUpTo(after)
        invariant calm ==> forall id :: id in journal ==> InJournal(old(State()), id, journal[id])
        invariant !acted ==> lines == {}
        invariant !read ==> NothingDue(listed) && lines == {}
        invariant old(AllListed()) ==> !read && State() == old(State())
        decreases MAXIMUM_ROW_ID - (if after.Some? then after.value else -MAXIMUM_ROW_ID - 2)
      {
        ghost var before := State();
        var readPass, acts, next := ReadPass(after);
        ReachesJoin(reading, old(State()), before, State());
        read := read || readPass;
        acted := acted || acts;
        if next.None? { break; }
        after := next;
      }
      if read {
        ghost var before := State();
        SaveAndClear(acted);
        ReachesJoin(reading, old(State()), before, State());
      }
      ReachesLosesNothing(reading, old(State()), State());
    }

    /** The most rounds one start makes. */
    static const ROUNDS := 16

    /** The recovery of one start: a run of the transactions, so it loses no stop.  When it
        is done, every stop a row in the journal names is in the saved workspace.  With
        nothing else at work on the store it finishes, and leaves in the journal only rows
        that overflow. */
    method Recover() returns (done: bool)
      requires rowsPerPass > 0 && Inv(reading, State())
      modifies this
      ensures Inv(reading, State())
      ensures Reaches(reading, old(State()), State()) && NothingLost(reading, old(State()), State())
      ensures done ==> AllListed() && stops == {} && AllApplied()
      ensures calm ==> done && forall id :: id in journal ==>
                InJournal(old(State()), id, journal[id]) && reading(journal[id]).Stops? && reading(journal[id]).overflow
    {
      hide Inv, Next, Reaches, NothingLost, AllApplied;
      ghost var s := State();
      BeginRecovery();
      assert Inv(reading, State()) by { NothingListedInv(); }
      for round := 1 to ROUNDS + 1
        invariant Inv(reading, State()) && Ready() && KeptOverflow() && Reaches(reading, s, State())
        invariant calm ==> round <= 2 && (round == 2 ==> AllListed())
        invariant calm ==> forall id :: id in journal ==> InJournal(s, id, journal[id])
      {
        ghost var before := State();
        var read := RecoverRound();
        ReachesJoin(reading, s, before, State());
        if !read {
          before := State();
          done := EndRecovery();
          ReachesStep(reading, s, before, FinishRecovery(done), State());
          ReachesLosesNothing(reading, s, State());
          if done {
            FinishedApplied(before);
            return;
          }
        }
      }
      ReachesLosesNothing(reading, s, State());
      done := false;
    }

    /** Every stop named in the journal is in the saved workspace. */
    ghost predicate AllApplied() reads this {
      forall id :: id in journal && reading(journal[id]).Stops? ==> reading(journal[id]).ids <= applied
    }

    lemma FinishedApplied(s: Store)
      requires Inv(reading, State()) && Next(reading, s, FinishRecovery(true), State())
      ensures AllListed() && stops == {} && AllApplied()
    {
      forall id | id in journal ensures Covered(reading, State(), journal[id], {}) {
        assert (id, journal[id]) in listed;
      }
    }

    lemma NothingListedInv()
      requires listed == map[]
      ensures Inv(reading, State())
    {
    }
  }
}
