/** The source daemon's registry of machines and unfinished operations.

    Each call is one transaction: what it does on success is a function of the tables,
    and a failure puts the tables back.  Rows can be damaged from outside; every scan
    quarantines the damaged rows it meets. */
module FleetRegistry {

  import opened Wrappers

  type MachineId = string
  type OpId = string
  type Digest = string

  const MAXIMUM_MACHINES := 128

  datatype Facts = Facts(id: MachineId, detail: string, authenticatedAt: int)

  datatype Row = Row(facts: Facts, digest: Option<Digest>, seen: int, health: Option<string>, damaged: bool,
                     quarantined: bool)

  datatype Operation =
    | Enroll(facts: Facts, digest: Digest)
    | Forget(id: MachineId, held: Option<Digest>, revoked: bool)
  {
    function Machine(): MachineId { if Enroll? then facts.id else id }
  }

  datatype Tables = Tables(rows: map<MachineId, Row>, operations: map<OpId, Operation>)

  // ---------------------------------------------------------------- reading

  predicate Busy(operations: map<OpId, Operation>, m: MachineId) {
    exists i :: i in operations && operations[i].Machine() == m
  }

  function Forgetting(operations: map<OpId, Operation>): set<MachineId> {
    set i | i in operations && operations[i].Forget? :: operations[i].Machine()
  }

  function Enrolling(operations: map<OpId, Operation>): set<MachineId> {
    set i | i in operations && operations[i].Enroll? :: operations[i].Machine()
  }

  /** The rows a scan of `ids` leaves: damaged ones are quarantined in place. */
  function Scanned(rows: map<MachineId, Row>, ids: set<MachineId>): map<MachineId, Row> {
    map m | m in rows :: if m in ids && rows[m].damaged then rows[m].(quarantined := true) else rows[m]
  }

  /** Rows that hold authority: a damaged one does until a scan finds it. */
  function Standing(rows: map<MachineId, Row>): set<MachineId> {
    set m | m in rows && !rows[m].quarantined
  }

  /** The machines that count against the limit. */
  function Live(t: Tables): set<MachineId> {
    (Standing(t.rows) - Forgetting(t.operations)) + Enrolling(t.operations)
  }

  /** Whether one more machine may be admitted, after a full scan. */
  predicate Space(t: Tables, m: MachineId) {
    m in Live(t) || |Live(t)| < MAXIMUM_MACHINES
  }

  function FullScan(t: Tables): Tables {
    t.(rows := Scanned(t.rows, t.rows.Keys))
  }

  // ---------------------------------------------------------------- operations

  datatype Op =
    | Record(facts: Facts, now: int)
    | Stage(id: OpId, operation: Operation)
    | Complete(id: OpId, digest: Digest)
    | Abort(id: OpId)
    | ConfirmRevocation(id: OpId)
    | CompleteForget(id: OpId)
    | Refresh(facts: Facts, digest: Digest, now: int)
    | Fail(machine: MachineId, digest: Digest, failure: string)
    | Scan(ids: set<MachineId>)
    | Damage(machine: MachineId, bytes: Row)

  function Written(rows: map<MachineId, Row>, facts: Facts, now: int, digest: Option<Digest>): map<MachineId, Row> {
    rows[facts.id := Row(facts, digest, now, None, false, false)]
  }

  function RecordStep(t: Tables, facts: Facts, now: int): (Tables, bool) {
    var s := FullScan(t);
    if !Space(s, facts.id) then (t, false)
    else (s.(rows := Written(s.rows, facts, now, None)), true)
  }

  /** One unfinished operation a machine; an enrollment needs room, a forget never does. */
  function StageStep(t: Tables, id: OpId, operation: Operation): (Tables, bool) {
    var s := if operation.Enroll? then FullScan(t) else t;
    if id in t.operations || Busy(t.operations, operation.Machine()) then (t, false)
    else if operation.Enroll? && !Space(s, operation.Machine()) then (t, false)
    else (s.(operations := s.operations[id := operation]), true)
  }

  function CompleteStep(t: Tables, id: OpId, digest: Digest): (Tables, bool) {
    if id !in t.operations || !t.operations[id].Enroll? || t.operations[id].digest != digest then (t, false)
    else
      var pending := t.operations[id];
      (Tables(Written(t.rows, pending.facts, pending.facts.authenticatedAt, Some(pending.digest)),
              t.operations - {id}), true)
  }

  /** The old row's facts stay, but never as a healthy enrollment. */
  function AbortStep(t: Tables, id: OpId): (Tables, bool) {
    if id !in t.operations || !t.operations[id].Enroll? then (t, false)
    else
      var m := t.operations[id].Machine();
      var rows := if m in t.rows then t.rows[m := t.rows[m].(health := Some("pairing-required"))] else t.rows;
      (Tables(rows, t.operations - {id}), true)
  }

  function ConfirmRevocationStep(t: Tables, id: OpId): (Tables, bool) {
    if id !in t.operations || !t.operations[id].Forget? then (t, false)
    else (t.(operations := t.operations[id := t.operations[id].(revoked := true)]), true)
  }

  function CompleteForgetStep(t: Tables, id: OpId): (Tables, bool) {
    if id !in t.operations || !t.operations[id].Forget? then (t, false)
    else (Tables(t.rows - {t.operations[id].Machine()}, t.operations - {id}), true)
  }

  /** What a heartbeat may speak about: the row it started from, not quarantined and with
      no operation pending. */
  predicate Current(t: Tables, m: MachineId, digest: Digest) {
    m in t.rows && t.rows[m].digest == Some(digest) && !t.rows[m].quarantined && !Busy(t.operations, m)
  }

  function RefreshStep(t: Tables, facts: Facts, digest: Digest, now: int): (Tables, bool) {
    if !Current(t, facts.id, digest) then (t, false)
    else (t.(rows := Written(t.rows, facts, now, Some(digest))), true)
  }

  function FailStep(t: Tables, m: MachineId, digest: Digest, failure: string): (Tables, bool) {
    if !Current(t, m, digest) then (t, false)
    else (t.(rows := t.rows[m := t.rows[m].(health := Some(failure))]), true)
  }

  /** Bytes changed by something else than the registry; quarantine marks stay. */
  function DamageStep(t: Tables, m: MachineId, bytes: Row): (Tables, bool) {
    if m !in t.rows then (t, false)
    else (t.(rows := t.rows[m := bytes.(damaged := true, quarantined := t.rows[m].quarantined)]), true)
  }

  function Step(t: Tables, op: Op): (Tables, bool) {
    match op
    case Record(facts, now) => RecordStep(t, facts, now)
    case Stage(id, operation) => StageStep(t, id, operation)
    case Complete(id, digest) => CompleteStep(t, id, digest)
    case Abort(id) => AbortStep(t, id)
    case ConfirmRevocation(id) => ConfirmRevocationStep(t, id)
    case CompleteForget(id) => CompleteForgetStep(t, id)
    case Refresh(facts, digest, now) => RefreshStep(t, facts, digest, now)
    case Fail(m, digest, failure) => FailStep(t, m, digest, failure)
    case Scan(ids) => (t.(rows := Scanned(t.rows, ids)), true)
    case Damage(m, bytes) => DamageStep(t, m, bytes)
  }

  // ---------------------------------------------------------------- what every operation keeps

  ghost predicate OneOperation(operations: map<OpId, Operation>) {
    forall i, j :: i in operations && j in operations ==>
      (operations[i].Machine() == operations[j].Machine() ==> i == j)
  }

  ghost predicate Inv(t: Tables) {
    OneOperation(t.operations) && |Live(t)| <= MAXIMUM_MACHINES
  }

  lemma ScanShrinks(t: Tables, ids: set<MachineId>)
    ensures Live(t.(rows := Scanned(t.rows, ids))) <= Live(t)
  {
    assert Standing(Scanned(t.rows, ids)) <= Standing(t.rows);
  }

  /** Writing a row or staging an enrollment admits at most that machine. */
  lemma AdmitsOne(t: Tables, m: MachineId)
    requires Inv(t) && Space(t, m)
    ensures |Live(t) + {m}| <= MAXIMUM_MACHINES
  {
    hide Live, OneOperation;
    if m in Live(t) { assert Live(t) + {m} == Live(t); }
  }

  lemma WrittenLive(t: Tables, facts: Facts, now: int, digest: Option<Digest>)
    ensures Live(t.(rows := Written(t.rows, facts, now, digest))) <= Live(t) + {facts.id}
  {
    assert Standing(Written(t.rows, facts, now, digest)) <= Standing(t.rows) + {facts.id};
  }

  lemma FullScanKeepsInv(t: Tables)
    requires Inv(t)
    ensures Inv(FullScan(t))
  {
    hide OneOperation;
    ScanShrinks(t, t.rows.Keys);
    SubsetSize(Live(FullScan(t)), Live(t));
  }

  lemma RecordKeepsInv(t: Tables, facts: Facts, now: int)
    requires Inv(t)
    ensures Inv(RecordStep(t, facts, now).0)
  {
    hide OneOperation, Live, Scanned, Written;
    var s := FullScan(t);
    FullScanKeepsInv(t);
    if Space(s, facts.id) {
      AdmitsOne(s, facts.id);
      WrittenLive(s, facts, now, None);
      SubsetSize(Live(s.(rows := Written(s.rows, facts, now, None))), Live(s) + {facts.id});
    }
  }

  lemma StagedLive(t: Tables, id: OpId, operation: Operation)
    requires id !in t.operations
    ensures var t' := t.(operations := t.operations[id := operation]);
            Live(t') <= if operation.Enroll? then Live(t) + {operation.Machine()} else Live(t)
  {
    var after := t.operations[id := operation];
    assert Forgetting(t.operations) <= Forgetting(after) by {
      assert forall i :: i in t.operations ==> i in after && after[i] == t.operations[i];
    }
    assert Enrolling(after) <= if operation.Enroll?
        then Enrolling(t.operations) + {operation.Machine()}
        else Enrolling(t.operations);
  }

  lemma StageKeepsInv(t: Tables, id: OpId, operation: Operation)
    requires Inv(t)
    ensures Inv(StageStep(t, id, operation).0)
  {
    hide Live, Scanned;
    var (t', ok) := StageStep(t, id, operation);
    if ok {
      var s := if operation.Enroll? then FullScan(t) else t;
      FullScanKeepsInv(t);
      StagedLive(s, id, operation);
      if operation.Enroll? {
        AdmitsOne(s, operation.Machine());
        SubsetSize(Live(t'), Live(s) + {operation.Machine()});
      } else {
        SubsetSize(Live(t'), Live(s));
      }
      assert OneOperation(t'.operations) by { StagedOne(t.operations, id, operation); }
    }
  }

  lemma StagedOne(operations: map<OpId, Operation>, id: OpId, operation: Operation)
    requires OneOperation(operations) && id !in operations && !Busy(operations, operation.Machine())
    ensures OneOperation(operations[id := operation])
  {
  }

  lemma EndedForgetting(operations: map<OpId, Operation>, id: OpId, m: MachineId)
    requires id in operations && m in Forgetting(operations)
    ensures m in Forgetting(operations - {id}) || (operations[id].Forget? && m == operations[id].Machine())
  {
    var i :| i in operations && operations[i].Forget? && m == operations[i].Machine();
    if i != id { assert i in operations - {id} && (operations - {id})[i] == operations[i]; }
  }

  lemma Ended(operations: map<OpId, Operation>, id: OpId)
    requires OneOperation(operations) && id in operations
    ensures OneOperation(operations - {id})
    ensures Enrolling(operations - {id}) <= Enrolling(operations)
    ensures operations[id].Enroll? ==>
      Forgetting(operations) <= Forgetting(operations - {id}) && operations[id].Machine() in Enrolling(operations)
    ensures operations[id].Forget? ==>
      Forgetting(operations) <= Forgetting(operations - {id}) + {operations[id].Machine()}
  {
    forall m | m in Forgetting(operations)
      ensures m in Forgetting(operations - {id}) || (operations[id].Forget? && m == operations[id].Machine())
    {
      EndedForgetting(operations, id, m);
    }
    hide Forgetting;
    assert operations[id].Enroll? ==> operations[id].Machine() in Enrolling(operations);
  }

  /** Ending an enrollment: its machine's row, old or new, was counted already. */
  lemma EndEnrollment(t: Tables, id: OpId, rows: map<MachineId, Row>)
    requires Inv(t) && id in t.operations && t.operations[id].Enroll?
    requires Standing(rows) <= Standing(t.rows) + {t.operations[id].Machine()}
    ensures Inv(Tables(rows, t.operations - {id}))
  {
    hide OneOperation, Standing, Forgetting, Enrolling;
    Ended(t.operations, id);
    SubsetSize(Live(Tables(rows, t.operations - {id})), Live(t));
  }

  lemma CompleteKeepsInv(t: Tables, id: OpId, digest: Digest)
    requires Inv(t)
    ensures Inv(CompleteStep(t, id, digest).0)
  {
    hide Inv;
    if CompleteStep(t, id, digest).1 {
      EndEnrollment(t, id, CompleteStep(t, id, digest).0.rows);
    }
  }

  lemma AbortKeepsInv(t: Tables, id: OpId)
    requires Inv(t)
    ensures Inv(AbortStep(t, id).0)
  {
    hide Inv;
    if AbortStep(t, id).1 {
      EndEnrollment(t, id, AbortStep(t, id).0.rows);
    }
  }

  predicate SameShape(a: map<OpId, Operation>, b: map<OpId, Operation>) {
    a.Keys == b.Keys && forall i :: i in a ==> a[i].Machine() == b[i].Machine() && a[i].Forget? == b[i].Forget?
  }

  lemma SameShapeForgets(a: map<OpId, Operation>, b: map<OpId, Operation>)
    requires SameShape(a, b)
    ensures Forgetting(a) <= Forgetting(b) && Enrolling(a) <= Enrolling(b)
    ensures OneOperation(a) ==> OneOperation(b)
  {
    forall m | m in Forgetting(a) ensures m in Forgetting(b) {
      var i :| i in a && a[i].Forget? && m == a[i].Machine();
      assert i in b && b[i].Forget? && m == b[i].Machine();
    }
    forall m | m in Enrolling(a) ensures m in Enrolling(b) {
      var i :| i in a && a[i].Enroll? && m == a[i].Machine();
      assert i in b && b[i].Enroll? && m == b[i].Machine();
    }
    hide Forgetting, Enrolling;
  }

  lemma ConfirmRevocationKeepsInv(t: Tables, id: OpId)
    requires Inv(t)
    ensures Inv(ConfirmRevocationStep(t, id).0)
  {
    hide Forgetting, Enrolling, OneOperation, SameShape, ConfirmRevocationStep;
    var t' := ConfirmRevocationStep(t, id).0;
    RevocationShape(t, id);
    SameShapeForgets(t.operations, t'.operations);
    SameShapeForgets(t'.operations, t.operations);
    assert Live(t') == Live(t);
  }

  lemma RevocationShape(t: Tables, id: OpId)
    ensures var t' := ConfirmRevocationStep(t, id).0;
            t'.rows == t.rows && SameShape(t.operations, t'.operations) && SameShape(t'.operations, t.operations)
  {
  }

  lemma CompleteForgetKeepsInv(t: Tables, id: OpId)
    requires Inv(t)
    ensures Inv(CompleteForgetStep(t, id).0)
  {
    var (t', ok) := CompleteForgetStep(t, id);
    if ok {
      assert Standing(t'.rows) <= Standing(t.rows) - {t.operations[id].Machine()};
      hide OneOperation, Standing, Forgetting, Enrolling;
      Ended(t.operations, id);
      SubsetSize(Live(t'), Live(t));
    }
  }

  lemma SameStanding(t: Tables, rows: map<MachineId, Row>)
    requires Inv(t) && Standing(rows) <= Standing(t.rows)
    ensures Inv(t.(rows := rows))
  {
    hide Standing, Forgetting, Enrolling, OneOperation;
    SubsetSize(Live(t.(rows := rows)), Live(t));
  }

  lemma HeartbeatKeepsInv(t: Tables, facts: Facts, digest: Digest, now: int, m: MachineId, failure: string)
    requires Inv(t)
    ensures Inv(RefreshStep(t, facts, digest, now).0) && Inv(FailStep(t, m, digest, failure).0)
  {
    hide Inv, Busy;
    SameStanding(t, RefreshStep(t, facts, digest, now).0.rows);
    SameStanding(t, FailStep(t, m, digest, failure).0.rows);
  }

  /** At most one unfinished operation a machine, and never more machines admitted than
      the limit, whatever is called and whatever rows are damaged. */
  lemma StepKeepsInv(t: Tables, op: Op)
    requires Inv(t)
    ensures Inv(Step(t, op).0)
  {
    hide Inv, RecordStep, StageStep, CompleteStep, AbortStep, ConfirmRevocationStep, CompleteForgetStep, Busy;
    match op
    case Record(facts, now) => RecordKeepsInv(t, facts, now);
    case Stage(id, operation) => StageKeepsInv(t, id, operation);
    case Complete(id, digest) => CompleteKeepsInv(t, id, digest);
    case Abort(id) => AbortKeepsInv(t, id);
    case ConfirmRevocation(id) => ConfirmRevocationKeepsInv(t, id);
    case CompleteForget(id) => CompleteForgetKeepsInv(t, id);
    case Refresh(facts, digest, now) => HeartbeatKeepsInv(t, facts, digest, now, facts.id, "");
    case Fail(m, digest, failure) => HeartbeatKeepsInv(t, Facts(m, "", 0), digest, 0, m, failure);
    case Scan(ids) => SameStanding(t, Step(t, op).0.rows);
    case Damage(m, bytes) => SameStanding(t, Step(t, op).0.rows);
  }

  // ---------------------------------------------------------------- heartbeats, and coming back

  /** A heartbeat's success or failure counts exactly when it speaks about the current
      row; otherwise nothing changes, and even then no other row and no operation does. */
  lemma HeartbeatExact(t: Tables, op: Op)
    requires op.Refresh? || op.Fail?
    ensures var (t', ok) := Step(t, op);
            var m := if op.Refresh? then op.facts.id else op.machine;
            && (ok <==> m in t.rows && t.rows[m].digest == Some(op.digest) && !t.rows[m].quarantined
                         && forall i :: i in t.operations ==> t.operations[i].Machine() != m)
            && (!ok ==> t' == t)
            && (ok && op.Refresh? ==> t'.rows[m] == Row(op.facts, Some(op.digest), op.now, None, false, false))
            && (ok && op.Fail? ==> t'.rows[m] == t.rows[m].(health := Some(op.failure)))
            && t'.operations == t.operations && t'.rows.Keys == t.rows.Keys
            && (forall n :: n in t.rows && n != m ==> t'.rows[n] == t.rows[n])
            && (forall n :: n in t.rows ==>
                 t'.rows[n].digest == t.rows[n].digest && t'.rows[n].quarantined == t.rows[n].quarantined)
  {
  }

  // ---------------------------------------------------------------- what each call does, row by row

  /** A machine counts: its row can be read and is not quarantined and nothing is forgetting
      it, or it is being enrolled. */
  ghost predicate Admitted(t: Tables, m: MachineId) {
    || (m in t.rows && !t.rows[m].quarantined && !t.rows[m].damaged
        && forall i :: i in t.operations && t.operations[i].Forget? ==> t.operations[i].id != m)
    || (exists i :: i in t.operations && t.operations[i].Enroll? && t.operations[i].facts.id == m)
  }

  ghost function AllAdmitted(t: Tables): set<MachineId> {
    set m | m in t.rows.Keys + (set i | i in t.operations :: t.operations[i].Machine()) && Admitted(t, m)
  }

  ghost predicate Room(t: Tables, m: MachineId) {
    Admitted(t, m) || |AllAdmitted(t)| < 128
  }

  lemma SpaceIs(t: Tables, m: MachineId)
    ensures Space(FullScan(t), m) <==> Room(t, m)
  {
    var s := FullScan(t);
    forall n ensures n in Live(s) <==> Admitted(t, n) { LiveIs(t, n); }
    hide Live, Admitted, FullScan;
    assert Live(s) == AllAdmitted(t) by {
      forall n | n in Live(s) ensures n in AllAdmitted(t) { AdmittedKnown(t, n); }
    }
  }

  lemma LiveIs(t: Tables, n: MachineId)
    ensures n in Live(FullScan(t)) <==> Admitted(t, n)
  {
    assert n in Forgetting(t.operations) <==>
      exists i :: i in t.operations && t.operations[i].Forget? && t.operations[i].id == n;
    assert n in Enrolling(t.operations) <==>
      exists i :: i in t.operations && t.operations[i].Enroll? && t.operations[i].facts.id == n;
    hide Forgetting, Enrolling;
  }

  lemma AdmittedKnown(t: Tables, n: MachineId)
    requires Admitted(t, n)
    ensures n in t.rows.Keys + set i | i in t.operations :: t.operations[i].Machine()
  {
  }

  /** Every row is as it was, but that a damaged one is quarantined. */
  ghost predicate OnlyScanned(before: map<MachineId, Row>, after: map<MachineId, Row>, but: Option<MachineId>) {
    forall n :: Some(n) != but ==>
      && (n in after <==> n in before)
      && (n in before ==> after[n] == before[n].(quarantined := before[n].quarantined || before[n].damaged))
  }

  /** Local facts are written, without a credential, exactly when there is room. */
  lemma RecordExactly(t: Tables, facts: Facts, now: int)
    ensures var (t', ok) := RecordStep(t, facts, now);
            && (ok <==> Room(t, facts.id)) && (!ok ==> t' == t)
            && (ok ==> facts.id in t'.rows && t'.rows[facts.id] == Row(facts, None, now, None, false, false))
            && (ok ==> OnlyScanned(t.rows, t'.rows, Some(facts.id)) && t'.operations == t.operations)
  {
    SpaceIs(t, facts.id);
    hide Live, Room;
  }

  /** An operation is staged unless its machine has one; an enrollment needs room. */
  lemma StageExactly(t: Tables, id: OpId, operation: Operation)
    ensures var (t', ok) := StageStep(t, id, operation);
            && (ok <==> id !in t.operations
                        && (forall i :: i in t.operations ==> t.operations[i].Machine() != operation.Machine())
                        && (operation.Enroll? ==> Room(t, operation.Machine())))
            && (!ok ==> t' == t)
            && (ok ==> t'.operations == t.operations[id := operation])
            && (ok ==> if operation.Enroll? then OnlyScanned(t.rows, t'.rows, None) else t'.rows == t.rows)
  {
    SpaceIs(t, operation.Machine());
    hide Live, Room;
  }

  /** The enrollment staged with this digest is published, with its own contact time. */
  lemma CompleteExactly(t: Tables, id: OpId, digest: Digest)
    ensures var (t', ok) := CompleteStep(t, id, digest);
            && (ok <==> id in t.operations && t.operations[id].Enroll? && t.operations[id].digest == digest)
            && (!ok ==> t' == t)
            && (ok ==>
                  var facts := t.operations[id].facts;
                  && t'.operations == t.operations - {id}
                  && t'.rows == t.rows[facts.id := Row(facts, Some(digest), facts.authenticatedAt, None, false, false)])
  {
  }

  /** An aborted enrollment marks the old row; a completed forget removes it; only the
      operation named goes. */
  lemma EndExactly(t: Tables, id: OpId)
    ensures var (t', ok) := AbortStep(t, id);
            && (ok <==> id in t.operations && t.operations[id].Enroll?) && (!ok ==> t' == t)
            && (ok ==>
                  var m := t.operations[id].facts.id;
                  && t'.operations == t.operations - {id} && t'.rows.Keys == t.rows.Keys
                  && (m in t.rows ==> t'.rows[m] == t.rows[m].(health := Some("pairing-required")))
                  && forall n :: n in t.rows && n != m ==> t'.rows[n] == t.rows[n])
    ensures var (t', ok) := CompleteForgetStep(t, id);
            && (ok <==> id in t.operations && t.operations[id].Forget?) && (!ok ==> t' == t)
            && (ok ==> t'.operations == t.operations - {id} && t'.rows == t.rows - {t.operations[id].id})
  {
  }

  /** The calls that write a machine's row as new authority. */
  predicate Reinstates(t: Tables, op: Op, m: MachineId) {
    || (op.Record? && op.facts.id == m)
    || (op.Complete? && op.id in t.operations && t.operations[op.id].Enroll? && t.operations[op.id].Machine() == m
        && t.operations[op.id].digest == op.digest)
  }

  predicate Forgets(t: Tables, op: Op, m: MachineId) {
    op.CompleteForget? && op.id in t.operations && t.operations[op.id].Forget? && t.operations[op.id].Machine() == m
  }

  lemma ReturnStep(t: Tables, op: Op, m: MachineId)
    ensures m !in t.rows && m in Step(t, op).0.rows ==> Reinstates(t, op, m)
    ensures m in t.rows && m !in Step(t, op).0.rows ==> Forgets(t, op, m)
    ensures m in t.rows && t.rows[m].quarantined && m in Step(t, op).0.rows && !Step(t, op).0.rows[m].quarantined
            ==> Reinstates(t, op, m)
  {
    hide Busy, Live;
  }

  ghost predicate Run(states: seq<Tables>, ops: seq<Op>) {
    && |states| == |ops| + 1 && states[0] == Tables(map[], map[])
    && forall k :: 0 <= k < |ops| ==> states[k + 1] == Step(states[k], ops[k]).0
  }

  lemma EmptyInv()
    ensures Inv(Tables(map[], map[]))
  {
    assert Live(Tables(map[], map[])) == {};
  }

  lemma {:induction false} RunKeepsInv(states: seq<Tables>, ops: seq<Op>, n: nat)
    requires Run(states, ops) && n < |states|
    ensures Inv(states[n])
  {
    hide Inv, Step;
    if n == 0 {
      EmptyInv();
    } else {
      RunKeepsInv(states, ops, n - 1);
      assert states[n - 1 + 1] == Step(states[n - 1], ops[n - 1]).0;
      StepKeepsInv(states[n - 1], ops[n - 1]);
    }
  }

  /** However late a heartbeat answers, a machine that is not in the table comes back
      only by `record` or by completing an enrollment of it. */
  lemma {:induction false} ReturnsOnlyByEnrollment(states: seq<Tables>, ops: seq<Op>, from: nat, n: nat, m: MachineId)
    requires Run(states, ops) && from <= n < |states|
    requires m !in states[from].rows && m in states[n].rows
    ensures exists k :: from <= k < n && Reinstates(states[k], ops[k], m)
  {
    hide Step, Reinstates;
    assert states[n - 1 + 1] == Step(states[n - 1], ops[n - 1]).0;
    ReturnStep(states[n - 1], ops[n - 1], m);
    if m in states[n - 1].rows {
      ReturnsOnlyByEnrollment(states, ops, from, n - 1, m);
    }
  }

  /** Neither time nor a heartbeat lifts a quarantine: only the same two calls do, or a
      completed forget removes the row. */
  lemma {:induction false} QuarantineLasts(states: seq<Tables>, ops: seq<Op>, from: nat, n: nat, m: MachineId)
    requires Run(states, ops) && from <= n < |states|
    requires m in states[from].rows && states[from].rows[m].quarantined
    requires !(m in states[n].rows && states[n].rows[m].quarantined)
    ensures exists k :: from <= k < n && (Reinstates(states[k], ops[k], m) || Forgets(states[k], ops[k], m))
  {
    hide Step, Reinstates, Forgets;
    assert from != n;
    assert states[n - 1 + 1] == Step(states[n - 1], ops[n - 1]).0;
    ReturnStep(states[n - 1], ops[n - 1], m);
    if !(m in states[n - 1].rows && states[n - 1].rows[m].quarantined) {
      QuarantineLasts(states, ops, from, n - 1, m);
    }
  }

  /** After a full scan no standing row is damaged. */
  lemma ScannedStands(rows: map<MachineId, Row>, valid: set<MachineId>)
    requires var after := Scanned(rows, rows.Keys);
             valid == set m | m in after && m in rows.Keys && !after[m].quarantined && !after[m].damaged
    ensures valid == Standing(Scanned(rows, rows.Keys))
  {
  }

  // ---------------------------------------------------------------- the registry

  class SqliteFleetRegistry {
    var rows: map<MachineId, Row>
    var operations: map<OpId, Operation>

    ghost predicate Valid()
      reads this
    {
      Inv(Tables(rows, operations))
    }

    ghost function State(): Tables
      reads this
    {
      Tables(rows, operations)
    }

    constructor ()
      ensures Valid() && State() == Tables(map[], map[])
    {
      rows, operations := map[], map[];
      new;
      EmptyInv();
    }

    predicate HasOperation(m: MachineId)
      reads this
      ensures HasOperation(m) <==> Busy(operations, m)
    {
      exists i | i in operations :: operations[i].Machine() == m
    }

    /** Goes through the rows and quarantines the damaged ones; answers the valid rows. */
    method ValidRows(ids: set<MachineId>) returns (valid: set<MachineId>)
      modifies this`rows
      ensures rows == Scanned(old(rows), ids)
      ensures valid == set m | m in rows && m in ids && !rows[m].quarantined && !rows[m].damaged
    {
      var was := rows;
      valid := {};
      var left := ids * rows.Keys;
      while left != {}
        invariant left <= ids * was.Keys
        invariant rows == Scanned(was, (ids * was.Keys) - left)
        invariant valid == set m | m in was && m in ids && m !in left && !was[m].quarantined && !was[m].damaged
        decreases left
      {
        var m :| m in left;
        if rows[m].quarantined {
          left := left - {m};
          assert rows == Scanned(was, (ids * was.Keys) - left);
        } else if rows[m].damaged {
          rows := rows[m := rows[m].(quarantined := true)];
          left := left - {m};
        } else {
          valid := valid + {m};
          left := left - {m};
        }
      }
    }

    /** Throws (answers false) unless the machine is admitted or there is room. */
    method RequireSpace(m: MachineId) returns (ok: bool)
      modifies this`rows
      ensures State() == FullScan(old(State())) && ok == Space(State(), m)
    {
      hide Forgetting, Enrolling, Scanned;
      ghost var before := rows;
      var valid := ValidRows(rows.Keys);
      ScannedStands(before, valid);
      hide Standing;
      var admitted := (valid - Forgetting(operations)) + Enrolling(operations);
      ok := m in admitted || |admitted| < MAXIMUM_MACHINES;
    }

    method RecordFacts(facts: Facts, now: int) returns (ok: bool)
      requires Valid()
      modifies this
      ensures Valid() && (State(), ok) == RecordStep(old(State()), facts, now)
    {
      RecordKeepsInv(State(), facts, now);
      hide Inv, Live;
      var before := rows;
      ok := RequireSpace(facts.id);
      if !ok {
        rows := before;
        return;
      }
      rows := Written(rows, facts, now, None);
    }

    method StageOperation(id: OpId, operation: Operation) returns (ok: bool)
      requires Valid()
      modifies this
      ensures Valid() && (State(), ok) == StageStep(old(State()), id, operation)
    {
      StageKeepsInv(State(), id, operation);
      hide Inv, Live;
      if id in operations || HasOperation(operation.Machine()) { return false; }
      if operation.Enroll? {
        var before := rows;
        ok := RequireSpace(operation.Machine());
        if !ok {
          rows := before;
          return;
        }
      }
      operations := operations[id := operation];
      ok := true;
    }

    method CompleteEnrollment(id: OpId, digest: Digest) returns (ok: bool)
      requires Valid()
      modifies this
      ensures Valid() && (State(), ok) == CompleteStep(old(State()), id, digest)
    {
      CompleteKeepsInv(State(), id, digest);
      hide Inv;
      if id !in operations || !operations[id].Enroll? || operations[id].digest != digest { return false; }
      var pending := operations[id];
      rows := Written(rows, pending.facts, pending.facts.authenticatedAt, Some(pending.digest));
      operations := operations - {id};
      ok := true;
    }

    method AbortEnrollment(id: OpId) returns (ok: bool)
      requires Valid()
      modifies this
      ensures Valid() && (State(), ok) == AbortStep(old(State()), id)
    {
      AbortKeepsInv(State(), id);
      hide Inv;
      if id !in operations || !operations[id].Enroll? { return false; }
      var m := operations[id].Machine();
      if m in rows { rows := rows[m := rows[m].(health := Some("pairing-required"))]; }
      operations := operations - {id};
      ok := true;
    }

    method FinishForget(id: OpId) returns (ok: bool)
      requires Valid()
      modifies this
      ensures Valid() && (State(), ok) == CompleteForgetStep(old(State()), id)
    {
      CompleteForgetKeepsInv(State(), id);
      hide Inv;
      if id !in operations || !operations[id].Forget? { return false; }
      rows := rows - {operations[id].Machine()};
      operations := operations - {id};
      ok := true;
    }

    method RefreshAuthenticated(facts: Facts, digest: Digest, now: int) returns (ok: bool)
      requires Valid()
      modifies this
      ensures Valid() && (State(), ok) == RefreshStep(old(State()), facts, digest, now)
    {
      hide Inv, Busy;
      HeartbeatKeepsInv(State(), facts, digest, now, facts.id, "");
      ok := facts.id in rows && rows[facts.id].digest == Some(digest) && !rows[facts.id].quarantined
            && !HasOperation(facts.id);
      if ok { rows := Written(rows, facts, now, Some(digest)); }
    }

    method RecordFailure(m: MachineId, digest: Digest, failure: string) returns (ok: bool)
      requires Valid()
      modifies this
      ensures Valid() && (State(), ok) == FailStep(old(State()), m, digest, failure)
    {
      hide Inv, Busy, RefreshStep;
      HeartbeatKeepsInv(State(), Facts(m, "", 0), digest, 0, m, failure);
      ok := m in rows && rows[m].digest == Some(digest) && !rows[m].quarantined
            && !HasOperation(m);
      if ok { rows := rows[m := rows[m].(health := Some(failure))]; }
    }
  }
}
