/** The source's side of `Pairing` is `FleetRegistry` seen at one machine.

    `Pairing` keeps one journal entry and one row; the registry keeps tables for all
    machines.  `Seen` says when a journal and a row are what the tables hold for one
    machine.  Each step of the protocol that touches them is a call of the registry:
    the call succeeds when the step is taken, and what is seen afterwards is what the
    step leaves. */
module PairingSource {

  import opened Wrappers
  import F = FleetRegistry
  import P = Pairing

  type MachineId = F.MachineId

  /** How operations and digests are written in the tables; different ones differently. */
  datatype Names = Names(op: nat -> F.OpId, digest: P.Digest -> F.Digest)

  ghost predicate Distinct(n: Names) {
    && (forall a, b :: n.op(a) == n.op(b) ==> a == b)
    && (forall a, b :: n.digest(a) == n.digest(b) ==> a == b)
  }

  ghost predicate JournalSeen(n: Names, operations: map<F.OpId, F.Operation>, m: MachineId, j: P.Journal) {
    match j
    case NoOp => !F.Busy(operations, m)
    case Enroll(op, digest, _) =>
      && n.op(op) in operations && operations[n.op(op)].Enroll? && operations[n.op(op)].Machine() == m
      && operations[n.op(op)].digest == n.digest(digest)
    case Forget(op, held) =>
      && n.op(op) in operations && operations[n.op(op)].Forget? && operations[n.op(op)].Machine() == m
      && operations[n.op(op)].held == HeldText(n, held)
  }

  function HeldText(n: Names, held: Option<P.Digest>): Option<F.Digest> {
    if held.None? then None else Some(n.digest(held.value))
  }

  ghost predicate RowSeen(n: Names, rows: map<MachineId, F.Row>, m: MachineId, r: Option<P.Row>) {
    match r
    case None => m !in rows
    case Some(row) =>
      && m in rows && !rows[m].damaged && !rows[m].quarantined && rows[m].digest == Some(n.digest(row.digest))
      && (row.healthy <==> rows[m].health.None?)
  }

  ghost predicate Seen(n: Names, t: F.Tables, m: MachineId, j: P.Journal, r: Option<P.Row>) {
    Distinct(n) && F.OneOperation(t.operations) && JournalSeen(n, t.operations, m, j) && RowSeen(n, t.rows, m, r)
  }

  // ---------------------------------------------------------------- operations on one machine

  lemma BusyExactly(n: Names, t: F.Tables, m: MachineId, j: P.Journal, r: Option<P.Row>)
    requires Seen(n, t, m, j, r)
    ensures F.Busy(t.operations, m) <==> !j.NoOp?
  {
    if !j.NoOp? { assert t.operations[n.op(j.op)].Machine() == m; }
  }

  lemma EndedNotBusy(operations: map<F.OpId, F.Operation>, id: F.OpId)
    requires F.OneOperation(operations) && id in operations
    ensures !F.Busy(operations - {id}, operations[id].Machine()) && F.OneOperation(operations - {id})
  {
    var rest := operations - {id};
    assert forall i :: i in rest ==> i in operations && i != id && rest[i] == operations[i];
  }

  /** Staging: `StageEnroll` and `StageForget`. */
  lemma StageIsSeen(n: Names, t: F.Tables, m: MachineId, j: P.Journal, r: Option<P.Row>, op: nat, staged: P.Journal,
                    operation: F.Operation)
    requires Seen(n, t, m, j, r) && operation.Machine() == m && n.op(op) !in t.operations
    requires match staged
             case NoOp => false
             case Enroll(o, d, _) => o == op && operation.Enroll? && operation.digest == n.digest(d)
             case Forget(o, held) => o == op && operation.Forget? && operation.held == HeldText(n, held)
    ensures var (t', ok) := F.StageStep(t, n.op(op), operation);
            && (ok ==> j.NoOp? && Seen(n, t', m, staged, r))
            && (!ok ==> t' == t)
            && (j.NoOp? && operation.Forget? ==> ok)
  {
    hide F.Live;
    BusyExactly(n, t, m, j, r);
    if j.NoOp? { F.StagedOne(t.operations, n.op(op), operation); }
    hide F.OneOperation, F.Busy;
  }

  /** `Complete`: promotion and journal removal. */
  lemma CompleteIsSeen(n: Names, t: F.Tables, m: MachineId, j: P.Journal, r: Option<P.Row>)
    requires Seen(n, t, m, j, r) && j.Enroll?
    ensures var (t', ok) := F.CompleteStep(t, n.op(j.op), n.digest(j.digest));
            ok && Seen(n, t', m, P.NoOp, Some(P.Row(j.digest, true)))
  {
    EndedNotBusy(t.operations, n.op(j.op));
    hide F.OneOperation, F.Busy;
  }

  /** Only the staged digest completes. */
  lemma OtherDigestRefused(n: Names, t: F.Tables, m: MachineId, j: P.Journal, r: Option<P.Row>, d: P.Digest)
    requires Seen(n, t, m, j, r) && j.Enroll? && d != j.digest
    ensures F.CompleteStep(t, n.op(j.op), n.digest(d)) == (t, false)
  {
    hide F.OneOperation, F.Busy;
  }

  /** `AbortUnkept` and `AbortRefused`: the row, if any, is no longer healthy. */
  lemma AbortIsSeen(n: Names, t: F.Tables, m: MachineId, j: P.Journal, r: Option<P.Row>)
    requires Seen(n, t, m, j, r) && j.Enroll?
    ensures var (t', ok) := F.AbortStep(t, n.op(j.op));
            ok && Seen(n, t', m, P.NoOp, P.Unhealthy(r))
  {
    EndedNotBusy(t.operations, n.op(j.op));
    hide F.OneOperation, F.Busy;
  }

  /** `ForgetComplete`: row and operation go together. */
  lemma ForgetIsSeen(n: Names, t: F.Tables, m: MachineId, j: P.Journal, r: Option<P.Row>)
    requires Seen(n, t, m, j, r) && j.Forget?
    ensures var (t', ok) := F.CompleteForgetStep(t, n.op(j.op));
            ok && Seen(n, t', m, P.NoOp, None)
  {
    EndedNotBusy(t.operations, n.op(j.op));
    hide F.OneOperation, F.Busy;
  }

  // ---------------------------------------------------------------- heartbeats

  lemma CurrentExactly(n: Names, t: F.Tables, m: MachineId, j: P.Journal, r: Option<P.Row>, d: P.Digest)
    requires Seen(n, t, m, j, r)
    ensures F.Current(t, m, n.digest(d)) <==> j.NoOp? && r.Some? && r.value.digest == d
  {
    BusyExactly(n, t, m, j, r);
    hide F.OneOperation, F.Busy;
  }

  /** A heartbeat's success and its failure: the registry grades the row as the protocol
      does. */
  lemma HeartbeatIsSeen(n: Names, t: F.Tables, m: MachineId, s: P.Sys, d: P.Digest, facts: F.Facts, now: int,
                        failure: string)
    requires Seen(n, t, m, s.journal, s.row) && facts.id == m
    ensures Seen(n, F.RefreshStep(t, facts, n.digest(d), now).0, m, s.journal, P.Graded(s, d, true))
    ensures Seen(n, F.FailStep(t, m, n.digest(d), failure).0, m, s.journal, P.Graded(s, d, false))
  {
    CurrentExactly(n, t, m, s.journal, s.row, d);
    hide F.OneOperation, F.Busy, F.Current;
  }

  // ---------------------------------------------------------------- what other calls do

  /** Calls about other machines are not seen here. */
  lemma OthersNotSeen(n: Names, t: F.Tables, m: MachineId, j: P.Journal, r: Option<P.Row>, op: F.Op)
    requires Seen(n, t, m, j, r)
    requires match op
             case Record(facts, _) => facts.id != m
             case Stage(id, operation) => operation.Machine() != m
             case Complete(id, _) => id in t.operations ==> t.operations[id].Machine() != m
             case Abort(id) => id in t.operations ==> t.operations[id].Machine() != m
             case ConfirmRevocation(_) => true
             case CompleteForget(id) => id in t.operations ==> t.operations[id].Machine() != m
             case Refresh(facts, _, _) => facts.id != m
             case Fail(machine, _, _) => machine != m
             case Scan(_) => true
             case Damage(machine, _) => machine != m
    ensures Seen(n, F.Step(t, op).0, m, j, r)
  {
    var t' := F.Step(t, op).0;
    OthersKeepOne(t, op);
    OthersRows(n, t, m, r, op);
    OthersJournal(n, t, m, j, op);
  }

  lemma OthersKeepOne(t: F.Tables, op: F.Op)
    requires F.OneOperation(t.operations)
    ensures F.OneOperation(F.Step(t, op).0.operations)
  {
    hide F.Live, F.Scanned, F.Written;
    match op
    case Stage(id, operation) =>
      if F.StageStep(t, id, operation).1 { F.StagedOne(t.operations, id, operation); }
    case ConfirmRevocation(id) =>
      F.RevocationShape(t, id);
      F.SameShapeForgets(t.operations, F.ConfirmRevocationStep(t, id).0.operations);
    case _ =>
  }

  lemma OthersRows(n: Names, t: F.Tables, m: MachineId, r: Option<P.Row>, op: F.Op)
    requires RowSeen(n, t.rows, m, r)
    requires match op
             case Record(facts, _) => facts.id != m
             case Stage(_, _) => true
             case Complete(id, _) => id in t.operations ==> t.operations[id].Machine() != m
             case Abort(id) => id in t.operations ==> t.operations[id].Machine() != m
             case ConfirmRevocation(_) => true
             case CompleteForget(id) => id in t.operations ==> t.operations[id].Machine() != m
             case Refresh(facts, _, _) => facts.id != m
             case Fail(machine, _, _) => machine != m
             case Scan(_) => true
             case Damage(machine, _) => machine != m
    ensures RowSeen(n, F.Step(t, op).0.rows, m, r)
  {
    hide F.Live, F.Busy;
  }

  /** The operations on one machine that calls about others leave. */
  lemma OthersOperations(t: F.Tables, m: MachineId, op: F.Op)
    requires match op
             case Stage(id, operation) => operation.Machine() != m
             case Complete(id, _) => id in t.operations ==> t.operations[id].Machine() != m
             case Abort(id) => id in t.operations ==> t.operations[id].Machine() != m
             case CompleteForget(id) => id in t.operations ==> t.operations[id].Machine() != m
             case _ => true
    ensures var after := F.Step(t, op).0.operations;
            && (forall i :: i in after && after[i].Machine() == m ==>
                  i in t.operations && t.operations[i].Machine() == m)
            && (forall i :: i in t.operations && t.operations[i].Machine() == m ==>
                  i in after && SameButRevoked(t.operations[i], after[i]))
  {
    hide F.Live, F.Scanned, F.Written, F.Busy;
  }

  predicate SameButRevoked(a: F.Operation, b: F.Operation) {
    if a.Enroll? then b == a else b.Forget? && b.id == a.id && b.held == a.held
  }

  lemma OthersJournal(n: Names, t: F.Tables, m: MachineId, j: P.Journal, op: F.Op)
    requires JournalSeen(n, t.operations, m, j) && F.OneOperation(t.operations)
    requires match op
             case Stage(id, operation) => operation.Machine() != m
             case Complete(id, _) => id in t.operations ==> t.operations[id].Machine() != m
             case Abort(id) => id in t.operations ==> t.operations[id].Machine() != m
             case CompleteForget(id) => id in t.operations ==> t.operations[id].Machine() != m
             case _ => true
    ensures JournalSeen(n, F.Step(t, op).0.operations, m, j)
  {
    OthersOperations(t, m, op);
    hide F.Step, F.OneOperation;
  }
}
