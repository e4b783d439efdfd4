/** The two-daemon pairing protocol.

    One source machine pairs with one target.  The source keeps a journal, a keychain
    entry and a published row; the target keeps the tables of `DeviceRegistry`.  A
    lifecycle task moves step by step and may stop anywhere (timeout, error, restart);
    a confirm or a revoke, once sent, is delivered at any later time, more than once or
    never, and its answer may be lost; claims expire; a heartbeat runs beside the task;
    other machines and people use the target; someone may change the keychain. */
module Pairing {

  import D = DeviceRegistry
  import opened Wrappers

  type Token = D.Token
  type MachineId = D.MachineId

  /** SHA-256 taken as injective: a digest determines its token. */
  datatype Digest = DigestOf(token: Token)

  datatype Journal =
    | NoOp
    | Enroll(op: nat, digest: Digest, claim: bool)
    | Forget(op: nat, held: Option<Digest>)

  /** The published row.  `healthy` means that no failure overrides its health. */
  datatype Row = Row(digest: Digest, healthy: bool)

  /** Where the one lifecycle task stands; each state names the operation it works on. */
  datatype Task =
    | Idle
    | Claimed(token: Token, claim: bool)
    | Staged(op: nat, digest: Digest, claim: bool)
    | Settling(op: nat, digest: Digest, claim: bool)
    | Unmatched(op: nat, digest: Digest, claim: bool)
    | Matched(op: nat, digest: Digest, claim: bool)
    | Holding(op: nat, digest: Digest, claim: bool)
    | Waiting(op: nat, digest: Digest, claim: bool)
    | Confirmed(op: nat, digest: Digest, claim: bool)
    | Accepted(op: nat, digest: Digest, claim: bool)
    | ReadBack(op: nat, digest: Digest, claim: bool)
    | Unkept(op: nat, digest: Digest, claim: bool)
    | Refused(op: nat, digest: Digest, claim: bool)
    | Removed(op: nat, digest: Digest, claim: bool)
    | ForgetRead(held: Option<Digest>)
    | Forgetting(op: nat, held: Option<Digest>)
    | ForgetHeld(op: nat, held: Option<Digest>)
    | ForgetClearing(op: nat, held: Option<Digest>)
    | ForgetCleared(op: nat, held: Option<Digest>)

  datatype Heartbeat =
    | Off
    | Reading(digest: Digest)
    | Dialing(digest: Digest)
    | Answered(digest: Digest)
    | Held(digest: Digest)

  /** `issued`, `accepted`, `readBack`, `replaced`, `tampered` and `disturbed` are history:
      the tokens the target gave out, those it answered for, those the source read back
      after an answer, those given out before the last pairing without a claim, whether
      someone else changed the keychain, and whether that happened or someone else changed
      the pair's credential at the target. */
  datatype Sys = Sys(
    target: D.Tables,
    journal: Journal,
    row: Option<Row>,
    keychain: Option<Token>,
    task: Task,
    heartbeat: Heartbeat,
    confirms: set<Token>,
    revokes: set<Token>,
    nextOp: nat,
    issued: set<Token>,
    accepted: set<Token>,
    readBack: set<Token>,
    replaced: set<Token>,
    tampered: bool,
    disturbed: bool)

  function Start(): Sys {
    Sys(D.Tables(map[], map[]), NoOp, None, None, Idle, Off, {}, {}, 0, {}, {}, {}, {}, false, false)
  }

  /** Steps of the task in `#enroll` and `#settleEnrollment`, and its ends. */
  datatype EnrollStep =
    | StageEnroll
    | Save(stored: bool)
    | Reconcile
    | RepairIndex
    | AbortUnkept
    | Hold
    | Send
    | Greet
    | ReadAgain
    | RevokeUnkept(sent: bool)
    | Complete
    | ClearRefused(done: bool)
    | AbortRefused
    | GiveUp
    | Crash

  /** Steps of the task in `#forget` and `#settleForget`. */
  datatype ForgetStep =
    | StartForget
    | StageForget
    | ForgetHold
    | ForgetRevoke(sent: bool)
    | ForgetClear(done: bool)
    | ForgetComplete

  datatype HeartbeatStep = Begin | Read | Dial | Reread | Refresh | Fail

  datatype Event =
    | Redeem(id: D.DeviceId, token: Token, now: int, replied: bool)
    | RedeemPaired(id: D.DeviceId, token: Token, replied: bool)
    | Enrollment(enroll: EnrollStep)
    | Forgetful(forget: ForgetStep)
    | Beat(beat: HeartbeatStep)
    | DeliverConfirm(token: Token, now: int, replied: bool)
    | DeliverRevoke(token: Token, id: D.DeviceId)
    | LateClaim(id: D.DeviceId, token: Token, now: int)
    | LatePair(id: D.DeviceId, token: Token)
    | Keychain(value: Option<Token>)
    | Other(op: D.Op)

  // ---------------------------------------------------------------- the target, seen by one source

  /** The token authenticates this source machine. */
  ghost predicate Works(target: D.Tables, self: MachineId, token: Token) {
    exists id :: D.Works(target.devices, id, self, token)
  }

  ghost predicate Greets(target: D.Tables, token: Token) {
    exists id :: D.Verifies(target.devices, id, token)
  }

  ghost predicate Pending(target: D.Tables, self: MachineId, token: Token) {
    exists id :: D.Pending(target.claims, token, self, id)
  }

  /** Calls by others that reach this source's credential or claim. */
  predicate Touches(target: D.Tables, self: MachineId, op: D.Op) {
    match op
    case Pair(binding, _, _) => binding == D.Machine(self)
    case MakeClaim(m, _, _, _) => m == self
    case Confirm(_, m, _) => m == self
    case Rotate(id, _) => D.Holds(target.devices, id, self)
    case Revoke(id) => D.Holds(target.devices, id, self)
  }

  // ---------------------------------------------------------------- the steps

  function HeldDigest(keychain: Option<Token>): Option<Digest> {
    if keychain.None? then None else Some(DigestOf(keychain.value))
  }

  predicate Matches(keychain: Option<Token>, digest: Digest) {
    keychain == Some(digest.token)
  }

  /** Whether `forgetIfMatching` may delete. */
  predicate MayClear(keychain: Option<Token>, held: Option<Digest>) {
    keychain.None? || HeldDigest(keychain) == held
  }

  function Unhealthy(row: Option<Row>): Option<Row> {
    if row.None? then row else Some(row.value.(healthy := false))
  }

  /** A heartbeat failure or success counts only for the row it was about, with no
      operation in the way. */
  function Graded(s: Sys, digest: Digest, healthy: bool): Option<Row> {
    if s.row.Some? && s.row.value.digest == digest && s.journal.NoOp? then Some(Row(digest, healthy)) else s.row
  }

  ghost predicate Next(self: MachineId, s: Sys, e: Event, s': Sys) {
    match e
    case Redeem(id, token, now, replied) => Redeems(self, s, id, token, now, replied, s')
    case RedeemPaired(id, token, replied) => RedeemsPaired(self, s, id, token, replied, s')
    case Enrollment(step) => EnrollNext(s, step, s')
    case Forgetful(step) => ForgetNext(s, step, s')
    case Beat(step) => HeartbeatNext(s, step, s')
    case DeliverConfirm(token, now, replied) => Delivers(self, s, token, now, replied, s')
    case DeliverRevoke(token, id) => Revokes(s, token, id, s')
    case LateClaim(id, token, now) => ClaimsLate(self, s, id, token, now, s')
    case LatePair(id, token) => PairsLate(self, s, id, token, s')
    case Keychain(value) => s' == s.(keychain := value, tampered := true, disturbed := true)
    case Other(op) => Others(self, s, op, s')
  }

  /** A self-revocation reaches the target: it revokes the device of its credential. */
  predicate Revokes(s: Sys, token: Token, id: D.DeviceId, s': Sys) {
    && token in s.revokes && D.Verifies(s.target.devices, id, token)
    && s' == s.(target := D.RevokeStep(s.target, id).0)
  }

  ghost predicate Others(self: MachineId, s: Sys, op: D.Op, s': Sys) {
    s' == s.(target := D.Step(s.target, op).0, disturbed := s.disturbed || Touches(s.target, self, op))
  }

  /** Redeeming a code.  A claim is pending and retires nothing. */
  predicate Redeems(self: MachineId, s: Sys, id: D.DeviceId, token: Token, now: int, replied: bool, s': Sys) {
    var (target, answer) := D.ClaimStep(s.target, self, id, token, now);
    && s.task.Idle? && token !in s.issued && token != ""
    && s' == s.(target := target, issued := s.issued + {token},
                task := if answer.Granted? && replied then Claimed(token, true) else Idle)
  }

  /** A claim request that its sender no longer waits for reaches the target. */
  predicate ClaimsLate(self: MachineId, s: Sys, id: D.DeviceId, token: Token, now: int, s': Sys) {
    && token !in s.issued && token != ""
    && s' == s.(target := D.ClaimStep(s.target, self, id, token, now).0, issued := s.issued + {token})
  }

  /** A pairing without a claim, when granted, takes the place of every token given out
      before. */
  function Paired(self: MachineId, s: Sys, id: D.DeviceId, token: Token): Sys {
    var (target, answer) := D.PairStep(s.target, D.Machine(self), id, token);
    s.(target := target, issued := s.issued + {token}, replaced := if answer.Granted? then s.issued else s.replaced)
  }

  /** A target without claims hands out a working credential at once. */
  predicate RedeemsPaired(self: MachineId, s: Sys, id: D.DeviceId, token: Token, replied: bool, s': Sys) {
    var granted := D.PairStep(s.target, D.Machine(self), id, token).1.Granted?;
    && s.task.Idle? && token !in s.issued && token != ""
    && s' == Paired(self, s, id, token).(task := if granted && replied then Claimed(token, false) else Idle)
  }

  /** The same for a request that its sender no longer waits for. */
  predicate PairsLate(self: MachineId, s: Sys, id: D.DeviceId, token: Token, s': Sys) {
    token !in s.issued && token != "" && s' == Paired(self, s, id, token)
  }

  /** A confirm reaches the target; its answer may reach the waiting task.  Only
      "nothing" is authoritative: a full table is not proof against the token. */
  ghost predicate Delivers(self: MachineId, s: Sys, token: Token, now: int, replied: bool, s': Sys) {
    var (target, answer) := D.ConfirmStep(s.target, token, self, now);
    var heard := replied && s.task.Waiting? && s.task.digest == DigestOf(token);
    && token in s.confirms
    && s' == s.(target := target,
                accepted := if answer.Granted? then s.accepted + {token} else s.accepted,
                task := if !heard then s.task
                        else if answer.Granted? then Confirmed(s.task.op, s.task.digest, s.task.claim)
                        else if answer.Nothing? then Refused(s.task.op, s.task.digest, s.task.claim)
                        else Idle)
  }

  ghost predicate EnrollNext(s: Sys, e: EnrollStep, s': Sys) {
    match e
    case StageEnroll =>
      && s.task.Claimed? && s.journal.NoOp?
      && var d := DigestOf(s.task.token);
         s' == s.(journal := Enroll(s.nextOp, d, s.task.claim), nextOp := s.nextOp + 1, heartbeat := Off,
                  task := Staged(s.nextOp, d, s.task.claim))
    case Save(stored) =>
      && s.task.Staged?
      && s' == s.(keychain := if stored then Some(s.task.digest.token) else s.keychain,
                  task := Settling(s.task.op, s.task.digest, s.task.claim))
    case Reconcile =>
      && s.task.Idle? && !s.journal.NoOp?
      && s' == s.(task := if s.journal.Enroll? then Settling(s.journal.op, s.journal.digest, s.journal.claim)
                          else Forgetting(s.journal.op, s.journal.held))
    case RepairIndex =>
      && s.task.Settling?
      && s' == s.(task := if Matches(s.keychain, s.task.digest) then Matched(s.task.op, s.task.digest, s.task.claim)
                          else Unmatched(s.task.op, s.task.digest, s.task.claim))
    case AbortUnkept => s.task.Unmatched? && s' == Aborted(s)
    case Hold =>
      && s.task.Matched?
      && s' == s.(task := if Matches(s.keychain, s.task.digest)
          then Holding(s.task.op, s.task.digest, s.task.claim)
          else Idle)
    case Send =>
      && s.task.Holding? && s.task.claim
      && s' ==
          s.(confirms := s.confirms + {s.task.digest.token}, task := Waiting(s.task.op, s.task.digest, s.task.claim))
    case Greet =>
      && (s.task.Confirmed? || (s.task.Holding? && !s.task.claim))
      && s' == if Greets(s.target, s.task.digest.token)
               then s.(task := Accepted(s.task.op, s.task.digest, s.task.claim),
                       accepted := s.accepted + {s.task.digest.token})
               else s.(task := Refused(s.task.op, s.task.digest, s.task.claim))
    case ReadAgain =>
      && s.task.Accepted?
      && s' == if Matches(s.keychain, s.task.digest)
               then s.(task := ReadBack(s.task.op, s.task.digest, s.task.claim),
                       readBack := s.readBack + {s.task.digest.token})
               else s.(task := Unkept(s.task.op, s.task.digest, s.task.claim))
    case RevokeUnkept(sent) =>
      && s.task.Unkept?
      && s' == s.(task := Idle, revokes := if sent then s.revokes + {s.task.digest.token} else s.revokes)
    case Complete =>
      && s.task.ReadBack?
      && s' == if s.journal.Enroll? && s.journal.op == s.task.op && s.journal.digest == s.task.digest
               then s.(row := Some(Row(s.journal.digest, true)), journal := NoOp, task := Idle)
               else s.(task := Idle)
    case ClearRefused(done) =>
      && s.task.Refused?
      && s' == if MayClear(s.keychain, Some(s.task.digest))
               then s.(keychain := None, task := if done then Removed(s.task.op, s.task.digest, s.task.claim) else Idle)
               else s.(task := Idle)
    case AbortRefused => s.task.Removed? && s' == Aborted(s)
    case GiveUp => s' == s.(task := Idle)
    case Crash => s' == s.(task := Idle, heartbeat := Off)
  }

  function Aborted(s: Sys): Sys
    requires s.task.Unmatched? || s.task.Removed?
  {
    if s.journal.Enroll? && s.journal.op == s.task.op
    then s.(journal := NoOp, row := Unhealthy(s.row), task := Idle) else s.(task := Idle)
  }

  ghost predicate ForgetNext(s: Sys, e: ForgetStep, s': Sys) {
    match e
    case StartForget =>
      && s.task.Idle? && s.journal.NoOp?
      && s' == s.(task := ForgetRead(HeldDigest(s.keychain)))
    case StageForget =>
      && s.task.ForgetRead? && s.journal.NoOp?
      && s' == s.(journal := Forget(s.nextOp, s.task.held), nextOp := s.nextOp + 1, heartbeat := Off,
                  task := Forgetting(s.nextOp, s.task.held))
    case ForgetHold =>
      && s.task.Forgetting?
      && s' == s.(task := if !MayClear(s.keychain, s.task.held) then Idle
                          else if s.keychain.Some? && s.row.Some? && Some(s.row.value.digest) == s.task.held
                          then ForgetHeld(s.task.op, s.task.held)
                          else ForgetClearing(s.task.op, s.task.held))
    case ForgetRevoke(sent) =>
      && s.task.ForgetHeld?
      && s' == s.(revokes := if sent && s.keychain.Some? then s.revokes + {s.keychain.value} else s.revokes,
                  task := ForgetClearing(s.task.op, s.task.held))
    case ForgetClear(done) =>
      && s.task.ForgetClearing?
      && s' == if MayClear(s.keychain, s.task.held)
               then s.(keychain := None, task := if done then ForgetCleared(s.task.op, s.task.held) else Idle)
               else s.(task := Idle)
    case ForgetComplete =>
      && s.task.ForgetCleared?
      && s' == if s.journal.Forget? && s.journal.op == s.task.op
               then s.(row := None, journal := NoOp, task := Idle) else s.(task := Idle)
  }

  ghost predicate HeartbeatNext(s: Sys, e: HeartbeatStep, s': Sys) {
    if e.Begin? then
      s.heartbeat.Off? && s.row.Some? && s.journal.NoOp? && s' == s.(heartbeat := Reading(s.row.value.digest))
    else
      && !s.heartbeat.Off?
      && var d := s.heartbeat.digest;
         var failed := s.(heartbeat := Off, row := Graded(s, d, false));
         match e
         case Read => s.heartbeat.Reading? && s' == if Matches(s.keychain, d)
             then s.(heartbeat := Dialing(d))
             else failed
         case Dial => s.heartbeat.Dialing? && s' == if Greets(s.target, d.token)
             then s.(heartbeat := Answered(d))
             else failed
         case Reread => s.heartbeat.Answered? && s' == if Matches(s.keychain, d)
             then s.(heartbeat := Held(d))
             else failed
         case Refresh => s.heartbeat.Held? && s' == s.(heartbeat := Off, row := Graded(s, d, true))
         case Fail => s' == failed
         case _ => false
  }

  // ---------------------------------------------------------------- what every step keeps

  predicate Enrolling(task: Task) {
    || task.Staged? || task.Settling? || task.Unmatched? || task.Matched? || task.Holding? || task.Waiting?
    || task.Confirmed? || task.Accepted? || task.ReadBack? || task.Unkept? || task.Refused? || task.Removed?
  }

  predicate Clearing(task: Task) {
    task.Forgetting? || task.ForgetHeld? || task.ForgetClearing? || task.ForgetCleared?
  }

  /** The task works on the journal's own operation. */
  predicate TiedTask(s: Sys) {
    && (Enrolling(s.task) ==> s.journal == Enroll(s.task.op, s.task.digest, s.task.claim))
    && (Clearing(s.task) ==> s.journal == Forget(s.task.op, s.task.held))
  }

  predicate TiedHeartbeat(s: Sys) {
    !s.heartbeat.Off? ==> s.journal.NoOp? && s.row.Some? && s.row.value.digest == s.heartbeat.digest
  }

  /** A published row's token was accepted by the target and then read back. */
  predicate Published(s: Sys) {
    && (s.task.Confirmed? || s.task.Accepted? || s.task.ReadBack? ==> s.task.digest.token in s.accepted)
    && (s.task.ReadBack? ==> s.task.digest.token in s.readBack)
    && (s.row.Some? ==> s.row.value.digest.token in s.accepted && s.row.value.digest.token in s.readBack)
  }

  predicate LocalInv(s: Sys) {
    TiedTask(s) && TiedHeartbeat(s) && Published(s)
  }

  /** The device's row holds the token for this machine, revoked or not. */
  predicate HasDevice(target: D.Tables, self: MachineId, id: D.DeviceId, token: Token) {
    id in target.devices && target.devices[id].token == token && target.devices[id].binding == D.Machine(self)
  }

  ghost predicate Bound(target: D.Tables, self: MachineId, token: Token) {
    exists id :: HasDevice(target, self, id, token)
  }

  // What holds as long as nobody outside the protocol touched the credential.

  predicate Fresh(s: Sys) {
    && "" !in s.issued && s.accepted <= s.issued && s.confirms <= s.issued && s.revokes <= s.issued
    && s.replaced <= s.issued
    && (s.keychain.Some? ==> s.keychain.value in s.issued)
    && (s.journal.Enroll? ==> s.journal.digest.token in s.issued)
    && (s.task.Claimed? ==> s.task.token in s.issued - s.confirms - s.revokes - s.accepted)
  }

  /** What a pairing without a claim replaced is gone for good, with the claims of its time. */
  ghost predicate ReplacedGone(self: MachineId, s: Sys) {
    forall t :: t in s.replaced ==> !Works(s.target, self, t) && !Pending(s.target, self, t)
  }

  /** No revoke is on its way for a credential that is to work. */
  predicate NotRevoking(s: Sys) {
    && (s.row.Some? && !s.journal.Forget? ==> s.row.value.digest.token !in s.revokes)
    && (s.journal.Enroll? ==> s.journal.digest.token !in s.revokes)
  }

  /** A confirm still on its way can only activate what the journal and the keychain hold. */
  ghost predicate ConfirmsExpected(self: MachineId, s: Sys) {
    forall t :: t in s.confirms && Pending(s.target, self, t) ==>
      s.journal.Enroll? && s.journal.digest.token == t && s.keychain == Some(t)
  }

  /** The task has seen the key of its operation. */
  predicate KeyRead(task: Task) {
    task.Matched? || task.Holding? || task.Waiting? || task.Confirmed? || task.Accepted? || task.ReadBack?
  }

  predicate TaskKeychain(s: Sys) {
    && (KeyRead(s.task) ==> Matches(s.keychain, s.task.digest))
    && (s.task.Unmatched? ==> !Matches(s.keychain, s.task.digest))
    && !s.task.Unkept?
    && (s.task.Removed? || s.task.ForgetCleared? ==> s.keychain.None?)
  }

  /** A refused claim is gone; an accepted token works for as long as its journal entry
      stands and no pairing without a claim replaces it. */
  ghost predicate Answers(self: MachineId, s: Sys) {
    && (s.task.Refused? || s.task.Removed? ==> !Pending(s.target, self, s.task.digest.token))
    && (s.journal.Enroll? && s.journal.digest.token in s.accepted - s.replaced ==>
          Works(s.target, self, s.journal.digest.token))
  }

  /** The target has a device for every token it answered for or paired without a claim,
      only for tokens it gave out, and no claim on them. */
  ghost predicate AcceptedBound(self: MachineId, s: Sys) {
    && (forall t :: t in s.accepted ==> Bound(s.target, self, t))
    && (forall t :: Bound(s.target, self, t) ==> t in s.issued && !Pending(s.target, self, t))
    && (s.journal.Enroll? && !s.journal.claim ==> Bound(s.target, self, s.journal.digest.token))
    && (s.task.Claimed? && !s.task.claim ==> Bound(s.target, self, s.task.token))
  }

  ghost predicate HeartbeatKnows(self: MachineId, s: Sys) {
    && (s.heartbeat.Dialing? || s.heartbeat.Answered? || s.heartbeat.Held? ==> Matches(s.keychain, s.heartbeat.digest))
    && (s.heartbeat.Answered? || s.heartbeat.Held? ==>
          s.heartbeat.digest.token in s.replaced || Works(s.target, self, s.heartbeat.digest.token))
  }

  /** A healthy row, with no operation pending, stands for a stored credential, which works
      unless a pairing without a claim replaced it. */
  ghost predicate HealthyWorks(self: MachineId, s: Sys) {
    s.row.Some? && s.row.value.healthy && s.journal.NoOp? ==>
      && Matches(s.keychain, s.row.value.digest)
      && (s.row.value.digest.token in s.replaced || Works(s.target, self, s.row.value.digest.token))
  }

  /** Every stored key belongs to the published row or to the unfinished enrollment. */
  predicate KeyExplained(s: Sys) {
    s.keychain.Some? ==>
      || (s.journal.Enroll? && s.journal.digest.token == s.keychain.value)
      || (s.row.Some? && s.row.value.digest.token == s.keychain.value)
  }

  ghost predicate Undisturbed(self: MachineId, s: Sys) {
    && Fresh(s) && ReplacedGone(self, s) && NotRevoking(s) && ConfirmsExpected(self, s) && TaskKeychain(s)
    && Answers(self, s) && AcceptedBound(self, s) && HeartbeatKnows(self, s) && HealthyWorks(self, s) && KeyExplained(s)
  }

  ghost predicate Inv(self: MachineId, s: Sys) {
    && D.Inv(s.target) && LocalInv(s) && (!s.disturbed ==> Undisturbed(self, s))
    && (!s.tampered ==> TaskKeychain(s) && KeyExplained(s)) && (s.tampered ==> s.disturbed)
  }

  // ---------------------------------------------------------------- frames of the target's calls

  ghost predicate WorksKept(a: D.Tables, b: D.Tables, self: MachineId) {
    forall t :: Works(a, self, t) ==> Works(b, self, t)
  }

  ghost predicate WorksWithin(a: D.Tables, b: D.Tables, self: MachineId, added: set<Token>) {
    forall t :: Works(b, self, t) ==> Works(a, self, t) || t in added
  }

  /** The same tokens are bound, but for those added. */
  ghost predicate BoundKept(a: D.Tables, b: D.Tables, self: MachineId, added: set<Token>) {
    forall t :: (Bound(a, self, t) ==> Bound(b, self, t)) && (Bound(b, self, t) ==> Bound(a, self, t) || t in added)
  }

  ghost predicate PendingWithin(a: D.Tables, b: D.Tables, self: MachineId, added: set<Token>) {
    forall t :: Pending(b, self, t) ==> Pending(a, self, t) || t in added
  }

  lemma OtherFrame(self: MachineId, a: D.Tables, op: D.Op)
    requires D.Inv(a) && !Touches(a, self, op)
    ensures var b := D.Step(a, op).0;
            && WorksKept(a, b, self) && WorksWithin(a, b, self, {})
            && BoundKept(a, b, self, {}) && PendingWithin(a, b, self, {})
  {
    hide D.Inv, D.Step;
    var b := D.Step(a, op).0;
    forall t | Works(a, self, t) ensures Works(b, self, t) {
      var id :| D.Works(a.devices, id, self, t);
      D.RetiredOnlyByReplacement(a, op, id, self, t);
    }
    forall t | Works(b, self, t) ensures Works(a, self, t) { OtherAddsNoWork(self, a, op, t); }
    forall t ensures Bound(a, self, t) <==> Bound(b, self, t) {
      if Bound(a, self, t) { OtherKeepsBound(self, a, op, t); }
      if Bound(b, self, t) { OtherAddsNoBound(self, a, op, t); }
    }
    forall t | Pending(b, self, t) ensures Pending(a, self, t) { OtherAddsNoClaim(self, a, op, t); }
  }

  lemma OtherKeepsBound(self: MachineId, a: D.Tables, op: D.Op, t: Token)
    requires Bound(a, self, t) && !Touches(a, self, op)
    ensures Bound(D.Step(a, op).0, self, t)
  {
    hide D.ActiveIds, D.TokenUsed, D.ClaimStep, D.ConfirmStep;
    var id :| HasDevice(a, self, id, t);
    var b := D.Step(a, op).0;
    match op {
      case MakeClaim(m, i, u, now) => D.ClaimRetires(a, m, i, u, now);
      case Confirm(u, m, now) => D.ConfirmIs(a, u, m, now);
      case _ =>
    }
    assert HasDevice(b, self, id, t);
  }

  lemma OtherAddsNoBound(self: MachineId, a: D.Tables, op: D.Op, t: Token)
    requires Bound(D.Step(a, op).0, self, t) && !Touches(a, self, op)
    ensures Bound(a, self, t)
  {
    hide D.ActiveIds, D.TokenUsed, D.ClaimStep, D.ConfirmStep;
    var b := D.Step(a, op).0;
    var id :| HasDevice(b, self, id, t);
    match op {
      case MakeClaim(m, i, u, now) => D.ClaimRetires(a, m, i, u, now);
      case Confirm(u, m, now) => D.ConfirmIs(a, u, m, now);
      case _ =>
    }
    assert HasDevice(a, self, id, t);
  }

  lemma OtherAddsNoWork(self: MachineId, a: D.Tables, op: D.Op, t: Token)
    requires Works(D.Step(a, op).0, self, t) && !Touches(a, self, op)
    ensures Works(a, self, t)
  {
    hide D.ActiveIds, D.TokenUsed, D.ClaimStep, D.ConfirmStep;
    var b := D.Step(a, op).0;
    var id :| D.Works(b.devices, id, self, t);
    match op {
      case MakeClaim(m, i, u, now) => D.ClaimRetires(a, m, i, u, now);
      case Confirm(u, m, now) => D.ConfirmIs(a, u, m, now);
      case _ =>
    }
    assert D.Works(a.devices, id, self, t);
  }

  lemma OtherAddsNoClaim(self: MachineId, a: D.Tables, op: D.Op, t: Token)
    requires Pending(D.Step(a, op).0, self, t) && !Touches(a, self, op)
    ensures Pending(a, self, t)
  {
    hide D.ActiveIds, D.TokenUsed, D.ConfirmStep, D.RevokeMachine, D.ActiveOthers;
    var id :| D.Pending(D.Step(a, op).0.claims, t, self, id);
    match op
    case Pair(_, _, _) => assert D.Pending(a.claims, t, self, id);
    case MakeClaim(m, i, u, now) => assert D.Pending(a.claims, t, self, id);
    case Confirm(u, m, now) =>
      D.ConfirmIs(a, u, m, now);
      assert D.Pending(a.claims, t, self, id);
    case Rotate(_, _) =>
    case Revoke(_) =>
  }

  lemma ClaimFrame(self: MachineId, a: D.Tables, id: D.DeviceId, token: Token, now: int)
    ensures var b := D.ClaimStep(a, self, id, token, now).0;
            && WorksKept(a, b, self) && WorksWithin(a, b, self, {})
            && BoundKept(a, b, self, {}) && PendingWithin(a, b, self, {token})
  {
    hide D.ActiveOthers;
    var b := D.ClaimStep(a, self, id, token, now).0;
    assert b.devices == a.devices;
    assert forall i, t :: HasDevice(b, self, i, t) <==> HasDevice(a, self, i, t);
    forall t | Pending(b, self, t) ensures Pending(a, self, t) || t == token {
      var i :| D.Pending(b.claims, t, self, i);
      assert i != id ==> b == a || D.Pending(a.claims, t, self, i);
    }
  }

  /** A granted pairing without a claim leaves its token the only one working, and no claim. */
  lemma PairFrame(self: MachineId, a: D.Tables, id: D.DeviceId, token: Token)
    ensures var (b, answer) := D.PairStep(a, D.Machine(self), id, token);
            && (!answer.Granted? ==> b == a)
            && (answer.Granted? ==> Bound(b, self, token) && BoundKept(a, b, self, {token}))
            && (answer.Granted? ==> forall t :: !Pending(b, self, t) && (Works(b, self, t) <==> t == token))
  {
    var (b, answer) := D.PairStep(a, D.Machine(self), id, token);
    hide D.MayInsert;
    if answer.Granted? {
      forall t { PairBound(self, a, id, token, t); }
      forall t ensures Works(b, self, t) <==> t == token { PairWorks(self, a, id, token, t); }
    }
  }

  lemma PairBound(self: MachineId, a: D.Tables, id: D.DeviceId, token: Token, t: Token)
    requires D.PairStep(a, D.Machine(self), id, token).1.Granted?
    ensures var b := D.PairStep(a, D.Machine(self), id, token).0;
            Bound(b, self, token) && (Bound(b, self, t) <==> Bound(a, self, t) || t == token)
  {
    hide D.ActiveIds, D.TokenUsed;
    var b := D.PairStep(a, D.Machine(self), id, token).0;
    assert HasDevice(b, self, id, token);
    if Bound(a, self, t) {
      var i :| HasDevice(a, self, i, t);
      assert HasDevice(b, self, i, t);
    }
    if Bound(b, self, t) {
      var i :| HasDevice(b, self, i, t);
      assert i != id ==> HasDevice(a, self, i, t);
    }
  }

  lemma PairWorks(self: MachineId, a: D.Tables, id: D.DeviceId, token: Token, t: Token)
    requires D.PairStep(a, D.Machine(self), id, token).1.Granted?
    ensures Works(D.PairStep(a, D.Machine(self), id, token).0, self, t) <==> t == token
  {
    hide D.ActiveIds, D.TokenUsed, D.RevokeMachine;
    var b := D.PairStep(a, D.Machine(self), id, token).0;
    assert D.Works(b.devices, id, self, token);
    forall i | D.Works(b.devices, i, self, t) ensures t == token { D.RevokedHolds(a.devices, self, i, self); }
  }

  lemma ConfirmFrame(self: MachineId, a: D.Tables, token: Token, now: int)
    requires D.Inv(a)
    ensures var (b, answer) := D.ConfirmStep(a, token, self, now);
            && BoundKept(a, b, self, if answer.Granted? then {token} else {}) && PendingWithin(a, b, self, {})
            && (answer.Granted? ==> Bound(a, self, token) || !Pending(b, self, token))
            && (Pending(a, self, token) || WorksKept(a, b, self))
            && WorksWithin(a, b, self, if Pending(a, self, token) then {token} else {})
            && (answer.Granted? ==> Works(b, self, token) && Bound(b, self, token))
            && (answer.Nothing? ==> !Pending(b, self, token))
            && (Works(a, self, token) ==> Works(b, self, token))
  {
    hide D.ConfirmStep, D.ActiveIds, D.TokenUsed, D.RevokeMachine, D.OneActive, D.ClaimsUnique;
    var (b, answer) := D.ConfirmStep(a, token, self, now);
    D.ConfirmIs(a, token, self, now);
    forall t { ConfirmKeepsBound(self, a, token, now, t); }
    forall t | Pending(b, self, t) ensures Pending(a, self, t) {
      var i :| D.Pending(b.claims, t, self, i);
      assert D.Pending(a.claims, t, self, i);
    }
    forall t { ConfirmAddsWork(self, a, token, now, t); }
    if answer.Granted? {
      ConfirmWorks(self, a, token, now);
      ConfirmSpends(self, a, token, now);
    }
    if answer.Nothing? { assert !Pending(b, self, token); }
    if Works(a, self, token) {
      var id :| D.Works(a.devices, id, self, token);
      D.ConfirmRetires(a, token, self, now, id, self, token);
    }
    if !Pending(a, self, token) {
      forall i ensures !D.Pending(D.DropExpired(a.claims, now), token, self, i) {
        assert !D.Pending(a.claims, token, self, i);
      }
      assert b.devices == a.devices;
    }
  }

  lemma ConfirmKeepsBound(self: MachineId, a: D.Tables, token: Token, now: int, t: Token)
    ensures var (b, answer) := D.ConfirmStep(a, token, self, now);
            && (Bound(a, self, t) ==> Bound(b, self, t))
            && (Bound(b, self, t) ==> Bound(a, self, t) || (answer.Granted? && t == token))
  {
    hide D.ConfirmStep, D.ActiveIds, D.TokenUsed, D.DropExpired;
    D.ConfirmIs(a, token, self, now);
    var (b, answer) := D.ConfirmStep(a, token, self, now);
    if Bound(a, self, t) {
      var id :| HasDevice(a, self, id, t);
      assert HasDevice(b, self, id, t);
    }
    if Bound(b, self, t) {
      var id :| HasDevice(b, self, id, t);
      assert answer != D.Granted(id) || t != token ==>
        HasDevice(a, self, id, t);
    }
  }

  lemma ConfirmAddsWork(self: MachineId, a: D.Tables, token: Token, now: int, t: Token)
    ensures var b := D.ConfirmStep(a, token, self, now).0;
            Works(b, self, t) ==> Works(a, self, t) || (t == token && Pending(a, self, token))
  {
    hide D.ConfirmStep, D.ActiveIds, D.TokenUsed, D.RevokeMachine;
    D.ConfirmIs(a, token, self, now);
    var (b, answer) := D.ConfirmStep(a, token, self, now);
    if Works(b, self, t) && b.devices != a.devices {
      var id :| D.Works(b.devices, id, self, t);
      D.RevokedHolds(a.devices, self, id, self);
      assert D.Pending(a.claims, token, self, answer.id);
    }
  }

  lemma ConfirmSpends(self: MachineId, a: D.Tables, token: Token, now: int)
    requires D.Inv(a) && D.ConfirmStep(a, token, self, now).1.Granted?
    ensures Bound(a, self, token) || !Pending(D.ConfirmStep(a, token, self, now).0, self, token)
  {
    hide D.ConfirmStep, D.ActiveIds, D.TokenUsed, D.RevokeMachine, D.OneActive, D.TokensUnique;
    D.ConfirmIs(a, token, self, now);
    var (b, answer) := D.ConfirmStep(a, token, self, now);
    if D.Confirmed(a.devices, token, self, answer.id) {
      assert HasDevice(a, self, answer.id, token);
    } else {
      forall i ensures !D.Pending(b.claims, token, self, i) {
        assert D.Pending(a.claims, token, self, answer.id);
      }
    }
  }

  lemma ConfirmWorks(self: MachineId, a: D.Tables, token: Token, now: int)
    requires D.ConfirmStep(a, token, self, now).1.Granted?
    ensures Works(D.ConfirmStep(a, token, self, now).0, self, token)
    ensures Bound(D.ConfirmStep(a, token, self, now).0, self, token)
  {
    hide D.ConfirmStep, D.ActiveIds, D.TokenUsed, D.DropExpired, D.RevokeMachine;
    D.ConfirmIs(a, token, self, now);
    var (b, answer) := D.ConfirmStep(a, token, self, now);
    assert D.Works(b.devices, answer.id, self, token) && HasDevice(b, self, answer.id, token);
  }

  lemma RevokeFrame(self: MachineId, a: D.Tables, id: D.DeviceId, token: Token)
    requires D.Inv(a) && D.Verifies(a.devices, id, token)
    ensures var b := D.RevokeStep(a, id).0;
            && BoundKept(a, b, self, {}) && PendingWithin(a, b, self, {}) && WorksWithin(a, b, self, {})
            && forall t :: Works(a, self, t) && t != token ==> Works(b, self, t)
  {
    hide D.Inv;
    var b := D.RevokeStep(a, id).0;
    forall t | Works(b, self, t) ensures Works(a, self, t) {
      var i :| D.Works(b.devices, i, self, t);
      assert D.Works(a.devices, i, self, t);
    }
    forall t | Works(a, self, t) && t != token ensures Works(b, self, t) {
      var i :| D.Works(a.devices, i, self, t);
      assert D.Works(b.devices, i, self, t);
    }
    assert forall i, t :: HasDevice(b, self, i, t) <==> HasDevice(a, self, i, t);
    assert b.claims == a.claims;
  }

  /** Tokens being unique, a bound token that greets at all works for this machine. */
  lemma GreetsWorks(self: MachineId, a: D.Tables, token: Token)
    requires D.Inv(a) && Bound(a, self, token) && Greets(a, token)
    ensures Works(a, self, token)
  {
    hide D.OneActive, D.ClaimsUnique, D.ActiveIds;
    var i :| HasDevice(a, self, i, token);
    var j :| D.Verifies(a.devices, j, token);
    assert i == j;
    assert D.Works(a.devices, i, self, token);
  }

  lemma WorksGreets(self: MachineId, a: D.Tables, token: Token)
    requires Works(a, self, token) && token != ""
    ensures Greets(a, token)
  {
    var i :| D.Works(a.devices, i, self, token);
    assert D.Verifies(a.devices, i, token);
  }

  // ---------------------------------------------------------------- every step keeps the invariant

  lemma EnrollTied(s: Sys, e: EnrollStep, s': Sys)
    requires TiedTask(s) && TiedHeartbeat(s) && EnrollNext(s, e, s')
    ensures TiedTask(s') && TiedHeartbeat(s') && s'.target == s.target && s'.disturbed == s.disturbed
    ensures s'.tampered == s.tampered
  {
    hide Greets;
  }

  lemma EnrollPublished(s: Sys, e: EnrollStep, s': Sys)
    requires TiedTask(s) && Published(s) && EnrollNext(s, e, s')
    ensures Published(s')
  {
    hide Greets;
  }

  lemma EnrollLocal(s: Sys, e: EnrollStep, s': Sys)
    requires LocalInv(s) && EnrollNext(s, e, s')
    ensures LocalInv(s') && s'.target == s.target && s'.disturbed == s.disturbed && s'.tampered == s.tampered
  {
    hide EnrollNext, TiedTask, TiedHeartbeat, Published;
    EnrollTied(s, e, s');
    EnrollPublished(s, e, s');
  }

  lemma ForgetLocal(s: Sys, e: ForgetStep, s': Sys)
    requires LocalInv(s) && ForgetNext(s, e, s')
    ensures LocalInv(s') && s'.target == s.target && s'.disturbed == s.disturbed && s'.tampered == s.tampered
  {
  }

  lemma HeartbeatLocal(s: Sys, e: HeartbeatStep, s': Sys)
    requires LocalInv(s) && HeartbeatNext(s, e, s')
    ensures LocalInv(s') && s'.target == s.target && s'.disturbed == s.disturbed && s'.tampered == s.tampered
  {
    hide Greets;
  }

  /** One step of the target, or one of the local groups. */
  lemma LocalKept(self: MachineId, s: Sys, e: Event, s': Sys)
    requires D.Inv(s.target) && LocalInv(s) && Next(self, s, e, s')
    ensures D.Inv(s'.target) && LocalInv(s') && (s.disturbed ==> s'.disturbed)
    ensures (s.tampered ==> s'.tampered) && (s'.tampered && !s.tampered ==> s'.disturbed)
  {
    hide D.Inv, D.ConfirmStep, D.ClaimStep, D.PairStep, D.RevokeStep, D.Verifies, Touches;
    hide EnrollNext, ForgetNext, HeartbeatNext;
    match e {
      case Redeem(id, token, now, _) => D.StepKeepsInv(s.target, D.MakeClaim(self, id, token, now));
      case RedeemPaired(id, token, _) => D.StepKeepsInv(s.target, D.Pair(D.Machine(self), id, token));
      case LatePair(id, token) => D.StepKeepsInv(s.target, D.Pair(D.Machine(self), id, token));
      case Enrollment(step) => EnrollLocal(s, step, s');
      case Forgetful(step) => ForgetLocal(s, step, s');
      case Beat(step) => HeartbeatLocal(s, step, s');
      case DeliverConfirm(token, now, _) => D.StepKeepsInv(s.target, D.Confirm(token, self, now));
      case DeliverRevoke(_, id) => D.StepKeepsInv(s.target, D.Revoke(id));
      case LateClaim(id, token, now) => D.StepKeepsInv(s.target, D.MakeClaim(self, id, token, now));
      case Keychain(_) =>
      case Other(op) => D.StepKeepsInv(s.target, op);
    }
  }

  /** Unless someone else changes it, the keychain holds what the task, the journal and
      the row say, whatever happens at the target. */
  lemma KeychainKept(self: MachineId, s: Sys, e: Event, s': Sys)
    requires LocalInv(s) && TaskKeychain(s) && KeyExplained(s) && Next(self, s, e, s') && !e.Keychain?
    ensures TaskKeychain(s') && KeyExplained(s')
  {
    hide D.ConfirmStep, D.ClaimStep, D.PairStep, D.RevokeStep, D.Step, D.Verifies, Touches, Greets;
    hide EnrollNext, ForgetNext, HeartbeatNext;
    match e
    case Enrollment(step) => EnrollKeychain(s, step, s');
    case Forgetful(step) => ForgetKeychain(s, step, s');
    case Beat(step) => BeatKeychain(s, step, s');
    case _ =>
  }

  lemma EnrollKeychain(s: Sys, e: EnrollStep, s': Sys)
    requires LocalInv(s) && TaskKeychain(s) && KeyExplained(s) && EnrollNext(s, e, s')
    ensures TaskKeychain(s') && KeyExplained(s')
  {
    hide Greets;
  }

  lemma ForgetKeychain(s: Sys, e: ForgetStep, s': Sys)
    requires LocalInv(s) && TaskKeychain(s) && KeyExplained(s) && ForgetNext(s, e, s')
    ensures TaskKeychain(s') && KeyExplained(s')
  {
  }

  lemma BeatKeychain(s: Sys, e: HeartbeatStep, s': Sys)
    requires LocalInv(s) && TaskKeychain(s) && KeyExplained(s) && HeartbeatNext(s, e, s')
    ensures TaskKeychain(s') && KeyExplained(s')
  {
    hide Greets;
  }

  lemma EnrollKept(self: MachineId, s: Sys, e: EnrollStep, s': Sys)
    requires D.Inv(s.target) && LocalInv(s) && Undisturbed(self, s) && EnrollNext(s, e, s')
    ensures Undisturbed(self, s')
  {
    hide D.Inv, LocalInv, EnrollNext;
    EnrollKeys(self, s, e, s');
    EnrollClaims(self, s, e, s');
    EnrollAnswers(self, s, e, s');
    EnrollRows(self, s, e, s');
  }

  lemma EnrollKeys(self: MachineId, s: Sys, e: EnrollStep, s': Sys)
    requires LocalInv(s) && Undisturbed(self, s) && EnrollNext(s, e, s')
    ensures Fresh(s') && NotRevoking(s') && TaskKeychain(s') && KeyExplained(s')
  {
    hide Works, Pending, Bound, Greets, ConfirmsExpected, ReplacedGone, Answers, AcceptedBound, HeartbeatKnows;
    hide HealthyWorks;
  }

  lemma EnrollClaims(self: MachineId, s: Sys, e: EnrollStep, s': Sys)
    requires LocalInv(s) && Undisturbed(self, s) && EnrollNext(s, e, s')
    ensures ConfirmsExpected(self, s') && ReplacedGone(self, s')
  {
    hide Works, Pending, Bound, Greets, HeartbeatKnows, HealthyWorks, KeyExplained, NotRevoking;
  }

  lemma EnrollAnswers(self: MachineId, s: Sys, e: EnrollStep, s': Sys)
    requires D.Inv(s.target) && LocalInv(s) && Undisturbed(self, s) && EnrollNext(s, e, s')
    ensures Answers(self, s') && AcceptedBound(self, s')
  {
    hide D.Inv, Works, Pending, Bound, Greets, ReplacedGone, HeartbeatKnows, HealthyWorks;
    hide KeyExplained, NotRevoking, ConfirmsExpected, TiedHeartbeat, TaskKeychain;
    if e.Greet? && Greets(s.target, s.task.digest.token) { GreetsWorks(self, s.target, s.task.digest.token); }
  }

  lemma EnrollRows(self: MachineId, s: Sys, e: EnrollStep, s': Sys)
    requires LocalInv(s) && Undisturbed(self, s) && EnrollNext(s, e, s')
    ensures HeartbeatKnows(self, s') && HealthyWorks(self, s')
  {
    hide Works, Pending, Bound, Greets, ConfirmsExpected, AcceptedBound, KeyExplained, NotRevoking;
  }

  lemma ForgetKept(self: MachineId, s: Sys, e: ForgetStep, s': Sys)
    requires LocalInv(s) && Undisturbed(self, s) && ForgetNext(s, e, s')
    ensures Undisturbed(self, s')
  {
    hide LocalInv, ForgetNext;
    ForgetKeys(self, s, e, s');
    ForgetAnswers(self, s, e, s');
  }

  lemma ForgetKeys(self: MachineId, s: Sys, e: ForgetStep, s': Sys)
    requires LocalInv(s) && Undisturbed(self, s) && ForgetNext(s, e, s')
    ensures Fresh(s') && NotRevoking(s') && TaskKeychain(s') && KeyExplained(s')
  {
    hide Works, Pending, Bound, ConfirmsExpected, ReplacedGone, Answers, AcceptedBound, HeartbeatKnows, HealthyWorks;
  }

  lemma ForgetAnswers(self: MachineId, s: Sys, e: ForgetStep, s': Sys)
    requires LocalInv(s) && Undisturbed(self, s) && ForgetNext(s, e, s')
    ensures ConfirmsExpected(self, s') && ReplacedGone(self, s') && Answers(self, s') && AcceptedBound(self, s')
    ensures HeartbeatKnows(self, s') && HealthyWorks(self, s')
  {
    hide Works, Pending, Bound, Fresh, NotRevoking, KeyExplained;
  }

  lemma HeartbeatKept(self: MachineId, s: Sys, e: HeartbeatStep, s': Sys)
    requires D.Inv(s.target) && LocalInv(s) && Undisturbed(self, s) && HeartbeatNext(s, e, s')
    ensures Undisturbed(self, s')
  {
    hide D.Inv, Works, Pending, Bound, Greets;
    if e.Dial? && Greets(s.target, s.heartbeat.digest.token) {
      GreetsWorks(self, s.target, s.heartbeat.digest.token);
    }
  }

  lemma RedeemKept(self: MachineId, s: Sys, id: D.DeviceId, token: Token, now: int, replied: bool, s': Sys)
    requires LocalInv(s) && Undisturbed(self, s) && Redeems(self, s, id, token, now, replied, s')
    ensures Undisturbed(self, s')
  {
    hide D.Inv, Works, Pending, Bound, Greets, D.ClaimStep;
    ClaimFrame(self, s.target, id, token, now);
  }

  lemma LateClaimKept(self: MachineId, s: Sys, id: D.DeviceId, token: Token, now: int, s': Sys)
    requires LocalInv(s) && Undisturbed(self, s) && ClaimsLate(self, s, id, token, now, s')
    ensures Undisturbed(self, s')
  {
    hide D.Inv, Works, Pending, Bound, Greets, D.ClaimStep;
    ClaimFrame(self, s.target, id, token, now);
  }

  lemma PairKept(self: MachineId, s: Sys, id: D.DeviceId, token: Token, s': Sys)
    requires LocalInv(s) && Undisturbed(self, s) && PairsLate(self, s, id, token, s')
    ensures Undisturbed(self, s') && (D.PairStep(s.target, D.Machine(self), id, token).1.Granted? ==>
        Bound(s'.target, self, token))
  {
    hide D.Inv, Works, Pending, Bound, Greets, D.PairStep;
    PairFrame(self, s.target, id, token);
  }

  lemma RedeemPairedKept(self: MachineId, s: Sys, id: D.DeviceId, token: Token, replied: bool, s': Sys)
    requires LocalInv(s) && Undisturbed(self, s) && RedeemsPaired(self, s, id, token, replied, s')
    ensures Undisturbed(self, s')
  {
    hide D.Inv, Works, Pending, Bound, Greets, D.PairStep;
    PairKept(self, s, id, token, Paired(self, s, id, token));
  }

  lemma DeliverKept(self: MachineId, s: Sys, token: Token, now: int, replied: bool, s': Sys)
    requires D.Inv(s.target) && LocalInv(s) && Undisturbed(self, s) && Delivers(self, s, token, now, replied, s')
    ensures Undisturbed(self, s')
  {
    hide D.Inv, Works, Pending, Bound, Greets, D.ConfirmStep;
    ConfirmFrame(self, s.target, token, now);
  }

  lemma RevokeKept(self: MachineId, s: Sys, token: Token, id: D.DeviceId, s': Sys)
    requires D.Inv(s.target) && LocalInv(s) && Undisturbed(self, s) && Revokes(s, token, id, s')
    ensures Undisturbed(self, s')
  {
    hide D.Inv, Works, Pending, Bound, Greets, D.RevokeStep, D.Verifies;
    RevokeFrame(self, s.target, id, token);
  }

  lemma OtherKept(self: MachineId, s: Sys, op: D.Op, s': Sys)
    requires D.Inv(s.target) && LocalInv(s) && Undisturbed(self, s) && Others(self, s, op, s')
    requires !Touches(s.target, self, op)
    ensures Undisturbed(self, s')
  {
    hide D.Inv, Works, Pending, Bound, Greets, D.Step, Touches;
    OtherFrame(self, s.target, op);
  }

  lemma UndisturbedKept(self: MachineId, s: Sys, e: Event, s': Sys)
    requires D.Inv(s.target) && LocalInv(s) && Undisturbed(self, s) && Next(self, s, e, s') && !s'.disturbed
    ensures Undisturbed(self, s')
  {
    hide D.Inv, Undisturbed, LocalInv, ClaimsLate, Redeems, RedeemsPaired, Paired;
    hide Delivers, Revokes, EnrollNext, ForgetNext, HeartbeatNext, Touches, D.Step;
    match e {
      case Redeem(id, token, now, replied) => RedeemKept(self, s, id, token, now, replied, s');
      case RedeemPaired(id, token, replied) => RedeemPairedKept(self, s, id, token, replied, s');
      case LatePair(id, token) => PairKept(self, s, id, token, s');
      case Enrollment(step) => EnrollKept(self, s, step, s');
      case Forgetful(step) => ForgetKept(self, s, step, s');
      case Beat(step) => HeartbeatKept(self, s, step, s');
      case DeliverConfirm(token, now, replied) => DeliverKept(self, s, token, now, replied, s');
      case DeliverRevoke(token, id) => RevokeKept(self, s, token, id, s');
      case LateClaim(id, token, now) => LateClaimKept(self, s, id, token, now, s');
      case Keychain(_) =>
      case Other(op) => OtherKept(self, s, op, s');
    }
  }

  lemma NextKeepsInv(self: MachineId, s: Sys, e: Event, s': Sys)
    requires Inv(self, s) && Next(self, s, e, s')
    ensures Inv(self, s')
  {
    hide D.Inv, Undisturbed, LocalInv, TaskKeychain, KeyExplained, Next;
    LocalKept(self, s, e, s');
    if !s'.tampered {
      assert !e.Keychain? by {
        if e.Keychain? { KeychainTampers(self, s, e, s'); }
      }
      KeychainKept(self, s, e, s');
    }
    if !s'.disturbed { UndisturbedKept(self, s, e, s'); }
  }

  lemma KeychainTampers(self: MachineId, s: Sys, e: Event, s': Sys)
    requires Next(self, s, e, s') && e.Keychain?
    ensures s'.tampered
  {
  }

  // ---------------------------------------------------------------- whole runs

  ghost predicate Run(self: MachineId, states: seq<Sys>, events: seq<Event>) {
    && |states| == |events| + 1 && states[0] == Start()
    && forall k :: 0 <= k < |events| ==> Next(self, states[k], events[k], states[k + 1])
  }

  lemma StartInv(self: MachineId)
    ensures Inv(self, Start())
  {
    assert D.ActiveIds(map[]) == {};
  }

  lemma {:induction false} RunKeepsInv(self: MachineId, states: seq<Sys>, events: seq<Event>, n: nat)
    requires Run(self, states, events) && n < |states|
    ensures Inv(self, states[n])
  {
    hide Inv, Next;
    if n == 0 {
      StartInv(self);
    } else {
      RunKeepsInv(self, states, events, n - 1);
      assert Next(self, states[n - 1], events[n - 1], states[n - 1 + 1]);
      NextKeepsInv(self, states[n - 1], events[n - 1], states[n]);
    }
  }

  /** The target answered for the token: it granted a confirm, or greeted it. */
  ghost predicate AcceptedAt(self: MachineId, s: Sys, e: Event, token: Token) {
    || (e.DeliverConfirm? && e.token == token && D.ConfirmStep(s.target, token, self, e.now).1.Granted?)
    || (e == Enrollment(Greet) && (s.task.Confirmed? || s.task.Holding?)
        && s.task.digest.token == token && Greets(s.target, token))
  }

  /** The source read the token back from its keychain after the target's answer. */
  predicate ReadBackAt(s: Sys, e: Event, token: Token) {
    e == Enrollment(ReadAgain) && s.task.Accepted? && s.task.digest == DigestOf(token) && s.keychain == Some(token)
  }

  lemma HistoryStep(self: MachineId, s: Sys, e: Event, s': Sys, token: Token)
    requires Next(self, s, e, s')
    ensures token in s'.accepted ==> token in s.accepted || AcceptedAt(self, s, e, token)
    ensures token in s'.readBack ==> token in s.readBack || ReadBackAt(s, e, token)
  {
    hide Greets, D.ConfirmStep, D.Step, D.ClaimStep, D.PairStep;
    hide D.RevokeStep, D.Verifies, Touches, EnrollNext, ForgetNext, HeartbeatNext;
    match e
    case Enrollment(step) => EnrollHistory(self, s, step, s', token);
    case Forgetful(step) => ForgetHistory(s, step, s');
    case Beat(step) => BeatHistory(s, step, s');
    case _ =>
  }

  lemma EnrollHistory(self: MachineId, s: Sys, e: EnrollStep, s': Sys, token: Token)
    requires EnrollNext(s, e, s')
    ensures token in s'.accepted ==> token in s.accepted || AcceptedAt(self, s, Enrollment(e), token)
    ensures token in s'.readBack ==> token in s.readBack || ReadBackAt(s, Enrollment(e), token)
    ensures s'.issued == s.issued && s'.replaced == s.replaced && s.accepted <= s'.accepted
  {
    hide Greets, D.ConfirmStep;
  }

  lemma ForgetHistory(s: Sys, e: ForgetStep, s': Sys)
    requires ForgetNext(s, e, s')
    ensures s'.accepted == s.accepted && s'.readBack == s.readBack
    ensures s'.issued == s.issued && s'.replaced == s.replaced
  {
  }

  lemma BeatHistory(s: Sys, e: HeartbeatStep, s': Sys)
    requires HeartbeatNext(s, e, s')
    ensures s'.accepted == s.accepted && s'.readBack == s.readBack
    ensures s'.issued == s.issued && s'.replaced == s.replaced
  {
    hide Greets;
  }

  lemma {:induction false} AcceptedEarlier(self: MachineId, states: seq<Sys>, events: seq<Event>, n: nat, token: Token)
    requires Run(self, states, events) && n < |states| && token in states[n].accepted
    ensures exists i :: 0 <= i < n && AcceptedAt(self, states[i], events[i], token)
  {
    hide Next, AcceptedAt, ReadBackAt;
    if n > 0 {
      assert Next(self, states[n - 1], events[n - 1], states[n - 1 + 1]);
      HistoryStep(self, states[n - 1], events[n - 1], states[n], token);
      if token in states[n - 1].accepted { AcceptedEarlier(self, states, events, n - 1, token); }
    }
  }

  lemma {:induction false} ReadBackEarlier(self: MachineId, states: seq<Sys>, events: seq<Event>, n: nat, token: Token)
    requires Run(self, states, events) && n < |states| && token in states[n].readBack
    ensures exists j :: 0 <= j < n && ReadBackAt(states[j], events[j], token)
  {
    hide Next, AcceptedAt, ReadBackAt;
    if n > 0 {
      assert Next(self, states[n - 1], events[n - 1], states[n - 1 + 1]);
      HistoryStep(self, states[n - 1], events[n - 1], states[n], token);
      if token in states[n - 1].readBack { ReadBackEarlier(self, states, events, n - 1, token); }
    }
  }

  /** A published row carries the digest of a token that the target answered for, and
      that the source after that read back from its keychain. */
  lemma PublishedAfterReadBack(self: MachineId, states: seq<Sys>, events: seq<Event>, n: nat)
    requires Run(self, states, events) && n < |states| && states[n].row.Some?
    ensures var token := states[n].row.value.digest.token;
            exists i, j ::
              0 <= i < j < n && AcceptedAt(self, states[i], events[i], token) && ReadBackAt(states[j], events[j], token)
  {
    var token := states[n].row.value.digest.token;
    hide AcceptedAt, Run;
    RunKeepsInv(self, states, events, n);
    ReadBackEarlier(self, states, events, n, token);
    var j :| 0 <= j < n && ReadBackAt(states[j], events[j], token);
    RunKeepsInv(self, states, events, j);
    AcceptedEarlier(self, states, events, j, token);
  }

  /** As long as nobody outside the protocol touches the pair's credential: through lost
      answers, late deliveries, expired claims, restarts and heartbeats, a row shown as
      healthy stands for a credential that is in the keychain, and that works at the target
      exactly when no pairing without a claim has replaced it. */
  lemma HealthyRowWorks(self: MachineId, states: seq<Sys>, events: seq<Event>, n: nat)
    requires Run(self, states, events) && n < |states| && !states[n].disturbed
    requires states[n].journal.NoOp? && states[n].row.Some? && states[n].row.value.healthy
    ensures states[n].keychain == Some(states[n].row.value.digest.token)
    ensures var token := states[n].row.value.digest.token;
            Works(states[n].target, self, token) <==> token !in states[n].replaced
  {
    RunKeepsInv(self, states, events, n);
  }

  /** A pairing without a claim that the target grants. */
  predicate PairedAt(self: MachineId, s: Sys, e: Event) {
    (e.RedeemPaired? || e.LatePair?) && D.PairStep(s.target, D.Machine(self), e.id, e.token).1.Granted?
  }

  lemma ReplacedStep(self: MachineId, s: Sys, e: Event, s': Sys)
    requires Next(self, s, e, s')
    ensures s'.replaced == if PairedAt(self, s, e) then s.issued else s.replaced
    ensures s.issued <= s'.issued
  {
    hide Greets, D.ConfirmStep, D.Step, D.ClaimStep, D.PairStep, D.RevokeStep, D.Verifies, Touches;
    hide EnrollNext, ForgetNext, HeartbeatNext;
    match e
    case Enrollment(step) => EnrollHistory(self, s, step, s', "");
    case Forgetful(step) => ForgetHistory(s, step, s');
    case Beat(step) => BeatHistory(s, step, s');
    case _ =>
  }

  /** The replaced tokens are exactly those given out before some granted pairing without
      a claim. */
  lemma {:induction false} ReplacedByPairing(self: MachineId, states: seq<Sys>, events: seq<Event>, n: nat,
                                             token: Token)
    requires Run(self, states, events) && n < |states|
    ensures token in states[n].replaced <==>
            exists k :: 0 <= k < n && PairedAt(self, states[k], events[k]) && token in states[k].issued
    ensures states[n].replaced <= states[n].issued
  {
    hide Next, PairedAt;
    if n > 0 {
      assert Next(self, states[n - 1], events[n - 1], states[n - 1 + 1]);
      ReplacedStep(self, states[n - 1], events[n - 1], states[n]);
      ReplacedByPairing(self, states, events, n - 1, token);
      if token in states[n].replaced && PairedAt(self, states[n - 1], events[n - 1]) {
        assert token in states[n - 1].issued;
      }
    }
  }

  /** The target answered the source's greeting under the token, in an enrollment or in a
      heartbeat. */
  ghost predicate GreetedAt(s: Sys, e: Event, token: Token) {
    && Greets(s.target, token)
    && ((e == Enrollment(Greet) && Enrolling(s.task) && s.task.digest.token == token)
        || (e == Beat(Dial) && s.heartbeat.Dialing? && s.heartbeat.digest.token == token))
  }

  /** A pairing without a claim voids the promise only until the next greeting: a healthy
      row whose token the target has greeted since the last such pairing works. */
  lemma GreetedSincePairingWorks(self: MachineId, states: seq<Sys>, events: seq<Event>, j: nat, n: nat)
    requires Run(self, states, events) && j < n < |states| && !states[n].disturbed
    requires states[n].journal.NoOp? && states[n].row.Some? && states[n].row.value.healthy
    requires GreetedAt(states[j], events[j], states[n].row.value.digest.token)
    requires forall k :: j < k < n ==> !PairedAt(self, states[k], events[k])
    ensures Works(states[n].target, self, states[n].row.value.digest.token)
  {
    var token := states[n].row.value.digest.token;
    hide Run, PairedAt, GreetedAt;
    UndisturbedFrom(self, states, events, j, n);
    RunKeepsInv(self, states, events, j);
    GreetedNotReplaced(self, states, events, j, token);
    ReplacedFrom(self, states, events, j + 1, n);
    HealthyRowWorks(self, states, events, n);
  }

  lemma {:induction false} UndisturbedFrom(self: MachineId, states: seq<Sys>, events: seq<Event>, j: nat, n: nat)
    requires Run(self, states, events) && j <= n < |states| && !states[n].disturbed
    ensures !states[j].disturbed
  {
    hide Inv, Next, D.Inv;
    if j < n {
      RunKeepsInv(self, states, events, n - 1);
      assert Next(self, states[n - 1], events[n - 1], states[n - 1 + 1]);
      UndisturbedBefore(self, states[n - 1], events[n - 1], states[n]);
      UndisturbedFrom(self, states, events, j, n - 1);
    }
  }

  lemma {:induction false} ReplacedFrom(self: MachineId, states: seq<Sys>, events: seq<Event>, j: nat, n: nat)
    requires Run(self, states, events) && j <= n < |states|
    requires forall k :: j <= k < n ==> !PairedAt(self, states[k], events[k])
    ensures states[n].replaced == states[j].replaced
  {
    hide Next, PairedAt;
    if j < n {
      assert Next(self, states[n - 1], events[n - 1], states[n - 1 + 1]);
      ReplacedStep(self, states[n - 1], events[n - 1], states[n]);
      ReplacedFrom(self, states, events, j, n - 1);
    }
  }

  lemma GreetedNotReplaced(self: MachineId, states: seq<Sys>, events: seq<Event>, j: nat, token: Token)
    requires Run(self, states, events) && j < |events| && !states[j].disturbed
    requires GreetedAt(states[j], events[j], token)
    ensures token !in states[j + 1].replaced
  {
    var s := states[j];
    RunKeepsInv(self, states, events, j);
    assert Next(self, s, events[j], states[j + 1]);
    hide Run, D.Inv, Works, Greets, Bound, Pending, Next;
    ReplacedStep(self, s, events[j], states[j + 1]);
    assert Bound(s.target, self, token) by {
      GreetedBound(self, s, events[j], states[j + 1], token);
    }
    GreetsWorks(self, s.target, token);
  }

  lemma GreetedBound(self: MachineId, s: Sys, e: Event, s': Sys, token: Token)
    requires LocalInv(s) && Undisturbed(self, s) && Next(self, s, e, s') && GreetedAt(s, e, token)
    ensures Bound(s.target, self, token)
  {
    hide Works, Bound, Pending, Greets;
  }

  /** A heartbeat that dials under a replaced token is refused, and the row is no longer
      shown as healthy. */
  lemma ReplacedRowIsFound(self: MachineId, states: seq<Sys>, events: seq<Event>, n: nat)
    requires Run(self, states, events) && n < |events| && !states[n].disturbed && events[n] == Beat(Dial)
    requires states[n].heartbeat.Dialing? && states[n].heartbeat.digest.token in states[n].replaced
    ensures states[n + 1].row == Some(Row(states[n].heartbeat.digest, false)) && states[n + 1].heartbeat.Off?
  {
    var s, token := states[n], states[n].heartbeat.digest.token;
    RunKeepsInv(self, states, events, n);
    assert Next(self, s, events[n], states[n + 1]);
    hide Run, D.Inv, Works, Greets, Bound, Pending;
    if Greets(s.target, token) { GreetsWorks(self, s.target, token); }
  }

  /** Unless someone else changes the keychain, no key the daemon stored is left behind: it
      belongs to the row or to the journal, whatever anyone does at the target. */
  lemma NoStrandedKey(self: MachineId, states: seq<Sys>, events: seq<Event>, n: nat)
    requires Run(self, states, events) && n < |states| && !states[n].tampered && states[n].keychain.Some?
    ensures var s := states[n];
            || (s.journal.Enroll? && s.journal.digest == DigestOf(s.keychain.value))
            || (s.row.Some? && s.row.value.digest == DigestOf(s.keychain.value))
  {
    RunKeepsInv(self, states, events, n);
  }

  /** After a confirm whose answer was lost, asking again at any time is granted and names
      the device that works, unless a pairing without a claim has replaced the token: then
      it is told so, and nothing is left to grant. */
  lemma LostAnswerIsRepeated(self: MachineId, states: seq<Sys>, events: seq<Event>, n: nat, now: int)
    requires Run(self, states, events) && n < |states| && !states[n].disturbed
    requires states[n].journal.Enroll? && states[n].journal.digest.token in states[n].accepted
    ensures var token := states[n].journal.digest.token;
            var answer := D.ConfirmStep(states[n].target, token, self, now).1;
            if token in states[n].replaced then answer.Nothing?
            else answer.Granted? && D.Works(states[n].target.devices, answer.id, self, token)
  {
    RunKeepsInv(self, states, events, n);
    hide D.ConfirmStep, D.Inv, Run;
    var s := states[n];
    var token := s.journal.digest.token;
    D.ConfirmIs(s.target, token, self, now);
    if token in s.replaced {
      NothingToGrant(self, s.target, token, now);
    } else {
      var id :| D.Works(s.target.devices, id, self, token);
      assert D.Confirmed(s.target.devices, token, self, id);
    }
  }

  lemma NothingToGrant(self: MachineId, target: D.Tables, token: Token, now: int)
    requires !Works(target, self, token) && !Pending(target, self, token)
    ensures D.ConfirmStep(target, token, self, now).1.Nothing?
  {
    hide D.ConfirmStep;
    D.ConfirmIs(target, token, self, now);
    forall id ensures !D.Confirmed(target.devices, token, self, id) {
      assert !D.Works(target.devices, id, self, token);
    }
    forall id ensures !D.Pending(D.DropExpired(target.claims, now), token, self, id) {
      assert !D.Pending(target.claims, token, self, id);
    }
  }

  lemma DeviceStays(self: MachineId, s: Sys, e: Event, s': Sys, id: D.DeviceId, token: Token)
    requires D.Inv(s.target) && Next(self, s, e, s') && !s'.disturbed && HasDevice(s.target, self, id, token)
    ensures HasDevice(s'.target, self, id, token)
  {
    hide D.Inv, D.ConfirmStep, D.ClaimStep, D.PairStep, D.RevokeStep, Touches, EnrollNext, ForgetNext, HeartbeatNext;
    match e {
      case Redeem(i, u, now, _) => D.RowStays(s.target, D.MakeClaim(self, i, u, now), id);
      case RedeemPaired(i, u, _) => D.RowStays(s.target, D.Pair(D.Machine(self), i, u), id);
      case LatePair(i, u) => D.RowStays(s.target, D.Pair(D.Machine(self), i, u), id);
      case Enrollment(step) => EnrollTarget(s, step, s');
      case Forgetful(step) => ForgetTarget(s, step, s');
      case Beat(step) => BeatTarget(s, step, s');
      case DeliverConfirm(u, now, _) => D.RowStays(s.target, D.Confirm(u, self, now), id);
      case DeliverRevoke(_, i) => D.RowStays(s.target, D.Revoke(i), id);
      case LateClaim(i, u, now) => D.RowStays(s.target, D.MakeClaim(self, i, u, now), id);
      case Keychain(_) =>
      case Other(op) =>
        D.RowStays(s.target, op, id);
        if op.Rotate? && op.id == id { RotateTouches(s.target, self, op, token); }
    }
  }

  /** Another's rotation of this source's device changes nothing or counts as touching it. */
  lemma RotateTouches(target: D.Tables, self: MachineId, op: D.Op, token: Token)
    requires op.Rotate? && HasDevice(target, self, op.id, token)
    ensures Touches(target, self, op) || D.Step(target, op).0 == target
  {
  }

  /** A repeated confirm yields the device that the first one granted, or nothing once a
      pairing without a claim has replaced it. */
  lemma {:induction false} SameDeviceAgain(self: MachineId, states: seq<Sys>, events: seq<Event>, i: nat, n: nat,
                                           now: int)
    requires Run(self, states, events) && i < n < |states| && !states[n].disturbed && events[i].DeliverConfirm?
    requires events[i].token != "" && D.ConfirmStep(states[i].target, events[i].token, self, events[i].now).1.Granted?
    requires states[n].journal.Enroll? && states[n].journal.digest.token == events[i].token
    ensures D.ConfirmStep(states[n].target, events[i].token, self, now).1 ==
            if events[i].token in states[n].replaced then D.Nothing
            else D.ConfirmStep(states[i].target, events[i].token, self, events[i].now).1
  {
    var token, first := events[i].token, D.ConfirmStep(states[i].target, events[i].token, self, events[i].now).1;
    hide D.ConfirmStep, D.Inv, D.Works;
    assert Next(self, states[i], events[i], states[i + 1]);
    D.ConfirmGrants(states[i].target, token, self, events[i].now);
    assert HasDevice(states[i + 1].target, self, first.id, token) && token in states[i + 1].accepted;
    hide Next;
    DeviceFrom(self, states, events, i + 1, n, first.id, token);
    LostAnswerIsRepeated(self, states, events, n, now);
    RunKeepsInv(self, states, events, n);
    if token !in states[n].replaced {
      OneDevice(self, states[n].target, first.id, D.ConfirmStep(states[n].target, token, self, now).1.id, token);
    }
  }

  lemma OneDevice(self: MachineId, target: D.Tables, a: D.DeviceId, b: D.DeviceId, token: Token)
    requires D.Inv(target) && HasDevice(target, self, a, token) && D.Works(target.devices, b, self, token)
    ensures a == b
  {
    hide D.OneActive, D.ClaimsUnique, D.ActiveIds;
  }

  lemma {:induction false} DeviceFrom(self: MachineId, states: seq<Sys>, events: seq<Event>, i: nat, n: nat,
                                      id: D.DeviceId, token: Token)
    requires Run(self, states, events) && i <= n < |states| && !states[n].disturbed
    requires HasDevice(states[i].target, self, id, token) && token in states[i].accepted
    ensures HasDevice(states[n].target, self, id, token) && token in states[n].accepted
  {
    hide Next, HasDevice, Inv;
    if i < n {
      RunKeepsInv(self, states, events, n - 1);
      assert Next(self, states[n - 1], events[n - 1], states[n - 1 + 1]);
      UndisturbedBefore(self, states[n - 1], events[n - 1], states[n]);
      DeviceFrom(self, states, events, i, n - 1, id, token);
      DeviceStays(self, states[n - 1], events[n - 1], states[n], id, token);
      AcceptedGrows(self, states[n - 1], events[n - 1], states[n]);
    }
  }

  lemma UndisturbedBefore(self: MachineId, s: Sys, e: Event, s': Sys)
    requires Inv(self, s) && Next(self, s, e, s')
    ensures D.Inv(s.target) && (s.disturbed ==> s'.disturbed)
  {
    hide D.Inv, LocalInv, Undisturbed, Next, TaskKeychain, KeyExplained;
    LocalKept(self, s, e, s');
  }

  lemma AcceptedGrows(self: MachineId, s: Sys, e: Event, s': Sys)
    requires Next(self, s, e, s')
    ensures s.accepted <= s'.accepted
  {
    hide Greets, D.ConfirmStep, D.Step, D.ClaimStep, D.PairStep, D.RevokeStep, D.Verifies, Touches;
    hide EnrollNext, ForgetNext, HeartbeatNext;
    match e
    case Enrollment(step) => EnrollHistory(self, s, step, s', "");
    case Forgetful(step) => ForgetHistory(s, step, s');
    case Beat(step) => BeatHistory(s, step, s');
    case _ =>
  }

  /** What can end a working credential: someone's explicit act at the target, a revoke
      this source sent for it, or the call that activates its replacement. */
  ghost predicate Retires(self: MachineId, s: Sys, e: Event, s': Sys, token: Token) {
    || (e.Other? && Touches(s.target, self, e.op))
    || (e.DeliverRevoke? && e.token == token)
    || ((e.RedeemPaired? || e.LatePair?) && Works(s'.target, self, e.token))
    || (e.DeliverConfirm? && e.token != token && Works(s'.target, self, e.token))
  }

  lemma RetiredStep(self: MachineId, s: Sys, e: Event, s': Sys, token: Token)
    requires D.Inv(s.target) && Next(self, s, e, s') && Works(s.target, self, token)
    ensures Works(s'.target, self, token) || Retires(self, s, e, s', token)
  {
    hide D.Inv, D.ConfirmStep, D.ClaimStep, D.PairStep, D.RevokeStep;
    hide D.Step, D.Works, Touches, EnrollNext, ForgetNext, HeartbeatNext;
    var id :| D.Works(s.target.devices, id, self, token);
    match e {
      case Redeem(i, u, now, _) => ClaimFrame(self, s.target, i, u, now);
      case RedeemPaired(i, u, _) => D.PairRetires(s.target, D.Machine(self), i, u, id, self, token);
      case LatePair(i, u) => D.PairRetires(s.target, D.Machine(self), i, u, id, self, token);
      case Enrollment(step) => EnrollTarget(s, step, s');
      case Forgetful(step) => ForgetTarget(s, step, s');
      case Beat(step) => BeatTarget(s, step, s');
      case DeliverConfirm(u, now, _) =>
        D.ConfirmRetires(s.target, u, self, now, id, self, token);
        var (b, answer) := D.ConfirmStep(s.target, u, self, now);
        assert D.Works(b.devices, id, self, token) || (answer.Granted? && D.Works(b.devices, answer.id, self, u));
      case DeliverRevoke(u, i) => RevokeFrame(self, s.target, i, u);
      case LateClaim(i, u, now) => ClaimFrame(self, s.target, i, u, now);
      case Keychain(_) =>
      case Other(op) =>
        if !Touches(s.target, self, op) { OtherFrame(self, s.target, op); }
    }
  }

  lemma EnrollTarget(s: Sys, e: EnrollStep, s': Sys)
    requires EnrollNext(s, e, s')
    ensures s'.target == s.target
  {
    hide Greets;
  }

  lemma ForgetTarget(s: Sys, e: ForgetStep, s': Sys)
    requires ForgetNext(s, e, s')
    ensures s'.target == s.target
  {
  }

  lemma BeatTarget(s: Sys, e: HeartbeatStep, s': Sys)
    requires HeartbeatNext(s, e, s')
    ensures s'.target == s.target
  {
    hide Greets;
  }

  lemma {:induction false} WorksUntilRetired(self: MachineId, states: seq<Sys>, events: seq<Event>, from: nat,
                                             n: nat, token: Token)
    requires Run(self, states, events) && from <= n < |states|
    requires Works(states[from].target, self, token) && !Works(states[n].target, self, token)
    ensures exists k :: from <= k < n && Retires(self, states[k], events[k], states[k + 1], token)
  {
    hide Next, Works, Retires;
    assert from != n;
    assert Next(self, states[n - 1], events[n - 1], states[n - 1 + 1]);
    if Works(states[n - 1].target, self, token) {
      assert D.Inv(states[n - 1].target) by { RunKeepsInv(self, states, events, n - 1); }
      RetiredStep(self, states[n - 1], events[n - 1], states[n], token);
      assert Retires(self, states[n - 1], events[n - 1], states[n - 1 + 1], token);
    } else {
      WorksUntilRetired(self, states, events, from, n - 1, token);
    }
  }

  /** The target never holds two unrevoked credentials for one source. */
  lemma OneCredential(self: MachineId, states: seq<Sys>, events: seq<Event>, n: nat, a: Token, b: Token)
    requires Run(self, states, events) && n < |states|
    requires Works(states[n].target, self, a) && Works(states[n].target, self, b)
    ensures a == b
  {
    RunKeepsInv(self, states, events, n);
    hide Run, D.ActiveIds, Undisturbed, LocalInv;
    var i :| D.Works(states[n].target.devices, i, self, a);
    var j :| D.Works(states[n].target.devices, j, self, b);
    assert D.Holds(states[n].target.devices, i, self) && D.Holds(states[n].target.devices, j, self);
  }

  // ---------------------------------------------------------------- claims expire

  /** The call that reaches the target at this event, if any. */
  function CallAt(self: MachineId, e: Event): Option<D.Op> {
    match e
    case Redeem(id, token, now, _) => Some(D.MakeClaim(self, id, token, now))
    case RedeemPaired(id, token, _) => Some(D.Pair(D.Machine(self), id, token))
    case DeliverConfirm(token, now, _) => Some(D.Confirm(token, self, now))
    case DeliverRevoke(_, id) => Some(D.Revoke(id))
    case LateClaim(id, token, now) => Some(D.MakeClaim(self, id, token, now))
    case LatePair(id, token) => Some(D.Pair(D.Machine(self), id, token))
    case Other(op) => Some(op)
    case _ => None
  }

  lemma TargetStep(self: MachineId, s: Sys, e: Event, s': Sys)
    requires Next(self, s, e, s')
    ensures var op := CallAt(self, e);
            s'.target == if op.None? then s.target else D.Step(s.target, op.value).0
  {
    hide D.ConfirmStep, D.ClaimStep, D.PairStep, D.RevokeStep, D.Verifies, Touches;
    hide EnrollNext, ForgetNext, HeartbeatNext;
    match e
    case Enrollment(step) => EnrollTarget(s, step, s');
    case Forgetful(step) => ForgetTarget(s, step, s');
    case Beat(step) => BeatTarget(s, step, s');
    case _ =>
  }

  /** A claim of the token for this source reaches the target, and will expire then. */
  predicate ClaimedAt(self: MachineId, e: Event, token: Token, expires: int) {
    var op := CallAt(self, e);
    op.Some? && op.value.MakeClaim? && op.value.machine == self && op.value.token == token
    && op.value.now + 300_000 == expires
  }

  lemma {:induction false} ClaimReached(self: MachineId, states: seq<Sys>, events: seq<Event>, n: nat, id: D.DeviceId)
    requires Run(self, states, events) && n < |states|
    requires id in states[n].target.claims && states[n].target.claims[id].machine == self
    ensures var claim := states[n].target.claims[id];
            exists k :: 0 <= k < n && ClaimedAt(self, events[k], claim.token, claim.expires)
  {
    hide Next, D.Step, CallAt;
    assert n != 0;
    var (s, e) := (states[n - 1], events[n - 1]);
    assert Next(self, s, e, states[n - 1 + 1]);
    TargetStep(self, s, e, states[n]);
    var op := CallAt(self, e);
    if op.Some? { D.ClaimFrom(s.target, op.value, id); }
    if id in s.target.claims && s.target.claims[id] == states[n].target.claims[id] {
      ClaimReached(self, states, events, n - 1, id);
    }
  }

  /** In every run, a delivered confirm makes a token work only less than five minutes
      after a claim of it. */
  lemma GrantedInTime(self: MachineId, states: seq<Sys>, events: seq<Event>, n: nat)
    requires Run(self, states, events) && n < |events| && events[n].DeliverConfirm?
    requires D.ConfirmStep(states[n].target, events[n].token, self, events[n].now).1.Granted?
    requires !Works(states[n].target, self, events[n].token)
    ensures exists k, expires: int ::
              0 <= k < n && ClaimedAt(self, events[k], events[n].token, expires) && events[n].now < expires
  {
    var (target, token, now) := (states[n].target, events[n].token, events[n].now);
    hide Run, D.ConfirmStep, D.Inv, Inv;
    assert D.Inv(target) by { RunTarget(self, states, events, n); }
    D.ConfirmExactly(target, token, self, now);
    forall id ensures !D.WorksAs(target.devices, token, self, id) {
      assert !D.Works(target.devices, id, self, token);
    }
    var id :| D.InTime(target.claims, token, self, now, id);
    ClaimReached(self, states, events, n, id);
  }

  lemma RunTarget(self: MachineId, states: seq<Sys>, events: seq<Event>, n: nat)
    requires Run(self, states, events) && n < |states|
    ensures D.Inv(states[n].target)
  {
    hide Run, D.Inv;
    RunKeepsInv(self, states, events, n);
  }

  // ---------------------------------------------------------------- it can succeed

  ghost predicate Path(self: MachineId, states: seq<Sys>, events: seq<Event>) {
    |states| == |events| + 1 && forall k :: 0 <= k < |events| ==> Next(self, states[k], events[k], states[k + 1])
  }

  lemma PathStep(self: MachineId, states: seq<Sys>, events: seq<Event>, e: Event, s': Sys)
    requires Path(self, states, events) && Next(self, states[|events|], e, s')
    ensures Path(self, states + [s'], events + [e])
  {
    hide Next;
    var all, done := states + [s'], events + [e];
    forall k | 0 <= k < |done| ensures Next(self, all[k], done[k], all[k + 1]) {
      if k < |events| { assert Next(self, states[k], events[k], states[k + 1]); }
    }
  }

  lemma PathStart(self: MachineId, s: Sys)
    ensures Path(self, [s], [])
  {
  }

  /** From a redeemed code to the key read from the keychain, when nothing is lost. */
  lemma EnrollHeld(self: MachineId, before: seq<Sys>, done: seq<Event>, token: Token)
    returns (states: seq<Sys>, events: seq<Event>)
    requires Path(self, before, done) && |before| == |done| + 1
    requires before[|done|].task.Claimed? && before[|done|].task.token == token && before[|done|].journal.NoOp?
    ensures Path(self, states, events) && |states| == |events| + 1 && states[0] == before[0]
    ensures var s := before[|done|];
            var (d, op, claim) := (DigestOf(token), s.nextOp, s.task.claim);
            states[|events|] == s.(journal := Enroll(op, d, claim), nextOp := op + 1, heartbeat := Off,
                                   keychain := Some(token), task := Holding(op, d, claim))
  {
    hide Path;
    states, events := before, done;
    var s := states[|events|];
    var d, op, claim := DigestOf(token), s.nextOp, s.task.claim;
    var s1 := s.(journal := Enroll(op, d, claim), nextOp := op + 1, heartbeat := Off, task := Staged(op, d, claim));
    PathStep(self, states, events, Enrollment(StageEnroll), s1);
    states, events := states + [s1], events + [Enrollment(StageEnroll)];
    var s2 := s1.(keychain := Some(token), task := Settling(op, d, claim));
    PathStep(self, states, events, Enrollment(Save(true)), s2);
    states, events := states + [s2], events + [Enrollment(Save(true))];
    var s3 := s2.(task := Matched(op, d, claim));
    PathStep(self, states, events, Enrollment(RepairIndex), s3);
    states, events := states + [s3], events + [Enrollment(RepairIndex)];
    var s4 := s3.(task := Holding(op, d, claim));
    PathStep(self, states, events, Enrollment(Hold), s4);
    states, events := states + [s4], events + [Enrollment(Hold)];
  }

  /** From an open connection to the published row. */
  lemma GreetedCompletes(self: MachineId, before: seq<Sys>, done: seq<Event>)
    returns (states: seq<Sys>, events: seq<Event>)
    requires Path(self, before, done) && |before| == |done| + 1
    requires var s := before[|done|];
             && (s.task.Confirmed? || (s.task.Holding? && !s.task.claim)) && TiedTask(s)
             && Matches(s.keychain, s.task.digest) && Greets(s.target, s.task.digest.token)
    ensures Path(self, states, events) && |states| == |events| + 1 && states[0] == before[0]
    ensures var s, t := before[|done|], states[|events|];
            && t.row == Some(Row(s.task.digest, true)) && t.journal.NoOp? && t.task.Idle?
            && t.keychain == s.keychain && t.target == s.target && t.disturbed == s.disturbed
            && t.replaced == s.replaced
  {
    hide Path, Greets;
    states, events := before, done;
    var s := states[|events|];
    var d, op, claim := s.task.digest, s.task.op, s.task.claim;
    var s1 := s.(task := Accepted(op, d, claim), accepted := s.accepted + {d.token});
    PathStep(self, states, events, Enrollment(Greet), s1);
    states, events := states + [s1], events + [Enrollment(Greet)];
    var s2 := s1.(task := ReadBack(op, d, claim), readBack := s1.readBack + {d.token});
    PathStep(self, states, events, Enrollment(ReadAgain), s2);
    states, events := states + [s2], events + [Enrollment(ReadAgain)];
    var s3 := s2.(row := Some(Row(d, true)), journal := NoOp, task := Idle);
    PathStep(self, states, events, Enrollment(Complete), s3);
    states, events := states + [s3], events + [Enrollment(Complete)];
  }

  /** When the target grants the claim and then the confirm and nothing is lost, the
      pairing ends with a published, healthy row for a stored credential that works. */
  lemma PairingCompletes(self: MachineId, s: Sys, id: D.DeviceId, token: Token, now: int, later: int)
    returns (states: seq<Sys>, events: seq<Event>)
    requires s.task.Idle? && s.journal.NoOp? && token !in s.issued && token != ""
    requires var (claimed, answer) := D.ClaimStep(s.target, self, id, token, now);
             answer.Granted? && D.ConfirmStep(claimed, token, self, later).1.Granted?
    ensures Path(self, states, events) && states[0] == s
    ensures var t := states[|events|];
            && t.row == Some(Row(DigestOf(token), true)) && t.journal.NoOp? && t.task.Idle?
            && t.keychain == Some(token) && Works(t.target, self, token) && t.disturbed == s.disturbed
  {
    hide D.ClaimStep, D.ConfirmStep, Path;
    var d, op := DigestOf(token), s.nextOp;
    PathStart(self, s);
    var s1 := s.(target := D.ClaimStep(s.target, self, id, token, now).0, issued := s.issued + {token},
                 task := Claimed(token, true));
    PathStep(self, [s], [], Redeem(id, token, now, true), s1);
    states, events := EnrollHeld(self, [s] + [s1], [] + [Redeem(id, token, now, true)], token);
    var s2 := states[|events|];
    var s3 := s2.(confirms := s2.confirms + {token}, task := Waiting(op, d, true));
    PathStep(self, states, events, Enrollment(Send), s3);
    states, events := states + [s3], events + [Enrollment(Send)];
    ConfirmWorks(self, s3.target, token, later);
    var s4 := s3.(target := D.ConfirmStep(s3.target, token, self, later).0, accepted := s3.accepted + {token},
                  task := Confirmed(op, d, true));
    WorksGreets(self, s4.target, token);
    hide Works, Greets;
    PathStep(self, states, events, DeliverConfirm(token, later, true), s4);
    states, events := GreetedCompletes(self, states + [s4], events + [DeliverConfirm(token, later, true)]);
  }

  /** The same for a target that pairs without a claim: the row ends up current again. */
  lemma DirectPairingCompletes(self: MachineId, s: Sys, id: D.DeviceId, token: Token)
    returns (states: seq<Sys>, events: seq<Event>)
    requires s.task.Idle? && s.journal.NoOp? && token !in s.issued && token != ""
    requires D.PairStep(s.target, D.Machine(self), id, token).1.Granted?
    ensures Path(self, states, events) && states[0] == s
    ensures var t := states[|events|];
            && t.row == Some(Row(DigestOf(token), true)) && t.journal.NoOp? && t.task.Idle? && t.keychain == Some(token)
            && Works(t.target, self, token) && token !in t.replaced && t.disturbed == s.disturbed
  {
    hide D.PairStep, Path;
    PathStart(self, s);
    var s1 := Paired(self, s, id, token).(task := Claimed(token, false));
    PairFrame(self, s.target, id, token);
    WorksGreets(self, s1.target, token);
    hide Works, Greets;
    PathStep(self, [s], [], RedeemPaired(id, token, true), s1);
    states, events := EnrollHeld(self, [s] + [s1], [] + [RedeemPaired(id, token, true)], token);
    states, events := GreetedCompletes(self, states, events);
  }

  /** Why `HealthyRowWorks` excepts replaced tokens: from any state with a healthy row and
      no operation pending, a granted pairing without a claim retires the row's credential
      before the source has staged anything, whether or not its answer arrives. */
  lemma DirectPairingOutdatesRow(self: MachineId, s: Sys, id: D.DeviceId, token: Token, replied: bool, s': Sys)
    requires s.row.Some? && s.row.value.healthy && s.journal.NoOp? && token != s.row.value.digest.token
    requires RedeemsPaired(self, s, id, token, replied, s') && PairedAt(self, s, RedeemPaired(id, token, replied))
    ensures s'.row == s.row && s'.journal.NoOp? && !Works(s'.target, self, s.row.value.digest.token)
  {
    hide D.PairStep, Works;
    PairFrame(self, s.target, id, token);
  }
}
