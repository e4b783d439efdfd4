/** The target daemon's registry of paired devices and pending claims.

    Each operation is one SQLite transaction, so it is a function from the tables to
    the tables and an answer; a failure leaves the tables as they were.  Token hashes
    are taken as the tokens (SHA-256 as injective). */
module DeviceRegistry {

  import opened Wrappers

  type DeviceId = string
  type Token = string
  type MachineId = string

  const MAXIMUM_DEVICES := 128
  const CLAIM_TTL := 300_000

  /** Legacy rows whose authority cannot be told have no usable binding. */
  datatype Binding = Client(kind: string) | Machine(id: MachineId) | Unbound

  datatype Device = Device(token: Token, binding: Binding, revoked: bool)

  datatype Claim = Claim(token: Token, machine: MachineId, expires: int)

  datatype Tables = Tables(devices: map<DeviceId, Device>, claims: map<DeviceId, Claim>)

  // ---------------------------------------------------------------- queries

  /** An unrevoked credential of one source machine. */
  predicate Holds(devices: map<DeviceId, Device>, id: DeviceId, m: MachineId) {
    id in devices && !devices[id].revoked && devices[id].binding == Machine(m)
  }

  function ActiveIds(devices: map<DeviceId, Device>): set<DeviceId> {
    set id | id in devices && !devices[id].revoked
  }

  predicate TokenUsed(devices: map<DeviceId, Device>, token: Token) {
    exists id :: id in devices && devices[id].token == token
  }

  /** Whether a token authenticates as a device. */
  predicate Verifies(devices: map<DeviceId, Device>, id: DeviceId, token: Token) {
    && token != "" && id in devices && !devices[id].revoked
    && devices[id].token == token && devices[id].binding != Unbound
  }

  // ---------------------------------------------------------------- parts of transactions

  /** Revokes what a source machine holds. */
  function RevokeMachine(devices: map<DeviceId, Device>, m: MachineId): map<DeviceId, Device> {
    map id | id in devices ::
      if devices[id].binding == Machine(m) then devices[id].(revoked := true) else devices[id]
  }

  function DropMachineClaims(claims: map<DeviceId, Claim>, m: MachineId): map<DeviceId, Claim> {
    map id | id in claims && claims[id].machine != m :: claims[id]
  }

  function DropExpired(claims: map<DeviceId, Claim>, now: int): map<DeviceId, Claim> {
    map id | id in claims && claims[id].expires > now :: claims[id]
  }

  /** The table's insert: at most the limit active, and an unused id and token. */
  predicate MayInsert(devices: map<DeviceId, Device>, id: DeviceId, token: Token) {
    |ActiveIds(devices)| < MAXIMUM_DEVICES && id !in devices && !TokenUsed(devices, token)
  }

  // ---------------------------------------------------------------- operations

  datatype Op =
    | Pair(binding: Binding, id: DeviceId, token: Token)
    | MakeClaim(machine: MachineId, id: DeviceId, token: Token, now: int)
    | Confirm(token: Token, machine: MachineId, now: int)
    | Rotate(id: DeviceId, token: Token)
    | Revoke(id: DeviceId)

  /** What a call answers: a device, nothing, or an error. */
  datatype Answer = Granted(id: DeviceId) | Nothing | Refused

  function PairedDevices(devices: map<DeviceId, Device>, binding: Binding): map<DeviceId, Device> {
    if binding.Machine? then RevokeMachine(devices, binding.id) else devices
  }

  /** A new code replaces the machine's old authority; revoke and insert are one. */
  function PairStep(t: Tables, binding: Binding, id: DeviceId, token: Token): (Tables, Answer) {
    var devices := PairedDevices(t.devices, binding);
    if binding.Unbound? || !MayInsert(devices, id, token) then (t, Refused)
    else
      var claims := if binding.Machine? then DropMachineClaims(t.claims, binding.id) else t.claims;
      (Tables(devices[id := Device(token, binding, false)], claims), Granted(id))
  }

  predicate ClaimTokenUsed(claims: map<DeviceId, Claim>, token: Token) {
    exists i :: i in claims && claims[i].token == token
  }

  function ActiveOthers(devices: map<DeviceId, Device>, m: MachineId): set<DeviceId> {
    set i | i in devices && !devices[i].revoked && devices[i].binding != Machine(m)
  }

  function ClaimStep(t: Tables, m: MachineId, id: DeviceId, token: Token, now: int): (Tables, Answer) {
    var claims := DropMachineClaims(DropExpired(t.claims, now), m);
    if |claims| >= MAXIMUM_DEVICES || |ActiveOthers(t.devices, m)| >= MAXIMUM_DEVICES then (t, Refused)
    else if id in claims || ClaimTokenUsed(claims, token) then (t, Refused)
    else (Tables(t.devices, claims[id := Claim(token, m, now + CLAIM_TTL)]), Granted(id))
  }

  /** The device a token already stands for, when it is this machine's. */
  predicate Confirmed(devices: map<DeviceId, Device>, token: Token, m: MachineId, id: DeviceId) {
    Verifies(devices, id, token) && devices[id].binding == Machine(m)
  }

  /** The pending claim a token and machine name. */
  predicate Pending(claims: map<DeviceId, Claim>, token: Token, m: MachineId, id: DeviceId) {
    id in claims && claims[id].token == token && claims[id].machine == m
  }

  /** What activating a claim does: what the machine held is retired in the same
      transaction that inserts the new device. */
  function Activate(t: Tables, claims: map<DeviceId, Claim>, token: Token, m: MachineId, id: DeviceId)
    : (Tables, Answer)
  {
    var devices := RevokeMachine(t.devices, m);
    if !MayInsert(devices, id, token) then (t, Refused)
    else (Tables(devices[id := Device(token, Machine(m), false)], claims - {id}), Granted(id))
  }

  ghost predicate AnyConfirmed(devices: map<DeviceId, Device>, token: Token, m: MachineId) {
    exists id :: Confirmed(devices, token, m, id)
  }

  ghost predicate AnyPending(claims: map<DeviceId, Claim>, token: Token, m: MachineId) {
    exists id :: Pending(claims, token, m, id)
  }

  /** A token that is active for the machine answers its device; a pending one is
      activated; any other answers nothing.  Claims past their time go first. */
  ghost function ConfirmStep(t: Tables, token: Token, m: MachineId, now: int): (Tables, Answer) {
    var claims := DropExpired(t.claims, now);
    if AnyConfirmed(t.devices, token, m) then
      var id :| Confirmed(t.devices, token, m, id);
      (Tables(t.devices, claims), Granted(id))
    else if AnyPending(claims, token, m) then
      var id :| Pending(claims, token, m, id);
      Activate(t, claims, token, m, id)
    else (Tables(t.devices, claims), Nothing)
  }

  function RotateStep(t: Tables, id: DeviceId, token: Token): (Tables, Answer) {
    if id !in t.devices || t.devices[id].revoked || TokenUsed(t.devices, token) then (t, Refused)
    else (t.(devices := t.devices[id := t.devices[id].(token := token)]), Granted(id))
  }

  function RevokeStep(t: Tables, id: DeviceId): (Tables, Answer) {
    if id !in t.devices then (t, Refused)
    else (t.(devices := t.devices[id := t.devices[id].(revoked := true)]), Granted(id))
  }

  ghost function Step(t: Tables, op: Op): (Tables, Answer) {
    match op
    case Pair(binding, id, token) => PairStep(t, binding, id, token)
    case MakeClaim(m, id, token, now) => ClaimStep(t, m, id, token, now)
    case Confirm(token, m, now) => ConfirmStep(t, token, m, now)
    case Rotate(id, token) => RotateStep(t, id, token)
    case Revoke(id) => RevokeStep(t, id)
  }

  // ---------------------------------------------------------------- what every operation keeps

  ghost predicate OneActive(devices: map<DeviceId, Device>) {
    forall i, j, m :: Holds(devices, i, m) && Holds(devices, j, m) ==> i == j
  }

  ghost predicate TokensUnique(devices: map<DeviceId, Device>) {
    forall i, j :: i in devices && j in devices && devices[i].token == devices[j].token ==> i == j
  }

  ghost predicate ClaimsUnique(claims: map<DeviceId, Claim>) {
    forall i, j :: i in claims && j in claims ==>
      (claims[i].token == claims[j].token || claims[i].machine == claims[j].machine ==> i == j)
  }

  ghost predicate Inv(t: Tables) {
    && OneActive(t.devices) && TokensUnique(t.devices) && ClaimsUnique(t.claims)
    && |ActiveIds(t.devices)| <= MAXIMUM_DEVICES && |t.claims| <= MAXIMUM_DEVICES
  }

  lemma RevokedHolds(devices: map<DeviceId, Device>, m: MachineId, i: DeviceId, n: MachineId)
    ensures Holds(RevokeMachine(devices, m), i, n) <==> n != m && Holds(devices, i, n)
  {
  }

  lemma RevokeMachineKeeps(devices: map<DeviceId, Device>, m: MachineId)
    requires OneActive(devices) && TokensUnique(devices)
    ensures OneActive(RevokeMachine(devices, m)) && TokensUnique(RevokeMachine(devices, m))
    ensures forall i :: !Holds(RevokeMachine(devices, m), i, m)
  {
    var after := RevokeMachine(devices, m);
    forall i, j, n | Holds(after, i, n) && Holds(after, j, n) ensures i == j {
      RevokedHolds(devices, m, i, n);
      RevokedHolds(devices, m, j, n);
    }
    forall i ensures !Holds(after, i, m) { RevokedHolds(devices, m, i, m); }
  }

  lemma InsertKeeps(devices: map<DeviceId, Device>, id: DeviceId, d: Device)
    requires OneActive(devices) && TokensUnique(devices) && MayInsert(devices, id, d.token) && !d.revoked
    requires d.binding.Machine? ==> forall i :: !Holds(devices, i, d.binding.id)
    ensures OneActive(devices[id := d]) && TokensUnique(devices[id := d])
    ensures |ActiveIds(devices[id := d])| <= MAXIMUM_DEVICES
  {
    var after := devices[id := d];
    assert ActiveIds(after) == ActiveIds(devices) + {id};
    forall i, j, n | Holds(after, i, n) && Holds(after, j, n) ensures i == j {
      assert i != id ==> Holds(devices, i, n);
      assert j != id ==> Holds(devices, j, n);
    }
    hide OneActive, ActiveIds, Holds;
    forall i, j | i in after && j in after && after[i].token == after[j].token ensures i == j {
      assert i != id ==> i in devices && devices[i] == after[i];
      assert j != id ==> j in devices && devices[j] == after[j];
    }
  }

  lemma ClaimsShrink(claims: map<DeviceId, Claim>, fewer: map<DeviceId, Claim>)
    requires ClaimsUnique(claims) && |claims| <= MAXIMUM_DEVICES
    requires fewer.Keys <= claims.Keys && forall i :: i in fewer ==> fewer[i] == claims[i]
    ensures ClaimsUnique(fewer) && |fewer| <= MAXIMUM_DEVICES
  {
    SubsetSize(fewer.Keys, claims.Keys);
    assert |fewer.Keys| == |fewer| && |claims.Keys| == |claims|;
  }

  /** Never two unrevoked credentials for one source machine, never two rows with one
      token, one pending claim a machine, and both tables within their limits. */
  lemma StepKeepsInv(t: Tables, op: Op)
    requires Inv(t)
    ensures Inv(Step(t, op).0)
  {
    hide Inv, PairStep, ClaimStep, ConfirmStep, RotateStep, RevokeStep;
    match op
    case Pair(binding, id, token) => PairKeepsInv(t, binding, id, token);
    case MakeClaim(m, id, token, now) => ClaimKeepsInv(t, m, id, token, now);
    case Confirm(token, m, now) => ConfirmKeepsInv(t, token, m, now);
    case Rotate(id, token) => RotateKeepsInv(t, id, token);
    case Revoke(id) => RevokeKeepsInv(t, id);
  }

  lemma PairKeepsInv(t: Tables, binding: Binding, id: DeviceId, token: Token)
    requires Inv(t)
    ensures Inv(PairStep(t, binding, id, token).0)
  {
    hide OneActive, TokensUnique, ClaimsUnique, ActiveIds, RevokeMachine, MayInsert;
    var (t', answer) := PairStep(t, binding, id, token);
    if answer.Granted? {
      if binding.Machine? { RevokeMachineKeeps(t.devices, binding.id); }
      InsertKeeps(PairedDevices(t.devices, binding), id, Device(token, binding, false));
      ClaimsShrink(t.claims, t'.claims);
    }
  }

  lemma ClaimKeepsInv(t: Tables, m: MachineId, id: DeviceId, token: Token, now: int)
    requires Inv(t)
    ensures Inv(ClaimStep(t, m, id, token, now).0)
  {
    hide OneActive, TokensUnique, ActiveIds, ActiveOthers;
    var (t', answer) := ClaimStep(t, m, id, token, now);
    if answer.Granted? {
      var claims := DropMachineClaims(DropExpired(t.claims, now), m);
      assert ClaimsUnique(claims);
      assert t'.claims == claims[id := Claim(token, m, now + CLAIM_TTL)];
      forall i, j | i in t'.claims && j in t'.claims
        && (t'.claims[i].token == t'.claims[j].token || t'.claims[i].machine == t'.claims[j].machine)
        ensures i == j
      {
        assert i != id ==> i in claims && t'.claims[i] == claims[i];
        assert j != id ==> j in claims && t'.claims[j] == claims[j];
      }
    }
  }

  lemma ConfirmKeepsInv(t: Tables, token: Token, m: MachineId, now: int)
    requires Inv(t)
    ensures Inv(ConfirmStep(t, token, m, now).0)
  {
    hide OneActive, TokensUnique, ClaimsUnique, ActiveIds, RevokeMachine, Activate, Confirmed, Pending;
    var claims := DropExpired(t.claims, now);
    ClaimsShrink(t.claims, claims);
    forall id { ActivateKeepsInv(t, claims, token, m, id); }
  }

  lemma ActivateKeepsInv(t: Tables, claims: map<DeviceId, Claim>, token: Token, m: MachineId, id: DeviceId)
    requires Inv(t) && ClaimsUnique(claims) && |claims| <= MAXIMUM_DEVICES
    ensures Inv(Activate(t, claims, token, m, id).0)
  {
    hide OneActive, TokensUnique, ClaimsUnique, ActiveIds, RevokeMachine, MayInsert;
    RevokeMachineKeeps(t.devices, m);
    if MayInsert(RevokeMachine(t.devices, m), id, token) {
      InsertKeeps(RevokeMachine(t.devices, m), id, Device(token, Machine(m), false));
      ClaimsShrink(claims, claims - {id});
    }
  }

  lemma RotateKeepsInv(t: Tables, id: DeviceId, token: Token)
    requires Inv(t)
    ensures Inv(RotateStep(t, id, token).0)
  {
    hide ClaimsUnique;
    var after := RotateStep(t, id, token).0.devices;
    assert ActiveIds(after) == ActiveIds(t.devices);
    forall i, j, n | Holds(after, i, n) && Holds(after, j, n) ensures i == j {
      assert Holds(t.devices, i, n) && Holds(t.devices, j, n);
    }
  }

  lemma RevokeKeepsInv(t: Tables, id: DeviceId)
    requires Inv(t)
    ensures Inv(RevokeStep(t, id).0)
  {
    hide ClaimsUnique;
    var after := RevokeStep(t, id).0.devices;
    assert ActiveIds(after) <= ActiveIds(t.devices);
    SubsetSize(ActiveIds(after), ActiveIds(t.devices));
    forall i, j, n | Holds(after, i, n) && Holds(after, j, n) ensures i == j {
      assert Holds(t.devices, i, n) && Holds(t.devices, j, n);
    }
  }

  // ---------------------------------------------------------------- retiring

  /** The token works for the machine under this device. */
  predicate Works(devices: map<DeviceId, Device>, id: DeviceId, m: MachineId, token: Token) {
    Holds(devices, id, m) && devices[id].token == token
  }

  /** A working machine credential stops working only by an explicit revoke or rotate of
      that device, or in the transaction that activates its replacement. */
  lemma RetiredOnlyByReplacement(t: Tables, op: Op, id: DeviceId, m: MachineId, token: Token)
    requires Inv(t) && Works(t.devices, id, m, token)
    ensures var (t', answer) := Step(t, op);
            || Works(t'.devices, id, m, token)
            || op == Revoke(id)
            || (op.Rotate? && op.id == id && Works(t'.devices, id, m, op.token))
            || (op.Pair? && op.binding == Machine(m) && answer == Granted(op.id) && op.id != id
                && Works(t'.devices, op.id, m, op.token))
            || (op.Confirm? && op.machine == m && answer.Granted? && answer.id != id && op.token != token
                && Works(t'.devices, answer.id, m, op.token))
  {
    hide Inv, PairStep, ClaimStep, ConfirmStep, RotateStep, RevokeStep;
    match op
    case Pair(binding, i, fresher) => PairRetires(t, binding, i, fresher, id, m, token);
    case MakeClaim(n, i, fresher, now) => ClaimRetires(t, n, i, fresher, now);
    case Confirm(fresher, n, now) => ConfirmRetires(t, fresher, n, now, id, m, token);
    case Rotate(i, fresher) => RotateRetires(t, i, fresher, id, m, token);
    case Revoke(i) => RevokeRetires(t, i, id, m, token);
  }

  lemma PairRetires(t: Tables, binding: Binding, i: DeviceId, fresher: Token, id: DeviceId, m: MachineId, token: Token)
    requires Works(t.devices, id, m, token)
    ensures var (t', answer) := PairStep(t, binding, i, fresher);
            || Works(t'.devices, id, m, token)
            || (binding == Machine(m) && answer == Granted(i) && i != id && Works(t'.devices, i, m, fresher))
  {
    hide ActiveIds;
  }

  lemma ClaimRetires(t: Tables, n: MachineId, i: DeviceId, fresher: Token, now: int)
    ensures ClaimStep(t, n, i, fresher, now).0.devices == t.devices
  {
    hide ActiveOthers;
  }

  lemma RotateRetires(t: Tables, i: DeviceId, fresher: Token, id: DeviceId, m: MachineId, token: Token)
    requires Works(t.devices, id, m, token)
    ensures var (t', answer) := RotateStep(t, i, fresher);
            Works(t'.devices, id, m, token) || (i == id && Works(t'.devices, id, m, fresher))
  {
  }

  lemma RevokeRetires(t: Tables, i: DeviceId, id: DeviceId, m: MachineId, token: Token)
    requires Works(t.devices, id, m, token)
    ensures Works(RevokeStep(t, i).0.devices, id, m, token) || i == id
  {
  }

  lemma ConfirmRetires(t: Tables, fresher: Token, n: MachineId, now: int, id: DeviceId, m: MachineId, token: Token)
    requires Works(t.devices, id, m, token)
    ensures var (t', answer) := ConfirmStep(t, fresher, n, now);
            || Works(t'.devices, id, m, token)
            || (n == m && answer.Granted? && answer.id != id && fresher != token
                && Works(t'.devices, answer.id, m, fresher))
  {
    hide ActiveIds, ConfirmStep;
    forall i { ActivateRetires(t, DropExpired(t.claims, now), fresher, n, i, id, m, token); }
    ConfirmIs(t, fresher, n, now);
  }

  lemma ActivateRetires(t: Tables, claims: map<DeviceId, Claim>, fresher: Token, n: MachineId, i: DeviceId,
                        id: DeviceId, m: MachineId, token: Token)
    requires Works(t.devices, id, m, token)
    ensures var (t', answer) := Activate(t, claims, fresher, n, i);
            || Works(t'.devices, id, m, token)
            || (n == m && answer == Granted(i) && i != id && fresher != token && Works(t'.devices, i, m, fresher))
  {
    hide ActiveIds;
  }

  /** The three cases of a confirm. */
  lemma ConfirmIs(t: Tables, token: Token, m: MachineId, now: int)
    ensures var claims := DropExpired(t.claims, now);
            var (t', answer) := ConfirmStep(t, token, m, now);
            || (AnyConfirmed(t.devices, token, m) && answer.Granted?
                && Confirmed(t.devices, token, m, answer.id) && t' == Tables(t.devices, claims))
            || (!AnyConfirmed(t.devices, token, m)
                && exists id :: Pending(claims, token, m, id) && (t', answer) == Activate(t, claims, token, m, id))
            || (!AnyConfirmed(t.devices, token, m) && !AnyPending(claims, token, m)
                && t' == Tables(t.devices, claims) && answer == Nothing)
  {
    hide Activate, Confirmed, Pending, DropExpired;
  }

  /** No device row is deleted or given to another machine; its token changes only when
      it is rotated. */
  lemma RowStays(t: Tables, op: Op, id: DeviceId)
    requires id in t.devices
    ensures var after := Step(t, op).0.devices;
            && id in after && after[id].binding == t.devices[id].binding
            && (after[id].token == t.devices[id].token || (op.Rotate? && op.id == id))
  {
    hide ActiveIds, TokenUsed, ClaimStep, ConfirmStep;
    match op
    case MakeClaim(m, i, token, now) => ClaimRetires(t, m, i, token, now);
    case Confirm(token, m, now) => ConfirmIs(t, token, m, now);
    case _ =>
  }

  /** A granted confirm leaves the token working for the machine. */
  lemma ConfirmGrants(t: Tables, token: Token, m: MachineId, now: int)
    requires token != "" && ConfirmStep(t, token, m, now).1.Granted?
    ensures var (t', answer) := ConfirmStep(t, token, m, now);
            Confirmed(t'.devices, token, m, answer.id)
  {
    hide ActiveIds, ConfirmStep, RevokeMachine, DropExpired;
    ConfirmIs(t, token, m, now);
  }

  /** Confirming again, now or after any time, gives the same device and changes none:
      a lost reply can be asked for again. */
  lemma ConfirmTwice(t: Tables, token: Token, m: MachineId, now: int, later: int)
    requires Inv(t) && token != "" && ConfirmStep(t, token, m, now).1.Granted?
    ensures var (t', answer) := ConfirmStep(t, token, m, now);
            var (t'', again) := ConfirmStep(t', token, m, later);
            again == answer && t''.devices == t'.devices
  {
    hide ConfirmStep;
    var (t', answer) := ConfirmStep(t, token, m, now);
    ConfirmKeepsInv(t, token, m, now);
    ConfirmGrants(t, token, m, now);
    ConfirmIs(t', token, m, later);
    hide ActiveIds, OneActive, ClaimsUnique;
    assert AnyConfirmed(t'.devices, token, m);
  }

  // ---------------------------------------------------------------- what each call does, row by row

  /** The devices, but that those unrevoked of machine `m` are revoked and, if any is named,
      the device `added` is new, with this token and binding. */
  ghost predicate Replaced(before: map<DeviceId, Device>, after: map<DeviceId, Device>, m: Option<MachineId>,
                           added: DeviceId, token: Token, binding: Binding)
  {
    && added !in before && added in after && after[added] == Device(token, binding, false)
    && (forall i :: i in after <==> i in before || i == added)
    && (forall i :: i in before ==> after[i].token == before[i].token && after[i].binding == before[i].binding)
    && (forall i :: i in before ==>
          (after[i].revoked <==> before[i].revoked || (m.Some? && before[i].binding == Machine(m.value))))
  }

  /** The unrevoked devices, without those of `m`. */
  function ActiveWithout(devices: map<DeviceId, Device>, m: Option<MachineId>): set<DeviceId> {
    set i | i in devices && !devices[i].revoked && !(m.Some? && devices[i].binding == Machine(m.value))
  }

  /** There is room for one more device once those of `m` are revoked. */
  ghost predicate Room(devices: map<DeviceId, Device>, m: Option<MachineId>, id: DeviceId, token: Token) {
    && |ActiveWithout(devices, m)| < 128 && id !in devices
    && forall i :: i in devices ==> devices[i].token != token
  }

  /** There is room for one more claim, once those past their time and those of `m` are gone. */
  ghost predicate RoomToClaim(devices: map<DeviceId, Device>, left: map<DeviceId, Claim>, m: MachineId, id: DeviceId,
                              token: Token)
  {
    && |left| < 128 && |ActiveWithout(devices, Some(m))| < 128 && id !in left
    && forall i :: i in left ==> left[i].token != token
  }

  /** The claims left are those that have time left and are not of `m`. */
  ghost predicate Left(before: map<DeviceId, Claim>, after: map<DeviceId, Claim>, now: Option<int>,
                       m: Option<MachineId>)
  {
    && (forall i :: i in after ==> i in before && after[i] == before[i])
    && (forall i :: i in before ==>
          (i in after <==> (now.Some? ==> before[i].expires > now.value) && (m.Some? ==> before[i].machine != m.value)))
  }

  /** A device of `m` that works under the token. */
  predicate WorksAs(devices: map<DeviceId, Device>, token: Token, m: MachineId, id: DeviceId) {
    && token != "" && id in devices && !devices[id].revoked && devices[id].token == token
    && devices[id].binding == Machine(m)
  }

  predicate InTime(claims: map<DeviceId, Claim>, token: Token, m: MachineId, now: int, id: DeviceId) {
    id in claims && claims[id].token == token && claims[id].machine == m && claims[id].expires > now
  }

  /** A pairing takes the place of all the machine held, devices and claims; another client
      takes nobody's place. */
  lemma PairExactly(t: Tables, binding: Binding, id: DeviceId, token: Token)
    ensures var (t', answer) := PairStep(t, binding, id, token);
            var m := if binding.Machine? then Some(binding.id) else None;
            if !binding.Unbound? && Room(t.devices, m, id, token) then
              && answer == Granted(id) && Replaced(t.devices, t'.devices, m, id, token, binding)
              && (if m.Some? then Left(t.claims, t'.claims, None, m) else t'.claims == t.claims)
            else answer == Refused && t' == t
  {
    var m := if binding.Machine? then Some(binding.id) else None;
    var devices := PairedDevices(t.devices, binding);
    assert ActiveIds(devices) == ActiveWithout(t.devices, m);
    assert devices.Keys == t.devices.Keys && forall i :: i in t.devices ==> devices[i].token == t.devices[i].token;
    assert TokenUsed(devices, token) <==> TokenUsed(t.devices, token);
    hide ActiveIds, ActiveWithout;
  }

  /** A claim lives for five minutes, takes the place of the machine's own claim, clears
      those past their time, and touches no device. */
  lemma ClaimExactly(t: Tables, m: MachineId, id: DeviceId, token: Token, now: int, left: map<DeviceId, Claim>)
    requires Left(t.claims, left, Some(now), Some(m))
    ensures var (t', answer) := ClaimStep(t, m, id, token, now);
            && (answer == Granted(id) <==> RoomToClaim(t.devices, left, m, id, token))
            && (answer == Granted(id) ==> t' == Tables(t.devices, left[id := Claim(token, m, now + 300_000)]))
            && (answer != Granted(id) ==> answer == Refused && t' == t)
  {
    ActiveOthersAre(t.devices, m);
    var claims := DropMachineClaims(DropExpired(t.claims, now), m);
    assert left.Keys == claims.Keys;
    assert left == claims;
  }

  lemma ActiveOthersAre(devices: map<DeviceId, Device>, m: MachineId)
    ensures ActiveOthers(devices, m) == ActiveWithout(devices, Some(m))
  {
  }

  /** A confirm answers the device that works under the token; else it activates the claim
      that has time left, in the place of what the machine held, if there is room; else it
      answers nothing.  A claim past its time is never granted, and none is left. */
  lemma ConfirmExactly(t: Tables, token: Token, m: MachineId, now: int)
    requires Inv(t)
    ensures var (t', answer) := ConfirmStep(t, token, m, now);
            && (forall id :: WorksAs(t.devices, token, m, id) ==>
                  answer == Granted(id) && t'.devices == t.devices && Left(t.claims, t'.claims, Some(now), None))
            && (forall id :: InTime(t.claims, token, m, now, id) && (forall i :: !WorksAs(t.devices, token, m, i)) ==>
                  if Room(t.devices, Some(m), id, token) then
                    && answer == Granted(id) && id !in t'.claims
                    && Replaced(t.devices, t'.devices, Some(m), id, token, Machine(m))
                    && Left(t.claims - {id}, t'.claims, Some(now), None)
                  else answer == Refused && t' == t)
            && ((forall id :: !WorksAs(t.devices, token, m, id) && !InTime(t.claims, token, m, now, id)) ==>
                  answer == Nothing && t'.devices == t.devices && Left(t.claims, t'.claims, Some(now), None))
  {
    hide Inv, Replaced, Room;
    ConfirmChoices(t, token, m, now);
    ConfirmIs(t, token, m, now);
    hide ConfirmStep, Activate;
    forall id ensures WorksAs(t.devices, token, m, id) <==> Confirmed(t.devices, token, m, id) {
    }
    forall id ensures InTime(t.claims, token, m, now, id) <==> Pending(DropExpired(t.claims, now), token, m, id) {
    }
    forall id | InTime(t.claims, token, m, now, id) { ActivateExactly(t, token, m, now, id); }
  }

  lemma ActivateExactly(t: Tables, token: Token, m: MachineId, now: int, id: DeviceId)
    requires InTime(t.claims, token, m, now, id)
    ensures var (t', answer) := Activate(t, DropExpired(t.claims, now), token, m, id);
            if Room(t.devices, Some(m), id, token) then
              && answer == Granted(id) && id !in t'.claims
              && Replaced(t.devices, t'.devices, Some(m), id, token, Machine(m))
              && Left(t.claims - {id}, t'.claims, Some(now), None)
            else answer == Refused && t' == t
  {
    var devices := RevokeMachine(t.devices, m);
    assert ActiveIds(devices) == ActiveWithout(t.devices, Some(m));
    assert forall i :: i in t.devices ==> i in devices && devices[i].token == t.devices[i].token;
    assert TokenUsed(devices, token) <==> TokenUsed(t.devices, token);
    hide ActiveIds, ActiveWithout;
  }

  /** Rotation gives one unrevoked device a token that no device has had, and revocation
      ends one device; nothing else changes. */
  lemma RotateRevokeExactly(t: Tables, id: DeviceId, token: Token)
    ensures var (t', answer) := RotateStep(t, id, token);
            if id in t.devices && !t.devices[id].revoked && (forall i :: i in t.devices ==> t.devices[i].token != token)
            then
              && answer == Granted(id) && t'.claims == t.claims && t'.devices.Keys == t.devices.Keys
              && t'.devices[id] == Device(token, t.devices[id].binding, false)
              && forall i :: i in t.devices && i != id ==> t'.devices[i] == t.devices[i]
            else answer == Refused && t' == t
    ensures var (t', answer) := RevokeStep(t, id);
            if id in t.devices then
              && answer == Granted(id) && t'.claims == t.claims && t'.devices.Keys == t.devices.Keys
              && t'.devices[id] == Device(t.devices[id].token, t.devices[id].binding, true)
              && forall i :: i in t.devices && i != id ==> t'.devices[i] == t.devices[i]
            else answer == Refused && t' == t
  {
  }

  // ---------------------------------------------------------------- claims over a run

  ghost predicate Run(tables: seq<Tables>, ops: seq<Op>) {
    && |tables| == |ops| + 1 && tables[0] == Tables(map[], map[])
    && forall k :: 0 <= k < |ops| ==> tables[k + 1] == Step(tables[k], ops[k]).0
  }

  /** A claim of the token for the machine, five minutes before it expires. */
  predicate ClaimedFor(op: Op, token: Token, m: MachineId, id: DeviceId, expires: int) {
    op.MakeClaim? && op.token == token && op.machine == m && op.id == id && op.now + 300_000 == expires
  }

  /** A claim in the table was there before or is the one just made. */
  lemma ClaimFrom(t: Tables, op: Op, id: DeviceId)
    requires id in Step(t, op).0.claims
    ensures var claim := Step(t, op).0.claims[id];
            || (id in t.claims && t.claims[id] == claim)
            || ClaimedFor(op, claim.token, claim.machine, id, claim.expires)
  {
    hide ActiveIds, ActiveOthers, RevokeMachine, ConfirmStep;
    if op.Confirm? { ConfirmIs(t, op.token, op.machine, op.now); }
  }

  lemma {:induction false} ClaimMade(tables: seq<Tables>, ops: seq<Op>, n: nat, id: DeviceId)
    requires Run(tables, ops) && n < |tables| && id in tables[n].claims
    ensures var claim := tables[n].claims[id];
            exists k :: 0 <= k < n && ClaimedFor(ops[k], claim.token, claim.machine, id, claim.expires)
  {
    hide Step;
    if n > 0 {
      assert tables[n - 1 + 1] == Step(tables[n - 1], ops[n - 1]).0;
      ClaimFrom(tables[n - 1], ops[n - 1], id);
      if id in tables[n - 1].claims { ClaimMade(tables, ops, n - 1, id); }
    }
  }

  lemma {:induction false} RunInv(tables: seq<Tables>, ops: seq<Op>, n: nat)
    requires Run(tables, ops) && n < |tables|
    ensures Inv(tables[n])
  {
    hide Step, Inv;
    if n == 0 {
      StartInv();
    } else {
      assert tables[n - 1 + 1] == Step(tables[n - 1], ops[n - 1]).0;
      RunInv(tables, ops, n - 1);
      StepKeepsInv(tables[n - 1], ops[n - 1]);
    }
  }

  lemma StartInv()
    ensures Inv(Tables(map[], map[]))
  {
    assert ActiveIds(map[]) == {};
  }

  /** In every run, a confirm grants a token that does not work yet only less than five
      minutes after the token was claimed for that machine. */
  lemma GrantedInTime(tables: seq<Tables>, ops: seq<Op>, n: nat)
    requires Run(tables, ops) && n < |ops| && ops[n].Confirm?
    requires ConfirmStep(tables[n], ops[n].token, ops[n].machine, ops[n].now).1.Granted?
    requires forall id :: !WorksAs(tables[n].devices, ops[n].token, ops[n].machine, id)
    ensures exists k :: 0 <= k < n && ops[k].MakeClaim? && ops[k].token == ops[n].token
                        && ops[k].machine == ops[n].machine && ops[n].now < ops[k].now + 300_000
  {
    var (t, op) := (tables[n], ops[n]);
    hide Run, ConfirmStep, Inv;
    RunInv(tables, ops, n);
    ConfirmExactly(t, op.token, op.machine, op.now);
    var id :| InTime(t.claims, op.token, op.machine, op.now, id);
    ClaimMade(tables, ops, n, id);
    var k :| 0 <= k < n && ClaimedFor(ops[k], t.claims[id].token, t.claims[id].machine, id, t.claims[id].expires);
  }

  // ---------------------------------------------------------------- the registry

  /** The two tables.  Ids and tokens are drawn by the caller of the model (the original
      draws them at random); a statement that fails undoes the whole transaction. */
  class SqliteDeviceRegistry {
    var devices: map<DeviceId, Device>
    var claims: map<DeviceId, Claim>

    ghost predicate Valid()
      reads this
    {
      Inv(Tables(devices, claims))
    }

    ghost function State(): Tables
      reads this
    {
      Tables(devices, claims)
    }

    constructor ()
      ensures Valid() && State() == Tables(map[], map[])
    {
      devices, claims := map[], map[];
    }

    method PairDevice(binding: Binding, id: DeviceId, token: Token) returns (answer: Answer)
      requires Valid()
      modifies this
      ensures Valid() && (State(), answer) == PairStep(old(State()), binding, id, token)
    {
      PairKeepsInv(State(), binding, id, token);
      hide Inv, ActiveIds;
      if binding.Unbound? { return Refused; }
      var devicesBefore, claimsBefore := devices, claims;
      if binding.Machine? {
        claims := DropMachineClaims(claims, binding.id);
        devices := RevokeMachine(devices, binding.id);
      }
      if |ActiveIds(devices)| >= MAXIMUM_DEVICES || id in devices || TokenTaken(token) {
        devices, claims := devicesBefore, claimsBefore;
        return Refused;
      }
      devices := devices[id := Device(token, binding, false)];
      answer := Granted(id);
    }

    method ClaimDevice(m: MachineId, id: DeviceId, token: Token, now: int) returns (answer: Answer)
      requires Valid()
      modifies this
      ensures Valid() && (State(), answer) == ClaimStep(old(State()), m, id, token, now)
    {
      hide Inv, ActiveOthers, Holds;
      ClaimKeepsInv(State(), m, id, token, now);
      var claimsBefore := claims;
      claims := LiveClaims(claims, m, now);
      LiveClaimsIs(claimsBefore, m, now);
      hide DropMachineClaims, DropExpired, LiveClaims;
      if |claims| >= MAXIMUM_DEVICES || |ActiveOthers(devices, m)| >= MAXIMUM_DEVICES
         || id in claims || ClaimTokenTaken(token) {
        claims := claimsBefore;
        return Refused;
      }
      claims := claims[id := Claim(token, m, now + CLAIM_TTL)];
      answer := Granted(id);
    }

    /** The device a token authenticates as; at most one does. */
    method Verify(token: Token) returns (found: Option<DeviceId>)
      requires Valid()
      ensures forall id :: found == Some(id) <==>
        && token != "" && id in devices && !devices[id].revoked
        && devices[id].token == token && devices[id].binding != Unbound
      ensures forall id, other :: Verifies(devices, id, token) && Verifies(devices, other, token) ==> id == other
    {
      hide ActiveIds, OneActive, ClaimsUnique;
      if id :| id in devices && Verifies(devices, id, token) {
        return Some(id);
      }
      found := None;
    }

    method ConfirmClaim(token: Token, m: MachineId, now: int) returns (answer: Answer)
      requires Valid()
      modifies this
      ensures Valid() && (State(), answer) == ConfirmStep(old(State()), token, m, now)
    {
      ghost var was := State();
      ConfirmKeepsInv(was, token, m, now);
      ConfirmChoices(was, token, m, now);
      var claimsBefore := claims;
      claims := DropExpired(claims, now);
      ClaimsShrink(claimsBefore, claims);
      var active := Verify(token);
      hide Inv, ActiveIds, OneActive, TokensUnique, ClaimsUnique, ConfirmStep;
      if active.Some? && devices[active.value].binding == Machine(m) {
        assert Confirmed(was.devices, token, m, active.value);
        return Granted(active.value);
      }
      assert !AnyConfirmed(was.devices, token, m);
      if id :| id in claims && Pending(claims, token, m, id) {
        assert Pending(DropExpired(was.claims, now), token, m, id);
        var devicesBefore := devices;
        devices := RevokeMachine(devices, m);
        if |ActiveIds(devices)| >= MAXIMUM_DEVICES || id in devices || TokenTaken(token) {
          devices, claims := devicesBefore, claimsBefore;
          return Refused;
        }
        devices := devices[id := Device(token, Machine(m), false)];
        claims := claims - {id};
        return Granted(id);
      }
      assert !AnyPending(DropExpired(was.claims, now), token, m);
      answer := Nothing;
    }

    method RotateToken(id: DeviceId, token: Token) returns (answer: Answer)
      requires Valid()
      modifies this
      ensures Valid() && (State(), answer) == RotateStep(old(State()), id, token)
    {
      RotateKeepsInv(State(), id, token);
      hide Inv;
      if id !in devices || devices[id].revoked { return Refused; }
      if TokenTaken(token) { return Refused; }
      devices := devices[id := devices[id].(token := token)];
      answer := Granted(id);
    }

    method RevokeDevice(id: DeviceId) returns (answer: Answer)
      requires Valid()
      modifies this
      ensures Valid() && (State(), answer) == RevokeStep(old(State()), id)
    {
      RevokeKeepsInv(State(), id);
      hide Inv;
      if id !in devices { return Refused; }
      devices := devices[id := devices[id].(revoked := true)];
      answer := Granted(id);
    }

    predicate ClaimTokenTaken(token: Token)
      reads this
      ensures ClaimTokenTaken(token) <==> ClaimTokenUsed(claims, token)
    {
      exists i | i in claims :: claims[i].token == token
    }

    /** The unique index on the token. */
    predicate TokenTaken(token: Token)
      reads this
      ensures TokenTaken(token) <==> TokenUsed(devices, token)
    {
      exists id | id in devices :: devices[id].token == token
    }
  }

  /** The claims one deletion leaves: neither expired nor of this machine. */
  function LiveClaims(claims: map<DeviceId, Claim>, m: MachineId, now: int): map<DeviceId, Claim> {
    map i | i in claims && !(claims[i].expires <= now || claims[i].machine == m) :: claims[i]
  }

  lemma LiveClaimsIs(claims: map<DeviceId, Claim>, m: MachineId, now: int)
    ensures LiveClaims(claims, m, now) == DropMachineClaims(DropExpired(claims, now), m)
  {
  }

  /** With unique tokens the two lookups of a confirm have one possible answer. */
  lemma ConfirmChoices(t: Tables, token: Token, m: MachineId, now: int)
    requires Inv(t)
    ensures forall id :: Confirmed(t.devices, token, m, id) ==>
      ConfirmStep(t, token, m, now) == (Tables(t.devices, DropExpired(t.claims, now)), Granted(id))
    ensures !AnyConfirmed(t.devices, token, m) ==>
      forall id :: Pending(DropExpired(t.claims, now), token, m, id) ==>
        ConfirmStep(t, token, m, now) == Activate(t, DropExpired(t.claims, now), token, m, id)
  {
    hide ConfirmStep, Activate;
    ConfirmIs(t, token, m, now);
    hide ActiveIds, OneActive;
  }
}
