/** The command line's credential file: several processes read, change and write it back
    under one lock file, and any of them may die. */
module CliLock {

  import opened Wrappers

  type Pin = string

  datatype Record = Record(endpoint: string, secret: string, pin: Option<Pin>)

  type Document = seq<Record>

  function Find(doc: Document, endpoint: string): Option<Record> {
    if doc == [] then None else if doc[0].endpoint == endpoint then Some(doc[0]) else Find(doc[1..], endpoint)
  }

  function Without(doc: Document, endpoint: string): Document {
    if doc == [] then [] else (if doc[0].endpoint == endpoint then [] else [doc[0]]) + Without(doc[1..], endpoint)
  }

  // ---------------------------------------------------------------- the operations

  datatype Op =
    | Save(record: Record)
    | Forget(endpoint: string)
    | Swap(endpoint: string, expected: Option<Pin>, replacement: Pin)

  function EndpointOf(op: Op): string {
    if op.Save? then op.record.endpoint else op.endpoint
  }

  /** A swap changes nothing unless there is a record and its pin is the expected one. */
  predicate Writes(op: Op, doc: Document) {
    op.Swap? ==> var current := Find(doc, op.endpoint); current.Some? && current.value.pin == op.expected
  }

  function Changed(op: Op, doc: Document): Document {
    match op
    case Save(record) => Without(doc, record.endpoint) + [record]
    case Forget(endpoint) => Without(doc, endpoint)
    case Swap(endpoint, expected, replacement) =>
      var current := Find(doc, endpoint);
      if current.None? || current.value.pin != expected then doc
      else Without(doc, endpoint) + [current.value.(pin := Some(replacement))]
  }

  // ---------------------------------------------------------------- the protocol

  datatype Phase =
    | Resting
    | Waiting(op: Op)
    | Holding(op: Op)
    | HasRead(op: Op, seen: Document)
    | Over(op: Op, wrote: bool)
    | Answered(op: Op, wrote: bool)
    | Dead

  /** `lock` names the process that made the lock file.  `log` is history: what was
      written, in order, and by whom. */
  datatype State = State(doc: Document, lock: Option<nat>, processes: seq<Phase>, log: seq<(nat, Op)>)

  datatype Step =
    | Ask(op: Op)
    | Acquire
    | Refuse
    | ReadAll
    | WriteBack
    | Leave(unlinked: bool)
    | Rest
    | Die
    | RemoveStale

  /** Between making the lock file and removing it. */
  predicate Critical(phase: Phase) {
    phase.Holding? || phase.HasRead? || phase.Over?
  }

  function To(s: State, p: nat, phase: Phase): State
    requires p < |s.processes|
  {
    s.(processes := s.processes[p := phase])
  }

  predicate Next(s: State, p: nat, step: Step, s': State) {
    && p < |s.processes|
    && var phase := s.processes[p];
       match step
       case Ask(op) => phase.Resting? && s' == To(s, p, Waiting(op))
       case Acquire => phase.Waiting? && s.lock.None? && s' == To(s, p, Holding(phase.op)).(lock := Some(p))
       case Refuse => phase.Waiting? && s.lock.Some? && s' == To(s, p, Resting)
       case ReadAll => phase.Holding? && s' == To(s, p, HasRead(phase.op, s.doc))
       case WriteBack =>
         && phase.HasRead?
         && s' == if Writes(phase.op, phase.seen)
                  then To(s, p, Over(phase.op, true))
                         .(doc := Changed(phase.op, phase.seen), log := s.log + [(p, phase.op)])
                  else To(s, p, Over(phase.op, false))
       case Leave(unlinked) =>
         && Critical(phase)
         && s' == To(s, p, if phase.Over? then Answered(phase.op, phase.wrote) else Resting)
                    .(lock := if unlinked then None else s.lock)
       case Rest => phase.Answered? && s' == To(s, p, Resting)
       case Die => s' == To(s, p, Dead)
       case RemoveStale =>
         // A person removes the file when no other command is running.
         s.lock.Some? && s.lock.value < |s.processes| && !Critical(s.processes[s.lock.value]) && s' == s.(lock := None)
  }

  // ---------------------------------------------------------------- what every step keeps

  function Replayed(doc: Document, log: seq<(nat, Op)>): Document {
    if log == [] then doc else Changed(log[|log| - 1].1, Replayed(doc, log[..|log| - 1]))
  }

  /** Every entry of the log was a write at its place. */
  ghost predicate Logged(doc: Document, log: seq<(nat, Op)>) {
    forall k :: 0 <= k < |log| ==> Writes(log[k].1, Replayed(doc, log[..k]))
  }

  /** Whoever is between lock and unlock made the lock file, and what it read is what is
      stored. */
  ghost predicate Exclusive(s: State) {
    forall p: nat :: p < |s.processes| ==>
      && (Critical(s.processes[p]) ==> s.lock == Some(p))
      && (s.processes[p].HasRead? ==> s.processes[p].seen == s.doc)
  }

  ghost predicate LockKnown(s: State) {
    s.lock.Some? ==> s.lock.value < |s.processes|
  }

  /** Whoever is told that it wrote is in the log. */
  ghost predicate Told(s: State) {
    forall p: nat :: p < |s.processes| && (s.processes[p].Over? || s.processes[p].Answered?) && s.processes[p].wrote ==>
      (p, s.processes[p].op) in s.log
  }

  ghost predicate Inv(start: Document, s: State) {
    Exclusive(s) && LockKnown(s) && Told(s) && s.doc == Replayed(start, s.log) && Logged(start, s.log)
  }

  lemma LogAppend(start: Document, log: seq<(nat, Op)>, p: nat, op: Op)
    requires Logged(start, log) && Writes(op, Replayed(start, log))
    ensures Logged(start, log + [(p, op)]) && Replayed(start, log + [(p, op)]) == Changed(op, Replayed(start, log))
  {
    var more := log + [(p, op)];
    assert more[..|log|] == log;
    forall k | 0 <= k < |more| ensures Writes(more[k].1, Replayed(start, more[..k])) {
      if k < |log| { assert more[..k] == log[..k] && more[k] == log[k]; }
    }
  }

  lemma NextKeeps(start: Document, s: State, p: nat, step: Step, s': State)
    requires Inv(start, s) && Next(s, p, step, s')
    ensures Inv(start, s') && |s'.processes| == |s.processes|
  {
    hide Replayed, Logged, Writes, Changed, Find, Without;
    var phase := s.processes[p];
    if step.WriteBack? && Writes(phase.op, phase.seen) {
      LogAppend(start, s.log, p, phase.op);
    }
  }

  // ---------------------------------------------------------------- whole runs

  ghost predicate Run(states: seq<State>, steps: seq<(nat, Step)>) {
    && |states| == |steps| + 1
    && states[0].lock.None? && states[0].log == []
    && (forall p: nat :: p < |states[0].processes| ==> states[0].processes[p].Resting?)
    && forall k :: 0 <= k < |steps| ==> Next(states[k], steps[k].0, steps[k].1, states[k + 1])
  }

  /** The stored document is at every moment the one got by applying the logged writes
      one after the other, each to what the one before it left. */
  lemma {:induction false} RunKeeps(states: seq<State>, steps: seq<(nat, Step)>, n: nat)
    requires Run(states, steps) && n < |states|
    ensures Inv(states[0].doc, states[n])
  {
    if n > 0 {
      RunKeeps(states, steps, n - 1);
      hide Inv, Next;
      assert Next(states[n - 1], steps[n - 1].0, steps[n - 1].1, states[n - 1 + 1]);
      NextKeeps(states[0].doc, states[n - 1], steps[n - 1].0, steps[n - 1].1, states[n]);
    }
  }

  /** Two processes are never between lock and unlock at once, even after one died there. */
  lemma NeverBoth(states: seq<State>, steps: seq<(nat, Step)>, n: nat, p: nat, q: nat)
    requires Run(states, steps) && n < |states| && p < |states[n].processes| && q < |states[n].processes|
    requires Critical(states[n].processes[p]) && Critical(states[n].processes[q])
    ensures p == q
  {
    RunKeeps(states, steps, n);
  }

  /** A process told that its change was written is in the log with it. */
  lemma ToldIsLogged(states: seq<State>, steps: seq<(nat, Step)>, n: nat, p: nat)
    requires Run(states, steps) && n < |states| && p < |states[n].processes|
    requires states[n].processes[p].Answered? && states[n].processes[p].wrote
    ensures (p, states[n].processes[p].op) in states[n].log
  {
    RunKeeps(states, steps, n);
  }

  // ---------------------------------------------------------------- what a write changes

  lemma {:induction false} FindWithout(doc: Document, endpoint: string, other: string)
    ensures Find(Without(doc, endpoint), other) == if other == endpoint then None else Find(doc, other)
  {
    if doc != [] {
      FindWithout(doc[1..], endpoint, other);
      if doc[0].endpoint != endpoint {
        assert Without(doc, endpoint)[1..] == Without(doc[1..], endpoint);
      } else {
        assert Without(doc, endpoint) == Without(doc[1..], endpoint);
      }
    }
  }

  lemma {:induction false} FindAppend(doc: Document, r: Record, other: string)
    ensures Find(doc + [r], other) ==
            if Find(doc, other).Some? then Find(doc, other) else if r.endpoint == other then Some(r) else None
  {
    if doc != [] {
      FindAppend(doc[1..], r, other);
      assert (doc + [r])[1..] == doc[1..] + [r];
    } else {
      assert doc + [r] == [r];
    }
  }

  /** No write loses another endpoint's record; a save leaves what was saved, a forget
      nothing, and a swap the same record with the replacement pin. */
  lemma WriteChangesOnlyItsEndpoint(op: Op, doc: Document, other: string)
    requires Writes(op, doc)
    ensures other != EndpointOf(op) ==> Find(Changed(op, doc), other) == Find(doc, other)
    ensures op.Save? ==> Find(Changed(op, doc), EndpointOf(op)) == Some(op.record)
    ensures op.Forget? ==> Find(Changed(op, doc), EndpointOf(op)) == None
    ensures op.Swap? ==>
      var was := Find(doc, op.endpoint);
      && was.Some? && was.value.pin == op.expected
      && Find(Changed(op, doc), op.endpoint) == Some(was.value.(pin := Some(op.replacement)))
  {
    var e := EndpointOf(op);
    FindWithout(doc, e, other);
    FindWithout(doc, e, e);
    FindIs(doc, e);
    if op.Save? {
      FindAppend(Without(doc, e), op.record, other);
      FindAppend(Without(doc, e), op.record, e);
    } else if op.Swap? {
      var r := Find(doc, e).value.(pin := Some(op.replacement));
      FindAppend(Without(doc, e), r, other);
      FindAppend(Without(doc, e), r, e);
    }
  }

  lemma {:induction false} FindIs(doc: Document, endpoint: string)
    ensures Find(doc, endpoint).Some? ==> Find(doc, endpoint).value.endpoint == endpoint
  {
    if doc != [] { FindIs(doc[1..], endpoint); }
  }

  /** In every run, each logged swap found exactly the pin it expected in what the writes
      before it had left, and left its replacement. */
  lemma SwapReplacedWhatItExpected(states: seq<State>, steps: seq<(nat, Step)>, n: nat, k: nat)
    requires Run(states, steps) && n < |states| && k < |states[n].log| && states[n].log[k].1.Swap?
    ensures var op := states[n].log[k].1;
            var before := Replayed(states[0].doc, states[n].log[..k]);
            var after := Replayed(states[0].doc, states[n].log[..k + 1]);
            && Find(before, op.endpoint).Some? && Find(before, op.endpoint).value.pin == op.expected
            && Find(after, op.endpoint) == Some(Find(before, op.endpoint).value.(pin := Some(op.replacement)))
  {
    RunKeeps(states, steps, n);
    hide Run, Changed, Find, Without, Exclusive;
    var log := states[n].log;
    var op := log[k].1;
    assert log[..k + 1][..k] == log[..k] && log[..k + 1][k] == log[k];
    WriteChangesOnlyItsEndpoint(op, Replayed(states[0].doc, log[..k]), "");
  }
}
