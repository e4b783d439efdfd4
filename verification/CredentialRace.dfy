/** Any number of daemons creating the one credential file at once.

    Each initialiser writes its token to a staging file of its own and publishes it by a
    hard link, which never replaces.  Any of them can stop at any step; a call that ran
    out of time may still take effect later. */
module CredentialRace {

  import opened Wrappers

  /** Where an initialiser stands. */
  datatype Phase =
    | Begin
    | Missing
    | Writing
    | Synced
    | Closed
    | Published
    | Beaten
    | Got(token: string)
    | Returned(result: string)
    | Failed

  /** One initialiser: its token, and the bytes of the file it creates.  `staged` says
      whether the staging name is there; `givenUp`, whether its caller stopped waiting. */
  datatype Initialiser = Initialiser(token: string, phase: Phase, bytes: string, staged: bool, givenUp: bool)

  /** `final` names the initialiser whose file the credential path links to. */
  datatype State = State(all: seq<Initialiser>, final: Option<nat>)

  datatype Action =
    | Look
    | Create
    | Write(upTo: nat)
    | Sync
    | Close
    | Publish
    | ReadBack
    | Clean
    | Finish(cleaned: bool)
    | GiveUp
    | Stop

  function Whole(token: string): string { token + "\n" }

  predicate Blank(c: char) { c == ' ' || '\t' <= c <= '\r' }

  function Trimmed(s: string): string {
    if s != "" && Blank(s[|s| - 1]) then Trimmed(s[..|s| - 1])
    else if s != "" && Blank(s[0]) then Trimmed(s[1..])
    else s
  }

  /** What reading the credential path answers: a valid token, a refusal of malformed
      bytes, or, for an empty file, another try. */
  datatype Answer = Token(token: string) | Malformed | Empty

  function Read(valid: string -> bool, bytes: string): Answer {
    var t := Trimmed(bytes);
    if valid(t) then Token(t) else if t != "" then Malformed else Empty
  }

  /** Tokens are drawn as valid credentials, which hold no blanks. */
  ghost predicate Drawn(valid: string -> bool, token: string) {
    valid(token) && token != "" && forall i :: 0 <= i < |token| ==> !Blank(token[i])
  }

  function AfterRead(valid: string -> bool, s: State, p: nat): Phase
    requires p < |s.all| && s.final.Some? && s.final.value < |s.all|
  {
    match Read(valid, s.all[s.final.value].bytes)
    case Token(t) => Got(t)
    case Malformed => Failed
    case Empty => s.all[p].phase
  }

  function With(s: State, p: nat, i: Initialiser): State
    requires p < |s.all|
  {
    s.(all := s.all[p := i])
  }

  ghost predicate Next(valid: string -> bool, s: State, p: nat, a: Action, s': State) {
    && p < |s.all| && (s.final.Some? ==> s.final.value < |s.all|)
    && var i := s.all[p];
       match a
       case Look =>
         i.phase.Begin? && s' == With(s, p, i.(phase := if s.final.None? then Missing else AfterRead(valid, s, p)))
       case Create => i.phase.Missing? && s' == With(s, p, i.(phase := Writing, staged := true, bytes := ""))
       case Write(upTo) =>
         && i.phase.Writing? && |i.bytes| <= upTo <= |Whole(i.token)|
         && s' == With(s, p, i.(bytes := Whole(i.token)[..upTo]))
       case Sync => i.phase.Writing? && i.bytes == Whole(i.token) && s' == With(s, p, i.(phase := Synced))
       case Close => i.phase.Synced? && s' == With(s, p, i.(phase := Closed))
       case Publish =>
         && i.phase.Closed? && i.staged
         && s' == if s.final.None?
             then With(s, p, i.(phase := Published)).(final := Some(p))
             else With(s, p, i.(phase := Beaten))
       case ReadBack =>
         && (i.phase.Published? || i.phase.Beaten?) && s.final.Some?
         && s' == With(s, p, i.(phase := AfterRead(valid, s, p)))
       case Clean => (i.phase.Got? || i.phase.Failed?) && s' == With(s, p, i.(staged := false))
       case Finish(cleaned) =>
         && i.phase.Got?
         && s' == With(s, p, i.(phase := if cleaned && !i.givenUp then Returned(i.phase.token) else Failed))
       case GiveUp => !i.phase.Returned? && s' == With(s, p, i.(givenUp := true))
       case Stop => !i.phase.Returned? && s' == With(s, p, i.(phase := Failed))
  }

  // ---------------------------------------------------------------- what every step keeps

  predicate Full(i: Initialiser) {
    i.bytes == Whole(i.token)
  }

  predicate Owner(i: Initialiser) {
    Full(i) && !i.phase.Writing? && !i.phase.Missing? && !i.phase.Begin?
  }

  ghost predicate InitialiserOk(valid: string -> bool, s: State, i: Initialiser) {
    && Drawn(valid, i.token)
    && (i.phase.Synced? || i.phase.Closed? || i.phase.Published? ==> Full(i))
    && (i.phase.Published? || i.phase.Beaten? ==> s.final.Some?)
    && (i.phase.Got? ==> TheToken(s, i.phase.token))
    && (i.phase.Returned? ==> TheToken(s, i.phase.result))
  }

  /** The token the credential path holds. */
  ghost predicate TheToken(s: State, token: string) {
    s.final.Some? && s.final.value < |s.all| && s.all[s.final.value].token == token
  }

  /** The credential path is absent or holds one whole token, whose file nobody writes. */
  ghost predicate FinalOk(s: State) {
    s.final.Some? ==> s.final.value < |s.all| && Owner(s.all[s.final.value])
  }

  ghost predicate Inv(valid: string -> bool, s: State) {
    FinalOk(s) && forall p :: 0 <= p < |s.all| ==> InitialiserOk(valid, s, s.all[p])
  }

  lemma TrimmedWhole(valid: string -> bool, token: string)
    requires Drawn(valid, token)
    ensures Read(valid, Whole(token)) == Token(token)
  {
    assert Whole(token)[..|token|] == token;
    assert !Blank(token[|token| - 1]) && !Blank(token[0]);
    assert Trimmed(token) == token;
    assert Trimmed(Whole(token)) == token;
  }

  /** What the step does to the one that takes it. */
  lemma OwnStep(valid: string -> bool, s: State, p: nat, a: Action, s': State)
    requires FinalOk(s) && p < |s.all| && InitialiserOk(valid, s, s.all[p]) && Next(valid, s, p, a, s')
    requires s.final.Some? ==> Read(valid, s.all[s.final.value].bytes) == Token(s.all[s.final.value].token)
    ensures |s'.all| == |s.all| && InitialiserOk(valid, s', s'.all[p]) && s'.all[p].token == s.all[p].token
    ensures Owner(s.all[p]) ==> Owner(s'.all[p])
    ensures s.all[p].phase.Returned? ==> s'.all[p].phase == s.all[p].phase
    ensures s'.final == s.final || (s.final.None? && s'.final == Some(p) && Owner(s'.all[p]))
    ensures forall q :: 0 <= q < |s.all| && q != p ==> s'.all[q] == s.all[q]
  {
    hide Trimmed, Read, Drawn, Whole;
  }

  lemma TokensStay(valid: string -> bool, s: State, p: nat, a: Action, s': State)
    requires p < |s.all| == |s'.all| && s'.all[p].token == s.all[p].token
    requires forall q :: 0 <= q < |s.all| && q != p ==> s'.all[q] == s.all[q]
    ensures forall q :: 0 <= q < |s.all| ==> s'.all[q].token == s.all[q].token
  {
  }

  lemma OtherStays(valid: string -> bool, s: State, s': State, i: Initialiser)
    requires InitialiserOk(valid, s, i) && |s'.all| == |s.all| && (s.final.Some? ==> s'.final == s.final)
    requires forall q :: 0 <= q < |s.all| ==> s'.all[q].token == s.all[q].token
    ensures InitialiserOk(valid, s', i)
  {
    hide Drawn, Full;
  }

  /** The step of one initialiser: the others keep their record, and the path never
      changes once it is there. */
  lemma NextKeeps(valid: string -> bool, s: State, p: nat, a: Action, s': State)
    requires Inv(valid, s) && Next(valid, s, p, a, s')
    ensures Inv(valid, s') && |s'.all| == |s.all| && (s.final.Some? ==> s'.final == s.final)
    ensures forall q :: 0 <= q < |s.all| ==> s'.all[q].token == s.all[q].token
  {
    assert p < |s.all|;
    hide Next, Trimmed, Read, Drawn, Whole;
    assert InitialiserOk(valid, s, s.all[p]);
    if s.final.Some? {
      assert InitialiserOk(valid, s, s.all[s.final.value]);
      TrimmedWhole(valid, s.all[s.final.value].token);
    }
    OwnStep(valid, s, p, a, s');
    hide InitialiserOk, Owner;
    TokensStay(valid, s, p, a, s');
    forall q | 0 <= q < |s'.all| ensures InitialiserOk(valid, s', s'.all[q]) {
      assert InitialiserOk(valid, s, s.all[q]);
      if q != p { OtherStays(valid, s, s', s.all[q]); }
    }
  }

  // ---------------------------------------------------------------- whole runs

  ghost predicate Fresh(valid: string -> bool, s: State) {
    s.final.None? && forall p :: 0 <= p < |s.all| ==> Drawn(valid, s.all[p].token) && s.all[p].phase.Begin?
  }

  ghost predicate Run(valid: string -> bool, states: seq<State>, steps: seq<(nat, Action)>) {
    && |states| == |steps| + 1 && Fresh(valid, states[0])
    && forall k :: 0 <= k < |steps| ==> Next(valid, states[k], steps[k].0, steps[k].1, states[k + 1])
  }

  lemma {:induction false} RunKeeps(valid: string -> bool, states: seq<State>, steps: seq<(nat, Action)>, n: nat)
    requires Run(valid, states, steps) && n < |states|
    ensures Inv(valid, states[n])
  {
    if n > 0 {
      RunKeeps(valid, states, steps, n - 1);
      hide Next, Inv;
      assert Next(valid, states[n - 1], steps[n - 1].0, steps[n - 1].1, states[n - 1 + 1]);
      NextKeeps(valid, states[n - 1], steps[n - 1].0, steps[n - 1].1, states[n]);
    }
  }

  /** The path is absent or holds one whole valid token; once there, it holds the same
      token ever after. */
  lemma {:induction false} NeverReplaced(valid: string -> bool, states: seq<State>, steps: seq<(nat, Action)>,
                                         i: nat, n: nat, token: string)
    requires Run(valid, states, steps) && i <= n < |states| && TheToken(states[i], token)
    ensures TheToken(states[n], token) && states[n].final == states[i].final
    ensures states[n].all[states[n].final.value].bytes == Whole(token) && Drawn(valid, token)
  {
    hide Next, Whole, Drawn, Inv;
    if i < n {
      NeverReplaced(valid, states, steps, i, n - 1, token);
      RunKeeps(valid, states, steps, n - 1);
      assert Next(valid, states[n - 1], steps[n - 1].0, steps[n - 1].1, states[n - 1 + 1]);
      NextKeeps(valid, states[n - 1], steps[n - 1].0, steps[n - 1].1, states[n]);
    }
    RunKeeps(valid, states, steps, n);
    FinalWhole(valid, states[n], token);
  }

  lemma FinalWhole(valid: string -> bool, s: State, token: string)
    requires Inv(valid, s) && TheToken(s, token)
    ensures s.all[s.final.value].bytes == Whole(token) && Drawn(valid, token)
  {
    hide Whole, Drawn;
    assert InitialiserOk(valid, s, s.all[s.final.value]);
  }

  /** Whoever returns, whenever, returns the token the path holds from then on; so all
      that return return the same. */
  lemma AllReturnTheSame(valid: string -> bool, states: seq<State>, steps: seq<(nat, Action)>, i: nat, p: nat,
                         j: nat, q: nat)
    requires Run(valid, states, steps) && i <= j < |states| && p < |states[i].all| && q < |states[j].all|
    requires states[i].all[p].phase.Returned? && states[j].all[q].phase.Returned?
    ensures states[i].all[p].phase.result == states[j].all[q].phase.result
    ensures TheToken(states[j], states[i].all[p].phase.result)
  {
    hide Run, Next, Whole, Drawn;
    RunKeeps(valid, states, steps, i);
    RunKeeps(valid, states, steps, j);
    assert InitialiserOk(valid, states[i], states[i].all[p]);
    assert InitialiserOk(valid, states[j], states[j].all[q]);
    NeverReplaced(valid, states, steps, i, j, states[i].all[p].phase.result);
  }
}
