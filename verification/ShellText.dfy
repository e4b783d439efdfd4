/** Splitting a command line into parts and arguments, for the subset of shell syntax
    that can be shown in full. */
module ShellText {

  import opened Wrappers

  datatype Operator = First | And | Or | Pipe | Then

  datatype Part = Part(operator: Operator, argv: seq<string>)

  datatype Quote = Bare | Single | Double

  /** The scanner's variables. */
  datatype Scan = Scan(parts: seq<Part>, operator: Operator, argv: seq<string>, token: string, started: bool,
                       quote: Quote, escaped: bool)

  const START := Scan([], First, [], "", false, Bare, false)
  const MAXIMUM_LENGTH := 8192

  predicate Space(c: char) {
    || '\t' <= c <= '\r' || c == ' ' || c == '\U{00A0}' || c == '\U{1680}' || '\U{2000}' <= c <= '\U{200A}'
    || c == '\U{2028}' || c == '\U{2029}' || c == '\U{202F}' || c == '\U{205F}' || c == '\U{3000}' || c == '\U{FEFF}'
  }

  predicate Unsupported(c: char) {
    c in ['$', '`', '<', '>', '(', ')', '{', '}', '[', ']', '*', '?', '#']
  }

  function PushToken(s: Scan): Scan {
    if s.started then s.(argv := s.argv + [s.token], token := "", started := false) else s
  }

  function PushPart(s: Scan, next: Operator): Option<Scan> {
    var t := PushToken(s);
    if t.argv == [] then None else Some(t.(parts := t.parts + [Part(t.operator, t.argv)], operator := next, argv := []))
  }

  function Take(s: Scan, c: char): Scan {
    s.(token := s.token + [c], started := true)
  }

  /** One character; `next` is the one after it, if any.  The answer also says whether
      `next` was used up. */
  function Step(s: Scan, c: char, next: Option<char>): Option<(Scan, bool)> {
    if s.escaped then Some((Take(s, c).(escaped := false), false))
    else if s.quote.Single? then
      if c == '\'' then Some((s.(quote := Bare, started := true), false)) else Some((Take(s, c), false))
    else if s.quote.Double? then
      if c == '"' then Some((s.(quote := Bare, started := true), false))
      else if c == '\\' then
        if next != Some('"') && next != Some('\\') then None else Some((s.(escaped := true, started := true), false))
      else if c == '$' || c == '`' then None
      else Some((Take(s, c), false))
    else BareStep(s, c, next)
  }

  function BareStep(s: Scan, c: char, next: Option<char>): Option<(Scan, bool)> {
    if c == '\\' then Some((s.(escaped := true, started := true), false))
    else if c == '\'' then Some((s.(quote := Single, started := true), false))
    else if c == '"' then Some((s.(quote := Double, started := true), false))
    else if Space(c) then Some((PushToken(s), false))
    else if Unsupported(c) then None
    else if c == '&' && next == Some('&') then Ended(PushPart(s, And), true)
    else if c == '|' && next == Some('|') then Ended(PushPart(s, Or), true)
    else if c == '|' then Ended(PushPart(s, Pipe), false)
    else if c == ';' then Ended(PushPart(s, Then), false)
    else if c == '&' then None
    else Some((Take(s, c), false))
  }

  function Ended(s: Option<Scan>, both: bool): Option<(Scan, bool)> {
    if s.None? then None else Some((s.value, both))
  }

  function Scanned(command: string, s: Scan): Option<Scan>
    decreases |command|
  {
    if command == [] then Some(s) else
      var step := Step(s, command[0], if |command| > 1 then Some(command[1]) else None);
      if step.None? then None
      else if step.value.1 && |command| > 1 then Scanned(command[2..], step.value.0)
      else Scanned(command[1..], step.value.0)
  }

  function Lower(s: string): string {
    seq(|s|, i requires 0 <= i < |s| => if 'A' <= s[i] <= 'Z' then (s[i] as int + 32) as char else s[i])
  }

  /** Commands that change the shell itself. */
  predicate Stateful(executable: string) {
    executable in {".", "alias", "cd", "eval", "exec", "export", "popd", "pushd", "set", "source", "unalias", "unset"}
  }

  predicate NameStart(c: char) { 'A' <= c <= 'Z' || 'a' <= c <= 'z' || c == '_' }
  predicate NameChar(c: char) { NameStart(c) || '0' <= c <= '9' }

  /** A leading `NAME=`. */
  predicate Assignment(word: string) {
    exists n | 0 < n < |word| :: word[n] == '=' && NameStart(word[0]) && forall i | 0 < i < n :: NameChar(word[i])
  }

  predicate Forbidden(part: Part) {
    part.argv != [] && (Stateful(Lower(part.argv[0])) || Assignment(part.argv[0]))
  }

  predicate AnyForbidden(parts: seq<Part>) {
    exists i | 0 <= i < |parts| :: Forbidden(parts[i])
  }

  predicate Readable(command: string) {
    0 < |command| <= MAXIMUM_LENGTH && '\r' !in command && '\n' !in command && '\0' !in command
  }

  function Finish(s: Scan): Option<seq<Part>> {
    if s.quote != Bare || s.escaped then None else
      var t := PushToken(s);
      if t.argv == [] then None else
        var parts := t.parts + [Part(t.operator, t.argv)];
        if AnyForbidden(parts) then None else Some(parts)
  }

  function Parsed(command: string): Option<seq<Part>> {
    if !Readable(command) then None else
      var s := Scanned(command, START);
      if s.None? then None else Finish(s.value)
  }

  /** The scanning loop. */
  method ParseCommand(command: string) returns (parts: Option<seq<Part>>)
    ensures parts == Parsed(command)
  {
    if !Readable(command) { return None; }
    var s := START;
    var index := 0;
    while index < |command|
      invariant 0 <= index <= |command|
      invariant Scanned(command[index..], s) == Scanned(command, START)
    {
      var next := if index + 1 < |command| then Some(command[index + 1]) else None;
      assert command[index..][0] == command[index];
      assert next.Some? ==> command[index..][1] == next.value && command[index..][2..] == command[index + 2..];
      assert command[index..][1..] == command[index + 1..];
      var step := Step(s, command[index], next);
      if step.None? { return None; }
      s := step.value.0;
      index := index + if step.value.1 && next.Some? then 2 else 1;
    }
    assert command[index..] == [];
    parts := Finish(s);
  }

  // ---------------------------------------------------------------- what a parse looks like

  ghost predicate Whole(parts: seq<Part>) {
    forall i :: 0 <= i < |parts| ==> parts[i].argv != [] && (parts[i].operator.First? <==> i == 0)
  }

  ghost predicate Tidy(s: Scan) {
    Whole(s.parts) && (s.operator.First? <==> s.parts == [])
  }

  lemma StepTidy(s: Scan, c: char, next: Option<char>)
    requires Tidy(s)
    ensures Step(s, c, next).Some? ==> Tidy(Step(s, c, next).value.0)
  {
  }

  lemma {:induction false} ScannedTidy(command: string, s: Scan)
    requires Tidy(s)
    ensures Scanned(command, s).Some? ==> Tidy(Scanned(command, s).value)
    decreases |command|
  {
    if command != [] {
      var next := if |command| > 1 then Some(command[1]) else None;
      StepTidy(s, command[0], next);
      hide Tidy, Step;
      var step := Step(s, command[0], next);
      if step.Some? {
        if step.value.1 && |command| > 1 { ScannedTidy(command[2..], step.value.0); }
        else { ScannedTidy(command[1..], step.value.0); }
      }
    }
  }

  /** A parse has a part, every part has a command, and only the first has no operator. */
  lemma ParsedWhole(command: string)
    ensures Parsed(command).Some? ==> Parsed(command).value != [] && Whole(Parsed(command).value)
  {
    ScannedTidy(command, START);
  }
}
