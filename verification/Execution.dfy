/** Expanding a command and the package scripts it runs into a numbered tree. */
module Execution {

  import opened ShellText
  import opened Wrappers

  const MAXIMUM_DEPTH := 8
  const MAXIMUM_ENTRIES := 64

  /** The manifest's scripts, if there is a manifest, and what the redactor says of a text. */
  datatype World = World(scripts: Option<map<string, string>>, sensitive: string -> bool, truncated: string -> bool)

  // ---------------------------------------------------------------- package invocations

  datatype Invocation = NotPackage | Invalid | Runs(manager: string, script: string, arguments: seq<string>)

  const MANAGERS := {"npm", "pnpm", "yarn", "bun"}
  const SHORTCUTS := {"start", "stop", "test"}
  const SUBCOMMANDS := {
    "add", "audit", "create", "dedupe", "dlx", "exec", "i", "init", "install", "link",
    "pack", "patch", "publish", "remove", "rm", "store", "up", "update", "why", "x"
  }

  /** Letters and digits as the case-insensitive class reads them. */
  predicate Alphanumeric(c: char) {
    'a' <= c <= 'z' || 'A' <= c <= 'Z' || '0' <= c <= '9' || c == '\U{017F}' || c == '\U{212A}'
  }

  predicate ScriptName(s: string) {
    && s != "" && Alphanumeric(s[0]) && Alphanumeric(s[|s| - 1])
    && forall i | 0 <= i < |s| :: Alphanumeric(s[i]) || s[i] in [':', '.', '_', '-']
  }

  /** `forwarded` arguments were appended to this command by the script's caller; only
      those may follow a script name without `--`. */
  function PackageInvocation(argv: seq<string>, forwarded: nat): Invocation {
    if |argv| == 0 || argv[0] !in MANAGERS || |argv| == 1 || argv[1] == "" then NotPackage
    else if argv[1][0] == '-' then Invalid
    else if argv[1] == "run" then
      if |argv| == 2 then Invalid else Chosen(argv[0], argv[2], argv[3..], forwarded)
    else if argv[0] == "npm" then
      if argv[1] !in SHORTCUTS then NotPackage else Chosen(argv[0], argv[1], argv[2..], forwarded)
    else if argv[0] == "pnpm" || argv[0] == "yarn" then
      if argv[1] in SUBCOMMANDS then NotPackage else Chosen(argv[0], argv[1], argv[2..], forwarded)
    else NotPackage
  }

  function Chosen(manager: string, script: string, rest: seq<string>, forwarded: nat): Invocation {
    if !ScriptName(script) then Invalid
    else if rest == [] then Runs(manager, script, [])
    else if rest[0] == "--" then Runs(manager, script, rest[1..])
    else if |rest| == forwarded then Runs(manager, script, rest)
    else Invalid
  }

  /** The one spelling an invocation is shown in. */
  function Spelled(manager: string, script: string, arguments: seq<string>): seq<string> {
    [manager, "run", script] + if arguments == [] then [] else ["--"] + arguments
  }

  function Canonical(argv: seq<string>, forwarded: nat): seq<string> {
    var inv := PackageInvocation(argv, forwarded);
    if inv.Runs? then Spelled(inv.manager, inv.script, inv.arguments) else argv
  }

  /** Rewriting keeps the meaning: the canonical spelling is the same invocation, and
      needs no forwarded arguments to be read. */
  lemma CanonicalMeans(argv: seq<string>, forwarded: nat, other: nat)
    requires PackageInvocation(argv, forwarded).Runs?
    ensures PackageInvocation(Canonical(argv, forwarded), other) == PackageInvocation(argv, forwarded)
    ensures Canonical(Canonical(argv, forwarded), other) == Canonical(argv, forwarded)
  {
    RunsKnown(argv, forwarded);
    var inv := PackageInvocation(argv, forwarded);
    SpelledMeans(inv.manager, inv.script, inv.arguments, other);
    hide PackageInvocation, Spelled;
  }

  lemma RunsKnown(argv: seq<string>, forwarded: nat)
    ensures var inv := PackageInvocation(argv, forwarded);
            inv.Runs? ==> inv.manager in MANAGERS && ScriptName(inv.script)
  {
    hide ScriptName;
  }

  lemma SpelledMeans(manager: string, script: string, arguments: seq<string>, other: nat)
    requires manager in MANAGERS && ScriptName(script)
    ensures PackageInvocation(Spelled(manager, script, arguments), other) == Runs(manager, script, arguments)
  {
    hide ScriptName;
    var again := Spelled(manager, script, arguments);
    assert again[3..] == if arguments == [] then [] else ["--"] + arguments;
    assert arguments != [] ==> again[3..][1..] == arguments;
  }

  /** What is no package invocation is none whatever was forwarded. */
  lemma NotPackageAnyway(argv: seq<string>, forwarded: nat, other: nat)
    ensures PackageInvocation(argv, forwarded).NotPackage? ==> PackageInvocation(argv, other).NotPackage?
  {
  }

  // ---------------------------------------------------------------- which commands are invocations

  /** A script name: letters, digits and ":._-", with a letter or digit at both ends. */
  lemma ScriptNameIs(s: string)
    ensures ScriptName(s) <==>
            && s != "" && s[0] !in ":._-" && s[|s| - 1] !in ":._-"
            && forall i :: 0 <= i < |s| ==> s[i] in ":._-" || 'a' <= s[i] <= 'z' || 'A' <= s[i] <= 'Z'
                                            || '0' <= s[i] <= '9' || s[i] in "\U{017F}\U{212A}"
  {
  }

  /** What follows the script's name, and the arguments it stands for: nothing, arguments
      after "--", or exactly the arguments the caller of this script forwarded. */
  predicate Follows(rest: seq<string>, forwarded: nat, arguments: seq<string>) {
    || (rest == [] && arguments == [])
    || rest == ["--"] + arguments
    || (rest == arguments && rest != [] && rest[0] != "--" && |rest| == forwarded)
  }

  /** Names a package manager runs as a script without "run". */
  predicate RunsByName(manager: string, name: string) {
    || (manager == "npm" && name in {"start", "stop", "test"})
    || ((manager == "pnpm" || manager == "yarn") && name != "run" && !OwnCommand(name))
  }

  /** What pnpm and yarn do themselves. */
  predicate OwnCommand(name: string) {
    name in {"add", "audit", "create", "dedupe", "dlx", "exec", "i", "init", "install", "link", "pack", "patch",
             "publish", "remove", "rm", "store", "up", "update", "why", "x"}
  }

  predicate IsInvocation(argv: seq<string>, forwarded: nat, manager: string, script: string, arguments: seq<string>) {
    && manager in {"npm", "pnpm", "yarn", "bun"} && ScriptName(script) && |argv| >= 2 && argv[0] == manager
    && ((argv[1] == "run" && |argv| >= 3 && argv[2] == script && Follows(argv[3..], forwarded, arguments))
        || (argv[1] == script && RunsByName(manager, script) && Follows(argv[2..], forwarded, arguments)))
  }

  /** A command that is none of a package manager's, or one of its own. */
  predicate RunsNoScript(argv: seq<string>) {
    || |argv| < 2 || argv[0] !in {"npm", "pnpm", "yarn", "bun"} || argv[1] == ""
    || (argv[0] == "npm" && argv[1][0] != '-' && argv[1] !in {"run", "start", "stop", "test"})
    || ((argv[0] == "pnpm" || argv[0] == "yarn") && OwnCommand(argv[1]))
    || (argv[0] == "bun" && argv[1][0] != '-' && argv[1] != "run")
  }

  /** The commands read as invocations, those that run no script, and none both ways. */
  lemma InvocationShapes(argv: seq<string>, forwarded: nat, manager: string, script: string, arguments: seq<string>)
    ensures PackageInvocation(argv, forwarded) == Runs(manager, script, arguments) <==>
            IsInvocation(argv, forwarded, manager, script, arguments)
    ensures PackageInvocation(argv, forwarded) == NotPackage <==> RunsNoScript(argv)
  {
    if |argv| >= 2 {
      OwnCommandIs(argv[1]);
      NameStarts(argv[1]);
      if argv[1] == "run" {
        var (name, rest) := if |argv| >= 3 then (argv[2], argv[3..]) else ("", []);
        ChosenIs(argv[0], name, rest, forwarded, manager, script, arguments);
      } else {
        ChosenIs(argv[0], argv[1], argv[2..], forwarded, manager, script, arguments);
      }
      hide ScriptName, Chosen, Follows, OwnCommand;
    }
  }

  lemma OwnCommandIs(name: string)
    ensures OwnCommand(name) <==> name in SUBCOMMANDS
    ensures OwnCommand(name) ==> name != "" && name[0] != '-' && name != "run"
  {
  }

  lemma NameStarts(name: string)
    ensures name == "" || name[0] == '-' ==> !ScriptName(name)
  {
  }

  lemma ChosenIs(chosen: string, name: string, rest: seq<string>, forwarded: nat, manager: string, script: string,
                 arguments: seq<string>)
    ensures Chosen(chosen, name, rest, forwarded) == Runs(manager, script, arguments) <==>
            chosen == manager && name == script && ScriptName(script) && Follows(rest, forwarded, arguments)
    ensures Chosen(chosen, name, rest, forwarded) != NotPackage
  {
    hide ScriptName;
    assert rest != [] && rest[0] == "--" ==> rest == ["--"] + rest[1..];
    assert rest == ["--"] + arguments ==> rest[1..] == arguments;
  }

  // ---------------------------------------------------------------- scripts

  datatype Phase = Pre | Main | Post

  datatype Definition = Definition(phase: Phase, name: string, body: string, arguments: seq<string>)

  /** The script and, around it, its pre and post scripts where they exist. */
  function Definitions(scripts: map<string, string>, script: string, arguments: seq<string>): seq<Definition>
    requires script in scripts
  {
    var pre, post := "pre" + script, "post" + script;
    (if pre in scripts then [Definition(Pre, pre, scripts[pre], [])] else [])
    + [Definition(Main, script, scripts[script], arguments)]
    + (if post in scripts then [Definition(Post, post, scripts[post], [])] else [])
  }

  /** The caller's arguments go to the last part of the script. */
  function WithArguments(parts: seq<Part>, arguments: seq<string>): seq<Part> {
    if parts == [] then parts else
      var last := parts[|parts| - 1];
      parts[|parts| - 1 := last.(argv := last.argv + arguments)]
  }

  // ---------------------------------------------------------------- entries

  /** A source names its text (the original keeps a digest of it, taken as injective). */
  datatype Source =
    | Request(command: string)
    | Script(manager: string, name: string, phase: Phase, given: seq<string>, body: string)

  datatype Piece = Piece(operator: Operator, argv: seq<string>, expandsTo: seq<nat>)

  datatype Entry = Entry(id: nat, source: Source, parts: seq<Piece>)

  function Fresh(parts: seq<Part>): seq<Piece> {
    seq(|parts|, i requires 0 <= i < |parts| => Piece(parts[i].operator, parts[i].argv, []))
  }

  function Given(source: Source): seq<string> {
    if source.Request? then [] else source.given
  }

  function Text(source: Source): string {
    if source.Request? then source.command else source.body
  }

  /** The parts a source is read as. */
  function Original(source: Source): seq<Part> {
    var parts := Parsed(Text(source));
    if parts.None? then [] else WithArguments(parts.value, Given(source))
  }

  function Forwarded(source: Source, j: nat): nat {
    if j + 1 == |Original(source)| then |Given(source)| else 0
  }

  function InvocationAt(source: Source, j: nat): Invocation
    requires j < |Original(source)|
  {
    PackageInvocation(Original(source)[j].argv, Forwarded(source, j))
  }

  function SourceOf(manager: string, d: Definition): Source {
    Script(manager, d.name, d.phase, d.arguments, d.body)
  }

  /** The entry shows its source, with the first `done` parts in canonical spelling and
      the others not yet expanded. */
  ghost predicate Shows(e: Entry, done: nat) {
    var original := Original(e.source);
    && |e.parts| == |original|
    && forall j :: 0 <= j < |original| ==>
      && e.parts[j].operator == original[j].operator
      && (j < done ==> e.parts[j].argv == Canonical(original[j].argv, Forwarded(e.source, j)))
      && (j >= done ==> e.parts[j].argv == original[j].argv && e.parts[j].expandsTo == [])
  }

  /** The children of a part are exactly the scripts it runs, in order. */
  ghost predicate ListsFrom(entries: seq<Entry>, ids: seq<nat>, manager: string, defs: seq<Definition>) {
    && |ids| <= |defs|
    && forall k :: 0 <= k < |ids| ==> ids[k] < |entries| && entries[ids[k]].source == SourceOf(manager, defs[k])
  }

  ghost predicate Expanded(w: World, entries: seq<Entry>, e: Entry, j: nat)
    requires j < |Original(e.source)| && j < |e.parts|
  {
    match InvocationAt(e.source, j)
    case NotPackage => e.parts[j].expandsTo == []
    case Invalid => false
    case Runs(manager, script, arguments) =>
      && w.scripts.Some? && script in w.scripts.value
      && var defs := Definitions(w.scripts.value, script, arguments);
         |e.parts[j].expandsTo| == |defs| && ListsFrom(entries, e.parts[j].expandsTo, manager, defs)
  }

  ghost predicate Finished(w: World, entries: seq<Entry>, e: Entry) {
    && Shows(e, |e.parts|) && MayShow(w, e.source)
    && forall j :: 0 <= j < |e.parts| ==> Expanded(w, entries, e, j)
  }

  /** The text of a source can be read and may be shown. */
  predicate MayShow(w: World, source: Source) {
    Parsed(Text(source)).Some? && !w.sensitive(Text(source)) && (source.Script? ==> !w.truncated(source.body))
  }

  // ---------------------------------------------------------------- the tree

  datatype Slot = Slot(entry: nat, part: nat, place: nat)

  datatype Key = Key(manager: string, script: string)

  predicate Holds(entries: seq<Entry>, s: Slot, c: nat) {
    && s.entry < |entries| && s.part < |entries[s.entry].parts| && s.place < |entries[s.entry].parts[s.part].expandsTo|
    && entries[s.entry].parts[s.part].expandsTo[s.place] == c
  }

  /** Entries are numbered by position, and slots and entries but the first correspond
      one to one; a slot's entry comes before what it lists. */
  ghost predicate Linked(entries: seq<Entry>, parents: seq<Slot>) {
    && |parents| == |entries| && entries != []
    && (forall c :: 0 <= c < |entries| ==> entries[c].id == c)
    && (forall c :: 0 < c < |entries| ==> parents[c].entry < c && Holds(entries, parents[c], c))
    && (forall s, c: nat :: Holds(entries, s, c) ==> 0 < c < |entries| && parents[c] == s)
  }

  /** The invocation that brought an entry in is the one its slot shows. */
  ghost predicate Keyed(entries: seq<Entry>, parents: seq<Slot>, keys: seq<Key>) {
    |keys| == |parents| == |entries| && forall c :: 0 < c < |entries| ==> Shown(entries, parents[c], keys[c])
  }

  predicate Shown(entries: seq<Entry>, s: Slot, k: Key) {
    && s.entry < |entries| && s.part < |entries[s.entry].parts|
    && var argv := entries[s.entry].parts[s.part].argv;
       |argv| >= 3 && argv[0] == k.manager && argv[2] == k.script
  }

  function PathKeys(parents: seq<Slot>, keys: seq<Key>, c: nat): set<Key> {
    if c == 0 || c >= |parents| || c >= |keys| || parents[c].entry >= c then {}
    else {keys[c]} + PathKeys(parents, keys, parents[c].entry)
  }

  function Depth(parents: seq<Slot>, c: nat): nat {
    if c == 0 || c >= |parents| || parents[c].entry >= c then 0 else 1 + Depth(parents, parents[c].entry)
  }

  /** No entry was brought in by an invocation already on the path above it. */
  ghost predicate Unrepeated(parents: seq<Slot>, keys: seq<Key>) {
    forall c :: 0 < c < |parents| && c < |keys| ==> keys[c] !in PathKeys(parents, keys, parents[c].entry)
  }

  ghost predicate Sound(entries: seq<Entry>, parents: seq<Slot>, keys: seq<Key>) {
    && Linked(entries, parents) && Keyed(entries, parents, keys) && Unrepeated(parents, keys)
    && |entries| <= MAXIMUM_ENTRIES
  }

  /** Each entry but the first is listed exactly once, by an entry before it. */
  lemma ListedOnce(entries: seq<Entry>, parents: seq<Slot>, c: nat)
    requires Linked(entries, parents) && 0 < c < |entries|
    ensures exists s :: Holds(entries, s, c) && s.entry < c
    ensures forall s, t :: Holds(entries, s, c) && Holds(entries, t, c) ==> s == t
  {
    assert Holds(entries, parents[c], c);
  }

  lemma {:induction false} PathStable(parents: seq<Slot>, keys: seq<Key>, parents': seq<Slot>, keys': seq<Key>, c: nat)
    requires parents <= parents' && keys <= keys' && |parents| == |keys| && c < |parents|
    ensures PathKeys(parents', keys', c) == PathKeys(parents, keys, c)
    ensures Depth(parents', c) == Depth(parents, c)
  {
    if 0 < c && parents[c].entry < c {
      PathStable(parents, keys, parents', keys', parents[c].entry);
    }
  }

  // ---------------------------------------------------------------- when it succeeds

  datatype Reason = SensitiveContent | UnsupportedSyntax | PackageScriptUnresolved

  /** Whether an expansion goes through, and the number of entries there are then. */
  datatype Verdict = Fail(reason: Reason) | Used(entries: nat)

  function EntryVerdict(w: World, source: Source, ancestors: set<Key>, depth: nat, used: nat): Verdict
    decreases MAXIMUM_DEPTH + 2 - depth, 2, 0, 0
  {
    if depth > MAXIMUM_DEPTH then Fail(PackageScriptUnresolved) else PartsVerdict(w, source, 0, ancestors, depth, used)
  }

  function PartsVerdict(w: World, source: Source, j: nat, ancestors: set<Key>, depth: nat, used: nat): Verdict
    requires depth <= MAXIMUM_DEPTH && j <= |Original(source)|
    decreases MAXIMUM_DEPTH + 2 - depth, 1, |Original(source)| - j, 1
  {
    if j == |Original(source)| then Used(used) else
      var v := PartVerdict(w, source, j, ancestors, depth, used);
      if v.Fail? then v else PartsVerdict(w, source, j + 1, ancestors, depth, v.entries)
  }

  function PartVerdict(w: World, source: Source, j: nat, ancestors: set<Key>, depth: nat, used: nat): Verdict
    requires depth <= MAXIMUM_DEPTH && j < |Original(source)|
    decreases MAXIMUM_DEPTH + 2 - depth, 1, |Original(source)| - j, 0
  {
    match InvocationAt(source, j)
    case NotPackage => Used(used)
    case Invalid => Fail(PackageScriptUnresolved)
    case Runs(manager, script, arguments) =>
      var key := Key(manager, script);
      if w.scripts.None? || key in ancestors || script !in w.scripts.value then Fail(PackageScriptUnresolved)
      else
        var defs := Definitions(w.scripts.value, script, arguments);
        ScriptsVerdict(w, manager, defs, 0, ancestors + {key}, depth, used)
  }

  function ScriptsVerdict(w: World, manager: string, defs: seq<Definition>, k: nat, ancestors: set<Key>,
                          depth: nat, used: nat): Verdict
    requires depth <= MAXIMUM_DEPTH && k <= |defs|
    decreases MAXIMUM_DEPTH + 2 - depth, 0, |defs| - k, 1
  {
    if k == |defs| then Used(used) else
      var v := ScriptVerdict(w, manager, defs[k], ancestors, depth, used);
      if v.Fail? then v else ScriptsVerdict(w, manager, defs, k + 1, ancestors, depth, v.entries)
  }

  function ScriptVerdict(w: World, manager: string, d: Definition, ancestors: set<Key>, depth: nat, used: nat): Verdict
    requires depth <= MAXIMUM_DEPTH
    decreases MAXIMUM_DEPTH + 2 - depth, 0, 0, 0
  {
    if used >= MAXIMUM_ENTRIES then Fail(PackageScriptUnresolved)
    else if w.sensitive(d.body) then Fail(SensitiveContent)
    else if w.truncated(d.body) then Fail(PackageScriptUnresolved)
    else if Parsed(d.body).None? then Fail(UnsupportedSyntax)
    else EntryVerdict(w, SourceOf(manager, d), ancestors, depth + 1, used + 1)
  }

  lemma EntryIs(w: World, source: Source, ancestors: set<Key>, depth: nat, used: nat)
    ensures depth > MAXIMUM_DEPTH ==> EntryVerdict(w, source, ancestors, depth, used) == Fail(PackageScriptUnresolved)
    ensures depth <= MAXIMUM_DEPTH ==>
      EntryVerdict(w, source, ancestors, depth, used) == PartsVerdict(w, source, 0, ancestors, depth, used)
  {
    hide PartsVerdict;
  }

  lemma PartsIs(w: World, source: Source, j: nat, ancestors: set<Key>, depth: nat, used: nat)
    requires depth <= MAXIMUM_DEPTH && j <= |Original(source)|
    ensures j == |Original(source)| ==> PartsVerdict(w, source, j, ancestors, depth, used) == Used(used)
    ensures j < |Original(source)| ==>
      var v := PartVerdict(w, source, j, ancestors, depth, used);
      PartsVerdict(w, source, j, ancestors, depth, used) ==
        if v.Fail? then v else PartsVerdict(w, source, j + 1, ancestors, depth, v.entries)
  {
    hide PartVerdict, Original;
  }

  lemma ScriptsIs(w: World, manager: string, defs: seq<Definition>, k: nat, ancestors: set<Key>, depth: nat, used: nat)
    requires depth <= MAXIMUM_DEPTH && k <= |defs|
    ensures k == |defs| ==> ScriptsVerdict(w, manager, defs, k, ancestors, depth, used) == Used(used)
    ensures k < |defs| ==>
      var v := ScriptVerdict(w, manager, defs[k], ancestors, depth, used);
      ScriptsVerdict(w, manager, defs, k, ancestors, depth, used) ==
        if v.Fail? then v else ScriptsVerdict(w, manager, defs, k + 1, ancestors, depth, v.entries)
  {
    hide ScriptVerdict;
  }

  // ---------------------------------------------------------------- steps of the expansion

  /** What an expansion of entry `id` may change: that entry's parts, and new entries. */
  ghost predicate Extends(before: seq<Entry>, after: seq<Entry>, id: nat) {
    && |before| <= |after|
    && (forall c :: 0 <= c < |before| && c != id ==> after[c] == before[c])
    && (id < |before| ==> after[id].source == before[id].source)
  }

  lemma ExtendsAgain(a: seq<Entry>, b: seq<Entry>, c: seq<Entry>, id: nat, other: nat)
    requires Extends(a, b, id) && Extends(b, c, other) && (other == id || other >= |a|)
    ensures Extends(a, c, id)
  {
  }

  /** Sources never change, so what is finished stays finished. */
  lemma FinishedStays(w: World, before: seq<Entry>, after: seq<Entry>, id: nat, e: Entry)
    requires Extends(before, after, id) && Finished(w, before, e)
    ensures Finished(w, after, e)
  {
    assert |e.parts| == |Original(e.source)|;
    hide Shows, InvocationAt, Definitions, Original;
    forall j | 0 <= j < |e.parts| ensures Expanded(w, after, e, j) {
      assert Expanded(w, before, e, j);
    }
  }

  function SetPart(entries: seq<Entry>, id: nat, j: nat, piece: Piece): seq<Entry>
    requires id < |entries| && j < |entries[id].parts|
  {
    entries[id := entries[id].(parts := entries[id].parts[j := piece])]
  }

  /** Respelling a part that lists nothing yet. */
  lemma RespellSound(entries: seq<Entry>, parents: seq<Slot>, keys: seq<Key>, id: nat, j: nat, argv: seq<string>)
    requires Sound(entries, parents, keys) && id < |entries| && j < |entries[id].parts|
    requires entries[id].parts[j].expandsTo == []
    ensures Sound(SetPart(entries, id, j, entries[id].parts[j].(argv := argv)), parents, keys)
  {
    hide Unrepeated;
    var after := SetPart(entries, id, j, entries[id].parts[j].(argv := argv));
    forall s, c: nat ensures Holds(after, s, c) <==> Holds(entries, s, c) {}
    assert Linked(after, parents);
    forall c | 0 < c < |entries| ensures Shown(after, parents[c], keys[c]) {
      assert Holds(entries, parents[c], c) && Shown(entries, parents[c], keys[c]);
    }
  }

  /** Pushing an entry and listing it in part `j` of entry `id`. */
  function Listed(entries: seq<Entry>, id: nat, j: nat, e: Entry): seq<Entry>
    requires id < |entries| && j < |entries[id].parts|
  {
    SetPart(entries, id, j, entries[id].parts[j].(expandsTo := entries[id].parts[j].expandsTo + [|entries|])) + [e]
  }

  lemma ListedLinked(entries: seq<Entry>, parents: seq<Slot>, id: nat, j: nat, e: Entry)
    requires Linked(entries, parents) && id < |entries| && j < |entries[id].parts|
    requires e.id == |entries| && forall i :: 0 <= i < |e.parts| ==> e.parts[i].expandsTo == []
    ensures Linked(Listed(entries, id, j, e), parents + [Slot(id, j, |entries[id].parts[j].expandsTo|)])
  {
    var after := Listed(entries, id, j, e);
    var slot := Slot(id, j, |entries[id].parts[j].expandsTo|);
    var all := parents + [slot];
    assert Holds(after, slot, |entries|);
    forall c | 0 < c < |after| ensures all[c].entry < c && Holds(after, all[c], c) {
      if c < |entries| { assert Holds(entries, parents[c], c); }
    }
    forall s, c: nat | Holds(after, s, c) ensures 0 < c < |after| && all[c] == s {
      assert s == slot || Holds(entries, s, c);
    }
  }

  lemma ListedSound(entries: seq<Entry>, parents: seq<Slot>, keys: seq<Key>, id: nat, j: nat, e: Entry, k: Key)
    requires Sound(entries, parents, keys) && id < |entries| && j < |entries[id].parts| && |entries| < MAXIMUM_ENTRIES
    requires e.id == |entries| && forall i :: 0 <= i < |e.parts| ==> e.parts[i].expandsTo == []
    requires var argv := entries[id].parts[j].argv; |argv| >= 3 && argv[0] == k.manager && argv[2] == k.script
    requires k !in PathKeys(parents, keys, id)
    ensures var slot := Slot(id, j, |entries[id].parts[j].expandsTo|);
            && Sound(Listed(entries, id, j, e), parents + [slot], keys + [k])
            && PathKeys(parents + [slot], keys + [k], |entries|) == PathKeys(parents, keys, id) + {k}
            && Depth(parents + [slot], |entries|) == Depth(parents, id) + 1
  {
    var slot := Slot(id, j, |entries[id].parts[j].expandsTo|);
    ListedLinked(entries, parents, id, j, e);
    var after, all, known := Listed(entries, id, j, e), parents + [slot], keys + [k];
    forall c: nat | c < |parents|
      ensures PathKeys(all, known, c) == PathKeys(parents, keys, c) && Depth(all, c) == Depth(parents, c)
    {
      PathStable(parents, keys, all, known, c);
    }
    assert all[|entries|] == slot && known[|entries|] == k;
    forall c | 0 < c < |after|
      ensures Shown(after, all[c], known[c]) && known[c] !in PathKeys(all, known, all[c].entry)
    {
      if c < |entries| { assert Shown(entries, parents[c], keys[c]) && parents[c].entry < c; }
    }
  }

  // ---------------------------------------------------------------- the expansion

  ghost predicate FinishedFrom(w: World, entries: seq<Entry>, parents: seq<Slot>, from: nat) {
    forall c: nat :: from <= c < |entries| ==> Finished(w, entries, entries[c]) && Depth(parents, c) <= MAXIMUM_DEPTH
  }

  lemma {:induction false} DepthStable(parents: seq<Slot>, parents': seq<Slot>, c: nat)
    requires parents <= parents' && c < |parents|
    ensures Depth(parents', c) == Depth(parents, c)
  {
    if 0 < c && parents[c].entry < c { DepthStable(parents, parents', parents[c].entry); }
  }

  /** A later expansion of an earlier entry leaves the finished ones finished. */
  lemma FinishedFromJoin(w: World, a: seq<Entry>, aParents: seq<Slot>, b: seq<Entry>, bParents: seq<Slot>,
                         id: nat, from: nat)
    requires FinishedFrom(w, a, aParents, from) && Extends(a, b, id) && id < from && |a| == |aParents|
    requires aParents <= bParents
    requires FinishedFrom(w, b, bParents, |a|)
    ensures FinishedFrom(w, b, bParents, from)
  {
    hide Finished;
    forall c: nat | from <= c < |a| ensures Finished(w, b, b[c]) && Depth(bParents, c) <= MAXIMUM_DEPTH {
      FinishedStays(w, a, b, id, a[c]);
      DepthStable(aParents, bParents, c);
    }
  }

  /** `before` with another list of children in one part of one entry. */
  ghost predicate OnlyPart(before: Entry, after: Entry, j: nat) {
    && after.source == before.source && after.id == before.id && |after.parts| == |before.parts|
    && forall i :: 0 <= i < |before.parts| && i != j ==> after.parts[i] == before.parts[i]
  }

  /** What a successful expansion within entry `id` leaves of an earlier state. */
  ghost predicate Grown(w: World, id: nat, a: seq<Entry>, aParents: seq<Slot>, aKeys: seq<Key>,
                        b: seq<Entry>, bParents: seq<Slot>, bKeys: seq<Key>)
  {
    && Sound(b, bParents, bKeys) && Extends(a, b, id) && aParents <= bParents && aKeys <= bKeys
    && id < |a| && |aParents| == |aKeys| == |a| && FinishedFrom(w, b, bParents, |a|)
  }

  /** The entry itself, with `j` of its parts done. */
  ghost predicate Partway(w: World, entries: seq<Entry>, id: nat, source: Source, j: nat) {
    && id < |entries| && entries[id].source == source && j <= |entries[id].parts| == |Original(source)|
    && Shows(entries[id], j) && ExpandedUpTo(w, entries, entries[id], j)
  }

  ghost predicate PartDone(w: World, before: seq<Entry>, after: seq<Entry>, id: nat, j: nat) {
    && id < |before| && id < |after| && j < |after[id].parts| == |Original(after[id].source)|
    && OnlyPart(before[id], after[id], j) && Shows(after[id], j + 1) && Expanded(w, after, after[id], j)
  }

  lemma GrownStart(w: World, entries: seq<Entry>, parents: seq<Slot>, keys: seq<Key>, id: nat)
    requires Sound(entries, parents, keys) && id < |entries| && Shows(entries[id], 0)
    ensures Grown(w, id, entries, parents, keys, entries, parents, keys)
    ensures Partway(w, entries, id, entries[id].source, 0)
  {
    hide Original;
  }

  /** Two expansions within one entry, one after the other. */
  lemma GrownThen(w: World, id: nat, a: seq<Entry>, aParents: seq<Slot>, aKeys: seq<Key>,
                  b: seq<Entry>, bParents: seq<Slot>, bKeys: seq<Key>,
                  c: seq<Entry>, cParents: seq<Slot>, cKeys: seq<Key>)
    requires Grown(w, id, a, aParents, aKeys, b, bParents, bKeys)
    requires Grown(w, id, b, bParents, bKeys, c, cParents, cKeys)
    ensures Grown(w, id, a, aParents, aKeys, c, cParents, cKeys)
    ensures PathKeys(cParents, cKeys, id) == PathKeys(bParents, bKeys, id) && Depth(cParents, id) == Depth(bParents, id)
  {
    hide Sound, FinishedFrom;
    ExtendsAgain(a, b, c, id, id);
    FinishedFromJoin(w, b, bParents, c, cParents, id, |a|);
    PathStable(bParents, bKeys, cParents, cKeys, id);
  }

  lemma PartwayNext(w: World, before: seq<Entry>, after: seq<Entry>, id: nat, source: Source, j: nat)
    requires Partway(w, before, id, source, j) && PartDone(w, before, after, id, j) && Extends(before, after, id)
    ensures Partway(w, after, id, source, j + 1)
  {
    hide Shows, Expanded;
    UpToNext(w, before, after, id, j);
  }

  lemma PartwayEnd(w: World, entries: seq<Entry>, id: nat, source: Source)
    requires Partway(w, entries, id, source, |Original(source)|) && MayShow(w, source)
    ensures Finished(w, entries, entries[id])
  {
    hide Shows, Expanded, Original, MayShow;
  }

  lemma PartwayParts(w: World, entries: seq<Entry>, id: nat, source: Source, j: nat)
    requires Partway(w, entries, id, source, j)
    ensures id < |entries| && entries[id].source == source && j <= |entries[id].parts| == |Original(source)|
    ensures Shows(entries[id], j)
  {
  }

  lemma GrownFacts(w: World, id: nat, a: seq<Entry>, aParents: seq<Slot>, aKeys: seq<Key>,
                   b: seq<Entry>, bParents: seq<Slot>, bKeys: seq<Key>)
    requires Grown(w, id, a, aParents, aKeys, b, bParents, bKeys)
    ensures Sound(b, bParents, bKeys) && Extends(a, b, id)
  {
  }

  /** The entries grow and are rewritten as the expansion goes; `parents` and `keys` are
      what its call stack knows of each entry. */
  class Resolver {
    const w: World
    var entries: seq<Entry>
    ghost var parents: seq<Slot>
    ghost var keys: seq<Key>

    ghost predicate Valid()
      reads this
    {
      Sound(entries, parents, keys)
    }

    constructor (w: World, command: string)
      requires Parsed(command).Some?
      ensures Valid() && this.w == w && |entries| == 1 && entries[0].source == Request(command) && Shows(entries[0], 0)
      ensures PathKeys(parents, keys, 0) == {} && Depth(parents, 0) == 0
    {
      this.w := w;
      entries := [Entry(0, Request(command), Fresh(Original(Request(command))))];
      parents := [Slot(0, 0, 0)];
      keys := [Key("", "")];
      new;
      FreshShows(Request(command), 0);
      hide Original;
    }

    ghost predicate Agrees(v: Verdict, failure: Option<Reason>)
      reads this
    {
      if v.Fail? then failure == Some(v.reason) else failure == None && |entries| == v.entries
    }

    /** One script a part runs: a new entry, listed last in that part and expanded. */
    method AddScript(id: nat, j: nat, manager: string, script: string, d: Definition, ancestors: set<Key>,
                     depth: nat) returns (failure: Option<Reason>)
      requires Valid() && id < |entries| && j < |entries[id].parts| && depth == Depth(parents, id)
      requires depth <= MAXIMUM_DEPTH
      requires var argv := entries[id].parts[j].argv; |argv| >= 3 && argv[0] == manager && argv[2] == script
      requires Key(manager, script) !in PathKeys(parents, keys, id)
      requires ancestors == PathKeys(parents, keys, id) + {Key(manager, script)}
      modifies this
      ensures Agrees(ScriptVerdict(w, manager, d, ancestors, depth, |old(entries)|), failure)
      ensures failure.None? ==> Grown(w, id, old(entries), old(parents), old(keys), entries, parents, keys)
      ensures failure.None? ==>
        && |old(entries)| < |entries| && entries[|old(entries)|].source == SourceOf(manager, d)
        && OnlyPart(old(entries)[id], entries[id], j)
        && entries[id].parts[j] ==
            old(entries)[id].parts[j].(expandsTo := old(entries)[id].parts[j].expandsTo + [|old(entries)|])
      decreases MAXIMUM_DEPTH + 2 - depth, 0
    {
      hide Finished, Shows, Original, Parsed, EntryVerdict, Sound;
      hide PathKeys, Depth, Extends, FinishedFrom, WithArguments, Listed;
      if |entries| >= MAXIMUM_ENTRIES { return Some(PackageScriptUnresolved); }
      if w.sensitive(d.body) { return Some(SensitiveContent); }
      if w.truncated(d.body) { return Some(PackageScriptUnresolved); }
      var parsed := Parsed(d.body);
      if parsed.None? { return Some(UnsupportedSyntax); }
      ghost var before := entries;
      var child := Push(id, j, manager, script, d, Fresh(WithArguments(parsed.value, d.arguments)));
      ghost var mid, midParents, midKeys := entries, parents, keys;
      failure := Expand(child, ancestors, depth + 1);
      if failure.None? {
        PushedThen(w, before, id, j, mid, entries, parents);
        GrownFacts(w, child, mid, midParents, midKeys, entries, parents, keys);
      }
    }

    /** The new entry itself. */
    method Push(id: nat, j: nat, manager: string, script: string, d: Definition, parts: seq<Piece>) returns (child: nat)
      requires Valid() && id < |entries| && j < |entries[id].parts| && |entries| < MAXIMUM_ENTRIES
      requires Parsed(d.body).Some? && parts == Fresh(WithArguments(Parsed(d.body).value, d.arguments))
      requires var argv := entries[id].parts[j].argv; |argv| >= 3 && argv[0] == manager && argv[2] == script
      requires Key(manager, script) !in PathKeys(parents, keys, id)
      modifies this
      ensures Valid() && child == |old(entries)| && |entries| == child + 1 && Shows(entries[child], 0)
      ensures entries == Listed(old(entries), id, j, entries[child]) && entries[child].source == SourceOf(manager, d)
      ensures PathKeys(parents, keys, child) == PathKeys(old(parents), old(keys), id) + {Key(manager, script)}
      ensures Depth(parents, child) == Depth(old(parents), id) + 1
      ensures old(parents) <= parents && old(keys) <= keys && |old(parents)| == |old(keys)| == |old(entries)|
    {
      child := |entries|;
      var source := SourceOf(manager, d);
      var e := Entry(child, source, parts);
      OriginalOf(source, Parsed(d.body).value);
      FreshShows(source, child);
      ListedSound(entries, parents, keys, id, j, e, Key(manager, script));
      SoundSizes(entries, parents, keys);
      hide Sound, Shows, Original, Parsed, PathKeys, Depth, WithArguments;
      parents, keys := parents + [Slot(id, j, |entries[id].parts[j].expandsTo|)], keys + [Key(manager, script)];
      entries := Listed(entries, id, j, e);
    }

    method Expand(id: nat, ancestors: set<Key>, depth: nat) returns (failure: Option<Reason>)
      requires Valid() && id < |entries| && Shows(entries[id], 0) && MayShow(w, entries[id].source)
      requires ancestors == PathKeys(parents, keys, id) && depth == Depth(parents, id) && depth <= MAXIMUM_DEPTH + 1
      modifies this
      ensures Agrees(EntryVerdict(w, old(entries)[id].source, ancestors, depth, |old(entries)|), failure)
      ensures failure.None? ==> Grown(w, id, old(entries), old(parents), old(keys), entries, parents, keys)
      ensures failure.None? ==>
        id < |entries| && Finished(w, entries, entries[id]) && Depth(parents, id) <= MAXIMUM_DEPTH
      decreases MAXIMUM_DEPTH + 2 - depth, 3
    {
      hide EntryVerdict, PartsVerdict;
      EntryIs(w, entries[id].source, ancestors, depth, |entries|);
      if depth > MAXIMUM_DEPTH { return Some(PackageScriptUnresolved); }
      hide Sound, PathKeys, Depth, Grown, Partway, PartDone, PartVerdict, Shows, Finished, Original, Extends, MayShow;
      ghost var source := entries[id].source;
      ghost var total := PartsVerdict(w, source, 0, ancestors, depth, |entries|);
      GrownStart(w, entries, parents, keys, id);
      PartwayParts(w, entries, id, source, 0);
      var j := 0;
      while j < |entries[id].parts|
        invariant id < |entries| && j <= |entries[id].parts| == |Original(source)|
        invariant Grown(w, id, old(entries), old(parents), old(keys), entries, parents, keys)
        invariant Partway(w, entries, id, source, j)
        invariant depth == Depth(parents, id) && ancestors == PathKeys(parents, keys, id)
        invariant PartsVerdict(w, source, j, ancestors, depth, |entries|) == total
        decreases |Original(source)| - j
      {
        ghost var entries1, parents1, keys1 := entries, parents, keys;
        PartwayParts(w, entries, id, source, j);
        GrownFacts(w, id, old(entries), old(parents), old(keys), entries, parents, keys);
        PartsIs(w, source, j, ancestors, depth, |entries|);
        failure := ExpandPart(id, j, ancestors, depth);
        if failure.Some? { return; }
        GrownThen(w, id, old(entries), old(parents), old(keys), entries1, parents1, keys1, entries, parents, keys);
        GrownFacts(w, id, entries1, parents1, keys1, entries, parents, keys);
        PartwayNext(w, entries1, entries, id, source, j);
        j := j + 1;
        PartwayParts(w, entries, id, source, j);
      }
      failure := None;
      PartsIs(w, source, j, ancestors, depth, |entries|);
      PartwayEnd(w, entries, id, source);
    }

    /** One part: nothing to do, or the scripts it runs. */
    method ExpandPart(id: nat, j: nat, ancestors: set<Key>, depth: nat) returns (failure: Option<Reason>)
      requires Valid() && id < |entries| && j < |entries[id].parts| && Shows(entries[id], j) && depth <= MAXIMUM_DEPTH
      requires |entries[id].parts| == |Original(entries[id].source)|
      requires ancestors == PathKeys(parents, keys, id) && depth == Depth(parents, id)
      modifies this
      ensures Agrees(PartVerdict(w, old(entries)[id].source, j, ancestors, depth, |old(entries)|), failure)
      ensures failure.None? ==> Grown(w, id, old(entries), old(parents), old(keys), entries, parents, keys)
      ensures failure.None? ==> PartDone(w, old(entries), entries, id, j)
      decreases MAXIMUM_DEPTH + 2 - depth, 2
    {
      hide Sound, PathKeys, Depth, Grown, PartDone, Shows, Original, Extends, ScriptsVerdict, PackageInvocation;
      ghost var source := entries[id].source;
      PieceIs(entries[id], j);
      var argv := entries[id].parts[j].argv;
      var forwarded := if j == |entries[id].parts| - 1 then |Given(entries[id].source)| else 0;
      var invocation := PackageInvocation(argv, forwarded);
      assert invocation == InvocationAt(source, j);
      if invocation.Invalid? { return Some(PackageScriptUnresolved); }
      if invocation.NotPackage? {
        NothingToRun(w, entries, parents, keys, id, j);
        return None;
      }
      if w.scripts.None? { return Some(PackageScriptUnresolved); }
      var key := Key(invocation.manager, invocation.script);
      if key in ancestors || invocation.script !in w.scripts.value { return Some(PackageScriptUnresolved); }
      failure := ExpandScripts(id, j, invocation.manager, invocation.script, invocation.arguments,
                               Definitions(w.scripts.value, invocation.script, invocation.arguments),
                               ancestors + {key}, depth);
      if failure.None? {
        ScriptsRun(w, old(entries), entries, id, j);
      }
    }

    /** The scripts a part runs, one after the other. */
    method ExpandScripts(id: nat, j: nat, manager: string, script: string, arguments: seq<string>,
                         defs: seq<Definition>, ancestors: set<Key>, depth: nat) returns (failure: Option<Reason>)
      requires Valid() && id < |entries| && j < |entries[id].parts| && depth == Depth(parents, id)
      requires depth <= MAXIMUM_DEPTH
      requires entries[id].parts[j].expandsTo == []
      requires Key(manager, script) !in PathKeys(parents, keys, id)
      requires ancestors == PathKeys(parents, keys, id) + {Key(manager, script)}
      modifies this
      ensures Agrees(ScriptsVerdict(w, manager, defs, 0, ancestors, depth, |old(entries)|), failure)
      ensures failure.None? ==> Grown(w, id, old(entries), old(parents), old(keys), entries, parents, keys)
      ensures failure.None? ==>
        Lists(old(entries), entries, id, j, Spelled(manager, script, arguments), manager, defs, |defs|)
      decreases MAXIMUM_DEPTH + 2 - depth, 1
    {
      hide Sound, PathKeys, Depth, Grown, Lists, Spelled, ScriptsVerdict, ScriptVerdict, Extends, SetPart;
      ghost var total := ScriptsVerdict(w, manager, defs, 0, ancestors, depth, |entries|);
      var argv := Spelled(manager, script, arguments);
      Respelled(w, entries, parents, keys, id, j, argv, manager, defs);
      entries := SetPart(entries, id, j, entries[id].parts[j].(argv := argv));
      var k := 0;
      while k < |defs|
        invariant k <= |defs| && Grown(w, id, old(entries), old(parents), old(keys), entries, parents, keys)
        invariant Lists(old(entries), entries, id, j, argv, manager, defs, k)
        invariant depth == Depth(parents, id) && ancestors == PathKeys(parents, keys, id) + {Key(manager, script)}
        invariant Key(manager, script) !in PathKeys(parents, keys, id)
        invariant ScriptsVerdict(w, manager, defs, k, ancestors, depth, |entries|) == total
      {
        ghost var entries1, parents1, keys1 := entries, parents, keys;
        ListsFacts(old(entries), entries, id, j, manager, script, arguments, defs, k);
        GrownFacts(w, id, old(entries), old(parents), old(keys), entries, parents, keys);
        ScriptsIs(w, manager, defs, k, ancestors, depth, |entries|);
        failure := AddScript(id, j, manager, script, defs[k], ancestors, depth);
        if failure.Some? { return; }
        GrownThen(w, id, old(entries), old(parents), old(keys), entries1, parents1, keys1, entries, parents, keys);
        GrownFacts(w, id, entries1, parents1, keys1, entries, parents, keys);
        ListsNext(old(entries), entries1, entries, id, j, argv, manager, defs, k);
        k := k + 1;
      }
      failure := None;
      ScriptsIs(w, manager, defs, k, ancestors, depth, |entries|);
    }
  }

  ghost predicate ExpandedUpTo(w: World, entries: seq<Entry>, e: Entry, j: nat)
    requires |e.parts| == |Original(e.source)|
  {
    forall i :: 0 <= i < j && i < |e.parts| ==> Expanded(w, entries, e, i)
  }

  lemma UpToNext(w: World, before: seq<Entry>, after: seq<Entry>, id: nat, j: nat)
    requires id < |before| && Extends(before, after, id) && OnlyPart(before[id], after[id], j)
    requires j < |before[id].parts| == |Original(before[id].source)| && ExpandedUpTo(w, before, before[id], j)
    requires Expanded(w, after, after[id], j)
    ensures ExpandedUpTo(w, after, after[id], j + 1)
  {
    hide InvocationAt, Definitions, Original;
    forall i | 0 <= i < j + 1 && i < |after[id].parts| ensures Expanded(w, after, after[id], i) {
      if i < j { assert Expanded(w, before, before[id], i); }
    }
  }

  /** Part `j` was respelled and lists the first `k` scripts. */
  ghost predicate Lists(before: seq<Entry>, after: seq<Entry>, id: nat, j: nat, argv: seq<string>,
                        manager: string, defs: seq<Definition>, k: nat) {
    && id < |before| && id < |after| && j < |before[id].parts| && OnlyPart(before[id], after[id], j)
    && after[id].parts[j].operator == before[id].parts[j].operator && after[id].parts[j].argv == argv
    && |after[id].parts[j].expandsTo| == k <= |defs| && ListsFrom(after, after[id].parts[j].expandsTo, manager, defs)
  }

  lemma Respelled(w: World, entries: seq<Entry>, parents: seq<Slot>, keys: seq<Key>, id: nat, j: nat,
                  argv: seq<string>, manager: string, defs: seq<Definition>)
    requires Sound(entries, parents, keys) && id < |entries| && j < |entries[id].parts|
    requires entries[id].parts[j].expandsTo == []
    ensures var after := SetPart(entries, id, j, entries[id].parts[j].(argv := argv));
            && |after| == |entries| && Grown(w, id, entries, parents, keys, after, parents, keys)
            && Lists(entries, after, id, j, argv, manager, defs, 0)
  {
    RespellSound(entries, parents, keys, id, j, argv);
    hide Unrepeated, Keyed, Linked;
  }

  lemma ListsFacts(before: seq<Entry>, after: seq<Entry>, id: nat, j: nat, manager: string, script: string,
                   arguments: seq<string>, defs: seq<Definition>, k: nat)
    requires Lists(before, after, id, j, Spelled(manager, script, arguments), manager, defs, k)
    ensures id < |after| && j < |after[id].parts|
    ensures var argv := after[id].parts[j].argv; |argv| >= 3 && argv[0] == manager && argv[2] == script
  {
  }

  lemma ListsNext(a: seq<Entry>, b: seq<Entry>, c: seq<Entry>, id: nat, j: nat, argv: seq<string>,
                  manager: string, defs: seq<Definition>, k: nat)
    requires Lists(a, b, id, j, argv, manager, defs, k) && k < |defs| && Extends(b, c, id)
    requires |b| < |c| && c[|b|].source == SourceOf(manager, defs[k]) && OnlyPart(b[id], c[id], j)
    requires c[id].parts[j] == b[id].parts[j].(expandsTo := b[id].parts[j].expandsTo + [|b|])
    ensures Lists(a, c, id, j, argv, manager, defs, k + 1)
  {
    forall i | 0 <= i < k + 1
      ensures c[id].parts[j].expandsTo[i] < |c| && c[c[id].parts[j].expandsTo[i]].source == SourceOf(manager, defs[i])
    {
      if i < k { assert b[id].parts[j].expandsTo[i] < |b|; }
    }
  }

  lemma PieceIs(e: Entry, j: nat)
    requires Shows(e, j) && j < |e.parts|
    ensures |e.parts| == |Original(e.source)| && e.parts[j].argv == Original(e.source)[j].argv
    ensures e.parts[j].expandsTo == []
  {
    hide Original;
  }

  lemma NothingToRun(w: World, entries: seq<Entry>, parents: seq<Slot>, keys: seq<Key>, id: nat, j: nat)
    requires Sound(entries, parents, keys) && id < |entries| && Shows(entries[id], j)
    requires j < |entries[id].parts| == |Original(entries[id].source)|
    requires InvocationAt(entries[id].source, j).NotPackage?
    ensures Grown(w, id, entries, parents, keys, entries, parents, keys) && PartDone(w, entries, entries, id, j)
  {
    hide Original, PackageInvocation;
  }

  lemma ScriptsRun(w: World, before: seq<Entry>, after: seq<Entry>, id: nat, j: nat)
    requires id < |before| && Shows(before[id], j) && j < |before[id].parts| == |Original(before[id].source)|
    requires w.scripts.Some? && InvocationAt(before[id].source, j).Runs?
    requires var inv := InvocationAt(before[id].source, j);
             && inv.script in w.scripts.value
             && var defs := Definitions(w.scripts.value, inv.script, inv.arguments);
                Lists(before, after, id, j, Spelled(inv.manager, inv.script, inv.arguments), inv.manager, defs, |defs|)
    ensures PartDone(w, before, after, id, j)
  {
    hide Original, PackageInvocation, Definitions, Spelled, ListsFrom;
  }

  lemma OriginalOf(source: Source, parts: seq<Part>)
    requires source.Script? && Parsed(source.body) == Some(parts)
    ensures Original(source) == WithArguments(parts, source.given)
  {
  }

  lemma SoundSizes(entries: seq<Entry>, parents: seq<Slot>, keys: seq<Key>)
    requires Sound(entries, parents, keys)
    ensures |parents| == |keys| == |entries|
  {
  }

  /** Pushing an entry and expanding it, seen from the entry that lists it. */
  lemma PushedThen(w: World, before: seq<Entry>, id: nat, j: nat, mid: seq<Entry>, after: seq<Entry>,
                   parents: seq<Slot>)
    requires id < |before| && j < |before[id].parts| && |mid| == |before| + 1
    requires mid == Listed(before, id, j, mid[|before|])
    requires Extends(mid, after, |before|) && FinishedFrom(w, after, parents, |mid|)
    requires |before| < |after| && Finished(w, after, after[|before|]) && Depth(parents, |before|) <= MAXIMUM_DEPTH
    ensures Extends(before, after, id) && FinishedFrom(w, after, parents, |before|) && |before| < |after|
    ensures OnlyPart(before[id], after[id], j) && after[|before|].source == mid[|before|].source
    ensures after[id].parts[j] == before[id].parts[j].(expandsTo := before[id].parts[j].expandsTo + [|before|])
  {
    hide Finished;
    ListedExtends(before, id, j, mid[|before|]);
    ExtendsAgain(before, mid, after, id, |before|);
    assert after[id] == mid[id];
  }

  lemma ListedExtends(entries: seq<Entry>, id: nat, j: nat, e: Entry)
    requires id < |entries| && j < |entries[id].parts|
    ensures Extends(entries, Listed(entries, id, j, e), id)
  {
  }

  lemma FreshShows(source: Source, id: nat)
    ensures Shows(Entry(id, source, Fresh(Original(source))), 0)
  {
  }

  // ---------------------------------------------------------------- what a resolved command shows

  /** A part with what the script's caller forwarded at the end of the last one. */
  function Argv(source: Source, parts: seq<Part>, j: nat): seq<string>
    requires j < |parts|
  {
    if j == |parts| - 1 && source.Script? then parts[j].argv + source.given else parts[j].argv
  }

  function Extra(source: Source, parts: seq<Part>, j: nat): nat {
    if j == |parts| - 1 && source.Script? then |source.given| else 0
  }

  /** The entries listed are the pre script if there is one, the script itself with the
      arguments, and the post script if there is one, in that order and no other. */
  ghost predicate RunsScripts(w: World, entries: seq<Entry>, ids: seq<nat>, manager: string, script: string,
                              arguments: seq<string>)
  {
    && w.scripts.Some? && script in w.scripts.value && (forall k :: 0 <= k < |ids| ==> ids[k] < |entries|)
    && var pre, post := "pre" + script, "post" + script;
       var scripts := w.scripts.value;
       var main := if pre in scripts then 1 else 0;
       && |ids| == main + 1 + (if post in scripts then 1 else 0)
       && (pre in scripts ==> entries[ids[0]].source == Script(manager, pre, Pre, [], scripts[pre]))
       && entries[ids[main]].source == Script(manager, script, Main, arguments, scripts[script])
       && (post in scripts ==> entries[ids[main + 1]].source == Script(manager, post, Post, [], scripts[post]))
  }

  /** One part of an entry: a command that runs no script, as it was read, or an invocation
      in the one spelling with "run", over the scripts it runs. */
  ghost predicate ShownPart(w: World, entries: seq<Entry>, source: Source, parts: seq<Part>, j: nat, piece: Piece)
    requires j < |parts|
  {
    var argv := Argv(source, parts, j);
    && piece.operator == parts[j].operator
    && ((RunsNoScript(argv) && piece.argv == argv && piece.expandsTo == [])
        || exists manager, script, arguments ::
             && IsInvocation(argv, Extra(source, parts, j), manager, script, arguments)
             && piece.argv == [manager, "run", script] + (if arguments == [] then [] else ["--"] + arguments)
             && RunsScripts(w, entries, piece.expandsTo, manager, script, arguments))
  }

  ghost predicate ShownWhole(w: World, entries: seq<Entry>, e: Entry) {
    && Parsed(Text(e.source)).Some?
    && var parts := Parsed(Text(e.source)).value;
       |e.parts| == |parts| && forall j :: 0 <= j < |parts| ==> ShownPart(w, entries, e.source, parts, j, e.parts[j])
  }

  lemma DefinitionsRun(w: World, entries: seq<Entry>, ids: seq<nat>, manager: string, script: string,
                       arguments: seq<string>)
    requires w.scripts.Some? && script in w.scripts.value
    requires var defs := Definitions(w.scripts.value, script, arguments);
             |ids| == |defs| && ListsFrom(entries, ids, manager, defs)
    ensures RunsScripts(w, entries, ids, manager, script, arguments)
  {
  }

  lemma OriginalIs(source: Source, j: nat)
    requires Parsed(Text(source)).Some? && j < |Parsed(Text(source)).value|
    ensures var parts := Parsed(Text(source)).value;
            && |Original(source)| == |parts| && Original(source)[j].operator == parts[j].operator
            && Original(source)[j].argv == Argv(source, parts, j) && Forwarded(source, j) == Extra(source, parts, j)
  {
    hide Parsed;
  }

  /** A finished entry whose source can be read shows all of it. */
  lemma FinishedShown(w: World, entries: seq<Entry>, e: Entry)
    requires Finished(w, entries, e)
    ensures ShownWhole(w, entries, e)
  {
    hide Parsed, PackageInvocation, Definitions, ListsFrom, RunsScripts, IsInvocation, RunsNoScript;
    var parts := Parsed(Text(e.source)).value;
    assert |Original(e.source)| == |parts|;
    hide Original;
    forall j | 0 <= j < |parts| ensures ShownPart(w, entries, e.source, parts, j, e.parts[j]) {
      OriginalIs(e.source, j);
      assert Expanded(w, entries, e, j);
      var argv, extra := Argv(e.source, parts, j), Extra(e.source, parts, j);
      match PackageInvocation(argv, extra)
      case NotPackage => InvocationShapes(argv, extra, "", "", []);
      case Runs(manager, script, arguments) =>
        InvocationShapes(argv, extra, manager, script, arguments);
        DefinitionsRun(w, entries, e.parts[j].expandsTo, manager, script, arguments);
    }
  }

  // ---------------------------------------------------------------- which commands resolve

  /** A source resolves: at most eight scripts deep, each of its parts runs no script or
      scripts that all resolve.  The order of the scripts plays no part. */
  ghost predicate Resolves(w: World, source: Source, ancestors: set<Key>, depth: nat)
    decreases MAXIMUM_DEPTH + 1 - depth, 1
  {
    && depth <= 8
    && forall j :: 0 <= j < |Original(source)| ==> PartResolves(w, InvocationAt(source, j), ancestors, depth)
  }

  /** The script exists, is not being run already on the way here, and it and its pre and
      post scripts, where they exist, resolve. */
  ghost predicate PartResolves(w: World, invocation: Invocation, ancestors: set<Key>, depth: nat)
    requires depth <= 8
    decreases MAXIMUM_DEPTH + 1 - depth, 0
  {
    match invocation
    case NotPackage => true
    case Invalid => false
    case Runs(manager, script, arguments) =>
      && w.scripts.Some? && script in w.scripts.value && Key(manager, script) !in ancestors
      && forall source :: Runnable(w, manager, script, arguments, source) ==>
           MayShow(w, source) && Resolves(w, source, ancestors + {Key(manager, script)}, depth + 1)
  }

  /** The scripts an invocation runs. */
  ghost predicate Runnable(w: World, manager: string, script: string, arguments: seq<string>, source: Source)
    requires w.scripts.Some? && script in w.scripts.value
  {
    var scripts := w.scripts.value;
    || source == Script(manager, script, Main, arguments, scripts[script])
    || ("pre" + script in scripts && source == Script(manager, "pre" + script, Pre, [], scripts["pre" + script]))
    || ("post" + script in scripts && source == Script(manager, "post" + script, Post, [], scripts["post" + script]))
  }

  /** The number of entries the scripts of a source take. */
  function Size(w: World, source: Source, depth: nat): nat
    decreases MAXIMUM_DEPTH + 1 - depth, 3
  {
    if depth > 8 then 0 else SizeFrom(w, source, 0, depth)
  }

  function SizeFrom(w: World, source: Source, j: nat, depth: nat): nat
    requires depth <= 8 && j <= |Original(source)|
    decreases MAXIMUM_DEPTH + 1 - depth, 2, |Original(source)| - j
  {
    if j == |Original(source)| then 0
    else PartSize(w, InvocationAt(source, j), depth) + SizeFrom(w, source, j + 1, depth)
  }

  function PartSize(w: World, invocation: Invocation, depth: nat): nat
    requires depth <= 8
    decreases MAXIMUM_DEPTH + 1 - depth, 1
  {
    if !invocation.Runs? || w.scripts.None? || invocation.script !in w.scripts.value then 0 else
      var (manager, script, scripts) := (invocation.manager, invocation.script, w.scripts.value);
      var pre, post := "pre" + script, "post" + script;
      (if pre in scripts then ScriptSize(w, Script(manager, pre, Pre, [], scripts[pre]), depth) else 0)
      + ScriptSize(w, Script(manager, script, Main, invocation.arguments, scripts[script]), depth)
      + (if post in scripts then ScriptSize(w, Script(manager, post, Post, [], scripts[post]), depth) else 0)
  }

  /** The script's own entry and those of the scripts it runs. */
  function ScriptSize(w: World, source: Source, depth: nat): nat
    requires depth <= 8
    decreases MAXIMUM_DEPTH + 1 - depth, 0
  {
    1 + Size(w, source, depth + 1)
  }

  function DefsSize(w: World, manager: string, defs: seq<Definition>, k: nat, depth: nat): nat
    requires depth <= 8 && k <= |defs|
    decreases |defs| - k
  {
    if k == |defs| then 0
    else ScriptSize(w, SourceOf(manager, defs[k]), depth) + DefsSize(w, manager, defs, k + 1, depth)
  }

  /** The definitions are the scripts an invocation runs, and take as many entries. */
  lemma DefinitionsAre(w: World, manager: string, script: string, arguments: seq<string>, depth: nat)
    requires w.scripts.Some? && script in w.scripts.value && depth <= 8
    ensures var defs := Definitions(w.scripts.value, script, arguments);
            && (forall k :: 0 <= k < |defs| ==> Runnable(w, manager, script, arguments, SourceOf(manager, defs[k])))
            && (forall source :: Runnable(w, manager, script, arguments, source) ==>
                  exists k :: 0 <= k < |defs| && SourceOf(manager, defs[k]) == source)
            && DefsSize(w, manager, defs, 0, depth) == PartSize(w, Runs(manager, script, arguments), depth)
  {
    hide ScriptSize;
    var (scripts, pre, post) := (w.scripts.value, "pre" + script, "post" + script);
    var defs := Definitions(scripts, script, arguments);
    var main := if pre in scripts then 1 else 0;
    assert pre in scripts ==> defs[0] == Definition(Pre, pre, scripts[pre], []);
    assert defs[main] == Definition(Main, script, scripts[script], arguments);
    assert post in scripts ==> defs[main + 1] == Definition(Post, post, scripts[post], []);
    assert |defs| == main + 1 + if post in scripts then 1 else 0;
    hide Definitions;
    assert DefsSize(w, manager, defs, |defs|, depth) == 0;
    assert DefsSize(w, manager, defs, main, depth) ==
      ScriptSize(w, SourceOf(manager, defs[main]), depth) + DefsSize(w, manager, defs, main + 1, depth);
  }

  /** The verdict is that everything resolves within what is left of the entries. */
  ghost predicate Exactly(v: Verdict, resolves: bool, used: nat, size: nat) {
    (v.Used? <==> resolves && used + size <= 64) && (v.Used? ==> v.entries == used + size)
  }

  lemma {:induction false} EntryExact(w: World, source: Source, ancestors: set<Key>, depth: nat, used: nat)
    requires used <= 64
    ensures Exactly(EntryVerdict(w, source, ancestors, depth, used), Resolves(w, source, ancestors, depth), used,
                    Size(w, source, depth))
    decreases MAXIMUM_DEPTH + 2 - depth, 2, 0, 0
  {
    hide Original, InvocationAt, PartResolves, PartsVerdict, EntryVerdict, SizeFrom;
    EntryIs(w, source, ancestors, depth, used);
    if depth <= MAXIMUM_DEPTH { PartsExact(w, source, 0, ancestors, depth, used); }
  }

  /** All parts from `j` on resolve. */
  ghost predicate RestResolves(w: World, source: Source, j: nat, ancestors: set<Key>, depth: nat)
    requires depth <= 8
  {
    forall i :: j <= i < |Original(source)| ==> PartResolves(w, InvocationAt(source, i), ancestors, depth)
  }

  lemma {:induction false} PartsExact(w: World, source: Source, j: nat, ancestors: set<Key>, depth: nat, used: nat)
    requires depth <= MAXIMUM_DEPTH && j <= |Original(source)| && used <= 64
    ensures Exactly(PartsVerdict(w, source, j, ancestors, depth, used), RestResolves(w, source, j, ancestors, depth),
                    used, SizeFrom(w, source, j, depth))
    decreases MAXIMUM_DEPTH + 2 - depth, 1, |Original(source)| - j, 1
  {
    hide Original, InvocationAt, PartResolves, PartVerdict, PartsVerdict, PartSize;
    PartsIs(w, source, j, ancestors, depth, used);
    if j < |Original(source)| {
      PartExact(w, source, j, ancestors, depth, used);
      var v := PartVerdict(w, source, j, ancestors, depth, used);
      if v.Used? { PartsExact(w, source, j + 1, ancestors, depth, v.entries); }
    }
  }

  lemma {:induction false} PartExact(w: World, source: Source, j: nat, ancestors: set<Key>, depth: nat, used: nat)
    requires depth <= MAXIMUM_DEPTH && j < |Original(source)| && used <= 64
    ensures Exactly(PartVerdict(w, source, j, ancestors, depth, used),
                    PartResolves(w, InvocationAt(source, j), ancestors, depth), used,
                    PartSize(w, InvocationAt(source, j), depth))
    decreases MAXIMUM_DEPTH + 2 - depth, 1, |Original(source)| - j, 0
  {
    hide Original, InvocationAt, ScriptsVerdict, MayShow, Resolves, Definitions, Runnable, DefsSize, ScriptSize;
    var invocation := InvocationAt(source, j);
    if invocation.Runs? && w.scripts.Some? && invocation.script in w.scripts.value {
      var (manager, script, arguments) := (invocation.manager, invocation.script, invocation.arguments);
      var defs := Definitions(w.scripts.value, script, arguments);
      DefinitionsAre(w, manager, script, arguments, depth);
      ScriptsExact(w, manager, defs, 0, ancestors + {Key(manager, script)}, depth, used);
    }
  }

  ghost predicate ScriptResolves(w: World, source: Source, ancestors: set<Key>, depth: nat) {
    MayShow(w, source) && Resolves(w, source, ancestors, depth + 1)
  }

  lemma {:induction false} ScriptsExact(w: World, manager: string, defs: seq<Definition>, k: nat, ancestors: set<Key>,
                                        depth: nat, used: nat)
    requires depth <= MAXIMUM_DEPTH && k <= |defs| && used <= 64
    ensures Exactly(ScriptsVerdict(w, manager, defs, k, ancestors, depth, used),
                    forall i :: k <= i < |defs| ==> ScriptResolves(w, SourceOf(manager, defs[i]), ancestors, depth),
                    used, DefsSize(w, manager, defs, k, depth))
    decreases MAXIMUM_DEPTH + 2 - depth, 0, |defs| - k, 1
  {
    hide ScriptVerdict, ScriptResolves, ScriptsVerdict, ScriptSize;
    ScriptsIs(w, manager, defs, k, ancestors, depth, used);
    if k < |defs| {
      ScriptExact(w, manager, defs[k], ancestors, depth, used);
      var v := ScriptVerdict(w, manager, defs[k], ancestors, depth, used);
      if v.Used? { ScriptsExact(w, manager, defs, k + 1, ancestors, depth, v.entries); }
    }
  }

  lemma {:induction false} ScriptExact(w: World, manager: string, d: Definition, ancestors: set<Key>, depth: nat,
                                       used: nat)
    requires depth <= MAXIMUM_DEPTH && used <= 64
    ensures var source := SourceOf(manager, d);
            Exactly(ScriptVerdict(w, manager, d, ancestors, depth, used), ScriptResolves(w, source, ancestors, depth),
                    used, ScriptSize(w, source, depth))
    decreases MAXIMUM_DEPTH + 2 - depth, 0, 0, 0
  {
    hide Parsed, EntryVerdict, Resolves, Size;
    if used < 64 { EntryExact(w, SourceOf(manager, d), ancestors, depth + 1, used + 1); }
  }

  // ---------------------------------------------------------------- the whole resolution

  datatype Resolution = Resolved(entries: seq<Entry>) | Unresolved(reason: Reason)

  /** The entries are the whole expansion of the command, as a numbered tree. */
  ghost predicate IsExpansion(w: World, command: string, entries: seq<Entry>) {
    && entries != [] && entries[0].source == Request(command)
    && exists parents, keys :: Sound(entries, parents, keys) && FinishedFrom(w, entries, parents, 0)
  }

  method ResolveShell(w: World, command: string) returns (r: Resolution)
    ensures w.sensitive(command) ==> r == Unresolved(SensitiveContent)
    ensures !w.sensitive(command) && Parsed(command).None? ==> r == Unresolved(UnsupportedSyntax)
    ensures !w.sensitive(command) && Parsed(command).Some? ==>
      var v := EntryVerdict(w, Request(command), {}, 0, 1);
      if v.Fail? then r == Unresolved(v.reason) else r.Resolved? && |r.entries| == v.entries
    ensures r.Resolved? <==>
      MayShow(w, Request(command)) && Resolves(w, Request(command), {}, 0) && Size(w, Request(command), 0) < 64
    ensures r.Resolved? ==> |r.entries| == 1 + Size(w, Request(command), 0)
    ensures r.Resolved? ==> IsExpansion(w, command, r.entries)
    ensures r.Resolved? ==> forall c :: 0 <= c < |r.entries| ==> ShownWhole(w, r.entries, r.entries[c])
  {
    EntryExact(w, Request(command), {}, 0, 1);
    hide Parsed, EntryVerdict, Sound, FinishedFrom, Finished, Grown, Resolves, Size, ShownWhole;
    if w.sensitive(command) { return Unresolved(SensitiveContent); }
    var parsed := ParseCommand(command);
    if parsed.None? { return Unresolved(UnsupportedSyntax); }
    var resolver := new Resolver(w, command);
    ghost var entries0, parents0, keys0 := resolver.entries, resolver.parents, resolver.keys;
    var failure := resolver.Expand(0, {}, 0);
    if failure.Some? { return Unresolved(failure.value); }
    r := Resolved(resolver.entries);
    GrownFromOne(w, entries0, parents0, keys0, resolver.entries, resolver.parents, resolver.keys);
    AllShown(w, resolver.entries, resolver.parents);
  }

  lemma AllShown(w: World, entries: seq<Entry>, parents: seq<Slot>)
    requires FinishedFrom(w, entries, parents, 0)
    ensures forall c :: 0 <= c < |entries| ==> ShownWhole(w, entries, entries[c])
  {
    hide Finished, ShownWhole;
    forall c | 0 <= c < |entries| ensures ShownWhole(w, entries, entries[c]) { FinishedShown(w, entries, entries[c]); }
  }

  lemma GrownFromOne(w: World, a: seq<Entry>, aParents: seq<Slot>, aKeys: seq<Key>, b: seq<Entry>,
                     bParents: seq<Slot>, bKeys: seq<Key>)
    requires Grown(w, 0, a, aParents, aKeys, b, bParents, bKeys) && |a| == 1
    requires Finished(w, b, b[0]) && Depth(bParents, 0) <= MAXIMUM_DEPTH
    ensures Sound(b, bParents, bKeys) && FinishedFrom(w, b, bParents, 0) && b != [] && b[0].source == a[0].source
  {
    hide Finished;
  }

  /** What a part of a finished entry shows: a canonical invocation with the scripts it
      runs, or a command that runs none. */
  lemma FinishedParts(w: World, entries: seq<Entry>, e: Entry, j: nat)
    requires Finished(w, entries, e) && j < |e.parts|
    ensures var inv := PackageInvocation(e.parts[j].argv, 0);
            match inv
            case NotPackage => e.parts[j].expandsTo == []
            case Invalid => false
            case Runs(manager, script, arguments) =>
              && e.parts[j].argv == Spelled(manager, script, arguments)
              && w.scripts.Some? && script in w.scripts.value
              && var defs := Definitions(w.scripts.value, script, arguments);
                 |e.parts[j].expandsTo| == |defs| && ListsFrom(entries, e.parts[j].expandsTo, manager, defs)
  {
    hide PackageInvocation, Definitions, Original, ListsFrom, Spelled;
    assert Expanded(w, entries, e, j);
    var original := Original(e.source)[j].argv;
    var forwarded := Forwarded(e.source, j);
    NotPackageAnyway(original, forwarded, 0);
    if PackageInvocation(original, forwarded).Runs? { CanonicalMeans(original, forwarded, 0); }
  }

  /** `a` is `c` or above it. */
  predicate Above(parents: seq<Slot>, a: nat, c: nat) {
    a == c || (0 < c < |parents| && parents[c].entry < c && Above(parents, a, parents[c].entry))
  }

  lemma {:induction false} AboveInPath(parents: seq<Slot>, keys: seq<Key>, a: nat, c: nat)
    requires Above(parents, a, c) && 0 < a && c < |parents| == |keys| && forall i :: 0 < i < |parents| ==>
      parents[i].entry < i
    ensures a < |keys| && keys[a] in PathKeys(parents, keys, c)
  {
    if a != c { AboveInPath(parents, keys, a, parents[c].entry); }
  }

  /** Along a path from the request down, no two entries come from the same invocation
      of a manager and a script. */
  lemma NoInvocationTwice(entries: seq<Entry>, parents: seq<Slot>, keys: seq<Key>, a: nat, c: nat)
    requires Sound(entries, parents, keys) && 0 < a && 0 < c < |entries| && a != c && Above(parents, a, c)
    ensures a < |keys| && keys[a] != keys[c] && Shown(entries, parents[a], keys[a])
    ensures Shown(entries, parents[c], keys[c])
  {
    AboveLess(parents, a, c);
    AboveInPath(parents, keys, a, parents[c].entry);
  }

  lemma {:induction false} AboveLess(parents: seq<Slot>, a: nat, c: nat)
    requires Above(parents, a, c)
    ensures a <= c
  {
    if a != c { AboveLess(parents, a, parents[c].entry); }
  }
}
