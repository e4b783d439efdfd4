/** The command lines that can be written for given parts: every spelling with quotes,
    escapes and blanks is read back as exactly those parts. */
module ShellSpelling {

  import opened ShellText
  import opened Wrappers

  datatype InDouble = Kept(c: char) | Backslashed(c: char)

  datatype Piece = Plain(c: char) | Escaped(c: char) | InSingle(text: string) | Doubled(chars: seq<InDouble>)

  /** A word is a run of pieces after some blanks. */
  datatype Word = Word(blanks: string, pieces: seq<Piece>)

  /** A part: the blanks before the operator that starts it, and its words. */
  datatype Clause = Clause(before: string, operator: Operator, words: seq<Word>)

  predicate PlainChar(c: char) {
    !Space(c) && !Unsupported(c) && c !in ['\\', '\'', '"', '&', '|', ';']
  }

  predicate Blank(s: string) {
    forall i :: 0 <= i < |s| ==> Space(s[i])
  }

  ghost predicate GoodDouble(d: InDouble) {
    if d.Kept? then d.c !in ['"', '\\', '$', '`'] else d.c in ['"', '\\']
  }

  ghost predicate GoodPiece(p: Piece) {
    match p
    case Plain(c) => PlainChar(c)
    case Escaped(_) => true
    case InSingle(text) => '\'' !in text
    case Doubled(chars) => forall i :: 0 <= i < |chars| ==> GoodDouble(chars[i])
  }

  /** Words of one part are separated; the first needs no blank. */
  ghost predicate GoodWord(w: Word) {
    w.pieces != [] && Blank(w.blanks) && forall i :: 0 <= i < |w.pieces| ==> GoodPiece(w.pieces[i])
  }

  ghost predicate GoodWords(words: seq<Word>, first: bool) {
    forall i :: 0 <= i < |words| ==> GoodWord(words[i]) && (words[i].blanks != "" || (first && i == 0))
  }

  ghost predicate GoodClause(c: Clause) {
    Blank(c.before) && c.words != [] && GoodWords(c.words, true)
  }

  ghost predicate GoodLine(line: seq<Clause>) {
    && line != [] && line[0].before == ""
    && forall i :: 0 <= i < |line| ==> GoodClause(line[i]) && (line[i].operator.First? <==> i == 0)
  }

  // ---------------------------------------------------------------- text and meaning

  function DoubleText(chars: seq<InDouble>): string {
    if chars == [] then "" else (if chars[0].Kept? then [chars[0].c] else ['\\', chars[0].c]) + DoubleText(chars[1..])
  }

  function DoubleMeaning(chars: seq<InDouble>): string {
    if chars == [] then "" else [chars[0].c] + DoubleMeaning(chars[1..])
  }

  function PieceText(p: Piece): string {
    match p
    case Plain(c) => [c]
    case Escaped(c) => ['\\', c]
    case InSingle(text) => "'" + text + "'"
    case Doubled(chars) => "\"" + DoubleText(chars) + "\""
  }

  function PieceMeaning(p: Piece): string {
    match p
    case Plain(c) => [c]
    case Escaped(c) => [c]
    case InSingle(text) => text
    case Doubled(chars) => DoubleMeaning(chars)
  }

  function PiecesText(pieces: seq<Piece>): string {
    if pieces == [] then "" else PieceText(pieces[0]) + PiecesText(pieces[1..])
  }

  function PiecesMeaning(pieces: seq<Piece>): string {
    if pieces == [] then "" else PieceMeaning(pieces[0]) + PiecesMeaning(pieces[1..])
  }

  function WordsText(words: seq<Word>): string {
    if words == [] then "" else words[0].blanks + PiecesText(words[0].pieces) + WordsText(words[1..])
  }

  function WordsMeaning(words: seq<Word>): seq<string> {
    if words == [] then [] else [PiecesMeaning(words[0].pieces)] + WordsMeaning(words[1..])
  }

  function OperatorText(o: Operator): string {
    match o
    case First => ""
    case And => "&&"
    case Or => "||"
    case Pipe => "|"
    case Then => ";"
  }

  function LineText(line: seq<Clause>): string {
    if line == [] then ""
    else line[0].before + OperatorText(line[0].operator) + WordsText(line[0].words) + LineText(line[1..])
  }

  function LineMeaning(line: seq<Clause>): seq<Part> {
    if line == [] then [] else [Part(line[0].operator, WordsMeaning(line[0].words))] + LineMeaning(line[1..])
  }

  // ---------------------------------------------------------------- scanning a spelling

  predicate Plainly(s: Scan) {
    s.quote == Bare && !s.escaped
  }

  function Grown(s: Scan, text: string): Scan {
    s.(token := s.token + text, started := true)
  }

  lemma {:induction false} SingleScan(text: string, rest: string, s: Scan)
    requires s.quote == Single && !s.escaped && '\'' !in text
    ensures Scanned(text + "'" + rest, s) == Scanned(rest, Grown(s, text).(quote := Bare))
    decreases |text|
  {
    var all := text + "'" + rest;
    if text == [] {
      assert all[0] == '\'' && all[1..] == rest;
      assert s.token + [] == s.token;
    } else {
      assert all[0] == text[0] && all[1..] == text[1..] + "'" + rest;
      SingleScan(text[1..], rest, Take(s, text[0]));
      assert (s.token + [text[0]]) + text[1..] == s.token + text;
    }
  }

  lemma DoubleStep(d: InDouble, more: string, s: Scan)
    requires s.quote == Double && !s.escaped && GoodDouble(d)
    ensures Scanned((if d.Kept? then [d.c] else ['\\', d.c]) + more, s) == Scanned(more, Take(s, d.c))
  {
    var all := (if d.Kept? then [d.c] else ['\\', d.c]) + more;
    if d.Kept? {
      assert all[0] == d.c && all[1..] == more;
    } else {
      assert all[0] == '\\' && all[1] == d.c && all[1..][0] == d.c && all[1..][1..] == more;
    }
  }

  lemma {:induction false} DoubleScan(chars: seq<InDouble>, rest: string, s: Scan)
    requires s.quote == Double && !s.escaped && forall i :: 0 <= i < |chars| ==> GoodDouble(chars[i])
    ensures Scanned(DoubleText(chars) + "\"" + rest, s) == Scanned(rest, Grown(s, DoubleMeaning(chars)).(quote := Bare))
    decreases |chars|
  {
    hide Scanned, GoodDouble;
    if chars == [] {
      assert DoubleText(chars) + "\"" + rest == "\"" + rest;
      DoubleEnd(rest, s);
      assert s.token + [] == s.token;
    } else {
      var more := DoubleText(chars[1..]) + "\"" + rest;
      var d := chars[0];
      var head := if d.Kept? then [d.c] else ['\\', d.c];
      assert DoubleText(chars) == head + DoubleText(chars[1..]);
      assert DoubleText(chars) + "\"" + rest == head + more by { hide DoubleText; }
      DoubleStep(d, more, s);
      DoubleScan(chars[1..], rest, Take(s, d.c));
      assert DoubleMeaning(chars) == [d.c] + DoubleMeaning(chars[1..]);
      hide DoubleText, DoubleMeaning;
      assert (s.token + [d.c]) + DoubleMeaning(chars[1..]) == s.token + ([d.c] + DoubleMeaning(chars[1..]));
    }
  }

  lemma DoubleEnd(rest: string, s: Scan)
    requires s.quote == Double && !s.escaped
    ensures Scanned("\"" + rest, s) == Scanned(rest, s.(quote := Bare, started := true))
  {
    assert ("\"" + rest)[1..] == rest;
  }

  lemma PieceScan(p: Piece, rest: string, s: Scan)
    requires Plainly(s) && GoodPiece(p)
    ensures Scanned(PieceText(p) + rest, s) == Scanned(rest, Grown(s, PieceMeaning(p)))
  {
    hide Scanned, Step, DoubleText, DoubleMeaning;
    match p
    case Plain(c) =>
      var all := [c] + rest;
      assert all[0] == c && all[1..] == rest;
      PlainScan(all, s);
    case Escaped(c) =>
      var all := ['\\', c] + rest;
      assert all[0] == '\\' && all[1] == c && all[2..] == rest;
      EscapeScan(all, s);
    case InSingle(text) => InSingleScan(text, rest, s);
    case Doubled(chars) => DoubledScan(chars, rest, s);
  }

  lemma InSingleScan(text: string, rest: string, s: Scan)
    requires Plainly(s) && '\'' !in text
    ensures Scanned("'" + text + "'" + rest, s) == Scanned(rest, Grown(s, text))
  {
    hide Scanned;
    var inner := text + "'" + rest;
    assert "'" + text + "'" + rest == "'" + inner;
    QuoteScan('\'', inner, s);
    SingleScan(text, rest, s.(quote := Single, started := true));
  }

  lemma DoubledScan(chars: seq<InDouble>, rest: string, s: Scan)
    requires Plainly(s) && forall i :: 0 <= i < |chars| ==> GoodDouble(chars[i])
    ensures Scanned("\"" + DoubleText(chars) + "\"" + rest, s) == Scanned(rest, Grown(s, DoubleMeaning(chars)))
  {
    hide Scanned, DoubleText, DoubleMeaning, GoodDouble;
    var inner := DoubleText(chars) + "\"" + rest;
    assert "\"" + DoubleText(chars) + "\"" + rest == "\"" + inner;
    QuoteScan('"', inner, s);
    DoubleScan(chars, rest, s.(quote := Double, started := true));
  }

  lemma PlainScan(all: string, s: Scan)
    requires Plainly(s) && all != [] && PlainChar(all[0])
    ensures Scanned(all, s) == Scanned(all[1..], Grown(s, [all[0]]))
  {
  }

  lemma EscapeScan(all: string, s: Scan)
    requires Plainly(s) && |all| > 1 && all[0] == '\\'
    ensures Scanned(all, s) == Scanned(all[2..], Grown(s, [all[1]]))
  {
    assert all[1..][0] == all[1] && all[1..][1..] == all[2..];
  }

  lemma QuoteScan(q: char, inner: string, s: Scan)
    requires Plainly(s) && (q == '\'' || q == '"')
    ensures Scanned([q] + inner, s) == Scanned(inner, s.(quote := if q == '"' then Double else Single, started := true))
  {
    assert ([q] + inner)[1..] == inner;
  }

  lemma {:induction false} PiecesScan(pieces: seq<Piece>, rest: string, s: Scan)
    requires Plainly(s) && pieces != [] && forall i :: 0 <= i < |pieces| ==> GoodPiece(pieces[i])
    ensures Scanned(PiecesText(pieces) + rest, s) == Scanned(rest, Grown(s, PiecesMeaning(pieces)))
    decreases |pieces|
  {
    hide Scanned, GoodPiece, PieceText, PieceMeaning;
    var more := PiecesText(pieces[1..]) + rest;
    assert PiecesText(pieces) + rest == PieceText(pieces[0]) + more;
    PieceScan(pieces[0], more, s);
    assert PiecesMeaning(pieces) == PieceMeaning(pieces[0]) + PiecesMeaning(pieces[1..]);
    if |pieces| > 1 {
      PiecesScan(pieces[1..], rest, Grown(s, PieceMeaning(pieces[0])));
      assert (s.token + PieceMeaning(pieces[0])) + PiecesMeaning(pieces[1..]) == s.token + PiecesMeaning(pieces);
    } else {
      assert more == rest;
      assert PiecesMeaning(pieces) == PieceMeaning(pieces[0]);
    }
  }

  lemma {:induction false} BlankScan(blanks: string, rest: string, s: Scan)
    requires Plainly(s) && Blank(blanks)
    ensures Scanned(blanks + rest, s) == Scanned(rest, if blanks == "" then s else PushToken(s))
    decreases |blanks|
  {
    var all := blanks + rest;
    if blanks == "" {
      assert all == rest;
    } else {
      assert all[0] == blanks[0] && all[1..] == blanks[1..] + rest;
      assert Space(blanks[0]);
      BlankScan(blanks[1..], rest, PushToken(s));
    }
  }

  /** What the scanner holds after words: all but the last are pushed. */
  function AfterWords(s: Scan, words: seq<Word>): Scan
    decreases |words|
  {
    if words == [] then s else
      var t := if words[0].blanks == "" then s else PushToken(s);
      AfterWords(Grown(t, PiecesMeaning(words[0].pieces)), words[1..])
  }

  lemma {:induction false} WordsScan(words: seq<Word>, rest: string, s: Scan)
    requires Plainly(s) && GoodWords(words, !s.started)
    ensures Scanned(WordsText(words) + rest, s) == Scanned(rest, AfterWords(s, words))
    decreases |words|
  {
    hide Scanned, Blank, GoodPiece, PieceText, PieceMeaning;
    if words == [] {
      assert WordsText(words) + rest == rest;
    } else {
      var w := words[0];
      var more := WordsText(words[1..]) + rest;
      assert GoodWord(w);
      assert WordsText(words) + rest == w.blanks + (PiecesText(w.pieces) + more);
      BlankScan(w.blanks, PiecesText(w.pieces) + more, s);
      var t := if w.blanks == "" then s else PushToken(s);
      PiecesScan(w.pieces, more, t);
      WordsScan(words[1..], rest, Grown(t, PiecesMeaning(w.pieces)));
    }
  }

  /** The parts as they would stand if the line ended here. */
  function Completed(s: Scan): seq<Part> {
    PushToken(s).parts + [Part(s.operator, PushToken(s).argv)]
  }

  lemma {:induction false} WordsAdd(words: seq<Word>, s: Scan)
    requires Plainly(s) && GoodWords(words, !s.started) && (!s.started ==> s.token == "")
    ensures var t := AfterWords(s, words);
            && Plainly(t) && t.parts == s.parts && t.operator == s.operator && (!t.started ==> t.token == "")
            && PushToken(t).argv == PushToken(s).argv + WordsMeaning(words)
    decreases |words|
  {
    hide GoodPiece, PiecesMeaning, Blank;
    if words != [] {
      var w, rest := words[0], words[1..];
      var t := if w.blanks == "" then s else PushToken(s);
      WordFits(words, s);
      var u := Grown(t, PiecesMeaning(w.pieces));
      assert u.token == PiecesMeaning(w.pieces);
      assert PushToken(u).argv == PushToken(s).argv + [PiecesMeaning(w.pieces)];
      assert AfterWords(s, words) == AfterWords(u, rest);
      assert WordsMeaning(words) == [PiecesMeaning(w.pieces)] + WordsMeaning(rest);
      WordsAdd(rest, u);
      hide WordsMeaning, AfterWords, PushToken, GoodWords;
    } else {
      assert PushToken(s).argv + [] == PushToken(s).argv;
    }
  }

  /** A new word begins with an empty token. */
  lemma WordFits(words: seq<Word>, s: Scan)
    requires Plainly(s) && words != [] && GoodWords(words, !s.started) && (!s.started ==> s.token == "")
    ensures var t := if words[0].blanks == "" then s else PushToken(s);
            t.token == "" && !t.started && Plainly(t) && PushToken(t) == PushToken(s)
    ensures GoodWords(words[1..], false)
  {
    hide GoodWord;
  }

  lemma OperatorScan(o: Operator, rest: string, s: Scan)
    requires Plainly(s) && !o.First? && PushToken(s).argv != [] && (rest == "" || rest[0] != '|')
    ensures var t := PushPart(s, o).value;
            Plainly(t) && t.argv == [] && !t.started && Completed(s) == t.parts && t.operator == o
            && Scanned(OperatorText(o) + rest, s) == Scanned(rest, t)
  {
    var all := OperatorText(o) + rest;
    if o.And? || o.Or? {
      assert all[2..] == rest;
    } else {
      assert all[1..] == rest;
    }
  }

  /** No part begins with a bar, so a pipe is never read as an "or". */
  lemma NoBar(words: seq<Word>)
    requires words != [] && GoodWords(words, true)
    ensures WordsText(words) != "" && WordsText(words)[0] != '|'
  {
    var w := words[0];
    assert GoodWord(w);
    if w.blanks != "" { assert Space(w.blanks[0]); }
    else { assert GoodPiece(w.pieces[0]); }
  }

  ghost predicate GoodRest(line: seq<Clause>) {
    forall i :: 0 <= i < |line| ==> GoodClause(line[i]) && !line[i].operator.First?
  }

  lemma ClauseScan(c: Clause, more: string, s: Scan) returns (v: Scan)
    requires Plainly(s) && PushToken(s).argv != [] && GoodClause(c) && !c.operator.First?
    requires (!s.started ==> s.token == "")
    ensures Scanned(c.before + OperatorText(c.operator) + WordsText(c.words) + more, s) == Scanned(more, v)
    ensures Plainly(v) && PushToken(v).argv != [] && (!v.started ==> v.token == "")
    ensures Completed(v) == Completed(s) + [Part(c.operator, WordsMeaning(c.words))]
  {
    hide GoodWords, Blank, WordsText, WordsMeaning, AfterWords, OperatorText, Scanned;
    var rest := WordsText(c.words) + more;
    assert c.before + OperatorText(c.operator) + WordsText(c.words) + more ==
        c.before + (OperatorText(c.operator) + rest);
    BlankScan(c.before, OperatorText(c.operator) + rest, s);
    var t := if c.before == "" then s else PushToken(s);
    assert PushToken(t) == PushToken(s) && Plainly(t);
    NoBar(c.words);
    OperatorScan(c.operator, rest, t);
    var u := PushPart(t, c.operator).value;
    WordsScan(c.words, more, u);
    WordsAdd(c.words, u);
    MeaningNotEmpty(c.words);
    v := AfterWords(u, c.words);
    assert [] + WordsMeaning(c.words) == WordsMeaning(c.words);
  }

  lemma LineHead(line: seq<Clause>, parts: seq<Part>)
    requires line != []
    ensures LineText(line) ==
        line[0].before + OperatorText(line[0].operator) + WordsText(line[0].words) + LineText(line[1..])
    ensures parts + LineMeaning(line) ==
        (parts + [Part(line[0].operator, WordsMeaning(line[0].words))]) + LineMeaning(line[1..])
  {
    hide OperatorText, WordsText, WordsMeaning;
  }

  lemma Joined3(a: string, b: string, c: string)
    ensures a + b + c == a + (b + c)
  {
  }

  lemma TrailScan(trail: string, s: Scan)
    requires Plainly(s) && Blank(trail)
    ensures var t := Scanned(trail, s);
            && t.Some? && Plainly(t.value) && PushToken(t.value).argv == PushToken(s).argv
            && Completed(t.value) == Completed(s)
  {
    BlankScan(trail, "", s);
    assert trail + "" == trail;
  }

  lemma {:induction false} LineScan(line: seq<Clause>, trail: string, s: Scan)
    requires Plainly(s) && PushToken(s).argv != [] && GoodRest(line) && (!s.started ==> s.token == "") && Blank(trail)
    ensures var t := Scanned(LineText(line) + trail, s);
            && t.Some? && Plainly(t.value) && PushToken(t.value).argv != []
            && Completed(t.value) == Completed(s) + LineMeaning(line)
    decreases |line|
  {
    hide GoodClause, WordsText, WordsMeaning, OperatorText, Scanned, Completed, PushToken, Blank;
    if line == [] {
      assert "" + trail == trail;
      TrailScan(trail, s);
      assert Completed(s) + [] == Completed(s);
    } else {
      var c := line[0];
      assert GoodRest(line[1..]) && GoodClause(c) && !c.operator.First?;
      hide GoodRest, LineText, LineMeaning;
      LineHead(line, Completed(s));
      var more := LineText(line[1..]) + trail;
      Joined3(c.before + OperatorText(c.operator) + WordsText(c.words), LineText(line[1..]), trail);
      var v := ClauseScan(c, more, s);
      LineScan(line[1..], trail, v);
    }
  }

  lemma MeaningNotEmpty(words: seq<Word>)
    requires words != []
    ensures WordsMeaning(words) != []
  {
  }

  /** Whatever quoting, escaping and blanks a line uses, before, between and after its
      words, it is read as its parts, unless it is too long, holds a line break, or begins
      a part with a command that changes the shell. */
  lemma SpellingParsed(line: seq<Clause>, trail: string)
    requires GoodLine(line) && Blank(trail) && Readable(LineText(line) + trail)
    ensures Parsed(LineText(line) + trail) == if AnyForbidden(LineMeaning(line)) then None else Some(LineMeaning(line))
  {
    hide AnyForbidden, Readable, Scanned, GoodClause, Completed;
    var t := WholeScan(line, trail);
    CompletedFinish(t);
  }

  lemma CompletedFinish(t: Scan)
    requires Plainly(t) && PushToken(t).argv != []
    ensures Finish(t) == if AnyForbidden(Completed(t)) then None else Some(Completed(t))
  {
    hide AnyForbidden;
  }

  lemma FirstScan(c: Clause, more: string) returns (s: Scan)
    requires GoodClause(c)
    ensures Scanned(WordsText(c.words) + more, START) == Scanned(more, s)
    ensures Plainly(s) && PushToken(s).argv != [] && (!s.started ==> s.token == "")
    ensures Completed(s) == [Part(First, WordsMeaning(c.words))]
  {
    hide GoodWords, Blank, WordsText, WordsMeaning, AfterWords, Scanned;
    WordsScan(c.words, more, START);
    WordsAdd(c.words, START);
    MeaningNotEmpty(c.words);
    s := AfterWords(START, c.words);
    assert [] + WordsMeaning(c.words) == WordsMeaning(c.words);
  }

  lemma FirstHead(line: seq<Clause>)
    requires line != [] && line[0].before == "" && line[0].operator.First?
    ensures LineText(line) == WordsText(line[0].words) + LineText(line[1..])
    ensures LineMeaning(line) == [Part(First, WordsMeaning(line[0].words))] + LineMeaning(line[1..])
  {
    hide WordsText, WordsMeaning;
    assert "" + OperatorText(First) + WordsText(line[0].words) == WordsText(line[0].words);
  }

  lemma WholeScan(line: seq<Clause>, trail: string) returns (t: Scan)
    requires GoodLine(line) && Blank(trail)
    ensures Scanned(LineText(line) + trail, START) == Some(t) && Plainly(t) && PushToken(t).argv != []
    ensures Completed(t) == LineMeaning(line)
  {
    hide GoodClause, PushToken, Completed, WordsText, WordsMeaning, Scanned, LineText, LineMeaning, Blank;
    assert GoodClause(line[0]) && GoodRest(line[1..]);
    FirstHead(line);
    var more := LineText(line[1..]) + trail;
    assert LineText(line) + trail == WordsText(line[0].words) + more;
    var s := FirstScan(line[0], more);
    LineScan(line[1..], trail, s);
    t := Scanned(LineText(line) + trail, START).value;
  }

  // ---------------------------------------------------------------- the converse

  /** What is inside an open quote. */
  datatype Open = Closed | SingleSoFar(text: string) | DoubleSoFar(chars: seq<InDouble>)

  /** A line being read: whole clauses, then the clause at hand with its whole words, the
      blanks after them, the pieces of the word at hand, and an open quote. */
  datatype Partial = Partial(clauses: seq<Clause>, before: string, operator: Operator, words: seq<Word>,
                             blanks: string, pieces: seq<Piece>, open: Open)

  function OpenText(o: Open): string {
    match o
    case Closed => ""
    case SingleSoFar(text) => "'" + text
    case DoubleSoFar(chars) => "\"" + DoubleText(chars)
  }

  function OpenMeaning(o: Open): string {
    match o
    case Closed => ""
    case SingleSoFar(text) => text
    case DoubleSoFar(chars) => DoubleMeaning(chars)
  }

  function PartialText(p: Partial): string {
    LineText(p.clauses) + p.before + OperatorText(p.operator) + WordsText(p.words) + p.blanks
    + PiecesText(p.pieces) + OpenText(p.open)
  }

  ghost predicate GoodOpen(o: Open) {
    match o
    case Closed => true
    case SingleSoFar(text) => '\'' !in text
    case DoubleSoFar(chars) => forall i :: 0 <= i < |chars| ==> GoodDouble(chars[i])
  }

  predicate Started(p: Partial) {
    p.pieces != [] || p.open != Closed
  }

  ghost predicate GoodClauses(clauses: seq<Clause>) {
    && (forall i :: 0 <= i < |clauses| ==> GoodClause(clauses[i]) && (clauses[i].operator.First? <==> i == 0))
    && (clauses != [] ==> clauses[0].before == "")
  }

  ghost predicate GoodPieces(pieces: seq<Piece>) {
    forall i :: 0 <= i < |pieces| ==> GoodPiece(pieces[i])
  }

  /** The parts of a partial line are good, and only the first word of a clause needs no
      blank before it. */
  ghost predicate GoodPartial(p: Partial) {
    && GoodClauses(p.clauses)
    && Blank(p.before)
    && Blank(p.blanks)
    && GoodWords(p.words, true)
    && GoodPieces(p.pieces)
    && GoodOpen(p.open)
    && (p.operator.First? <==> p.clauses == []) && (p.clauses == [] ==> p.before == "")
    && (p.words != [] ==> p.blanks != "")
  }

  /** The scanner's state is what the partial line means. */
  ghost predicate Means(p: Partial, s: Scan) {
    && s.parts == LineMeaning(p.clauses) && s.operator == p.operator && s.argv == WordsMeaning(p.words)
    && s.token == PiecesMeaning(p.pieces) + OpenMeaning(p.open) && s.started == Started(p) && !s.escaped
    && s.quote == match p.open case Closed => Bare case SingleSoFar(_) => Single case DoubleSoFar(_) => Double
  }

  ghost predicate Reads(p: Partial, s: Scan) {
    GoodPartial(p) && Means(p, s)
  }

  // Appending to each kind of list.

  lemma {:induction false} PiecesAppend(pieces: seq<Piece>, q: Piece)
    ensures PiecesText(pieces + [q]) == PiecesText(pieces) + PieceText(q)
    ensures PiecesMeaning(pieces + [q]) == PiecesMeaning(pieces) + PieceMeaning(q)
  {
    hide PieceText, PieceMeaning;
    if pieces == [] {
      assert pieces + [q] == [q] && [q][1..] == [];
    } else {
      assert (pieces + [q])[1..] == pieces[1..] + [q];
      PiecesAppend(pieces[1..], q);
    }
  }

  lemma {:induction false} DoubleAppend(chars: seq<InDouble>, d: InDouble)
    ensures DoubleText(chars + [d]) == DoubleText(chars) + if d.Kept? then [d.c] else ['\\', d.c]
    ensures DoubleMeaning(chars + [d]) == DoubleMeaning(chars) + [d.c]
  {
    if chars == [] {
      assert chars + [d] == [d] && [d][1..] == [];
    } else {
      assert (chars + [d])[1..] == chars[1..] + [d];
      DoubleAppend(chars[1..], d);
    }
  }

  lemma {:induction false} WordsAppend(words: seq<Word>, w: Word)
    ensures WordsText(words + [w]) == WordsText(words) + w.blanks + PiecesText(w.pieces)
    ensures WordsMeaning(words + [w]) == WordsMeaning(words) + [PiecesMeaning(w.pieces)]
  {
    hide PiecesText, PiecesMeaning;
    if words == [] {
      assert words + [w] == [w] && [w][1..] == [];
    } else {
      assert (words + [w])[1..] == words[1..] + [w];
      WordsAppend(words[1..], w);
    }
  }

  function ClauseText(c: Clause): string {
    c.before + OperatorText(c.operator) + WordsText(c.words)
  }

  lemma {:induction false} LineAppend(line: seq<Clause>, c: Clause)
    ensures LineText(line + [c]) == LineText(line) + ClauseText(c)
    ensures LineMeaning(line + [c]) == LineMeaning(line) + [Part(c.operator, WordsMeaning(c.words))]
  {
    hide OperatorText, WordsText, WordsMeaning;
    if line == [] {
      assert line + [c] == [c] && [c][1..] == [];
    } else {
      assert (line + [c])[1..] == line[1..] + [c];
      LineAppend(line[1..], c);
    }
  }

  lemma Empties()
    ensures PiecesText([]) == "" && PiecesMeaning([]) == "" && WordsText([]) == "" && WordsMeaning([]) == []
    ensures LineText([]) == "" && LineMeaning([]) == []
  {
  }

  /** The text up to an open quote. */
  function Base(p: Partial): string {
    LineText(p.clauses) + p.before + OperatorText(p.operator) + WordsText(p.words) + p.blanks + PiecesText(p.pieces)
  }

  lemma BaseOpen(p: Partial)
    ensures PartialText(p) == Base(p) + OpenText(p.open)
  {
    hide LineText, OperatorText, WordsText, PiecesText, OpenText;
  }

  /** A piece ends here. */
  lemma ReadPiece(p: Partial, s: Scan, q: Piece) returns (p': Partial)
    requires Reads(p, s) && GoodPiece(q)
    ensures Reads(p', s.(token := PiecesMeaning(p.pieces) + PieceMeaning(q), started := true, quote := Bare))
    ensures PartialText(p') == Base(p) + PieceText(q)
  {
    hide GoodClauses, GoodWords, GoodPiece, PiecesText, PiecesMeaning;
    hide PieceText, PieceMeaning, LineText, WordsText, OperatorText;
    PiecesAppend(p.pieces, q);
    p' := p.(pieces := p.pieces + [q], open := Closed);
    assert PiecesMeaning(p.pieces) + PieceMeaning(q) + "" == PiecesMeaning(p.pieces) + PieceMeaning(q);
    var prefix := LineText(p.clauses) + p.before + OperatorText(p.operator) + WordsText(p.words) + p.blanks;
    assert prefix + (PiecesText(p.pieces) + PieceText(q)) + "" == prefix + PiecesText(p.pieces) + PieceText(q);
  }

  /** A quote opens or goes on. */
  lemma ReadOpen(p: Partial, s: Scan, o: Open) returns (p': Partial)
    requires Reads(p, s) && GoodOpen(o) && o != Closed
    ensures Reads(p', s.(token := PiecesMeaning(p.pieces) + OpenMeaning(o), started := true,
                         quote := if o.SingleSoFar? then Single else Double))
    ensures PartialText(p') == Base(p) + OpenText(o)
  {
    hide GoodClauses, GoodWords, GoodPieces, GoodOpen, PiecesMeaning, OpenMeaning;
    p' := p.(open := o);
    BaseOpen(p');
  }

  lemma ReadBlank(p: Partial, s: Scan, c: char) returns (p': Partial)
    requires Reads(p, s) && p.open == Closed && Space(c)
    ensures Reads(p', PushToken(s)) && p'.open == Closed && PartialText(p') == PartialText(p) + [c]
  {
    hide GoodClauses, LineText, WordsText, WordsMeaning, OperatorText, PiecesText, PiecesMeaning, GoodPiece, Space;
    if p.pieces == [] {
      p' := p.(blanks := p.blanks + [c]);
      Empties();
    } else {
      var w := Word(p.blanks, p.pieces);
      WordsAppend(p.words, w);
      p' := p.(words := p.words + [w], blanks := [c], pieces := []);
      Empties();
      assert PiecesMeaning(p.pieces) + "" == PiecesMeaning(p.pieces);
      assert GoodWord(w);
    }
  }

  /** The clause that ends here. */
  lemma ReadClause(p: Partial, s: Scan) returns (c: Clause, blanks: string)
    requires Reads(p, s) && p.open == Closed && PushToken(s).argv != []
    ensures GoodClause(c) && Blank(blanks) && c.operator == p.operator && c.before == p.before
    ensures WordsMeaning(c.words) == PushToken(s).argv
    ensures PartialText(p) == LineText(p.clauses) + ClauseText(c) + blanks
  {
    hide GoodClauses, LineText, WordsText, WordsMeaning, OperatorText, PiecesText, PiecesMeaning, GoodPiece, Space;
    if p.pieces == [] {
      Empties();
      c, blanks := Clause(p.before, p.operator, p.words), p.blanks;
      assert PartialText(p) == LineText(p.clauses) + ClauseText(c) + blanks;
    } else {
      var w := Word(p.blanks, p.pieces);
      WordsAppend(p.words, w);
      assert GoodWord(w);
      c, blanks := Clause(p.before, p.operator, p.words + [w]), "";
      assert PiecesMeaning(p.pieces) + "" == PiecesMeaning(p.pieces);
      assert PartialText(p) == LineText(p.clauses) + ClauseText(c) + blanks;
    }
  }

  lemma ReadOperator(p: Partial, s: Scan, o: Operator) returns (p': Partial)
    requires Reads(p, s) && p.open == Closed && !o.First? && PushPart(s, o).Some?
    ensures Reads(p', PushPart(s, o).value) && PartialText(p') == PartialText(p) + OperatorText(o)
  {
    hide GoodClause, GoodClauses, GoodWords, GoodPieces, Blank;
    hide LineText, LineMeaning, WordsText, WordsMeaning, OperatorText, PiecesText, PiecesMeaning, ClauseText;
    var c, blanks := ReadClause(p, s);
    LineAppend(p.clauses, c);
    ClauseAppended(p.clauses, c);
    p' := Partial(p.clauses + [c], blanks, o, [], "", [], Closed);
    Empties();
    assert GoodWords([], true) && GoodPieces([]) && Blank("") by { NothingGood(); }
    assert PartialText(p') == LineText(p.clauses) + ClauseText(c) + blanks + OperatorText(o);
  }

  lemma NothingGood()
    ensures GoodWords([], true) && GoodPieces([]) && Blank("") && GoodClauses([])
  {
  }

  lemma ClauseAppended(clauses: seq<Clause>, c: Clause)
    requires GoodClauses(clauses) && GoodClause(c) && (c.operator.First? <==> clauses == [])
    requires (clauses == [] ==> c.before == "")
    ensures GoodClauses(clauses + [c])
  {
    hide GoodClause;
  }

  /** The line is all read. */
  lemma ReadEnd(p: Partial, s: Scan) returns (line: seq<Clause>, trail: string)
    requires Reads(p, s) && p.open == Closed && PushToken(s).argv != []
    ensures GoodLine(line) && Blank(trail) && LineText(line) + trail == PartialText(p)
    ensures LineMeaning(line) == Completed(s)
  {
    hide GoodClause, GoodWords, GoodPieces, Blank, LineText, LineMeaning;
    hide WordsText, WordsMeaning, OperatorText, PiecesText, PiecesMeaning, ClauseText;
    var c, blanks := ReadClause(p, s);
    LineAppend(p.clauses, c);
    ClauseAppended(p.clauses, c);
    line, trail := p.clauses + [c], blanks;
    assert line[0].before == "";
  }

  /** One character, or two where the first says how the second is read. */
  lemma ReadStep(p: Partial, s: Scan, rest: string) returns (p': Partial, s': Scan, n: nat)
    requires Reads(p, s) && rest != [] && Scanned(rest, s).Some?
    requires |rest| == 1 ==> !(rest[0] == '\\' && s.quote == Bare)
    ensures 0 < n <= |rest| && Scanned(rest, s) == Scanned(rest[n..], s')
    ensures Reads(p', s') && PartialText(p') == PartialText(p) + rest[..n]
  {
    var c := rest[0];
    match p.open {
      case SingleSoFar(text) => p', s', n := ReadInSingle(p, s, rest);
      case DoubleSoFar(chars) => p', s', n := ReadInDouble(p, s, rest);
      case Closed => p', s', n := ReadBare(p, s, rest);
    }
  }

  lemma ReadInSingle(p: Partial, s: Scan, rest: string) returns (p': Partial, s': Scan, n: nat)
    requires Reads(p, s) && rest != [] && p.open.SingleSoFar?
    ensures n == 1 && Scanned(rest, s) == Scanned(rest[n..], s')
    ensures Reads(p', s') && PartialText(p') == PartialText(p) + rest[..n]
  {
    hide GoodPartial, PiecesMeaning, Scanned;
    var c, text := rest[0], p.open.text;
    n := 1;
    assert rest[..1] == [c];
    InQuoteScan(rest, s);
    OpenIsGood(p);
    BaseOpen(p);
    if c == '\'' {
      p' := ReadPiece(p, s, InSingle(text));
      s' := s.(quote := Bare, started := true);
      assert Base(p) + ("'" + text + "'") == Base(p) + ("'" + text) + "'";
    } else {
      p' := ReadOpen(p, s, SingleSoFar(text + [c]));
      s' := Take(s, c);
      assert PiecesMeaning(p.pieces) + (text + [c]) == PiecesMeaning(p.pieces) + text + [c];
      assert Base(p) + ("'" + (text + [c])) == Base(p) + ("'" + text) + [c];
    }
  }

  lemma OpenIsGood(p: Partial)
    requires GoodPartial(p)
    ensures GoodOpen(p.open)
  {
  }

  function QuoteOf(q: Quote): char {
    if q.Single? then '\'' else '"'
  }

  /** One step inside quotes, where nothing looks at the character after it. */
  lemma InQuoteScan(rest: string, s: Scan)
    requires rest != [] && !s.escaped && (s.quote.Single? || (s.quote.Double? && rest[0] !in ['\\', '$', '`']))
    ensures Scanned(rest, s) == Scanned(rest[1..],
      if rest[0] == QuoteOf(s.quote) then s.(quote := Bare, started := true) else Take(s, rest[0]))
  {
  }

  function InDoubleText(d: InDouble): string {
    if d.Kept? then [d.c] else ['\\', d.c]
  }

  lemma ReadDoubleChar(p: Partial, s: Scan, d: InDouble) returns (p': Partial)
    requires Reads(p, s) && p.open.DoubleSoFar? && GoodDouble(d)
    ensures Reads(p', Take(s, d.c)) && PartialText(p') == PartialText(p) + InDoubleText(d)
  {
    hide GoodPartial, PiecesMeaning, DoubleText, DoubleMeaning, GoodDouble, Base;
    var chars := p.open.chars;
    OpenIsGood(p);
    BaseOpen(p);
    DoubleAppend(chars, d);
    p' := ReadOpen(p, s, DoubleSoFar(chars + [d]));
    assert PiecesMeaning(p.pieces) + (DoubleMeaning(chars) + [d.c]) ==
        PiecesMeaning(p.pieces) + DoubleMeaning(chars) + [d.c];
    assert Base(p) + ("\"" + (DoubleText(chars) + InDoubleText(d))) ==
        Base(p) + ("\"" + DoubleText(chars)) + InDoubleText(d);
  }

  lemma ReadDoubleEnd(p: Partial, s: Scan) returns (p': Partial)
    requires Reads(p, s) && p.open.DoubleSoFar?
    ensures Reads(p', s.(quote := Bare, started := true)) && PartialText(p') == PartialText(p) + "\""
  {
    hide GoodPartial, PiecesMeaning, DoubleText, DoubleMeaning, Base;
    var chars := p.open.chars;
    OpenIsGood(p);
    BaseOpen(p);
    p' := ReadPiece(p, s, Doubled(chars));
    assert Base(p) + ("\"" + DoubleText(chars) + "\"") == Base(p) + ("\"" + DoubleText(chars)) + "\"";
  }

  lemma ReadInDouble(p: Partial, s: Scan, rest: string) returns (p': Partial, s': Scan, n: nat)
    requires Reads(p, s) && rest != [] && p.open.DoubleSoFar? && Scanned(rest, s).Some?
    ensures 0 < n <= |rest| && Scanned(rest, s) == Scanned(rest[n..], s')
    ensures Reads(p', s') && PartialText(p') == PartialText(p) + rest[..n]
  {
    InDoubleChars(rest, s);
    hide GoodPartial, Scanned, PartialText;
    var c := rest[0];
    if c == '\\' {
      var d := Backslashed(rest[1]);
      n, s' := 2, Take(s, rest[1]);
      assert rest[..2] == InDoubleText(d) && InDoubleText(d) + rest[2..] == rest;
      DoubleStep(d, rest[2..], s);
      p' := ReadDoubleChar(p, s, d);
    } else {
      n := 1;
      assert rest[..1] == [c];
      InQuoteScan(rest, s);
      if c == '"' {
        s' := s.(quote := Bare, started := true);
        p' := ReadDoubleEnd(p, s);
      } else {
        s' := Take(s, c);
        p' := ReadDoubleChar(p, s, Kept(c));
      }
    }
  }

  /** What a double quote lets through. */
  lemma InDoubleChars(rest: string, s: Scan)
    requires rest != [] && !s.escaped && s.quote.Double? && Scanned(rest, s).Some?
    ensures rest[0] != '$' && rest[0] != '`'
    ensures rest[0] == '\\' ==> |rest| > 1 && rest[1] in ['"', '\\']
  {
  }

  /** What is let through outside quotes, and how it is read. */
  lemma BareChars(rest: string, s: Scan)
    requires Plainly(s) && rest != [] && Scanned(rest, s).Some? && rest[0] !in ['\\', '\'', '"']
    ensures Space(rest[0]) ==> Scanned(rest, s) == Scanned(rest[1..], PushToken(s))
    ensures rest[0] == '&' ==> Ends(rest, s, And)
    ensures rest[0] == '|' ==> if |rest| > 1 && rest[1] == '|' then Ends(rest, s, Or) else Ends(rest, s, Pipe)
    ensures rest[0] == ';' ==> Ends(rest, s, Then)
    ensures !Space(rest[0]) && rest[0] !in ['&', '|', ';'] ==>
      PlainChar(rest[0]) && Scanned(rest, s) == Scanned(rest[1..], Take(s, rest[0]))
  {
  }

  /** An operator stands here and ends a part. */
  ghost predicate Ends(rest: string, s: Scan, o: Operator) {
    var n := |OperatorText(o)|;
    && n <= |rest| && rest[..n] == OperatorText(o) && PushPart(s, o).Some?
    && Scanned(rest, s) == Scanned(rest[n..], PushPart(s, o).value)
  }

  lemma ReadBare(p: Partial, s: Scan, rest: string) returns (p': Partial, s': Scan, n: nat)
    requires Reads(p, s) && rest != [] && p.open == Closed && Scanned(rest, s).Some?
    requires |rest| == 1 ==> rest[0] != '\\'
    ensures 0 < n <= |rest| && Scanned(rest, s) == Scanned(rest[n..], s')
    ensures Reads(p', s') && PartialText(p') == PartialText(p) + rest[..n]
  {
    hide Scanned, GoodPartial, PartialText, Base, PiecesMeaning;
    var c := rest[0];
    BaseOpen(p);
    assert Base(p) + "" == Base(p) && PiecesMeaning(p.pieces) + "" == PiecesMeaning(p.pieces);
    if c == '\\' {
      EscapeScan(rest, s);
      n, s' := 2, Grown(s, [rest[1]]);
      p' := ReadPiece(p, s, Escaped(rest[1]));
      assert rest[..2] == ['\\', rest[1]];
    } else if c == '\'' || c == '"' {
      assert [c] + rest[1..] == rest;
      QuoteScan(c, rest[1..], s);
      n, s' := 1, s.(quote := if c == '"' then Double else Single, started := true);
      p' := ReadOpen(p, s, if c == '"' then DoubleSoFar([]) else SingleSoFar(""));
      assert rest[..1] == [c];
    } else {
      p', s', n := ReadUnquoted(p, s, rest);
    }
  }

  lemma ReadUnquoted(p: Partial, s: Scan, rest: string) returns (p': Partial, s': Scan, n: nat)
    requires Reads(p, s) && rest != [] && p.open == Closed && Scanned(rest, s).Some? && rest[0] !in ['\\', '\'', '"']
    ensures 0 < n <= |rest| && Scanned(rest, s) == Scanned(rest[n..], s')
    ensures Reads(p', s') && PartialText(p') == PartialText(p) + rest[..n]
  {
    hide Scanned, GoodPartial, PartialText, Base, PiecesMeaning, PlainChar, Space, PushToken;
    var c := rest[0];
    BareChars(rest, s);
    assert rest[..1] == [c];
    if Space(c) {
      n, s' := 1, PushToken(s);
      p' := ReadBlank(p, s, c);
    } else if c == '&' || c == '|' || c == ';' {
      var o := if c == '&' then And else if c == ';' then Then else if |rest| > 1 && rest[1] == '|' then Or else Pipe;
      n, s' := |OperatorText(o)|, PushPart(s, o).value;
      p' := ReadOperator(p, s, o);
    } else {
      BaseOpen(p);
      assert Base(p) + "" == Base(p) && PiecesMeaning(p.pieces) + "" == PiecesMeaning(p.pieces);
      n, s' := 1, Take(s, c);
      p' := ReadPiece(p, s, Plain(c));
    }
  }

  lemma {:induction false} Unscan(p: Partial, s: Scan, rest: string, parts: seq<Part>)
    returns (line: seq<Clause>, trail: string)
    requires Reads(p, s) && Scanned(rest, s).Some? && Finish(Scanned(rest, s).value) == Some(parts)
    ensures GoodLine(line) && Blank(trail) && LineText(line) + trail == PartialText(p) + rest
    ensures LineMeaning(line) == parts
    decreases |rest|
  {
    hide Scanned, GoodPartial, PartialText, GoodLine, Blank, Finish, LineText, LineMeaning, Completed;
    if rest == [] {
      EmptyScan(s);
      FinishIs(p, s);
      line, trail := ReadEnd(p, s);
      assert PartialText(p) + [] == PartialText(p);
    } else {
      LoneBackslash(rest, s);
      hide Means, Reads;
      var p', s', n := ReadStep(p, s, rest);
      line, trail := Unscan(p', s', rest[n..], parts);
      CutAndJoined(PartialText(p), rest, n);
    }
  }

  lemma CutAndJoined(a: string, rest: string, n: nat)
    requires n <= |rest|
    ensures a + rest[..n] + rest[n..] == a + rest
  {
    assert rest[..n] + rest[n..] == rest;
  }

  lemma EmptyScan(s: Scan)
    ensures Scanned("", s) == Some(s)
  {
  }

  lemma FinishIs(p: Partial, s: Scan)
    requires Means(p, s) && Finish(s).Some?
    ensures p.open == Closed && PushToken(s).argv != [] && Finish(s).value == Completed(s)
  {
    hide AnyForbidden;
  }

  /** A command that ends in a lone backslash is not read. */
  lemma LoneBackslash(rest: string, s: Scan)
    requires rest != [] && Scanned(rest, s).Some? && Finish(Scanned(rest, s).value).Some? && !s.escaped
    ensures |rest| == 1 ==> !(rest[0] == '\\' && s.quote == Bare)
  {
    assert |rest| == 1 ==> rest[1..] == [];
  }

  /** Whatever the parser accepts is the text of a good line with that meaning: together
      with `SpellingParsed`, the accepted texts are exactly the spellings. */
  lemma ParsedSpelling(command: string) returns (line: seq<Clause>, trail: string)
    requires Parsed(command).Some?
    ensures GoodLine(line) && Blank(trail) && command == LineText(line) + trail
    ensures LineMeaning(line) == Parsed(command).value
  {
    hide Scanned, Finish;
    var p := Partial([], "", First, [], "", [], Closed);
    assert Reads(p, START) && PartialText(p) == "";
    line, trail := Unscan(p, START, command, Parsed(command).value);
    assert "" + command == command;
  }

  // ---------------------------------------------------------------- the characters and words meant

  const BLANKS := "\t\n\U{B}\U{C}\r \U{A0}\U{1680}\U{2000}\U{2001}\U{2002}\U{2003}\U{2004}\U{2005}\U{2006}"
    + "\U{2007}\U{2008}\U{2009}\U{200A}\U{2028}\U{2029}\U{202F}\U{205F}\U{3000}\U{FEFF}"

  /** The blanks, and the characters that stand for themselves outside quotes: all but
      blanks, quotes, operators and those of syntax that is not read. */
  lemma CharactersAre(c: char)
    ensures Space(c) <==> c in BLANKS
    ensures PlainChar(c) <==> c !in BLANKS && c !in "\\'\"&|;" && c !in "$`<>(){}[]*?#"
  {
    BlanksAre(c);
    hide Space, BLANKS;
  }

  lemma BlanksAre(c: char)
    ensures Space(c) <==> c in BLANKS
  {
  }

  /** The same letters, of either case. */
  predicate Spells(word: string, lower: string) {
    |word| == |lower| && forall i | 0 <= i < |word| :: word[i] == lower[i] || Upper(word[i], lower[i])
  }

  predicate Upper(c: char, lower: char) {
    'a' <= lower <= 'z' && c as int == lower as int - 32
  }

  /** A name and "=" at the start of a word. */
  ghost predicate Assigns(word: string) {
    exists name, rest ::
      && word == name + "=" + rest && name != "" && name[0] !in "0123456789"
      && forall i :: 0 <= i < |name| ==> 'a' <= name[i] <= 'z' || 'A' <= name[i] <= 'Z' || name[i] in "_0123456789"
  }

  ghost predicate ChangesShell(word: string) {
    || Assigns(word)
    || exists name :: Spells(word, name)
         && name in {".", "alias", "cd", "eval", "exec", "export", "popd", "pushd", "set", "source", "unalias", "unset"}
  }

  /** The lines refused for what they do, whatever their syntax: those with a part that
      changes the shell itself. */
  lemma ForbiddenIs(parts: seq<Part>)
    ensures AnyForbidden(parts) <==>
            exists i :: 0 <= i < |parts| && parts[i].argv != [] && ChangesShell(parts[i].argv[0])
  {
    hide Stateful, Lower, Assignment, ChangesShell;
    forall i | 0 <= i < |parts| && parts[i].argv != []
      ensures Forbidden(parts[i]) <==> ChangesShell(parts[i].argv[0])
    {
      WordIs(parts[i].argv[0]);
    }
  }

  lemma WordIs(word: string)
    ensures Stateful(Lower(word)) || Assignment(word) <==> ChangesShell(word)
  {
    AssignmentIs(word);
    hide Assignment, Assigns;
    LowerSpells(word);
    forall name | Spells(word, name) && Stateful(name) ensures Lower(word) == name { SpellsLower(word, name); }
  }

  lemma AssignmentIs(word: string)
    ensures Assignment(word) <==> Assigns(word)
  {
    hide Assignment, Assigns;
    if Assignment(word) { AssignmentAssigns(word); }
    if Assigns(word) { AssignsAssignment(word); }
  }

  lemma AssignmentAssigns(word: string)
    requires Assignment(word)
    ensures Assigns(word)
  {
    var n :| 0 < n < |word| && word[n] == '=' && NameStart(word[0]) && forall i :: 0 < i < n ==> NameChar(word[i]);
    var name, rest := word[..n], word[n + 1..];
    NameIs(word[0]);
    forall i | 0 <= i < |name|
      ensures 'a' <= name[i] <= 'z' || 'A' <= name[i] <= 'Z' || name[i] in "_0123456789"
    {
      NameIs(name[i]);
    }
    hide NameStart, NameChar;
    assert name[0] == word[0] && word == name + "=" + rest;
  }

  lemma NameIs(c: char)
    ensures NameChar(c) <==> 'a' <= c <= 'z' || 'A' <= c <= 'Z' || c in "_0123456789"
    ensures NameStart(c) <==> NameChar(c) && c !in "0123456789"
  {
  }

  lemma AssignsAssignment(word: string)
    requires Assigns(word)
    ensures Assignment(word)
  {
    var name, rest :|
      && word == name + "=" + rest && name != "" && name[0] !in "0123456789"
      && forall i :: 0 <= i < |name| ==> 'a' <= name[i] <= 'z' || 'A' <= name[i] <= 'Z' || name[i] in "_0123456789";
    forall i | 0 <= i < |name| { NameIs(name[i]); }
    hide NameStart, NameChar;
    assert word[|name|] == '=' && forall i :: 0 <= i < |name| ==> word[i] == name[i];
    assert 0 < |name| < |word|;
  }

  lemma LowerSpells(word: string)
    ensures Spells(word, Lower(word))
  {
  }

  lemma SpellsLower(word: string, name: string)
    requires Spells(word, name) && Stateful(name)
    ensures Lower(word) == name
  {
    SmallLetters(name);
    hide Stateful;
    assert forall i :: 0 <= i < |word| ==> Lower(word)[i] == name[i];
  }

  lemma SmallLetters(name: string)
    requires Stateful(name)
    ensures forall i :: 0 <= i < |name| ==> name[i] == '.' || 'a' <= name[i] <= 'z'
  {
  }

  /** The lines refused unread: empty, too long, or with a line break or a NUL. */
  lemma ReadableIs(command: string)
    ensures Readable(command) <==> 0 < |command| <= 8192 && forall i :: 0 <= i < |command| ==> command[i] !in "\r\n\0"
  {
  }
}
