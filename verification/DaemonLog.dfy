/** The rotating daemon log, one writer, with a crash allowed between any two file
    operations and part-way through a write.

    Each file's records and the unfinished tail of the active file are kept as
    ghost state; `Valid` ties them to the bytes.  Every method keeps `Valid` at each
    point where it may stop, so it holds after any run of appends and crashes. */
module DaemonLog {

  type Byte = n: int | 0 <= n < 256
  type Bytes = seq<Byte>

  const NEWLINE: Byte := 10
  const MAXIMUM_FILE_BYTES: nat := 1_048_576
  const MAXIMUM_FILES: nat := 5
  const MAXIMUM_RECORD_BYTES: nat := 16_384

  /** One line: bytes with a line end at the end and nowhere else. */
  predicate IsRecord(r: Bytes) {
    r != [] && r[|r| - 1] == NEWLINE && NEWLINE !in r[..|r| - 1]
  }

  function Concat(records: seq<Bytes>): Bytes {
    if records == [] then [] else records[0] + Concat(records[1..])
  }

  lemma {:induction false} ConcatAppend(a: seq<Bytes>, b: seq<Bytes>)
    ensures Concat(a + b) == Concat(a) + Concat(b)
  {
    if a == [] {
      assert a + b == b;
    } else {
      assert (a + b)[1..] == a[1..] + b;
      ConcatAppend(a[1..], b);
    }
  }

  lemma {:induction false} ConcatEnds(records: seq<Bytes>)
    requires forall k :: 0 <= k < |records| ==> IsRecord(records[k])
    ensures Concat(records) == [] || Concat(records)[|Concat(records)| - 1] == NEWLINE
    ensures records != [] ==> Concat(records) != []
  {
    if records != [] { ConcatEnds(records[1..]); }
  }

  // ---------------------------------------------------------------- what a reader sees

  /** The bytes up to and with the last line end. */
  function CompletePart(content: Bytes): (r: Bytes)
    ensures r <= content
  {
    if content == [] then []
    else if content[|content| - 1] == NEWLINE then content
    else CompletePart(content[..|content| - 1])
  }

  /** The complete lines from the oldest archive to the active file. */
  function Readable(files: map<nat, Bytes>, n: nat): Bytes {
    if n == 0 then []
    else (if n - 1 in files then CompletePart(files[n - 1]) else []) + Readable(files, n - 1)
  }

  lemma {:induction false} CompletePartOf(whole: Bytes, tail: Bytes)
    requires whole == [] || whole[|whole| - 1] == NEWLINE
    requires NEWLINE !in tail
    ensures CompletePart(whole + tail) == whole
    decreases |tail|
  {
    if tail == [] {
      assert whole + tail == whole;
    } else {
      assert (whole + tail)[..|whole + tail| - 1] == whole + tail[..|tail| - 1];
      CompletePartOf(whole, tail[..|tail| - 1]);
    }
  }

  // ---------------------------------------------------------------- records by file

  /** The records of the files below `n`, oldest archive first. */
  function Flatten(segments: map<nat, seq<Bytes>>, n: nat): seq<Bytes> {
    if n == 0 then []
    else (if n - 1 in segments then segments[n - 1] else []) + Flatten(segments, n - 1)
  }

  lemma {:induction false} FlattenSame(a: map<nat, seq<Bytes>>, b: map<nat, seq<Bytes>>, n: nat)
    requires forall i :: 0 <= i < n ==> (i in a <==> i in b) && (i in a ==> a[i] == b[i])
    ensures Flatten(a, n) == Flatten(b, n)
  {
    if n > 0 { FlattenSame(a, b, n - 1); }
  }

  function Renamed<T>(m: map<nat, T>, i: nat): map<nat, T>
    requires i in m
  {
    (m - {i})[i + 1 := m[i]]
  }

  /** A rename into the free slot above keeps the order of the records. */
  lemma {:induction false} FlattenRename(segments: map<nat, seq<Bytes>>, i: nat, n: nat)
    requires i in segments && i + 1 !in segments && i + 2 <= n
    ensures Flatten(Renamed(segments, i), n) == Flatten(segments, n)
    decreases n
  {
    var renamed := Renamed(segments, i);
    if n == i + 2 {
      FlattenSame(renamed, segments, i);
      assert Flatten(renamed, n) == segments[i] + ([] + Flatten(segments, i));
      assert Flatten(segments, n) == [] + (segments[i] + Flatten(segments, i));
    } else {
      FlattenRename(segments, i, n - 1);
    }
  }

  /** Without the oldest file the later records are left. */
  lemma FlattenUnlink(segments: map<nat, seq<Bytes>>, n: nat)
    requires n > 0 && n - 1 in segments
    ensures Flatten(segments, n) == segments[n - 1] + Flatten(segments - {n - 1}, n)
  {
    FlattenSame(segments, segments - {n - 1}, n - 1);
  }

  lemma {:induction false} FlattenActive(segments: map<nat, seq<Bytes>>, more: seq<Bytes>, n: nat)
    requires 0 in segments && n > 0
    ensures Flatten(segments[0 := segments[0] + more], n) == Flatten(segments, n) + more
  {
    var grown := segments[0 := segments[0] + more];
    if n > 1 {
      FlattenActive(segments, more, n - 1);
      var own := if n - 1 in segments then segments[n - 1] else [];
      assert own + (Flatten(segments, n - 1) + more) == own + Flatten(segments, n - 1) + more;
    }
  }

  ghost predicate IsSuffix(s: seq<Bytes>, of: seq<Bytes>) {
    |s| <= |of| && of[|of| - |s|..] == s
  }

  lemma SuffixOfSuffix(a: seq<Bytes>, b: seq<Bytes>, of: seq<Bytes>)
    requires IsSuffix(a + b, of)
    ensures IsSuffix(b, of)
  {
    assert of[|of| - |b|..] == of[|of| - |a + b|..][|a|..] == (a + b)[|a|..] == b;
  }

  lemma SuffixGrows(s: seq<Bytes>, of: seq<Bytes>, r: Bytes)
    requires IsSuffix(s, of)
    ensures IsSuffix(s + [r], of + [r])
  {
  }

  // ---------------------------------------------------------------- the log

  datatype Outcome = Written | Closed | Failed | Crashed

  /** The bytes of complete lines in the active file. */
  function ActiveSize(files: map<nat, Bytes>): nat {
    if 0 in files then |CompletePart(files[0])| else 0
  }

  predicate SameArchives(a: map<nat, Bytes>, b: map<nat, Bytes>) {
    a - {0} == b - {0}
  }

  class RotatingDaemonLog {
    /** Whether the system refuses no write and nothing stops the daemon. */
    const calm: bool
    const maximumFileBytes: nat
    const maximumFiles: nat
    var closed: bool
    var files: map<nat, Bytes>

    /** The records of each file, the unfinished tail of the active file, and every
        record completely written so far. */
    ghost var segments: map<nat, seq<Bytes>>
    ghost var tail: Bytes
    ghost var written: seq<Bytes>

    ghost predicate Valid() reads this {
      && 256 <= maximumFileBytes <= MAXIMUM_FILE_BYTES && 1 <= maximumFiles <= MAXIMUM_FILES
      && files.Keys == segments.Keys
      && (forall i :: i in files ==> i < maximumFiles && |files[i]| <= maximumFileBytes)
      && (forall i :: i in segments ==> forall k :: 0 <= k < |segments[i]| ==> IsRecord(segments[i][k]))
      && (forall i :: i in files && i > 0 ==> files[i] == Concat(segments[i]))
      && (if 0 in files then files[0] == Concat(segments[0]) + tail else tail == [])
      && NEWLINE !in tail
      && IsSuffix(Kept(), written)
    }

    /** The records the files hold, oldest first. */
    ghost function Kept(): seq<Bytes> reads this {
      Flatten(segments, maximumFiles)
    }

    constructor (maximumFileBytes: nat, maximumFiles: nat, calm: bool)
      requires 256 <= maximumFileBytes <= MAXIMUM_FILE_BYTES && 1 <= maximumFiles <= MAXIMUM_FILES
      ensures Valid() && !closed && written == [] && files == map[] && this.calm == calm
      ensures this.maximumFileBytes == maximumFileBytes && this.maximumFiles == maximumFiles
    {
      this.calm := calm;
      this.maximumFileBytes, this.maximumFiles := maximumFileBytes, maximumFiles;
      closed, files, segments, tail, written := false, map[], map[], [], [];
      new;
      FlattenNone(maximumFiles);
    }

    /** A daemon that starts on the files another left, stopped, crashed or closed, with
        its limits or wider ones. */
    constructor Reopen(before: RotatingDaemonLog, maximumFileBytes: nat, maximumFiles: nat, calm: bool)
      requires before.Valid()
      requires before.maximumFileBytes <= maximumFileBytes <= MAXIMUM_FILE_BYTES
      requires before.maximumFiles <= maximumFiles <= MAXIMUM_FILES
      ensures Valid() && !closed && this.calm == calm
      ensures this.maximumFileBytes == maximumFileBytes && this.maximumFiles == maximumFiles
      ensures files == before.files && Kept() == before.Kept() && written == before.written && tail == before.tail
    {
      this.calm := calm;
      this.maximumFileBytes, this.maximumFiles := maximumFileBytes, maximumFiles;
      closed, files, segments, tail, written := false, before.files, before.segments, before.tail, before.written;
      new;
      FlattenAbove(segments, before.maximumFiles, maximumFiles);
    }

    /** Names above all files add nothing. */
    static lemma {:induction false} FlattenAbove(segments: map<nat, seq<Bytes>>, m: nat, n: nat)
      requires m <= n && forall i :: i in segments ==> i < m
      ensures Flatten(segments, n) == Flatten(segments, m)
    {
      if m < n { FlattenAbove(segments, m, n - 1); }
    }

    static lemma {:induction false} FlattenNone(n: nat)
      ensures Flatten(map[], n) == []
    {
      if n > 0 { FlattenNone(n - 1); }
    }

    /** The complete lines a reader finds, from the oldest archive to the active file,
        are the kept records: a suffix of the records completely written. */
    lemma ReadableIsKept()
      requires Valid()
      ensures Readable(files, maximumFiles) == Concat(Kept())
      ensures IsSuffix(Kept(), written)
    {
      ReadableUpTo(maximumFiles);
    }

    lemma {:induction false} ReadableUpTo(n: nat)
      requires Valid()
      ensures Readable(files, n) == Concat(Flatten(segments, n))
    {
      if n > 0 {
        ReadableUpTo(n - 1);
        var i := n - 1;
        FileReads(i);
        var own := if i in segments then segments[i] else [];
        assert Flatten(segments, n) == own + Flatten(segments, i);
        assert i !in segments ==> Concat(own) == [];
        hide Concat, Flatten, CompletePart, IsRecord, Valid;
        ConcatAppend(own, Flatten(segments, i));
      }
    }

    /** The complete lines of one file are its records. */
    lemma FileReads(i: nat)
      requires Valid()
      ensures i in files <==> i in segments
      ensures i in files ==> CompletePart(files[i]) == Concat(segments[i])
    {
      hide Flatten, IsSuffix;
      if i in files {
        ConcatEnds(segments[i]);
        hide Concat, IsRecord;
        var torn := if i == 0 then tail else [];
        assert Concat(segments[i]) + [] == Concat(segments[i]);
        CompletePartOf(Concat(segments[i]), torn);
      }
    }

    // -------------------------------------------------------------- file operations

    /** Opens the active file, creating it when absent. */
    method OpenActive()
      requires Valid()
      modifies this`files, this`segments
      ensures Valid() && Kept() == old(Kept()) && 0 in files
      ensures files == if 0 in old(files) then old(files) else old(files)[0 := []]
      ensures segments == if 0 in old(files) then old(segments) else old(segments)[0 := []]
    {
      if 0 !in files {
        ghost var before := segments;
        files, segments := files[0 := []], segments[0 := []];
        FlattenCreate(before, maximumFiles);
      }
    }

    static lemma {:induction false} FlattenCreate(segments: map<nat, seq<Bytes>>, n: nat)
      requires 0 !in segments
      ensures Flatten(segments[0 := []], n) == Flatten(segments, n)
    {
      if n > 0 { FlattenCreate(segments, n - 1); }
    }

    /** Keeps the complete lines of the active file and drops what a killed writer left. */
    method RepairTail() returns (size: nat)
      requires Valid() && 0 in files
      modifies this`files, this`tail
      ensures Valid() && Kept() == old(Kept()) && tail == []
      ensures files == old(files)[0 := Concat(segments[0])] && size == |files[0]|
    {
      var content := files[0];
      ghost var whole := Concat(segments[0]);
      ConcatEnds(segments[0]);
      size := |content|;
      ghost var torn := tail;
      assert content == whole + torn && NEWLINE !in torn;
      TornHasNoLineEnd(whole, torn);
      hide Concat, Flatten, IsRecord;
      while size > 0 && content[size - 1] != NEWLINE
        invariant |whole| <= size <= |content|
      {
        size := size - 1;
      }
      files := files[0 := content[..size]];
      tail := [];
    }

    static lemma TornHasNoLineEnd(whole: Bytes, torn: Bytes)
      requires NEWLINE !in torn
      ensures forall i :: |whole| <= i < |whole + torn| ==> (whole + torn)[i] != NEWLINE
      ensures (whole + torn)[..|whole|] == whole
    {
    }

    /** Whether the daemon is stopped here. */
    method Stops() returns (stop: bool)
      ensures calm ==> !stop
    {
      stop := *;
      if calm { stop := false; }
    }

    /** Removes the oldest archive; the later records stay. */
    method UnlinkOldest()
      requires Valid() && maximumFiles - 1 in files && (maximumFiles == 1 ==> tail == [])
      modifies this`files, this`segments
      ensures Valid()
      ensures files == old(files) - {maximumFiles - 1}
      ensures old(Kept()) == old(segments)[maximumFiles - 1] + Kept()
    {
      FlattenUnlink(segments, maximumFiles);
      SuffixOfSuffix(segments[maximumFiles - 1], Flatten(segments - {maximumFiles - 1}, maximumFiles), written);
      files, segments := files - {maximumFiles - 1}, segments - {maximumFiles - 1};
    }

    /** Renames a file to the next index, which no file has. */
    method Rename(i: nat)
      requires Valid() && i in files && i + 1 !in files && i + 1 < maximumFiles && (i == 0 ==> tail == [])
      modifies this`files, this`segments
      ensures Valid() && Kept() == old(Kept())
      ensures files == Renamed(old(files), i)
    {
      FlattenRename(segments, i, maximumFiles);
      files, segments := Renamed(files, i), Renamed(segments, i);
    }

    lemma ValidFacts()
      requires Valid()
      ensures files.Keys == segments.Keys && maximumFiles >= 1 && (forall i :: i in files ==> i < maximumFiles)
      ensures 0 in files ==> files[0] == Concat(segments[0]) + tail
    {
    }

    /** Writes some of a record's bytes at the end of the active file. */
    method WritePart(content: Bytes, offset: nat, n: nat)
      requires Valid() && 0 in files && IsRecord(content) && offset + n < |content| && tail == content[..offset]
      requires |Concat(segments[0])| + |content| <= maximumFileBytes
      modifies this`files, this`tail
      ensures Valid() && files.Keys == old(files).Keys && tail == content[..offset + n] && Kept() == old(Kept())
      ensures SameArchives(files, old(files))
    {
      assert files[0] + content[offset..offset + n] == Concat(segments[0]) + content[..offset + n];
      assert forall k :: 0 <= k < offset + n ==> content[k] == content[..|content| - 1][k];
      files := files[0 := files[0] + content[offset..offset + n]];
      tail := content[..offset + n];
    }

    /** Writes the rest of a record's bytes. */
    method WriteRest(content: Bytes, offset: nat)
      requires Valid() && 0 in files && IsRecord(content) && offset <= |content| && tail == content[..offset]
      requires |Concat(segments[0])| + |content| <= maximumFileBytes
      modifies this`files, this`segments, this`tail, this`written
      ensures Valid() && tail == []
      ensures Kept() == old(Kept()) + [content] && written == old(written) + [content]
      ensures SameArchives(files, old(files))
    {
      hide IsRecord;
      ghost var before, after := segments, segments[0 := segments[0] + [content]];
      ConcatAppend(segments[0], [content]);
      assert Concat([content]) == content;
      assert files[0] + content[offset..] == Concat(after[0]) + [];
      FlattenActive(before, [content], maximumFiles);
      SuffixGrows(Flatten(before, maximumFiles), written, content);
      hide Flatten, Concat;
      files := files[0 := files[0] + content[offset..]];
      segments, tail, written := after, [], written + [content];
    }

    /** Cuts the unfinished record off again. */
    method Truncate(size: nat)
      requires Valid() && 0 in files && size == |Concat(segments[0])|
      modifies this`files, this`tail
      ensures Valid() && tail == [] && Kept() == old(Kept()) && SameArchives(files, old(files))
    {
      assert files[0][..size] == Concat(segments[0]) + [];
      files := files[0 := files[0][..size]];
      tail := [];
    }

    /** Moves every file up by one and leaves the active name free. */
    method Rotate() returns (crashed: bool, ghost lost: nat)
      requires Valid() && tail == [] && 0 in files
      modifies this`files, this`segments
      ensures Valid() && lost <= |old(Kept())| && Kept() == old(Kept())[lost..]
      ensures lost > 0 ==> maximumFiles - 1 in old(files) && lost == |old(segments)[maximumFiles - 1]|
      ensures !crashed ==> 0 !in files
      ensures calm ==> !crashed
    {
      hide Valid, Flatten, Renamed, IsSuffix;
      ValidFacts();
      lost := 0;
      crashed := false;
      if maximumFiles - 1 in files {
        UnlinkOldest();
        lost := |old(segments)[maximumFiles - 1]|;
        crashed := Stops();
        if crashed { return; }
      }
      crashed := MoveUp();
    }

    /** Renames every file to the next name, the oldest first. */
    method MoveUp() returns (crashed: bool)
      requires Valid() && tail == [] && maximumFiles - 1 !in files
      modifies this`files, this`segments
      ensures Valid() && Kept() == old(Kept())
      ensures !crashed ==> 0 !in files
      ensures calm ==> !crashed
    {
      hide Valid, Flatten, IsSuffix;
      ValidFacts();
      var present := files.Keys;
      var index: int := maximumFiles - 2;
      while index >= 0
        invariant -1 <= index <= maximumFiles - 2
        invariant Valid() && Kept() == old(Kept())
        invariant index + 1 !in files
        invariant forall j :: 0 <= j <= index ==> (j in files <==> j in present)
      {
        if index in present {
          Rename(index);
          crashed := Stops();
          if crashed { return; }
        }
        index := index - 1;
      }
      crashed := false;
    }

    /** Appends one record.  It may stop after any file operation; a stop inside the
        write leaves part of the record, which the next append drops.  Archives move,
        and the oldest goes, only when the record does not fit in the active file;
        undisturbed, the record is written. */
    method Append(content: Bytes) returns (outcome: Outcome, ghost lost: nat)
      requires Valid() && IsRecord(content)
      requires |content| <= maximumFileBytes && |content| <= MAXIMUM_RECORD_BYTES
      modifies this
      ensures Valid() && closed == old(closed)
      ensures outcome == Closed <==> old(closed)
      ensures outcome == Closed ==> Kept() == old(Kept()) && written == old(written)
      ensures outcome == Written ==> written == old(written) + [content] && tail == []
      ensures written == old(written) || written == old(written) + [content]
      ensures lost <= |old(Kept())|
      ensures Kept() == old(Kept())[lost..] + if written == old(written) then [] else [content]
      ensures lost > 0 ==> maximumFiles - 1 in old(files) && lost == |old(segments)[maximumFiles - 1]|
      ensures calm && !old(closed) ==> outcome == Written
      ensures ActiveSize(old(files)) + |content| <= maximumFileBytes ==> lost == 0 && SameArchives(files, old(files))
    {
      assert content != [];
      hide Valid, Flatten, IsRecord, Concat, ActiveSize, IsSuffix, SameArchives;
      if closed { return Closed, 0; }
      var crash, size;
      crash, size, lost := MakeRoom(content);
      if crash { return Crashed, lost; }
      outcome := WriteRecord(content, size);
      ArchivesAgain(old(files), files);
    }

    static lemma ArchivesAgain(a: map<nat, Bytes>, b: map<nat, Bytes>)
      ensures forall m :: SameArchives(m, a) && SameArchives(b, m) ==> SameArchives(b, a)
    {
    }

    /** Opens the active file, repairs it, and moves the archives up if the record does
        not fit. */
    method MakeRoom(content: Bytes) returns (crash: bool, size: nat, ghost lost: nat)
      requires Valid() && |content| <= maximumFileBytes
      modifies this`files, this`segments, this`tail
      ensures Valid() && lost <= |old(Kept())| && Kept() == old(Kept())[lost..]
      ensures lost > 0 ==> maximumFiles - 1 in old(files) && lost == |old(segments)[maximumFiles - 1]|
      ensures ActiveSize(old(files)) + |content| <= maximumFileBytes ==> lost == 0 && SameArchives(files, old(files))
      ensures !crash ==> 0 in files && tail == [] && size == |files[0]| && size + |content| <= maximumFileBytes
      ensures calm ==> !crash
    {
      hide Valid, Flatten, IsRecord, Concat, ActiveSize, IsSuffix, SameArchives;
      lost := 0;
      crash, size := OpenRepaired();
      if crash { return; }
      crash := Stops();
      if crash { return; }
      if size + |content| > maximumFileBytes {
        crash, lost := Rotate();
        if crash { return; }
        OpenActive();
        size := 0;
        crash := Stops();
      }
    }

    method OpenRepaired() returns (crash: bool, size: nat)
      requires Valid()
      modifies this`files, this`segments, this`tail
      ensures Valid() && Kept() == old(Kept()) && SameArchives(files, old(files)) && (calm ==> !crash)
      ensures forall i :: i in segments && segments[i] != [] ==>
        i in old(files) && i in old(segments) && segments[i] == old(segments)[i]
      ensures files.Keys == segments.Keys
      ensures !crash ==> 0 in files && tail == [] && size == |files[0]| == ActiveSize(old(files))
    {
      ActiveIs();
      ValidFacts();
      hide Valid, Kept, Flatten, IsRecord, Concat, ActiveSize, IsSuffix, CompletePart;
      OpenActive();
      ValidFacts();
      size := 0;
      crash := Stops();
      if crash { return; }
      size := RepairTail();
      ValidFacts();
    }

    lemma ActiveIs()
      requires Valid()
      ensures ActiveSize(files) == if 0 in files then |Concat(segments[0])| else |Concat([])|
    {
      if 0 in files {
        ConcatEnds(segments[0]);
        CompletePartOf(Concat(segments[0]), tail);
      }
    }

    /** Writes a record in as many parts as the system takes it; a failed write is cut
        off again, unless that fails too. */
    method WriteRecord(content: Bytes, size: nat) returns (outcome: Outcome)
      requires Valid() && 0 in files && tail == [] && IsRecord(content)
      requires content != [] && size == |files[0]| && size + |content| <= maximumFileBytes
      modifies this`files, this`segments, this`tail, this`written
      ensures Valid() && outcome != Closed && SameArchives(files, old(files))
      ensures written == old(written) || written == old(written) + [content]
      ensures Kept() == old(Kept()) + if written == old(written) then [] else [content]
      ensures outcome == Written ==> written == old(written) + [content] && tail == []
      ensures calm ==> outcome == Written
    {
      hide Valid, Flatten, IsRecord, Concat;
      ValidFacts();
      var offset := 0;
      while true
        invariant 0 <= offset < |content| && Valid() && 0 in files && SameArchives(files, old(files))
        invariant tail == content[..offset] && segments == old(segments) && written == old(written)
        decreases |content| - offset
      {
        var n := Taken(|content| - offset);
        if n == 0 {
          var cut: bool := *;
          if cut { Truncate(size); }
          return Failed;
        }
        var crash := Stops();
        if offset + n == |content| {
          WriteRest(content, offset);
          return if crash then Crashed else Written;
        }
        WritePart(content, offset, n);
        offset := offset + n;
        if crash { return Crashed; }
      }
    }

    /** How many of the bytes the system takes; none when the write fails. */
    method Taken(most: nat) returns (n: nat)
      requires most > 0
      ensures n <= most && (calm ==> n > 0)
    {
      var some: int := *;
      if 0 < some <= most { return some; }
      n := if calm then most else 0;
    }

    /** Late callbacks from a stopped owner must not write. */
    method Close()
      requires Valid()
      modifies this`closed
      ensures Valid() && closed
    {
      closed := true;
    }
  }

  // ---------------------------------------------------------------- one daemon after another

  /** What the daemons were given to log, in order. */
  function AllOf(lives: seq<seq<Bytes>>): seq<Bytes> {
    if lives == [] then [] else AllOf(lives[..|lives| - 1]) + lives[|lives| - 1]
  }

  lemma AllOfNext(lives: seq<seq<Bytes>>, i: nat)
    requires i < |lives|
    ensures AllOf(lives[..i + 1]) == AllOf(lives[..i]) + lives[i]
  {
    assert lives[..i + 1][..i] == lives[..i];
  }

  /** `a` is `b` with some elements left out. */
  predicate Within(a: seq<Bytes>, b: seq<Bytes>) {
    || a == []
    || (b != [] && a[|a| - 1] == b[|b| - 1] && Within(a[..|a| - 1], b[..|b| - 1]))
    || (b != [] && Within(a, b[..|b| - 1]))
  }

  lemma WithinGrows(a: seq<Bytes>, b: seq<Bytes>, r: Bytes)
    requires Within(a, b)
    ensures Within(a, b + [r]) && Within(a + [r], b + [r])
  {
    assert (b + [r])[..|b|] == b && (a + [r])[..|a|] == a;
  }

  lemma {:induction false} WithinMore(a: seq<Bytes>, b: seq<Bytes>, more: seq<Bytes>)
    requires Within(a, b)
    ensures Within(a, b + more)
  {
    hide Within;
    if more == [] {
      assert b + more == b;
    } else {
      var front, r := more[..|more| - 1], more[|more| - 1];
      WithinMore(a, b, front);
      WithinGrows(a, b + front, r);
      assert b + more == b + front + [r];
    }
  }

  /** What one daemon may be given. */
  predicate Loggable(records: seq<Bytes>, maximumFileBytes: nat) {
    forall k :: 0 <= k < |records| ==>
      IsRecord(records[k]) && |records[k]| <= maximumFileBytes && |records[k]| <= 16_384
  }

  /** One daemon's life: it logs record after record until it is stopped. */
  method Live(log: RotatingDaemonLog, records: seq<Bytes>, ghost given: seq<Bytes>)
    requires log.Valid() && !log.closed && Loggable(records, log.maximumFileBytes) && Within(log.written, given)
    modifies log
    ensures log.Valid() && log.closed && Within(log.written, given + records)
    ensures log.calm ==> log.written == old(log.written) + records
  {
    hide Within, IsRecord, Concat, RotatingDaemonLog.Valid, RotatingDaemonLog.Kept;
    assert given + records[..0] == given;
    for j := 0 to |records|
      invariant log.Valid() && !log.closed && Within(log.written, given + records[..j])
      invariant log.calm ==> log.written == old(log.written) + records[..j]
    {
      WithinGrows(log.written, given + records[..j], records[j]);
      assert given + records[..j + 1] == given + records[..j] + [records[j]];
      var outcome, lost := log.Append(records[j]);
      if outcome == Crashed {
        WithinMore(log.written, given + records[..j + 1], records[j + 1..]);
        assert given + records == given + records[..j + 1] + records[j + 1..];
        log.Close();
        return;
      }
    }
    assert records[..|records|] == records;
    log.Close();
  }

  /** Daemon after daemon on the same files, each stopped anywhere: what can be read are the
      last of the records completely written, and those are records given, in order; when
      nothing disturbs them, all of those given. */
  method Lives(lives: seq<seq<Bytes>>, maximumFileBytes: nat, maximumFiles: nat, calm: bool)
    returns (log: RotatingDaemonLog)
    requires 256 <= maximumFileBytes <= 1_048_576 && 1 <= maximumFiles <= 5
    requires forall i :: 0 <= i < |lives| ==> Loggable(lives[i], maximumFileBytes)
    ensures log.Valid() && log.maximumFiles == maximumFiles
    ensures Readable(log.files, maximumFiles) == Concat(log.Kept()) && IsSuffix(log.Kept(), log.written)
    ensures Within(log.written, AllOf(lives)) && (calm ==> log.written == AllOf(lives))
  {
    assert Within([], AllOf(lives[..0])) && AllOf(lives[..0]) == [];
    hide AllOf, Concat, Loggable, Within, IsSuffix, Readable, RotatingDaemonLog.Valid, RotatingDaemonLog.Kept;
    log := new RotatingDaemonLog(maximumFileBytes, maximumFiles, calm);
    for i := 0 to |lives|
      invariant log.Valid() && fresh(log)
      invariant log.maximumFileBytes == maximumFileBytes && log.maximumFiles == maximumFiles
      invariant Within(log.written, AllOf(lives[..i])) && (calm ==> log.written == AllOf(lives[..i]))
    {
      AllOfNext(lives, i);
      var next := new RotatingDaemonLog.Reopen(log, maximumFileBytes, maximumFiles, calm);
      Live(next, lives[i], AllOf(lives[..i]));
      log := next;
    }
    assert lives[..|lives|] == lives;
    log.ReadableIsKept();
  }
}
