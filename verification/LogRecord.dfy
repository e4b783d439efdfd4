/** Fitting a log record into a byte limit.  The size is that of the serialised
    record in UTF-8, with JSON escapes; text is cut at UTF-16 units and never
    between the two halves of a surrogate pair. */
module LogRecord {

  import opened Utf16

  /** The bytes one unit takes outside a surrogate pair, escaped where JSON asks. */
  function UnitBytes(u: Unit): nat {
    if u == 0x22 || u == 0x5c || u == 0x08 || u == 0x09 || u == 0x0a || u == 0x0c || u == 0x0d then 2
    else if u < 0x20 || IsLead(u) || IsTrail(u) then 6
    else if u < 0x80 then 1
    else if u < 0x800 then 2
    else 3
  }

  /** The bytes of a text inside its JSON quotes. */
  function Bytes(s: seq<Unit>): nat
    decreases |s|
  {
    if s == [] then 0
    else if |s| >= 2 && IsLead(s[0]) && IsTrail(s[1]) then 4 + Bytes(s[2..])
    else UnitBytes(s[0]) + Bytes(s[1..])
  }

  /** The bytes a code point takes in UTF-8. */
  function Utf8Of(c: nat): seq<nat> {
    if c < 0x80 then [c]
    else if c < 0x800 then [0xc0 + c / 0x40, 0x80 + c % 0x40]
    else if c < 0x10000 then [0xe0 + c / 0x1000, 0x80 + c / 0x40 % 0x40, 0x80 + c % 0x40]
    else [0xf0 + c / 0x40000, 0x80 + c / 0x1000 % 0x40, 0x80 + c / 0x40 % 0x40, 0x80 + c % 0x40]
  }

  function HexDigit(n: nat): nat
    requires n < 16
  {
    "0123456789abcdef"[n] as int
  }

  /** What JSON.stringify writes for one unit outside a pair: the quote and the backslash
      after a backslash, controls by their short or long escape, lone surrogates by the
      long one, anything else as itself. */
  function Written(u: Unit): seq<nat> {
    if u == 0x22 || u == 0x5c then [0x5c, u]
    else if u == 8 then [0x5c, 'b' as int]
    else if u == 9 then [0x5c, 't' as int]
    else if u == 10 then [0x5c, 'n' as int]
    else if u == 12 then [0x5c, 'f' as int]
    else if u == 13 then [0x5c, 'r' as int]
    else if u < 0x20 || 0xd800 <= u < 0xe000 then
      [0x5c, 'u' as int, HexDigit(u / 0x1000), HexDigit(u / 0x100 % 16), HexDigit(u / 16 % 16), HexDigit(u % 16)]
    else Utf8Of(u)
  }

  /** The code point of a surrogate pair. */
  function PairOf(lead: int, trail: int): (c: nat)
    requires 0xd800 <= lead < 0xdc00 && 0xdc00 <= trail < 0xe000
    ensures 0x10000 <= c < 0x110000
  {
    0x10000 + (lead - 0xd800) * 0x400 + (trail - 0xdc00)
  }

  /** The inside of a serialised string, byte by byte. */
  function Serialised(s: seq<Unit>): seq<nat> {
    if s == [] then []
    else if |s| >= 2 && 0xd800 <= s[0] < 0xdc00 && 0xdc00 <= s[1] < 0xe000 then
      Utf8Of(PairOf(s[0], s[1])) + Serialised(s[2..])
    else Written(s[0]) + Serialised(s[1..])
  }

  /** The size counted is that of the bytes written. */
  lemma {:induction false} BytesAreWritten(s: seq<Unit>)
    ensures |Serialised(s)| == Bytes(s)
    decreases |s|
  {
    if s != [] {
      WrittenSize(s[0]);
      if |s| >= 2 && IsLead(s[0]) && IsTrail(s[1]) {
        BytesAreWritten(s[2..]);
      } else {
        hide Written, UnitBytes;
        BytesAreWritten(s[1..]);
      }
    }
  }

  lemma WrittenSize(u: Unit)
    ensures |Written(u)| == UnitBytes(u)
  {
  }

  /** The cut between `a` and `b` parts the halves of a pair. */
  predicate Joins(a: seq<Unit>, b: seq<Unit>) {
    a != [] && b != [] && IsLead(a[|a| - 1]) && IsTrail(b[0])
  }

  lemma {:induction false} BytesAppend(a: seq<Unit>, b: seq<Unit>)
    requires !Joins(a, b)
    ensures Bytes(a + b) == Bytes(a) + Bytes(b)
    decreases |a|
  {
    if a == [] {
      assert a + b == b;
    } else if |a| >= 2 && IsLead(a[0]) && IsTrail(a[1]) {
      assert (a + b)[2..] == a[2..] + b;
      BytesAppend(a[2..], b);
    } else {
      assert (a + b)[1..] == a[1..] + b;
      BytesAppend(a[1..], b);
    }
  }

  /** The first `length` units, one fewer when the last would be a lead surrogate. */
  function Prefix(value: seq<Unit>, length: nat): (r: seq<Unit>)
    requires length <= |value|
    ensures r <= value
    ensures !Joins(r, value[|r|..])
  {
    if length > 0 && IsLead(value[length - 1]) then value[..length - 1] else value[..length]
  }

  /** Where a text is cut: not after a lead surrogate, unless another follows it. */
  predicate MayCut(value: seq<Unit>, n: nat) {
    && n <= |value|
    && (n == 0 || !(0xd800 <= value[n - 1] < 0xdc00) || (n < |value| && 0xd800 <= value[n] < 0xdc00))
  }

  /** The prefixes tried are exactly the texts cut at such places. */
  lemma PrefixesAreCuts(value: seq<Unit>, n: nat)
    ensures MayCut(value, n) <==> n <= |value| && exists k: nat :: k <= |value| && Prefix(value, k) == value[..n]
  {
    if MayCut(value, n) {
      var k := if n > 0 && IsLead(value[n - 1]) then n + 1 else n;
      assert Prefix(value, k) == value[..n];
    }
    if n <= |value| {
      forall k: nat | k <= |value| && Prefix(value, k) == value[..n] ensures MayCut(value, n) {
        assert |Prefix(value, k)| == n;
      }
    }
  }

  /** The text as far as it fits beside `other` bytes: cut where it may be, and nowhere
      further on. */
  ghost predicate LongestFit(value: seq<Unit>, kept: seq<Unit>, other: nat, limit: nat) {
    && kept <= value && MayCut(value, |kept|) && other + Bytes(kept) <= limit
    && forall n: nat :: |kept| < n && MayCut(value, n) ==> other + Bytes(value[..n]) > limit
  }

  lemma FitIsLongest(value: seq<Unit>, low: nat, other: nat, limit: nat)
    requires low <= |value| && other + Bytes(Prefix(value, low)) <= limit
    requires forall k :: low < k <= |value| ==> other + Bytes(Prefix(value, k)) > limit
    ensures LongestFit(value, Prefix(value, low), other, limit)
  {
    var kept := Prefix(value, low);
    assert kept == value[..|kept|];
    PrefixesAreCuts(value, |kept|);
    forall n: nat | |kept| < n && MayCut(value, n) ensures other + Bytes(value[..n]) > limit {
      PrefixesAreCuts(value, n);
      var k: nat :| k <= |value| && Prefix(value, k) == value[..n];
      if k <= low { PrefixShorter(value, k, low); }
    }
  }

  lemma PrefixShorter(value: seq<Unit>, j: nat, k: nat)
    requires j <= k <= |value|
    ensures |Prefix(value, j)| <= |Prefix(value, k)|
  {
  }

  lemma PrefixGrows(value: seq<Unit>, length: nat)
    requires length < |value|
    ensures Bytes(Prefix(value, length)) <= Bytes(Prefix(value, length + 1))
  {
    var a, b := Prefix(value, length), Prefix(value, length + 1);
    assert a <= b;
    var rest := b[|a|..];
    assert b == a + rest;
    assert !Joins(a, rest);
    BytesAppend(a, rest);
  }

  lemma {:induction false} PrefixMonotone(value: seq<Unit>, j: nat, k: nat)
    requires j <= k <= |value|
    ensures Bytes(Prefix(value, j)) <= Bytes(Prefix(value, k))
    decreases k - j
  {
    hide Bytes, Prefix;
    if j < k {
      PrefixMonotone(value, j, k - 1);
      PrefixGrows(value, k - 1);
    }
  }

  /** The longest prefix that fits beside `other` bytes, found by halving. */
  method Fit(value: seq<Unit>, other: nat, limit: nat) returns (fitted: seq<Unit>, low: nat)
    requires other <= limit
    ensures low <= |value| && fitted == Prefix(value, low)
    ensures other + Bytes(fitted) <= limit
    ensures forall k :: low < k <= |value| ==> other + Bytes(Prefix(value, k)) > limit
  {
    hide Prefix, Bytes;
    low := 0;
    assert Bytes(Prefix(value, 0)) == 0 by { PrefixOfNone(value); }
    var high := |value|;
    while low < high
      invariant 0 <= low <= high <= |value|
      invariant other + Bytes(Prefix(value, low)) <= limit
      invariant forall k :: high < k <= |value| ==> other + Bytes(Prefix(value, k)) > limit
    {
      var middle := (low + high + 1) / 2;
      if other + Bytes(Prefix(value, middle)) <= limit {
        low := middle;
      } else {
        forall k | middle <= k <= |value| ensures other + Bytes(Prefix(value, k)) > limit {
          PrefixMonotone(value, middle, k);
        }
        high := middle - 1;
      }
    }
    fitted := Prefix(value, low);
  }

  lemma PrefixOfNone(value: seq<Unit>)
    ensures Bytes(Prefix(value, 0)) == 0
  {
  }

  /** {"occurredAt":"<24 characters>","context":"","detail":""} and a line end. */
  const PLAIN_BYTES: nat := 67
  /** The same with ,"truncated":true. */
  const TRUNCATED_BYTES: nat := 84

  lemma FramesAre()
    ensures |"{\"occurredAt\":\"1970-01-01T00:00:00.000Z\",\"context\":\"\",\"detail\":\"\"}\n"| == PLAIN_BYTES
    ensures |"{\"occurredAt\":\"1970-01-01T00:00:00.000Z\",\"context\":\"\",\"detail\":\"\",\"truncated\":true}\n"|
         == TRUNCATED_BYTES
  {
  }

  datatype Record = Record(context: seq<Unit>, detail: seq<Unit>, truncated: bool) {
    function Size(): nat {
      (if truncated then TRUNCATED_BYTES else PLAIN_BYTES) + Bytes(context) + Bytes(detail)
    }
  }

  /** A record that fits is kept whole; otherwise the context is kept as far as it
      fits with no detail, and then the detail as far as it fits. */
  method EncodeRecord(context: seq<Unit>, detail: seq<Unit>, limit: nat) returns (record: Record)
    requires limit >= TRUNCATED_BYTES
    ensures record.Size() <= limit
    ensures record.truncated <==> PLAIN_BYTES + Bytes(context) + Bytes(detail) > limit
    ensures !record.truncated ==> record.context == context && record.detail == detail
    ensures record.truncated ==>
      && LongestFit(context, record.context, TRUNCATED_BYTES, limit)
      && LongestFit(detail, record.detail, TRUNCATED_BYTES + Bytes(record.context), limit)
  {
    hide Prefix, Bytes, LongestFit;
    record := Record(context, detail, false);
    if record.Size() <= limit { return; }
    var c, cl := Fit(context, TRUNCATED_BYTES, limit);
    FitIsLongest(context, cl, TRUNCATED_BYTES, limit);
    var d, dl := Fit(detail, TRUNCATED_BYTES + Bytes(c), limit);
    FitIsLongest(detail, dl, TRUNCATED_BYTES + Bytes(c), limit);
    record := Record(c, d, true);
  }
}
