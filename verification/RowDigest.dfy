/** The canonical encoding of table rows and the digest of a table's content. */
module RowDigest {
  import opened Sequences
  import opened Wrappers

  type Bytes = seq<bv8>

  /** A rendered value, or NULL. */
  type Value = Option<Bytes>

  const NULL_MARK: bv8 := 0x4E  // N
  const VALUE_MARK: bv8 := 0x56 // V
  const COLON: bv8 := 0x3A
  const SEMICOLON: bv8 := 0x3B

  // ----- Encoding ---------------------------------------------------------------------------

  function Digit(n: nat): bv8
    requires n < 10
  { 0x30 + n as bv8 }

  predicate IsDigit(b: bv8) { 0x30 <= b <= 0x39 }

  function DigitValue(b: bv8): nat
    requires IsDigit(b)
  { (b - 0x30) as nat }

  function Decimal(n: nat): Bytes {
    if n < 10 then [Digit(n)] else Decimal(n / 10) + [Digit(n % 10)]
  }

  /** NULL, or the value behind its length. */
  function EncodeValue(v: Value): Bytes {
    match v
    case None => [NULL_MARK, SEMICOLON]
    case Some(bytes) => [VALUE_MARK] + Decimal(|bytes|) + [COLON] + bytes + [SEMICOLON]
  }

  function EncodeRow(row: seq<Value>): Bytes {
    if row == [] then [] else EncodeValue(row[0]) + EncodeRow(row[1..])
  }

  // ----- Decoding ---------------------------------------------------------------------------

  /** How many digits the bytes begin with. */
  function DigitsAt(s: Bytes): (n: nat)
    ensures n <= |s| && forall k :: 0 <= k < n ==> IsDigit(s[k])
  {
    if s != [] && IsDigit(s[0]) then 1 + DigitsAt(s[1..]) else 0
  }

  function NumberOf(s: Bytes): nat
    requires forall k :: 0 <= k < |s| ==> IsDigit(s[k])
  {
    if s == [] then 0 else NumberOf(s[..|s| - 1]) * 10 + DigitValue(s[|s| - 1])
  }

  datatype Decoded = Decoded(value: Value, rest: Bytes)

  /** The first value of an encoded row and what follows it. */
  function DecodeValue(s: Bytes): (r: Option<Decoded>)
    ensures r.Some? ==> |r.value.rest| < |s|
  {
    if |s| >= 2 && s[0] == NULL_MARK && s[1] == SEMICOLON then Some(Decoded(None, s[2..]))
    else if s == [] || s[0] != VALUE_MARK then None
    else
      var digits := DigitsAt(s[1..]);
      var at := 1 + digits;
      if digits == 0 || at >= |s| || s[at] != COLON then None
      else
        var length := NumberOf(s[1..at]);
        if at + 1 + length >= |s| || s[at + 1 + length] != SEMICOLON then None
        else Some(Decoded(Some(s[at + 1..at + 1 + length]), s[at + 2 + length..]))
  }

  function DecodeRow(s: Bytes): Option<seq<Value>>
    decreases |s|
  {
    if s == [] then Some([])
    else
      match DecodeValue(s)
      case None => None
      case Some(first) =>
        match DecodeRow(first.rest)
        case None => None
        case Some(row) => Some([first.value] + row)
  }

  lemma DigitRoundTrip(n: nat)
    requires n < 10
    ensures IsDigit(Digit(n)) && DigitValue(Digit(n)) == n
  {
    if n == 0 {} else if n == 1 {} else if n == 2 {} else if n == 3 {} else if n == 4 {}
    else if n == 5 {} else if n == 6 {} else if n == 7 {} else if n == 8 {} else {}
  }

  lemma {:induction false} DecimalRoundTrip(n: nat)
    ensures Decimal(n) != [] && (forall k :: 0 <= k < |Decimal(n)| ==> IsDigit(Decimal(n)[k]))
            && NumberOf(Decimal(n)) == n
  {
    DigitRoundTrip(n % 10);
    if n < 10 {
      assert [Digit(n)][..0] == [];
    } else {
      DecimalRoundTrip(n / 10);
      assert Decimal(n)[..|Decimal(n)| - 1] == Decimal(n / 10);
    }
  }

  /** Digits end where another byte follows. */
  lemma {:induction false} DigitsUpTo(digits: Bytes, next: bv8, rest: Bytes)
    requires (forall k :: 0 <= k < |digits| ==> IsDigit(digits[k])) && !IsDigit(next)
    ensures DigitsAt(digits + [next] + rest) == |digits|
  {
    var s := digits + [next] + rest;
    if digits != [] {
      DigitsUpTo(digits[1..], next, rest);
      assert s[1..] == digits[1..] + [next] + rest;
    }
  }

  /** The parts of an encoded value, where the decoder looks for them. */
  lemma PartsAt(digits: Bytes, bytes: Bytes, rest: Bytes)
    ensures var s := [VALUE_MARK] + digits + [COLON] + bytes + [SEMICOLON] + rest; var at := 1 + |digits|;
            s[0] == VALUE_MARK && s[1..] == digits + [COLON] + (bytes + [SEMICOLON] + rest) && s[1..at] == digits
            && s[at] == COLON
            && s[at + 1..at + 1 + |bytes|] == bytes && s[at + 1 + |bytes|] == SEMICOLON && s[at + 2 + |bytes|..] == rest
  {
    var head := [VALUE_MARK] + digits;
    var s := head + [COLON] + bytes + [SEMICOLON] + rest;
    assert s[..|head|] == head;
  }

  lemma ValueRoundTrip(v: Value, rest: Bytes)
    ensures DecodeValue(EncodeValue(v) + rest) == Some(Decoded(v, rest))
  {
    var s := EncodeValue(v) + rest;
    if v.Some? {
      var digits, bytes := Decimal(|v.value|), v.value;
      DecimalRoundTrip(|bytes|);
      DigitsUpTo(digits, COLON, bytes + [SEMICOLON] + rest);
      PartsAt(digits, bytes, rest);
      hide DecodeValue, Decimal, NumberOf, DigitsAt;
      assert s == [VALUE_MARK] + digits + [COLON] + bytes + [SEMICOLON] + rest;
      PartsDecoded(s, |digits|, bytes, rest);
    } else {
      assert s[2..] == rest;
    }
  }

  lemma PartsDecoded(s: Bytes, digits: nat, bytes: Bytes, rest: Bytes)
    requires 0 < digits && |s| == digits + |bytes| + 3 + |rest| && s[0] == VALUE_MARK && DigitsAt(s[1..]) == digits
    requires s[1 + digits] == COLON && NumberOf(s[1..1 + digits]) == |bytes|
    requires s[digits + 2..digits + 2 + |bytes|] == bytes && s[digits + 2 + |bytes|] == SEMICOLON
             && s[digits + 3 + |bytes|..] == rest
    ensures DecodeValue(s) == Some(Decoded(Some(bytes), rest))
  {
  }

  /** Every row can be read back from its encoding. */
  lemma {:induction false} RowRoundTrip(row: seq<Value>)
    ensures DecodeRow(EncodeRow(row)) == Some(row)
  {
    if row != [] {
      ValueRoundTrip(row[0], EncodeRow(row[1..]));
      RowRoundTrip(row[1..]);
      assert EncodeRow(row) != [] by { assert EncodeValue(row[0]) != []; }
      assert [row[0]] + row[1..] == row;
    }
  }

  /** Equal payloads mean equal rows: NULL is never taken for a value, and no
      value runs into the next. */
  lemma EncodingIsUnique(row: seq<Value>, other: seq<Value>)
    ensures EncodeRow(row) == EncodeRow(other) <==> row == other
  {
    RowRoundTrip(row);
    RowRoundTrip(other);
  }

  /** Byte by byte: the row of NULL and the text "ab" is N;V2:ab; and a text of
      ten bytes has a length of two digits. */
  lemma EncodingByByte(ten: Bytes)
    requires |ten| == 10
    ensures EncodeRow([None, Some([0x61, 0x62])]) == [0x4E, 0x3B, 0x56, 0x32, 0x3A, 0x61, 0x62, 0x3B]
    ensures EncodeValue(Some(ten)) == [0x56, 0x31, 0x30, 0x3A] + ten + [0x3B]
  {
    var row: seq<Value> := [None, Some([0x61, 0x62])];
    assert row[1..] == [Some([0x61, 0x62])] && row[1..][1..] == [];
    assert Decimal(2) == [0x32] && Decimal(10) == [0x31, 0x30];
    assert EncodeValue(row[1]) == [0x56, 0x32, 0x3A, 0x61, 0x62, 0x3B];
  }

  // ----- Lanes --------------------------------------------------------------------------------

  /** A digest of 32 bytes. */
  type Hash = d: Bytes | |d| == 32 witness seq(32, i => 0)

  datatype Lanes = Lanes(a: bv64, b: bv64, c: bv64, d: bv64)

  function LittleEndian(bytes: Bytes): bv64 {
    if bytes == [] then 0 else (LittleEndian(bytes[1..]) << 8) | (bytes[0] as bv64)
  }

  function LanesOf(d: Hash): Lanes {
    Lanes(LittleEndian(d[0..8]), LittleEndian(d[8..16]), LittleEndian(d[16..24]), LittleEndian(d[24..32]))
  }

  const TWO_TO_THE_64: nat := 0x1_0000_0000_0000_0000

  datatype Sums = Sums(a: nat, b: nat, c: nat, d: nat)

  function SumsOf(l: Lanes): Sums { Sums(l.a as nat, l.b as nat, l.c as nat, l.d as nat) }

  /** The mask of a 64-bit sum. */
  function Masked(n: nat): nat { n % TWO_TO_THE_64 }

  /** Lane by lane, modulo 2^64. */
  function Plus(
    x: Sums, y: Sums): Sums { Sums(Masked(x.a + y.a), Masked(x.b + y.b), Masked(x.c + y.c), Masked(x.d + y.d)) }

  function XorOf(x: bv64, y: bv64): bv64 { x ^ y }

  function Xor(x: Lanes, y: Lanes): Lanes { Lanes(XorOf(x.a, y.a), XorOf(x.b, y.b), XorOf(x.c, y.c), XorOf(x.d, y.d)) }

  /** What is observed of a table: its rows counted, their lanes summed and
      combined by exclusive or. */
  datatype Observation = Observation(count: nat, sums: Sums, xors: Lanes)

  const NOTHING: Observation := Observation(0, Sums(0, 0, 0, 0), Lanes(0, 0, 0, 0))

  function Combine(x: Observation, y: Observation): Observation {
    Observation(x.count + y.count, Plus(x.sums, y.sums), Xor(x.xors, y.xors))
  }

  function ObserveRow(row: seq<Value>, sha: Bytes -> Hash): Observation {
    var lanes := LanesOf(sha(EncodeRow(row)));
    Observation(1, SumsOf(lanes), lanes)
  }

  function Observe(rows: seq<seq<Value>>, sha: Bytes -> Hash): Observation {
    if rows == [] then NOTHING else Combine(Observe(rows[..|rows| - 1], sha), ObserveRow(rows[|rows| - 1], sha))
  }

  lemma MaskedSum(x: nat, y: nat, z: nat)
    ensures Masked(Masked(x + y) + z) == Masked(x + Masked(y + z))
  {
    var m := TWO_TO_THE_64;
    MaskedTwice(x + y, z);
    MaskedTwice(y + z, x);
  }

  lemma MaskedTwice(x: nat, y: nat)
    ensures Masked(Masked(x) + y) == Masked(x + y)
  {
    var q := x / TWO_TO_THE_64;
    assert x + y == Masked(x) + y + q * TWO_TO_THE_64;
  }

  lemma PlusLaws(x: Sums, y: Sums, z: Sums)
    ensures Plus(x, y) == Plus(y, x) && Plus(Plus(x, y), z) == Plus(x, Plus(y, z))
  {
    MaskedSum(x.a, y.a, z.a);
    MaskedSum(x.b, y.b, z.b);
    MaskedSum(x.c, y.c, z.c);
    MaskedSum(x.d, y.d, z.d);
    hide Masked;
  }

  lemma XorAssociative(x: bv64, y: bv64, z: bv64)
    ensures XorOf(XorOf(x, y), z) == XorOf(x, XorOf(y, z))
  {
  }

  lemma XorCommutative(x: bv64, y: bv64)
    ensures XorOf(x, y) == XorOf(y, x)
  {
  }

  lemma XorZero(x: bv64)
    ensures XorOf(x, 0) == x
  {
  }

  lemma XorLaw(x: bv64, y: bv64, z: bv64)
    ensures XorOf(x, y) == XorOf(y, x) && XorOf(XorOf(x, y), z) == XorOf(x, XorOf(y, z))
            && XorOf(x, 0) == x == XorOf(0, x)
  {
    hide XorOf;
    XorAssociative(x, y, z);
    XorCommutative(x, y);
    XorCommutative(x, 0);
    XorZero(x);
  }

  lemma XorLaws(x: Lanes, y: Lanes, z: Lanes)
    ensures Xor(x, y) == Xor(y, x) && Xor(Xor(x, y), z) == Xor(x, Xor(y, z))
  {
    hide XorOf;
    XorLaw(x.a, y.a, z.a);
    XorLaw(x.b, y.b, z.b);
    XorLaw(x.c, y.c, z.c);
    XorLaw(x.d, y.d, z.d);
  }

  lemma CombineLaws(x: Observation, y: Observation, z: Observation)
    ensures Combine(x, y) == Combine(y, x) && Combine(Combine(x, y), z) == Combine(x, Combine(y, z))
  {
    hide Plus, Xor;
    PlusLaws(x.sums, y.sums, z.sums);
    XorLaws(x.xors, y.xors, z.xors);
  }

  /** Sums never leave 64 bits. */
  predicate InRange(s: Sums) { s.a < TWO_TO_THE_64 && s.b < TWO_TO_THE_64 && s.c < TWO_TO_THE_64
      && s.d < TWO_TO_THE_64 }

  lemma NothingAdds(x: Observation)
    requires InRange(x.sums)
    ensures Combine(x, NOTHING) == Combine(NOTHING, x) == x
  {
    hide XorOf;
    var l := x.xors;
    XorLaw(l.a, 0, 0);
    XorLaw(l.b, 0, 0);
    XorLaw(l.c, 0, 0);
    XorLaw(l.d, 0, 0);
  }

  lemma {:induction false} ObservedInRange(rows: seq<seq<Value>>, sha: Bytes -> Hash)
    ensures InRange(Observe(rows, sha).sums)
  {
  }

  lemma {:induction false} ObserveBoth(a: seq<seq<Value>>, b: seq<seq<Value>>, sha: Bytes -> Hash)
    ensures Observe(a + b, sha) == Combine(Observe(a, sha), Observe(b, sha))
  {
    hide Combine, ObserveRow;
    if b == [] {
      assert a + b == a;
      ObservedInRange(a, sha);
      NothingAdds(Observe(a, sha));
    } else {
      var head, last := b[..|b| - 1], b[|b| - 1];
      ObserveBoth(a, head, sha);
      assert (a + b)[..|a + b| - 1] == a + head;
      CombineLaws(Observe(a, sha), Observe(head, sha), ObserveRow(last, sha));
    }
  }

  /** A row counts the same wherever it is. */
  lemma PulledOut(before: seq<seq<Value>>, row: seq<Value>, after: seq<seq<Value>>, sha: Bytes -> Hash)
    ensures Observe(before + [row] + after, sha) == Combine(Observe(before + after, sha), Observe([row], sha))
  {
    hide Combine, Observe;
    ObserveBoth(before + [row], after, sha);
    ObserveBoth(before, [row], sha);
    ObserveBoth(before, after, sha);
    CombineLaws(Observe(before, sha), Observe([row], sha), Observe(after, sha));
    CombineLaws(Observe(before, sha), Observe(after, sha), Observe([row], sha));
    CombineLaws(Observe([row], sha), Observe(after, sha), NOTHING);
  }

  /** The order of the rows does not matter. */
  lemma {:induction false} ObservationIgnoresOrder(a: seq<seq<Value>>, b: seq<seq<Value>>, sha: Bytes -> Hash)
    requires multiset(a) == multiset(b)
    ensures Observe(a, sha) == Observe(b, sha)
    decreases |a|
  {
    hide Observe;
    if a != [] {
      var head, last := a[..|a| - 1], a[|a| - 1];
      var i := TakenOut(a, b);
      var before, after := b[..i], b[i + 1..];
      ObservationIgnoresOrder(head, before + after, sha);
      PulledOut(before, last, after, sha);
      PulledOut(head, last, [], sha);
      assert b == before + [last] + after;
      assert a == head + [last] + [] && head == head + [];
    } else {
      NothingLeft(b);
    }
  }

  lemma NothingLeft<T>(b: seq<T>)
    requires multiset(b) == multiset{}
    ensures b == []
  {
    assert |b| == |multiset(b)|;
  }

  lemma Without<T>(list: seq<T>, i: nat)
    requires i < |list|
    ensures multiset(list[..i] + list[i + 1..]) == multiset(list) - multiset{list[i]}
  {
    assert list == list[..i] + [list[i]] + list[i + 1..];
  }

  /** The last row of a list, found and taken out of a rearranged one. */
  lemma TakenOut<T>(a: seq<T>, b: seq<T>) returns (i: nat)
    requires multiset(a) == multiset(b) && a != []
    ensures i < |b| && b[i] == a[|a| - 1] && multiset(a[..|a| - 1]) == multiset(b[..i] + b[i + 1..])
  {
    var n := |a| - 1;
    assert a[n] in multiset(b);
    i :| 0 <= i < |b| && b[i] == a[n];
    Without(b, i);
    Without(a, n);
    assert a[..n] + a[n + 1..] == a[..n];
  }

  lemma ObserveNone(sha: Bytes -> Hash)
    ensures Observe([], sha) == NOTHING
  {
  }

  function CombineAll(parts: seq<Observation>): Observation {
    if parts == [] then NOTHING else Combine(CombineAll(parts[..|parts| - 1]), parts[|parts| - 1])
  }

  /** Nor does the way they are divided into batches. */
  lemma {:induction false} ObservationIgnoresBatches(batches: seq<seq<seq<Value>>>, sha: Bytes -> Hash)
    ensures Observe(Flatten(batches), sha)
         == CombineAll(seq(|batches|, i requires 0 <= i < |batches| => Observe(batches[i], sha)))
  {
    hide Observe, Combine;
    if batches == [] {
      ObserveNone(sha);
    } else {
      var head, last := batches[..|batches| - 1], batches[|batches| - 1];
      ObservationIgnoresBatches(head, sha);
      ObserveBoth(Flatten(head), last, sha);
      var parts := seq(|batches|, i requires 0 <= i < |batches| => Observe(batches[i], sha));
      assert parts[..|parts| - 1] == seq(|head|, i requires 0 <= i < |head| => Observe(head[i], sha));
    }
  }

  // ----- What the observation says of the rows ---------------------------------------------------

  function Power256(n: nat): nat { if n == 0 then 1 else 256 * Power256(n - 1) }

  function ByteValue(b: bv8): (n: nat)
    ensures n < 256
  { b as nat }

  lemma SameByte(a: bv8, b: bv8)
    requires ByteValue(a) == ByteValue(b)
    ensures a == b
  {
  }

  /** A number from its bytes, the lowest first. */
  function NumberFrom(bytes: Bytes): nat {
    if bytes == [] then 0 else ByteValue(bytes[0]) + 256 * NumberFrom(bytes[1..])
  }

  /** Byte k counts 256^k fold. */
  lemma {:induction false} ByteWeight(bytes: Bytes, k: nat, b: bv8)
    requires k < |bytes|
    ensures NumberFrom(bytes[k := b]) - NumberFrom(bytes) == (ByteValue(b) - ByteValue(bytes[k])) * Power256(k)
  {
    hide ByteValue;
    var other := bytes[k := b];
    if k == 0 {
      assert other[1..] == bytes[1..];
    } else {
      assert other[1..] == bytes[1..][k - 1 := b];
      ByteWeight(bytes[1..], k - 1, b);
      var difference, weight: int := ByteValue(b) - ByteValue(bytes[k]), Power256(k - 1);
      Regroup(difference, weight);
    }
  }

  lemma Regroup(x: int, y: int)
    ensures 256 * (x * y) == x * (256 * y)
  {
  }

  lemma {:induction false} NumberIsSmall(bytes: Bytes)
    ensures NumberFrom(bytes) < Power256(|bytes|)
  {
    if bytes != [] { NumberIsSmall(bytes[1..]); }
  }

  lemma ShiftedLane(x: bv64, b: bv8)
    requires x <= 0x00FF_FFFF_FFFF_FFFF
    ensures ((x << 8) | (b as bv64)) as nat == 256 * (x as nat) + ByteValue(b)
  {
  }

  lemma SmallLane(x: bv64)
    requires x as nat < 0x0100_0000_0000_0000
    ensures x <= 0x00FF_FFFF_FFFF_FFFF
  {
  }

  /** A lane is the number of its eight bytes. */
  lemma {:induction false} LaneIsNumber(bytes: Bytes)
    requires |bytes| <= 8
    ensures LittleEndian(bytes) as nat == NumberFrom(bytes)
  {
    if bytes != [] {
      LaneIsNumber(bytes[1..]);
      NumberIsSmall(bytes[1..]);
      PowersGrow(|bytes| - 1);
      var x := LittleEndian(bytes[1..]);
      SmallLane(x);
      ShiftedLane(x, bytes[0]);
    }
  }

  lemma PowersGrow(n: nat)
    requires n <= 7
    ensures Power256(n) <= 0x0100_0000_0000_0000
  {
    assert Power256(0) == 1 && Power256(1) == 0x100 && Power256(2) == 0x1_0000 && Power256(3) == 0x100_0000;
    assert Power256(4) == 0x1_0000_0000 && Power256(5) == 0x100_0000_0000 && Power256(6) == 0x1_0000_0000_0000;
    assert Power256(7) == 0x100_0000_0000_0000;
  }

  lemma LowestByte(low: nat, high: nat, other: nat, rest: nat)
    requires low < 256 && other < 256 && low + 256 * high == other + 256 * rest
    ensures low == other && high == rest
  {
  }

  lemma {:induction false} NumberDetermines(a: Bytes, b: Bytes)
    requires |a| == |b| && NumberFrom(a) == NumberFrom(b)
    ensures a == b
  {
    if a != [] {
      hide ByteValue;
      LowestByte(ByteValue(a[0]), NumberFrom(a[1..]), ByteValue(b[0]), NumberFrom(b[1..]));
      SameByte(a[0], b[0]);
      NumberDetermines(a[1..], b[1..]);
      assert a == [a[0]] + a[1..] && b == [b[0]] + b[1..];
    }
  }

  /** The four lanes determine the digest. */
  lemma LanesDetermine(d: Hash, e: Hash)
    ensures LanesOf(d) == LanesOf(e) <==> d == e
  {
    if LanesOf(d) == LanesOf(e) {
      LaneDetermines(d[0..8], e[0..8]);
      LaneDetermines(d[8..16], e[8..16]);
      LaneDetermines(d[16..24], e[16..24]);
      LaneDetermines(d[24..32], e[24..32]);
      assert d == d[0..8] + d[8..16] + d[16..24] + d[24..32];
      assert e == e[0..8] + e[8..16] + e[16..24] + e[24..32];
    }
  }

  lemma LaneDetermines(a: Bytes, b: Bytes)
    requires |a| == |b| == 8 && LittleEndian(a) == LittleEndian(b)
    ensures a == b
  {
    LaneIsNumber(a);
    LaneIsNumber(b);
    NumberDetermines(a, b);
  }

  lemma ObservedAlone(row: seq<Value>, sha: Bytes -> Hash)
    ensures Observe([row], sha) == Observation(1, SumsOf(LanesOf(sha(EncodeRow(row)))), LanesOf(sha(EncodeRow(row))))
  {
    hide LanesOf, EncodeRow, XorOf;
    var lanes := LanesOf(sha(EncodeRow(row)));
    assert [row][..0] == [];
    XorLaw(lanes.a, 0, 0);
    XorLaw(lanes.b, 0, 0);
    XorLaw(lanes.c, 0, 0);
    XorLaw(lanes.d, 0, 0);
    LaneInRange(lanes.a);
    LaneInRange(lanes.b);
    LaneInRange(lanes.c);
    LaneInRange(lanes.d);
  }

  lemma LaneInRange(x: bv64)
    ensures Masked(0 + x as nat) == x as nat
  {
    hide Masked;
    MaskKeeps(x as nat);
  }

  lemma MaskKeeps(n: nat)
    requires n < TWO_TO_THE_64
    ensures Masked(n) == n
  {
  }

  /** The observation of a row tells its digest, which is that of its encoding. */
  lemma RowIsObserved(r: seq<Value>, s: seq<Value>, sha: Bytes -> Hash)
    ensures Observe([r], sha) == Observe([s], sha) <==> sha(EncodeRow(r)) == sha(EncodeRow(s))
  {
    ObservedAlone(r, sha);
    ObservedAlone(s, sha);
    LanesDetermine(sha(EncodeRow(r)), sha(EncodeRow(s)));
    hide Observe, LanesOf, EncodeRow;
  }

  lemma XorCancels(x: bv64, y: bv64, z: bv64)
    ensures XorOf(x, y) == XorOf(x, z) ==> y == z
  {
  }

  /** In any table, one row exchanged for another shows exactly if their digests
      differ. */
  lemma ExchangeShows(
    before: seq<seq<Value>>, r: seq<Value>, s: seq<Value>, after: seq<seq<Value>>, sha: Bytes -> Hash)
    ensures Observe(before + [r] + after, sha) == Observe(before + [s] + after, sha)
       <==> sha(EncodeRow(r)) == sha(EncodeRow(s))
  {
    PulledOut(before, r, after, sha);
    PulledOut(before, s, after, sha);
    ObservedAlone(r, sha);
    ObservedAlone(s, sha);
    LanesDetermine(sha(EncodeRow(r)), sha(EncodeRow(s)));
    var x, y, z := Observe(before + after, sha).xors, LanesOf(sha(EncodeRow(r))), LanesOf(sha(EncodeRow(s)));
    XorCancels(x.a, y.a, z.a);
    XorCancels(x.b, y.b, z.b);
    XorCancels(x.c, y.c, z.c);
    XorCancels(x.d, y.d, z.d);
    hide Observe, LanesOf, EncodeRow, XorOf, Plus, SumsOf;
  }

  /** Every row is counted. */
  lemma {:induction false} RowsAreCounted(rows: seq<seq<Value>>, sha: Bytes -> Hash)
    ensures Observe(rows, sha).count == |rows|
  {
    if rows != [] { RowsAreCounted(rows[..|rows| - 1], sha); }
  }

  /** The numbers of lane `lane` of all rows, added up. */
  function LaneTotal(rows: seq<seq<Value>>, sha: Bytes -> Hash, lane: nat): nat
    requires lane < 4
  {
    if rows == [] then 0
    else
      LaneTotal(rows[..|rows| - 1], sha, lane)
      + NumberFrom(sha(EncodeRow(rows[|rows| - 1]))[8 * lane..8 * lane + 8])
  }

  function Totals(rows: seq<seq<Value>>, sha: Bytes -> Hash): Sums {
    Sums(LaneTotal(rows, sha, 0) % TWO_TO_THE_64, LaneTotal(rows, sha, 1) % TWO_TO_THE_64,
         LaneTotal(rows, sha, 2) % TWO_TO_THE_64, LaneTotal(rows, sha, 3) % TWO_TO_THE_64)
  }

  lemma TotalsGrow(rows: seq<seq<Value>>, sha: Bytes -> Hash)
    requires rows != []
    ensures var d := sha(EncodeRow(rows[|rows| - 1]));
            Totals(rows, sha) == Plus(Totals(rows[..|rows| - 1], sha), SumsOf(LanesOf(d)))
  {
    hide EncodeRow, Masked, LittleEndian, NumberFrom;
    var head, d := rows[..|rows| - 1], sha(EncodeRow(rows[|rows| - 1]));
    LaneAdds(LaneTotal(head, sha, 0), d[0..8]);
    LaneAdds(LaneTotal(head, sha, 1), d[8..16]);
    LaneAdds(LaneTotal(head, sha, 2), d[16..24]);
    LaneAdds(LaneTotal(head, sha, 3), d[24..32]);
  }

  /** The sums are those of the lanes' numbers, modulo 2^64. */
  lemma {:induction false} SumsAreTotals(rows: seq<seq<Value>>, sha: Bytes -> Hash)
    ensures Observe(rows, sha).sums == Totals(rows, sha)
  {
    if rows != [] {
      SumsAreTotals(rows[..|rows| - 1], sha);
      TotalsGrow(rows, sha);
      hide EncodeRow, LanesOf, Totals, SumsOf, Plus, XorOf;
    }
  }

  lemma LaneAdds(total: nat, bytes: Bytes)
    requires |bytes| == 8
    ensures Masked(total % TWO_TO_THE_64 + LittleEndian(bytes) as nat) == (total + NumberFrom(bytes)) % TWO_TO_THE_64
  {
    LaneIsNumber(bytes);
    MaskedTwice(total, NumberFrom(bytes));
    hide NumberFrom, LittleEndian;
  }

  // ----- Ingestion ------------------------------------------------------------------------------

  function TotalBytes(rows: seq<seq<Value>>): nat {
    if rows == [] then 0 else TotalBytes(rows[..|rows| - 1]) + |EncodeRow(rows[|rows| - 1])|
  }

  /** A batch that may be written. */
  predicate Writable(batch: seq<seq<Value>>, batchRows: nat, batchBytes: nat) {
    batch != [] && |batch| <= batchRows && TotalBytes(batch) <= batchBytes
  }

  /** The batches written so far and the rows buffered for the next one. */
  predicate Buffering(
    rows: seq<seq<Value>>, batches: seq<seq<seq<Value>>>, buffered: seq<seq<Value>>, batchRows: nat, batchBytes: nat)
  {
    && Flatten(batches) + buffered == rows && (buffered != [] ==> Writable(buffered, batchRows, batchBytes))
    && (forall k :: 0 <= k < |batches| ==> Writable(batches[k], batchRows, batchBytes))
  }

  lemma BatchWritten(
    rows: seq<seq<Value>>, batches: seq<seq<seq<Value>>>, buffered: seq<seq<Value>>, batchRows: nat, batchBytes: nat)
    requires Buffering(rows, batches, buffered, batchRows, batchBytes) && buffered != []
    ensures Buffering(rows, batches + [buffered], [], batchRows, batchBytes)
  {
    hide Flatten, Writable;
    FlattenPush(batches, buffered);
  }

  lemma RowBuffered(
    rows: seq<seq<Value>>, batches: seq<seq<seq<Value>>>, buffered: seq<seq<Value>>, row: seq<Value>, batchRows: nat,
    batchBytes: nat)
    requires Buffering(rows, batches, buffered, batchRows, batchBytes)
    requires |buffered| < batchRows && TotalBytes(buffered) + |EncodeRow(row)| <= batchBytes
    ensures Buffering(rows + [row], batches, buffered + [row], batchRows, batchBytes)
    ensures TotalBytes(buffered + [row]) == TotalBytes(buffered) + |EncodeRow(row)|
  {
    hide Flatten, EncodeRow;
    assert (buffered + [row])[..|buffered|] == buffered;
  }

  /** One pass over the rows: batches within both limits, and the observation the
      published table will be compared with; `None` for a row beyond the byte
      limit. */
  method Ingest(rows: seq<seq<Value>>, batchRows: nat, batchBytes: nat, sha: Bytes -> Hash)
    returns (r: Option<(seq<seq<seq<Value>>>, Observation)>)
    requires batchRows > 0 && batchBytes > 0
    ensures r.None? <==> exists k :: 0 <= k < |rows| && |EncodeRow(rows[k])| > batchBytes
    ensures r.Some? ==> Flatten(r.value.0) == rows && r.value.1 == Observe(rows, sha)
    ensures r.Some? ==> forall k :: 0 <= k < |r.value.0| ==> Writable(r.value.0[k], batchRows, batchBytes)
  {
    hide Writable, TotalBytes, EncodeRow, Combine, ObserveRow, Observe;
    var batches: seq<seq<seq<Value>>>, buffered: seq<seq<Value>>, bufferedBytes := [], [], 0;
    var observation := NOTHING;
    EmptyBuffer(sha);
    for n := 0 to |rows|
      invariant Buffering(rows[..n], batches, buffered, batchRows, batchBytes) && observation == Observe(rows[..n], sha)
      invariant bufferedBytes == TotalBytes(buffered) && |buffered| < batchRows
      invariant forall k :: 0 <= k < n ==> |EncodeRow(rows[k])| <= batchBytes
    {
      var size := |EncodeRow(rows[n])|;
      if size > batchBytes {
        return None;
      }
      ObserveNext(rows, n, sha);
      observation := Combine(observation, ObserveRow(rows[n], sha));
      if buffered != [] && (|buffered| >= batchRows || bufferedBytes + size > batchBytes) {
        BatchWritten(rows[..n], batches, buffered, batchRows, batchBytes);
        batches, buffered, bufferedBytes := batches + [buffered], [], 0;
        EmptyBuffer(sha);
      }
      if buffered == [] { EmptyBuffer(sha); }
      RowBuffered(rows[..n], batches, buffered, rows[n], batchRows, batchBytes);
      buffered, bufferedBytes := buffered + [rows[n]], bufferedBytes + size;
      if |buffered| >= batchRows || bufferedBytes >= batchBytes {
        BatchWritten(rows[..n + 1], batches, buffered, batchRows, batchBytes);
        batches, buffered, bufferedBytes := batches + [buffered], [], 0;
        EmptyBuffer(sha);
      }
    }
    assert rows[..|rows|] == rows;
    if buffered != [] {
      BatchWritten(rows, batches, buffered, batchRows, batchBytes);
      batches := batches + [buffered];
    }
    return Some((batches, observation));
  }

  lemma EmptyBuffer(sha: Bytes -> Hash)
    ensures TotalBytes([]) == 0 && Observe([], sha) == NOTHING
  {
  }

  lemma ObserveNext(rows: seq<seq<Value>>, n: nat, sha: Bytes -> Hash)
    requires n < |rows|
    ensures rows[..n + 1] == rows[..n] + [rows[n]]
    ensures Observe(rows[..n + 1], sha) == Combine(Observe(rows[..n], sha), ObserveRow(rows[n], sha))
  {
    assert rows[..n + 1][..n] == rows[..n];
  }

  /** Whatever order the database keeps the inserted batches' rows in, its own
      observation is the one ingestion made. */
  lemma TableMatchesIngestion(batches: seq<seq<seq<Value>>>, table: seq<seq<Value>>, sha: Bytes -> Hash)
    requires multiset(table) == multiset(Flatten(batches))
    ensures Observe(table, sha)
         == CombineAll(seq(|batches|, i requires 0 <= i < |batches| => Observe(batches[i], sha)))
  {
    ObservationIgnoresOrder(table, Flatten(batches), sha);
    ObservationIgnoresBatches(batches, sha);
  }
}
