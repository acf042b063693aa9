/** Bytes, C strings, bounded line framing, decimal headers and big-endian integers. */
module Bytes {

  /** Failure-compatible optional value. */
  datatype Option<+T> = None | Some(value: T) {
    predicate IsFailure() { None? }
    function PropagateFailure<U>(): Option<U> requires None? { None }
    function Extract(): T requires Some? { value }
  }

  type byte = x: int | 0 <= x < 256

  const NUL: byte := 0
  const LF: byte := 10
  const SLASH: byte := 47
  const U64_LIMIT: nat := 0x1_0000_0000_0000_0000

  /** The bytes of an ASCII literal. */
  function Ascii(s: string): (b: seq<byte>)
    ensures |b| == |s|
    ensures forall i :: 0 <= i < |s| ==> b[i] == s[i] as int % 256
  {
    seq(|s|, i requires 0 <= i < |s| => s[i] as int % 256)
  }

  /** A literal of printable characters holds no terminator of either kind. */
  lemma Printable(s: string)
    requires forall i :: 0 <= i < |s| ==> 32 <= s[i] as int < 127
    ensures LF !in Ascii(s) && NUL !in Ascii(s)
  {
  }

  /** What a C string function sees of a buffer: everything before the first NUL. */
  function CStr(s: seq<byte>): (r: seq<byte>)
    ensures r <= s && NUL !in r
    ensures NUL !in s ==> r == s
  {
    if s == [] || s[0] == NUL then [] else [s[0]] + CStr(s[1..])
  }

  predicate IsSpace(b: byte) { b == 32 || 9 <= b <= 13 }

  predicate IsDigit(b: byte) { 48 <= b <= 57 }

  /** `isspace` skipping, then end of string: the test for an empty line. */
  predicate IsBlank(line: seq<byte>) {
    forall i :: 0 <= i < |line| ==> IsSpace(line[i])
  }

  // ---------------------------------------------------------------- reading

  /** Take exactly `n` bytes, or fail when the stream ends first. */
  function Take(s: seq<byte>, n: nat): (r: Option<(seq<byte>, seq<byte>)>)
    ensures r.Some? <==> n <= |s|
    ensures r.Some? ==> s == r.value.0 + r.value.1 && |r.value.0| == n && IsSuffix(r.value.1, s)
  {
    if n <= |s| then Some((s[..n], s[n..])) else None
  }

  /** `t` is what is left of `s` after some bytes were consumed. */
  predicate IsSuffix(t: seq<byte>, s: seq<byte>) {
    |t| <= |s| && t == s[|s| - |t|..]
  }

  lemma SuffixTransitive(a: seq<byte>, b: seq<byte>, c: seq<byte>)
    requires IsSuffix(a, b) && IsSuffix(b, c)
    ensures IsSuffix(a, c)
  {
    assert c[|c| - |a|..] == c[|c| - |b|..][|b| - |a|..];
  }

  lemma SplitAt<T>(s: seq<T>, i: nat)
    requires i < |s|
    ensures s[..i + 1] == s[..i] + [s[i]] && s == s[..i + 1] + s[i + 1..]
  {
  }

  lemma TakeAppend(a: seq<byte>, rest: seq<byte>)
    ensures Take(a + rest, |a|) == Some((a, rest))
  {
    assert (a + rest)[..|a|] == a && (a + rest)[|a|..] == rest;
  }

  /** Number of bytes stored before a newline, the end of the stream or a full buffer. */
  function LineLength(s: seq<byte>, room: nat): (k: nat)
    ensures k <= |s| && k <= room
    ensures forall i :: 0 <= i < k ==> s[i] != LF
    ensures k == room || k == |s| || s[k] == LF
  {
    if room == 0 || s == [] || s[0] == LF then 0 else 1 + LineLength(s[1..], room - 1)
  }

  /**
   * One call of the bounded line reader with a buffer of `size` bytes: the bytes stored, and
   * what is left of the stream. A buffer that fills up leaves the newline in the stream.
   */
  function ReadLine(s: seq<byte>, size: nat): (r: Option<(seq<byte>, seq<byte>)>)
    requires size > 1
    ensures r.None? <==> s == []
    ensures r.Some? ==> |r.value.1| < |s| && |r.value.0| < size && LF !in r.value.0
    ensures r.Some? ==> IsSuffix(r.value.1, s)
  {
    var k := LineLength(s, size - 1);
    if k == size - 1 then Some((s[..k], s[k..]))
    else if k < |s| then Some((s[..k], s[k + 1..]))
    else if k == 0 then None
    else Some((s, []))
  }

  lemma LineLengthOf(line: seq<byte>, tail: seq<byte>, room: nat)
    requires LF !in line && |line| <= room
    requires tail == [] || tail[0] == LF
    ensures LineLength(line + tail, room) == |line|
  {
    assert forall i :: 0 <= i < |line| ==> (line + tail)[i] == line[i];
    assert tail != [] ==> (line + tail)[|line|] == LF;
  }

  lemma {:induction false} LineLengthFull(s: seq<byte>, room: nat)
    requires room <= |s| && forall i :: 0 <= i < room ==> s[i] != LF
    ensures LineLength(s, room) == room
  {
    if room > 0 { LineLengthFull(s[1..], room - 1); }
  }

  /**
   * A line with its newline is read back exactly, newline consumed, if and only if it is short enough for the buffer;
   * of a longer one the buffer's fill is read, and the rest of the line stays in the stream.
   */
  lemma LineFramed(line: seq<byte>, rest: seq<byte>, size: nat)
    requires size > 1 && LF !in line
    ensures ReadLine(line + [LF] + rest, size) == Some((line, rest)) <==> |line| + 1 < size
    ensures |line| + 1 >= size ==>
      ReadLine(line + [LF] + rest, size) == Some((line[..size - 1], line[size - 1..] + [LF] + rest))
  {
    var s := line + [LF] + rest;
    assert s == line + ([LF] + rest);
    if |line| + 1 < size {
      LineLengthOf(line, [LF] + rest, size - 1);
      assert s[..|line|] == line && s[|line| + 1..] == rest;
    } else {
      LineLengthFull(s, size - 1);
      assert s[..size - 1] == line[..size - 1] && s[size - 1..] == line[size - 1..] + [LF] + rest;
      assert |s[size - 1..]| > |rest|;
    }
  }

  /** A non-empty last line without a newline is still delivered, and empties the stream. */
  lemma LineAtEnd(line: seq<byte>, size: nat)
    requires size > 1 && line != [] && LF !in line && |line| < size
    ensures ReadLine(line, size) == Some((line, []))
  {
    assert line + [] == line;
    LineLengthOf(line, [], size - 1);
    assert line[..|line|] == line && line[|line|..] == [];
  }

  // ---------------------------------------------------------------- decimal headers

  /** Decimal digits as printf writes them. */
  function Dec(n: nat): (s: seq<byte>)
    ensures s != [] && forall i :: 0 <= i < |s| ==> IsDigit(s[i])
  {
    if n < 10 then [48 + n] else Dec(n / 10) + [48 + n % 10]
  }

  function DecValue(ds: seq<byte>): (v: nat)
    requires forall i :: 0 <= i < |ds| ==> IsDigit(ds[i])
  {
    if ds == [] then 0
    else
      assert IsDigit(ds[|ds| - 1]);
      DecValue(ds[..|ds| - 1]) * 10 + (ds[|ds| - 1] as int - 48)
  }

  lemma {:induction false} DecRoundTrip(n: nat)
    ensures DecValue(Dec(n)) == n
  {
    if n >= 10 {
      DecRoundTrip(n / 10);
      assert Dec(n)[..|Dec(n)| - 1] == Dec(n / 10);
    } else {
      assert Dec(n)[..0] == [];
    }
  }

  function Digit(n: nat, b: nat, e: nat): nat
    requires b > 0
  {
    n / Pow(b, e) % b
  }

  lemma DigitShift(n: nat, b: nat, e: nat)
    requires b > 0
    ensures Digit(n / b, b, e) == Digit(n, b, e + 1) && Digit(n, b, 0) == n % b
  {
    PlaceValue(n, b, e);
  }

  /** The digits by place value, the most significant first. */
  lemma {:induction false} DecDigits(n: nat, i: nat)
    requires i < |Dec(n)|
    ensures Dec(n)[i] == 48 + n / Pow(10, |Dec(n)| - 1 - i) % 10
  {
    assert Dec(n)[i] == 48 + Digit(n, 10, |Dec(n)| - 1 - i) by {
      hide Digit, Pow;
      if n < 10 {
        DigitShift(n, 10, 0);
      } else {
        var front := Dec(n / 10);
        DigitShift(n, 10, if i < |front| then |front| - 1 - i else 0);
        if i < |front| {
          DecDigits(n / 10, i);
          assert Dec(n)[i] == front[i];
        }
      }
    }
  }

  /** No digit is missing and no zero precedes them. */
  lemma {:induction false} DecWhole(n: nat)
    ensures n < Pow(10, |Dec(n)|) && (n > 0 ==> Dec(n)[0] != 48)
  {
    hide Pow;
    PowSmall(10);
    if n >= 10 {
      DecWhole(n / 10);
      PowNext(10, |Dec(n / 10)|);
    }
  }

  lemma PowSmall(b: nat)
    ensures Pow(b, 0) == 1 && Pow(b, 1) == b
  {
  }

  lemma PowNext(b: nat, e: nat)
    ensures Pow(b, e + 1) == b * Pow(b, e)
  {
  }

  /** Dividing by the base first and by a power of it then is dividing by the next power. */
  lemma PlaceValue(n: nat, b: nat, e: nat)
    requires b > 0
    ensures n / b / Pow(b, e) == n / Pow(b, e + 1)
  {
    var d := Pow(b, e);
    DivisionTwice(n / b, d, b, n % b);
    assert n == b * (n / b) + n % b;
  }

  lemma DivisionTwice(m: nat, d: nat, b: nat, low: nat)
    requires b > 0 && d > 0 && low < b
    ensures b * d > 0 && m / d == (b * m + low) / (b * d)
  {
    var q, r := m / d, m % d;
    assert m == q * d + r;
    assert b * m == q * (b * d) + b * r by {
      Distribute(b, q * d, r);
      MulSwap(b, q, d);
    }
    assert b * (r + 1) <= b * d by { MulMonotone(b, r + 1, d); }
    Distribute(b, r, 1);
    assert b * d > 0 by { MulMonotone(b, 1, d); }
    DivisionUnique(b * m + low, b * d, q, b * r + low);
  }

  lemma MulSwap(b: nat, q: nat, d: nat)
    ensures b * (q * d) == q * (b * d)
  {
  }

  lemma Distribute(b: nat, x: nat, y: nat)
    ensures b * (x + y) == b * x + b * y
  {
  }

  lemma MulMonotone(b: nat, x: nat, y: nat)
    requires x <= y
    ensures b * x <= b * y
  {
    Distribute(b, x, y - x);
  }

  lemma DivisionUnique(n: nat, d: nat, q: nat, r: nat)
    requires d > 0 && n == q * d + r && r < d
    ensures n / d == q
  {
    var p := n / d;
    if p < q {
      MulMonotone(d, p + 1, q);
      assert false;
    }
    if p > q {
      MulMonotone(d, q + 1, p);
      assert false;
    }
  }

  lemma {:induction false} DecLength(n: nat, w: nat)
    requires n < Pow(10, w) && w > 0
    ensures |Dec(n)| <= w
  {
    if n >= 10 && w > 1 {
      DecLength(n / 10, w - 1);
    }
  }

  function Pow(b: nat, e: nat): (r: nat)
    ensures b > 0 ==> r > 0
  {
    if e == 0 then 1 else b * Pow(b, e - 1)
  }

  /** A 64-bit count prints in at most twenty digits. */
  lemma DecLength64(n: nat)
    requires n < U64_LIMIT
    ensures |Dec(n)| <= 20
  {
    assert Pow(10, 5) == 100000;
    assert Pow(10, 10) == 10000000000 by { PowAdd(10, 5, 5); }
    assert Pow(10, 20) == 100000000000000000000 by { PowAdd(10, 10, 10); }
    DecLength(n, 20);
  }

  lemma {:induction false} PowAdd(b: nat, x: nat, y: nat)
    ensures Pow(b, x + y) == Pow(b, x) * Pow(b, y)
  {
    if x > 0 {
      PowAdd(b, x - 1, y);
      MulAssoc(b, Pow(b, x - 1), Pow(b, y));
    }
  }

  lemma MulAssoc(a: nat, b: nat, c: nat)
    ensures a * (b * c) == (a * b) * c
  {
  }

  function DigitPrefix(s: seq<byte>): (k: nat)
    ensures k <= |s| && forall i :: 0 <= i < k ==> IsDigit(s[i])
    ensures k == |s| || !IsDigit(s[k])
  {
    if s == [] || !IsDigit(s[0]) then 0 else 1 + DigitPrefix(s[1..])
  }

  function SkipSpaces(s: seq<byte>): (r: seq<byte>)
    ensures r == [] || !IsSpace(r[0])
    ensures s != [] && !IsSpace(s[0]) ==> r == s
  {
    if s == [] || !IsSpace(s[0]) then s else SkipSpaces(s[1..])
  }

  /** `sscanf` of a literal, optional white space, optional sign, digits: sign and magnitude. */
  function Scan(line: seq<byte>, literal: seq<byte>): Option<(bool, nat)> {
    if !(literal <= line) then None
    else
      var s := SkipSpaces(line[|literal|..]);
      var signed := s != [] && (s[0] == 43 || s[0] == 45);
      var digits := if signed then s[1..] else s;
      var k := DigitPrefix(digits);
      if k == 0 then None else Some((signed && s[0] == 45, DecValue(digits[..k])))
  }

  /** `%zu`: a magnitude past 64 bits saturates and a minus sign wraps around, as strtoul does. */
  function ScanSize(line: seq<byte>, literal: seq<byte>): (r: Option<nat>)
    ensures r.Some? ==> r.value < U64_LIMIT
  {
    var (negative, v) :- Scan(line, literal);
    Some(if v >= U64_LIMIT then U64_LIMIT - 1
         else if negative && v > 0 then U64_LIMIT - v
         else v)
  }

  /** What strtol makes of a sign and a magnitude: saturated to 64 bits. */
  function ToLong(negative: bool, v: nat): int {
    var half: int := U64_LIMIT / 2;
    if negative then (if v > half then 0 - half else 0 - v) else (if v >= half then half - 1 else v)
  }

  /** `%d`: strtol saturates to 64 bits and the result is cut to 32 bits (here as an unsigned residue). */
  function ScanInt32(line: seq<byte>, literal: seq<byte>): Option<nat> {
    var (negative, v) :- Scan(line, literal);
    Some(ToLong(negative, v) % 0x1_0000_0000)
  }

  /** A printed number of any size is scanned whole. */
  lemma PrintedScan(literal: seq<byte>, n: nat)
    ensures Scan(literal + [32] + Dec(n), literal) == Some((false, n))
  {
    hide Dec, SkipSpaces, DecValue, DigitPrefix;
    var line := literal + [32] + Dec(n);
    assert line[|literal|..] == [32] + Dec(n);
    SkipOne(Dec(n));
    assert IsDigit(Dec(n)[0]);
    assert Dec(n)[..|Dec(n)|] == Dec(n);
    DecRoundTrip(n);
  }

  lemma SkipOne(s: seq<byte>)
    requires s != [] && IsDigit(s[0])
    ensures SkipSpaces([32] + s) == s
  {
    assert ([32] + s)[1..] == s;
  }

  /** A printed header line reads back as the number that was printed. */
  lemma HeaderRoundTrip(literal: seq<byte>, n: nat)
    requires n < U64_LIMIT
    ensures ScanSize(literal + [32] + Dec(n), literal) == Some(n)
    ensures n == 0 ==> ScanInt32(literal + [32] + Dec(n), literal) == Some(0)
  {
    hide Scan;
    PrintedScan(literal, n);
    assert ToLong(false, 0) == 0;
  }

  // ---------------------------------------------------------------- big-endian integers

  /** `n` as `w` big-endian bytes (the high part is cut off, as a store of that width does). */
  function BigEndian(n: nat, w: nat): (s: seq<byte>)
    ensures |s| == w
  {
    if w == 0 then [] else BigEndian(n / 256, w - 1) + [n % 256]
  }

  function FromBigEndian(s: seq<byte>): nat {
    if s == [] then 0 else FromBigEndian(s[..|s| - 1]) * 256 + s[|s| - 1]
  }

  /** The bytes are the digits of `n` in base 256, the most significant first. */
  ghost predicate IsBigEndian(s: seq<byte>, n: nat) {
    forall i :: 0 <= i < |s| ==> s[i] == n / Pow(256, |s| - 1 - i) % 256
  }

  /** Byte `i` of the `w` is the digit of weight 256^(w - 1 - i): the most significant byte comes first. */
  lemma {:induction false} BigEndianDigits(n: nat, w: nat)
    ensures forall i :: 0 <= i < w ==> BigEndian(n, w)[i] == n / Pow(256, w - 1 - i) % 256
  {
    if w > 0 {
      BigEndianDigits(n / 256, w - 1);
      forall i | 0 <= i < w ensures BigEndian(n, w)[i] == n / Pow(256, w - 1 - i) % 256 {
        if i < w - 1 { PlaceValue(n, 256, w - 2 - i); }
      }
    }
  }

  /** The value of a byte string by place: the front counts 256 to the length of the back. */
  lemma {:induction false} FromBigEndianSplit(a: seq<byte>, b: seq<byte>)
    ensures FromBigEndian(a + b) == FromBigEndian(a) * Pow(256, |b|) + FromBigEndian(b)
    ensures |b| == 1 ==> FromBigEndian(b) == b[0]
  {
    if b == [] {
      assert a + b == a;
    } else {
      var front := b[..|b| - 1];
      assert (a + b)[..|a + b| - 1] == a + front;
      FromBigEndianSplit(a, front);
      MulAssoc(FromBigEndian(a), Pow(256, |front|), 256);
    }
  }

  lemma {:induction false} BigEndianRoundTrip(n: nat, w: nat)
    requires n < Pow(256, w)
    ensures FromBigEndian(BigEndian(n, w)) == n
  {
    if w > 0 {
      assert n / 256 < Pow(256, w - 1);
      BigEndianRoundTrip(n / 256, w - 1);
      assert BigEndian(n, w)[..w - 1] == BigEndian(n / 256, w - 1);
    }
  }

  lemma Pow256()
    ensures Pow(256, 2) == 0x1_0000 && Pow(256, 8) == U64_LIMIT
  {
    assert Pow(256, 2) == 256 * 256;
    assert Pow(256, 4) == 0x1_0000_0000 by { PowAdd(256, 2, 2); }
    PowAdd(256, 4, 4);
  }
}
