/** The self-delimiting binary record that announces a file (phase 1) and carries its hashes (phase 3). */
module Codec {
  import opened Bytes
  import opened Digests

  const NAME_MAX: nat := 255

  datatype Record = Record(name: seq<byte>, size: nat, hash: Digest, chunks: seq<Digest>)

  /** What the sender can put in a record: a C name of bounded length and 64-bit counts. */
  predicate Encodable(r: Record) {
    |r.name| <= NAME_MAX && NUL !in r.name && r.size < U64_LIMIT && |r.chunks| < U64_LIMIT
  }

  function Encode(r: Record): seq<byte> {
    BigEndian(|r.name|, 2) + r.name + BigEndian(r.size, 8) + r.hash + BigEndian(|r.chunks|, 8) + Concat(r.chunks)
  }

  function EncodeAll(rs: seq<Record>): seq<byte> {
    if rs == [] then [] else Encode(rs[0]) + EncodeAll(rs[1..])
  }

  function Split(s: seq<byte>, n: nat): (r: seq<Digest>)
    requires |s| == DIGEST_LENGTH * n
    ensures |r| == n
  {
    if n == 0 then [] else [s[..DIGEST_LENGTH]] + Split(s[DIGEST_LENGTH..], n - 1)
  }

  /** Read one record from the front of a stream: the record and what follows it. */
  function Decode(s: seq<byte>): (r: Option<(Record, seq<byte>)>)
    ensures r.Some? ==> |r.value.1| + 50 <= |s|
  {
    var (lengthBytes, s1) :- Take(s, 2);
    var length := FromBigEndian(lengthBytes);
    if length > NAME_MAX then None
    else
      var (name, s2) :- Take(s1, length);
      var (sizeBytes, s3) :- Take(s2, 8);
      var (hash, s4) :- Take(s3, DIGEST_LENGTH);
      var (countBytes, s5) :- Take(s4, 8);
      var count := FromBigEndian(countBytes);
      var (table, s6) :- Take(s5, DIGEST_LENGTH * count);
      Some((Record(CStr(name), FromBigEndian(sizeBytes), hash, Split(table, count)), s6))
  }

  lemma DecodeSuffix(s: seq<byte>)
    requires Decode(s).Some?
    ensures IsSuffix(Decode(s).value.1, s)
  {
    var s1 := s[2..];
    var s2 := s1[FromBigEndian(s[..2])..];
    var s4 := s2[8..][DIGEST_LENGTH..];
    var s5 := s4[8..];
    SuffixTransitive(s5[DIGEST_LENGTH * FromBigEndian(s4[..8])..], s5, s4);
    SuffixTransitive(s4, s2[8..], s2);
    SuffixTransitive(s2, s1, s);
    SuffixTransitive(s4, s2, s);
    SuffixTransitive(Decode(s).value.1, s4, s);
  }

  lemma {:induction false} SplitConcat(ds: seq<Digest>)
    ensures Split(Concat(ds), |ds|) == ds
  {
    if ds != [] {
      assert Concat(ds)[..DIGEST_LENGTH] == ds[0] && Concat(ds)[DIGEST_LENGTH..] == Concat(ds[1..]);
      SplitConcat(ds[1..]);
    }
  }

  /**
   * The record byte by byte: name length in bytes 0 and 1, the name from byte 2 on, eight bytes of size, 32 of hash,
   * eight of chunk count, 32 per chunk; numbers with their most significant byte first.
   */
  lemma RecordLayout(r: Record)
    requires Encodable(r)
    ensures var s, n := Encode(r), |r.name|;
      && |s| == 50 + n + DIGEST_LENGTH * |r.chunks|
      && s[0] == 0 && s[1] == n && s[2..2 + n] == r.name
      && IsBigEndian(s[2 + n..10 + n], r.size)
      && s[10 + n..42 + n] == r.hash
      && IsBigEndian(s[42 + n..50 + n], |r.chunks|)
      && s[50 + n..] == Concat(r.chunks)
  {
    hide Concat, BigEndian;
    var n, w := |r.name|, 8;
    var length, size, count := BigEndian(n, 2), BigEndian(r.size, w), BigEndian(|r.chunks|, w);
    BigEndianDigits(r.size, w);
    BigEndianDigits(|r.chunks|, w);
    ShortLength(n);
    Fields(length, r.name, size, r.hash, count, Concat(r.chunks));
  }

  lemma ShortLength(n: nat)
    requires n <= NAME_MAX
    ensures BigEndian(n, 2)[0] == 0 && BigEndian(n, 2)[1] == n
  {
    BigEndianDigits(n, 2);
    PowSmall(256);
  }

  lemma Fields(a: seq<byte>, b: seq<byte>, c: seq<byte>, d: seq<byte>, e: seq<byte>, f: seq<byte>)
    ensures var s := a + b + c + d + e + f; var (i, j, k, l) :=
        (|a| + |b|, |a| + |b| + |c|, |a| + |b| + |c| + |d|, |a| + |b| + |c| + |d| + |e|);
      && s[..|a|] == a && s[|a|..i] == b && s[i..j] == c && s[j..k] == d && s[k..l] == e && s[l..] == f
  {
  }

  /** The length of the name that the first two bytes of a record give. */
  function NameLength(s: seq<byte>): nat
    requires |s| >= 2
  {
    s[0] as int * 256 + s[1] as int
  }

  lemma NameLengthIs(s: seq<byte>)
    requires |s| >= 2
    ensures FromBigEndian(s[..2]) == NameLength(s)
  {
    assert s[..2] == [s[0]] + [s[1]];
    PowSmall(256);
    FromBigEndianSplit([s[0]], [s[1]]);
    FromBigEndianSplit([], [s[0]]);
  }

  lemma {:induction false} ConcatSplit(s: seq<byte>, n: nat)
    requires |s| == DIGEST_LENGTH * n
    ensures Concat(Split(s, n)) == s
  {
    if n > 0 {
      ConcatSplit(s[DIGEST_LENGTH..], n - 1);
      assert Split(s, n)[1..] == Split(s[DIGEST_LENGTH..], n - 1);
    }
  }

  /** The fields of a record by position. */
  ghost predicate FieldsAt(s: seq<byte>, n: nat, count: nat, r: Record, rest: seq<byte>)
    requires |s| >= 50 + n + DIGEST_LENGTH * count
  {
    var end := 50 + n + DIGEST_LENGTH * count;
    r.name == CStr(s[2..2 + n]) && r.size == FromBigEndian(s[2 + n..10 + n]) && r.hash == s[10 + n..42 + n] &&
    |r.chunks| == count && Concat(r.chunks) == s[50 + n..end] && rest == s[end..]
  }

  lemma Piece(s: seq<byte>, i: nat, n: nat)
    requires i <= |s|
    ensures Take(s[i..], n) == if i + n <= |s| then Some((s[i..i + n], s[i + n..])) else None
  {
    if i + n <= |s| {
      assert s[i..][..n] == s[i..i + n] && s[i..][n..] == s[i + n..];
    }
  }

  /** The fixed part of a record whose name length is admitted, and the part whose length its count gives. */
  lemma DecodePieces(s: seq<byte>, n: nat)
    requires |s| >= 2 && n == NameLength(s) <= NAME_MAX
    ensures |s| < 50 + n ==> Decode(s).None?
    ensures |s| >= 50 + n ==>
      var count := FromBigEndian(s[42 + n..50 + n]);
      Decode(s) == match Take(s[50 + n..], DIGEST_LENGTH * count)
        case None => None
        case Some((table, rest)) =>
          var r := Record(CStr(s[2..2 + n]), FromBigEndian(s[2 + n..10 + n]), s[10 + n..42 + n], Split(table, count));
          Some((r, rest))
  {
    hide FromBigEndian, CStr, Split, Take, NameLength;
    NameLengthIs(s);
    assert Take(s, 2) == Some((s[..2], s[2..])) by { Piece(s, 0, 2); }
    Piece(s, 2, n);
    if |s| >= 2 + n { Piece(s, 2 + n, 8); }
    if |s| >= 10 + n { Piece(s, 10 + n, DIGEST_LENGTH); }
    if |s| >= 42 + n { Piece(s, 42 + n, 8); }
  }

  /** On any bytes: when a record can be read off the front, and its fields by position. */
  lemma DecodeExactly(s: seq<byte>)
    ensures Decode(s).None? <==>
      |s| < 2 || NameLength(s) > NAME_MAX || |s| < 50 + NameLength(s) ||
      |s| < 50 + NameLength(s) + DIGEST_LENGTH * FromBigEndian(s[42 + NameLength(s)..50 + NameLength(s)])
    ensures Decode(s).Some? ==>
      var n := NameLength(s);
      FieldsAt(s, n, FromBigEndian(s[42 + n..50 + n]), Decode(s).value.0, Decode(s).value.1)
  {
    hide FromBigEndian, NameLength, Decode, FieldsAt;
    if |s| < 2 || NameLength(s) > NAME_MAX {
      NoName(s);
    } else {
      LongEnough(s, NameLength(s));
    }
  }

  lemma LongEnough(s: seq<byte>, n: nat)
    requires |s| >= 2 && n == NameLength(s) <= NAME_MAX
    ensures |s| < 50 + n ==> Decode(s).None?
    ensures |s| >= 50 + n ==>
      var count := FromBigEndian(s[42 + n..50 + n]);
      if |s| < 50 + n + DIGEST_LENGTH * count then Decode(s).None?
      else Decode(s).Some? && FieldsAt(s, n, count, Decode(s).value.0, Decode(s).value.1)
  {
    hide FromBigEndian, CStr, Concat, Split, NameLength, Decode;
    DecodePieces(s, n);
    if |s| >= 50 + n {
      var count := FromBigEndian(s[42 + n..50 + n]);
      var size := DIGEST_LENGTH * count;
      Piece(s, 50 + n, size);
      hide Take;
      if |s| >= 50 + n + size {
        ConcatSplit(s[50 + n..50 + n + size], count);
      }
    }
  }

  lemma NoName(s: seq<byte>)
    requires |s| < 2 || NameLength(s) > NAME_MAX
    ensures Decode(s).None?
  {
    hide FromBigEndian;
    if |s| >= 2 { NameLengthIs(s); }
  }

  /** Decoding undoes encoding and leaves exactly the rest of the stream. */
  lemma RecordRoundTrip(r: Record, rest: seq<byte>)
    requires Encodable(r)
    ensures Decode(Encode(r) + rest) == Some((r, rest))
  {
    Pow256();
    var f5 := Concat(r.chunks) + rest;
    var f4 := BigEndian(|r.chunks|, 8) + f5;
    var f3 := r.hash + f4;
    var f2 := BigEndian(r.size, 8) + f3;
    var f1 := r.name + f2;
    assert Encode(r) + rest == BigEndian(|r.name|, 2) + f1;
    BigEndianRoundTrip(|r.name|, 2);
    BigEndianRoundTrip(r.size, 8);
    BigEndianRoundTrip(|r.chunks|, 8);
    TakeAppend(BigEndian(|r.name|, 2), f1);
    TakeAppend(r.name, f2);
    TakeAppend(BigEndian(r.size, 8), f3);
    TakeAppend(r.hash, f4);
    TakeAppend(BigEndian(|r.chunks|, 8), f5);
    TakeAppend(Concat(r.chunks), rest);
    SplitConcat(r.chunks);
  }

  /** A strict prefix of a record never decodes. */
  lemma TruncatedRecord(r: Record, rest: seq<byte>, s: seq<byte>)
    requires Encodable(r)
    requires s <= Encode(r) + rest
    ensures |s| < |Encode(r)| ==> Decode(s).None?
    ensures |s| >= |Encode(r)| ==> Decode(s) == Some((r, s[|Encode(r)|..])) && s == Encode(r) + s[|Encode(r)|..]
  {
    var full := Encode(r) + rest;
    if |s| >= |Encode(r)| {
      assert s == Encode(r) + s[|Encode(r)|..];
      RecordRoundTrip(r, s[|Encode(r)|..]);
    } else if Decode(s).Some? {
      DecodeExtends(s, Encode(r)[|s|..]);
      assert s + Encode(r)[|s|..] == Encode(r) == Encode(r) + [];
      RecordRoundTrip(r, []);
      assert false;
    }
  }

  /** A successful read depends only on the bytes it consumes. */
  lemma DecodeExtends(s: seq<byte>, more: seq<byte>)
    requires Decode(s).Some?
    ensures Decode(s + more) == Some((Decode(s).value.0, Decode(s).value.1 + more))
  {
    TakeExtends(s, more, 2);
    var (lengthBytes, s1) := Take(s, 2).value;
    var length := FromBigEndian(lengthBytes);
    TakeExtends(s1, more, length);
    var s2 := s1[length..];
    TakeExtends(s2, more, 8);
    var s3 := s2[8..];
    TakeExtends(s3, more, DIGEST_LENGTH);
    var s4 := s3[DIGEST_LENGTH..];
    TakeExtends(s4, more, 8);
    var s5 := s4[8..];
    TakeExtends(s5, more, DIGEST_LENGTH * FromBigEndian(s4[..8]));
  }

  lemma TakeExtends(s: seq<byte>, more: seq<byte>, n: nat)
    requires n <= |s|
    ensures Take(s + more, n) == Some((s[..n], s[n..] + more))
  {
    assert (s + more)[..n] == s[..n] && (s + more)[n..] == s[n..] + more;
  }

  /** Two record lists of the same length whose encodings continue to the same stream are the same lists. */
  lemma {:induction false} EncodingsPrefixFree(a: seq<Record>, b: seq<Record>, x: seq<byte>, y: seq<byte>)
    requires |a| == |b|
    requires forall i :: 0 <= i < |a| ==> Encodable(a[i]) && Encodable(b[i])
    requires EncodeAll(a) + x == EncodeAll(b) + y
    ensures a == b && x == y
  {
    hide Decode, Encode;
    if a == [] {
      assert EncodeAll(a) + x == x && EncodeAll(b) + y == y;
    } else {
      var ra, rb := EncodeAll(a[1..]) + x, EncodeAll(b[1..]) + y;
      assert EncodeAll(a) + x == Encode(a[0]) + ra && EncodeAll(b) + y == Encode(b[0]) + rb;
      RecordRoundTrip(a[0], ra);
      RecordRoundTrip(b[0], rb);
      EncodingsPrefixFree(a[1..], b[1..], x, y);
      assert a == [a[0]] + a[1..] && b == [b[0]] + b[1..];
    }
  }
}
