/** What the receiver refuses, for all values a line may carry; the destination is then untouched. */
module Refusals {
  import opened Bytes
  import opened Digests
  import opened Codec
  import opened FileSystem
  import opened Protocol
  import opened Snapshot
  import opened RoundTrip
  import opened Delivery

  /** A refusal of the first line or of any later one ends the run. */
  lemma RefusedRun(P: Params, rx: Rx)
    requires Step(P, rx) == Failed(rx.fs)
    ensures Run(P, rx) == Failed(rx.fs)
  {
    hide Step;
  }

  /** The number that `%d` makes of a printed one: that modulo 2^32, but -1 (all bits set) for one of 2^63 or more. */
  lemma ScanPrinted(literal: seq<byte>, n: nat)
    ensures ScanInt32(literal + [32] + Dec(n), literal) ==
      Some(if n < U64_LIMIT / 2 then n % 0x1_0000_0000 else 0xFFFF_FFFF)
  {
    hide Scan, ToLong;
    PrintedScan(literal, n);
    assert ToLong(false, n) == if n < U64_LIMIT / 2 then n else 0x7FFF_FFFF_FFFF_FFFF by { LongOf(n); }
    assert 0x7FFF_FFFF_FFFF_FFFF == 0x7FFF_FFFF * 0x1_0000_0000 + 0xFFFF_FFFF;
  }

  lemma LongOf(n: nat)
    ensures ToLong(false, n) == if n < U64_LIMIT / 2 then n else 0x7FFF_FFFF_FFFF_FFFF
  {
  }

  /**
   * Of the versions a sender may print only 0 is accepted, and, since the number is cut to 32 bits when it is read,
   * the multiples of 2^32 below 2^63.
   */
  lemma VersionExactly(P: Params, fs: FS, tape: seq<Name>, dir: seq<byte>, n: nat, rest: seq<byte>)
    requires n < U64_LIMIT
    ensures var x := Start(fs, tape, dir, Ascii("VERSION:") + [32] + Dec(n) + [LF] + rest);
      if n % 0x1_0000_0000 == 0 && n < U64_LIMIT / 2 then
        Step(P, x) == Go(x.(phase := ModeLine, input := rest))
      else Run(P, x) == Failed(fs)
    ensures 0 < n < 0x1_0000_0000 ==>
      Run(P, Start(fs, tape, dir, Ascii("VERSION:") + [32] + Dec(n) + [LF] + rest)) == Failed(fs)
  {
    hide ReadLine, ScanInt32, CStr, Dec, Ascii, Run;
    var line := Ascii("VERSION:") + [32] + Dec(n);
    var x := Start(fs, tape, dir, line + [LF] + rest);
    Printable("VERSION:");
    DecPlain(n);
    DecLength64(n);
    LineRead(line, rest, VERSION_LINE);
    ScanPrinted(Ascii("VERSION:"), n);
    if Step(P, x) == Failed(fs) {
      RefusedRun(P, x);
    }
  }

  /** The second line is accepted if and only if its word is one of the three modes, and then it sets that mode. */
  lemma ModeExactly(P: Params, fs: FS, tape: seq<Name>, dir: seq<byte>, word: seq<byte>, rest: seq<byte>)
    requires LF !in word && NUL !in word && |word| + 7 < WIDE_LINE
    ensures var x := Start(fs, tape, dir, Ascii("VERSION: 0") + [LF] + (Ascii("MODE: ") + word + [LF] + rest));
      && (forall m :: word == ModeWord(m) ==>
        After(P, x, 2) == Go(x.(phase := StatBytes, mode := m, input := rest)))
      && ((forall m :: word != ModeWord(m)) ==> Run(P, x) == Failed(fs))
  {
    hide ReadLine, CStr, Ascii, Run, StepVersion, ModeWord, ParseMode;
    var line := Ascii("MODE: ") + word;
    var x := Start(fs, tape, dir, Ascii("VERSION: 0") + [LF] + (line + [LF] + rest));
    VersionRead(x, line + [LF] + rest);
    var y := x.(phase := ModeLine, input := line + [LF] + rest);
    assert Step(P, x) == Go(y);
    Printable("MODE: ");
    LineRead(line, rest, WIDE_LINE);
    assert line[6..] == word;
    WordExactly(word);
    assert After(P, x, 2) == After(P, y, 1) == Step(P, y);
    RunFrom(P, x, 1);
    if Step(P, y) == Failed(fs) {
      RefusedRun(P, y);
    }
  }

  lemma WordExactly(word: seq<byte>)
    ensures forall m :: ParseMode(word) == Some(m) <==> word == ModeWord(m)
  {
    forall m ensures ParseMode(word) == Some(m) <==> word == ModeWord(m) {
      WordRead(m);
    }
  }

  /** A batch is opened for 1 to 1024 files; a larger count is refused at its line, none at the data phase. */
  lemma BatchCountExactly(P: Params, rx: Rx, n: nat, rest: seq<byte>)
    requires rx.phase == FileCount && rx.input == CountLine(n) + [LF] + rest && n < U64_LIMIT
    ensures Step(P, rx).Go? <==> n <= MAX_FILES
    ensures n == 0 || n > MAX_FILES ==> Run(P, rx) == Failed(rx.fs)
    ensures 0 < n <= MAX_FILES ==> After(P, rx, 1).Go? && var next := After(P, rx, 1).rx;
      next.phase == Metadata && next.count == n && next.entries == [] && next.input == rest && next.fs == rx.fs
  {
    hide ReadLine, ScanSize, CStr, CountLine, Run;
    CountRead(n, rest);
    if n > MAX_FILES {
      RefusedRun(P, rx);
    } else if n == 0 {
      var y := Step(P, rx).rx;
      var z := Step(P, y).rx;
      assert After(P, rx, 2) == Step(P, y);
      RunFrom(P, rx, 2);
      RefusedRun(P, z);
    }
  }

  /** Between batches a line that is not blank, names no directory, opens no batch and is not END is refused. */
  lemma UnknownLineRefused(P: Params, rx: Rx, line: seq<byte>, rest: seq<byte>)
    requires rx.phase == Idle && rx.input == line + [LF] + rest
    requires LF !in line && NUL !in line && |line| + 1 < WIDE_LINE
    requires !IsBlank(line) && line != Ascii("END")
    requires !(Ascii("DIRECTORY: ") <= line) && !(Ascii("FILE_LIST") <= line)
    ensures Run(P, rx) == Failed(rx.fs)
  {
    hide ReadLine, CStr, Run;
    LineRead(line, rest, WIDE_LINE);
    RefusedRun(P, rx);
  }

  /** A name of more than 255 bytes is refused as soon as its length is read, announced or confirmed. */
  lemma LongNameRefused(P: Params, rx: Rx)
    requires (rx.phase == Metadata && |rx.entries| < rx.count) ||
      (rx.phase == FileHashes && rx.index < rx.count == |rx.entries|)
    requires |rx.input| >= 2 && NameLength(rx.input) > NAME_MAX
    ensures Run(P, rx) == Failed(rx.fs)
  {
    hide Run, Decode, Commit, CrossChecked;
    DecodeExactly(rx.input);
    RefusedRun(P, rx);
  }

  /**
   * The only hash record that lets a received file go on is the true one: its name, its length, its digest (which is
   * not looked at for an empty file) and its table, a file of at most one chunk keeping the announced table. Any other
   * record ends the run with the destination as it is; the true one is committed.
   */
  lemma ConfirmedExactly(P: Params, rx: Rx, announced: Entry, data: seq<byte>, r: Record, rest: seq<byte>)
    requires rx.phase == FileHashes && rx.index < rx.count == |rx.entries|
    requires |data| == announced.size && rx.entries[rx.index] == Received(P, announced, data)
    requires Encodable(r) && rx.input == Encode(r) + rest
    ensures
      if r.name == announced.name && r.size == |data| && (data != [] ==> r.hash == FileDigest(P.H, P.chunk, data)) &&
        r.chunks == if |data| > P.chunk then ChunkHashes(P.H, P.chunk, data) else announced.chunks
      then Destination(Step(P, rx)) == Commit(P, rx, Received(P, announced, data)).0 &&
        Step(P, rx).Go? == Commit(P, rx, Received(P, announced, data)).1
      else Run(P, rx) == Failed(rx.fs)
  {
    hide Run, Decode, Encode, Commit, ChunkHashes, Concat;
    RecordRoundTrip(r, rest);
    if Step(P, rx) == Failed(rx.fs) {
      RefusedRun(P, rx);
    }
  }
}
