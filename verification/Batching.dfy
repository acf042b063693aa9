/** Cutting a directory's files into batches: the C prefix-greedy loop and the Kotlin one-pass loop. */
module Batching {
  import opened Snapshot

  /** Batch limits; zero means no limit. */
  datatype Limits = Limits(maxFiles: nat, maxBytes: nat)

  function Size(f: FileSpec): nat { |f.content| }

  predicate HasRoom(lim: Limits, n: nat, used: nat, f: FileSpec) {
    (lim.maxFiles == 0 || n < lim.maxFiles) && (lim.maxBytes == 0 || used + Size(f) <= lim.maxBytes)
  }

  /** How many of `files` the inner loop adds to a batch of `n` files and `used` bytes. */
  function Fit(lim: Limits, files: seq<FileSpec>, n: nat, used: nat): (k: nat)
    ensures k <= |files|
    decreases files
  {
    if files == [] || !HasRoom(lim, n, used, files[0]) then 0
    else 1 + Fit(lim, files[1..], n + 1, used + Size(files[0]))
  }

  /** The next batch takes what fits, but never nothing. */
  function BatchLength(lim: Limits, files: seq<FileSpec>): (k: nat)
    requires files != []
    ensures 0 < k <= |files|
  {
    var k := Fit(lim, files, 0, 0);
    if k == 0 then 1 else k
  }

  function Batches(lim: Limits, files: seq<FileSpec>): seq<seq<FileSpec>>
    decreases |files|
  {
    if files == [] then []
    else
      var k := BatchLength(lim, files);
      [files[..k]] + Batches(lim, files[k..])
  }

  predicate ValidBatch(lim: Limits, b: seq<FileSpec>) {
    b != [] && (lim.maxFiles > 0 ==> |b| <= lim.maxFiles) &&
      (lim.maxBytes > 0 ==> |b| == 1 || BytesIn(b) <= lim.maxBytes)
  }

  function Rejoin(batches: seq<seq<FileSpec>>): seq<FileSpec> {
    if batches == [] then [] else batches[0] + Rejoin(batches[1..])
  }

  predicate ValidPartition(lim: Limits, batches: seq<seq<FileSpec>>, files: seq<FileSpec>) {
    Rejoin(batches) == files && forall i :: 0 <= i < |batches| ==> ValidBatch(lim, batches[i])
  }

  lemma {:induction false} BytesInAppend(a: seq<FileSpec>, b: seq<FileSpec>)
    ensures BytesIn(a + b) == BytesIn(a) + BytesIn(b)
  {
    if a == [] {
      assert a + b == b;
    } else {
      assert (a + b)[1..] == a[1..] + b;
      BytesInAppend(a[1..], b);
    }
  }

  /** What fits stays within both limits. */
  lemma {:induction false} FitWithin(lim: Limits, files: seq<FileSpec>, n: nat, used: nat)
    ensures var k := Fit(lim, files, n, used);
      k > 0 ==>
        (lim.maxFiles > 0 ==> n + k <= lim.maxFiles) &&
          (lim.maxBytes > 0 ==> used + BytesIn(files[..k]) <= lim.maxBytes)
    decreases files
  {
    var k := Fit(lim, files, n, used);
    if k > 0 {
      FitWithin(lim, files[1..], n + 1, used + Size(files[0]));
      assert files[..k][1..] == files[1..][..k - 1];
    }
  }

  /** Nothing longer than what fits stays within both limits. */
  lemma {:induction false} FitMaximal(lim: Limits, files: seq<FileSpec>, n: nat, used: nat, p: nat)
    requires p <= |files|
    requires lim.maxFiles > 0 ==> n + p <= lim.maxFiles
    requires lim.maxBytes > 0 ==> used + BytesIn(files[..p]) <= lim.maxBytes
    ensures p <= Fit(lim, files, n, used)
    decreases files
  {
    if p > 0 {
      assert files[..p][1..] == files[1..][..p - 1];
      FitMaximal(lim, files[1..], n + 1, used + Size(files[0]), p - 1);
    }
  }

  /** The batches partition the files in order, and each respects the limits. */
  lemma {:induction false} BatchesValid(lim: Limits, files: seq<FileSpec>)
    ensures ValidPartition(lim, Batches(lim, files), files)
    decreases |files|
  {
    if files != [] {
      var k := BatchLength(lim, files);
      FitWithin(lim, files, 0, 0);
      BatchesValid(lim, files[k..]);
      assert files == files[..k] + files[k..];
    }
  }

  /** A part of a valid batch is no longer than the batch the greedy rule takes from that point on. */
  lemma PartFits(lim: Limits, b: seq<FileSpec>, after: seq<FileSpec>, k: nat)
    requires ValidBatch(lim, b) && k < |b|
    ensures |b| - k <= BatchLength(lim, b[k..] + after)
  {
    var files, p := b[k..] + after, |b| - k;
    assert files[..p] == b[k..];
    if |b| > 1 {
      assert b == b[..k] + b[k..];
      BytesInAppend(b[..k], b[k..]);
      FitMaximal(lim, files, 0, 0, p);
    }
  }

  /**
   * Starting later never costs more: the greedy batches of a suffix are at most as many as any valid partition of
   * the whole.
   */
  lemma {:induction false} GreedyOptimalFrom(lim: Limits, other: seq<seq<FileSpec>>, files: seq<FileSpec>, k: nat)
    requires ValidPartition(lim, other, files) && k <= |files|
    ensures |Batches(lim, files[k..])| <= |other|
    decreases |other|, |files| - k
  {
    if k == |files| {
      assert files[k..] == [];
    } else {
      var b, rest := other[0], Rejoin(other[1..]);
      assert files == b + rest;
      assert forall i :: 0 <= i < |other[1..]| ==> other[1..][i] == other[i + 1];
      if k >= |b| {
        assert files[k..] == rest[k - |b|..];
        GreedyOptimalFrom(lim, other[1..], rest, k - |b|);
      } else {
        var g := BatchLength(lim, files[k..]);
        assert files[k..] == b[k..] + rest;
        PartFits(lim, b, rest, k);
        assert files[k..][g..] == rest[k + g - |b|..];
        GreedyOptimalFrom(lim, other[1..], rest, k + g - |b|);
      }
    }
  }

  /** Greedy batching is optimal: no ordered partition within the limits has fewer batches. */
  lemma GreedyOptimal(lim: Limits, other: seq<seq<FileSpec>>, files: seq<FileSpec>)
    requires ValidPartition(lim, other, files)
    ensures |Batches(lim, files)| <= |other|
  {
    assert files[0..] == files;
    GreedyOptimalFrom(lim, other, files, 0);
  }

  lemma GrowBatch(lim: Limits, files: seq<FileSpec>, from: nat, at: nat)
    requires from <= at < |files| && HasRoom(lim, at - from, BytesIn(files[from..at]), files[at])
    ensures BytesIn(files[from..at + 1]) == BytesIn(files[from..at]) + Size(files[at])
    ensures Fit(lim, files[at..], at - from, BytesIn(files[from..at])) ==
      1 + Fit(lim, files[at + 1..], at + 1 - from, BytesIn(files[from..at + 1]))
  {
    assert files[at..][0] == files[at] && files[at..][1..] == files[at + 1..];
    assert files[from..at + 1] == files[from..at] + [files[at]];
    BytesInAppend(files[from..at], [files[at]]);
    SingleSize([files[at]]);
  }

  lemma SingleSize(c: seq<FileSpec>)
    ensures |c| == 1 ==> BytesIn(c) == Size(c[0])
  {
    assert |c| == 1 ==> c[1..] == [];
  }

  lemma StopBatch(lim: Limits, files: seq<FileSpec>, at: nat, n: nat, used: nat)
    requires at <= |files| && (at < |files| ==> !HasRoom(lim, n, used, files[at]))
    ensures Fit(lim, files[at..], n, used) == 0
  {
  }

  /** The inner loop of the C sender: the size of the batch that starts at `fileIndex`. */
  method BuildBatch(lim: Limits, files: seq<FileSpec>, fileIndex: nat) returns (batchFiles: nat, batchBytes: nat)
    requires fileIndex < |files|
    ensures batchFiles == BatchLength(lim, files[fileIndex..])
    ensures fileIndex + batchFiles <= |files| && batchBytes == BytesIn(files[fileIndex..fileIndex + batchFiles])
  {
    hide BytesIn, Fit;
    batchFiles, batchBytes := 0, 0;
    ghost var whole := Fit(lim, files[fileIndex..], 0, 0);
    assert files[fileIndex..fileIndex] == [] && BytesIn([]) == 0 by { NoBytes(); }
    while fileIndex + batchFiles < |files| &&
          (lim.maxFiles == 0 || batchFiles < lim.maxFiles) &&
          (lim.maxBytes == 0 || batchBytes + Size(files[fileIndex + batchFiles]) <= lim.maxBytes)
      invariant fileIndex + batchFiles <= |files|
      invariant batchBytes == BytesIn(files[fileIndex..fileIndex + batchFiles])
      invariant whole == batchFiles + Fit(lim, files[fileIndex + batchFiles..], batchFiles, batchBytes)
    {
      GrowBatch(lim, files, fileIndex, fileIndex + batchFiles);
      batchBytes := batchBytes + Size(files[fileIndex + batchFiles]);
      batchFiles := batchFiles + 1;
    }
    StopBatch(lim, files, fileIndex + batchFiles, batchFiles, batchBytes);
    if batchFiles == 0 {
      batchFiles, batchBytes := 1, Size(files[fileIndex]);
      assert files[fileIndex..fileIndex + 1] == [files[fileIndex]];
      SingleSize([files[fileIndex]]);
    }
  }

  lemma NoBytes()
    ensures BytesIn([]) == 0
  {
  }

  // ---------------------------------------------------------------- the one-pass batcher

  /** Fitting runs through a part that fits and goes on after it. */
  lemma {:induction false} FitAlong(lim: Limits, c: seq<FileSpec>, r: seq<FileSpec>, n: nat, used: nat)
    requires |c| <= Fit(lim, c + r, n, used)
    ensures Fit(lim, c + r, n, used) == |c| + Fit(lim, r, n + |c|, used + BytesIn(c))
    decreases c
  {
    if c == [] {
      assert c + r == r;
    } else {
      assert (c + r)[1..] == c[1..] + r && (c + r)[0] == c[0];
      FitAlong(lim, c[1..], r, n + 1, used + Size(c[0]));
    }
  }

  /**
   * The open batch `c` is a beginning of the greedy batch; it is all of it exactly when the next file finds no
   * room.
   */
  lemma FullExactly(lim: Limits, c: seq<FileSpec>, r: seq<FileSpec>)
    requires lim.maxFiles > 0 && lim.maxBytes > 0 && c != [] && r != []
    requires |c| <= BatchLength(lim, c + r)
    ensures BatchLength(lim, c + r) == |c| <==> |c| >= lim.maxFiles || BytesIn(c) + Size(r[0]) > lim.maxBytes
  {
    hide Fit, BytesIn, Size;
    var whole := c + r;
    assert whole[0] == c[0];
    FirstFits(lim, whole);
    if Fit(lim, whole, 0, 0) == 0 {
      SingleSize(c);
    } else {
      assert |c| <= Fit(lim, whole, 0, 0);
      FitAlong(lim, c, r, 0, 0);
      OpenOrFull(lim, r, |c|, BytesIn(c));
    }
  }

  lemma FirstFits(lim: Limits, files: seq<FileSpec>)
    requires files != [] && lim.maxFiles > 0 && lim.maxBytes > 0
    ensures Fit(lim, files, 0, 0) == 0 <==> Size(files[0]) > lim.maxBytes
  {
  }

  lemma OpenOrFull(lim: Limits, r: seq<FileSpec>, n: nat, used: nat)
    requires r != [] && lim.maxFiles > 0 && lim.maxBytes > 0
    ensures Fit(lim, r, n, used) == 0 <==> n >= lim.maxFiles || used + Size(r[0]) > lim.maxBytes
  {
  }

  /** The last batch is closed when the files run out. */
  lemma LastBatch(lim: Limits, c: seq<FileSpec>)
    requires c != [] && |c| <= BatchLength(lim, c)
    ensures Batches(lim, c) == [c]
  {
    assert c[..|c|] == c && c[|c|..] == [];
  }

  /**
   * What the one-pass batcher yields: the greedy batches, after an empty one if the first file alone is over the
   * limit.
   */
  function OnePass(lim: Limits, entries: seq<FileSpec>): seq<seq<FileSpec>> {
    if entries != [] && Size(entries[0]) > lim.maxBytes then [[]] + Batches(lim, entries) else Batches(lim, entries)
  }

  /** The closed batches, and the greedy batches of what lies ahead (the open batch first), make up the result. */
  ghost predicate OpenOn(lim: Limits, entries: seq<FileSpec>, batches: seq<seq<FileSpec>>, open: nat,
      ahead: seq<FileSpec>) {
    ahead != [] && 0 < open <= BatchLength(lim, ahead) && batches + Batches(lim, ahead) == OnePass(lim, entries)
  }

  /** Half-way through the pass: closed batches and the open one are how the greedy batches begin. */
  ghost predicate OpenAt(lim: Limits, entries: seq<FileSpec>, i: nat, batches: seq<seq<FileSpec>>,
      current: seq<FileSpec>) {
    i <= |entries| &&
    if i == 0 then batches == [] && current == [] else OpenOn(lim, entries, batches, |current|, current + entries[i..])
  }

  lemma CloseBatch(lim: Limits, entries: seq<FileSpec>, batches: seq<seq<FileSpec>>, current: seq<FileSpec>,
      rest: seq<FileSpec>)
    requires OpenOn(lim, entries, batches, |current|, current + rest) && rest != []
    requires BatchLength(lim, current + rest) == |current|
    ensures OpenOn(lim, entries, batches + [current], 1, rest)
  {
    hide Batches, BatchLength, OnePass;
    var whole := current + rest;
    BatchesCons(lim, whole);
    assert whole[..|current|] == current && whole[|current|..] == rest;
    assert batches + [current] + Batches(lim, rest) == batches + ([current] + Batches(lim, rest));
  }

  lemma FirstOpen(lim: Limits, entries: seq<FileSpec>)
    requires entries != []
    ensures Size(entries[0]) > lim.maxBytes ==> OpenOn(lim, entries, [[]], 1, entries)
    ensures Size(entries[0]) <= lim.maxBytes ==> OpenOn(lim, entries, [], 1, entries)
  {
    hide Batches, BatchLength, Size;
    assert [] + Batches(lim, entries) == Batches(lim, entries);
  }

  /** The next file closes the open batch exactly when the greedy batch ends there, and joins the new or open one. */
  lemma OnePassStep(lim: Limits, entries: seq<FileSpec>, i: nat, batches: seq<seq<FileSpec>>, current: seq<FileSpec>)
    requires lim.maxFiles > 0 && lim.maxBytes > 0 && i < |entries| && OpenAt(lim, entries, i, batches, current)
    ensures if |current| >= lim.maxFiles || BytesIn(current) + Size(entries[i]) > lim.maxBytes
            then OpenAt(lim, entries, i + 1, batches + [current], [entries[i]])
            else OpenAt(lim, entries, i + 1, batches, current + [entries[i]])
  {
    hide Batches, BatchLength, BytesIn, Size, OpenOn;
    var rest := entries[i..];
    assert rest == [entries[i]] + entries[i + 1..] && rest[0] == entries[i];
    if i == 0 {
      NoBytes();
      FirstOpen(lim, entries);
      assert rest == entries && [] + [entries[0]] == [entries[0]] && batches + [current] == [[]];
    } else {
      StillOpen(lim, entries, batches, current, rest);
      assert current + [entries[i]] + entries[i + 1..] == current + rest;
    }
  }

  lemma StillOpen(lim: Limits, entries: seq<FileSpec>, batches: seq<seq<FileSpec>>, current: seq<FileSpec>,
      rest: seq<FileSpec>)
    requires lim.maxFiles > 0 && lim.maxBytes > 0 && rest != [] &&
      OpenOn(lim, entries, batches, |current|, current + rest)
    ensures if |current| >= lim.maxFiles || BytesIn(current) + Size(rest[0]) > lim.maxBytes
            then OpenOn(lim, entries, batches + [current], 1, rest)
            else OpenOn(lim, entries, batches, |current| + 1, current + rest)
  {
    hide Batches, BatchLength, BytesIn, Size, OnePass;
    FullExactly(lim, current, rest);
    if BatchLength(lim, current + rest) == |current| {
      CloseBatch(lim, entries, batches, current, rest);
    }
  }

  lemma BatchesCons(lim: Limits, files: seq<FileSpec>)
    requires files != []
    ensures var k := BatchLength(lim, files); Batches(lim, files) == [files[..k]] + Batches(lim, files[k..])
  {
  }

  /** The Kotlin sender's batcher refines the C one, up to that leading empty batch. */
  method CreateBatches(entries: seq<FileSpec>, lim: Limits) returns (batches: seq<seq<FileSpec>>)
    requires lim.maxFiles > 0 && lim.maxBytes > 0
    ensures batches == OnePass(lim, entries)
  {
    hide BytesIn, Batches, BatchLength, OpenAt, OnePass;
    batches := [];
    var currentBatch: seq<FileSpec> := [];
    var currentBatchSize: nat := 0;
    NoBytes();
    assert OpenAt(lim, entries, 0, batches, currentBatch) by { NoneOpen(lim, entries); }
    for i := 0 to |entries|
      invariant currentBatchSize == BytesIn(currentBatch)
      invariant OpenAt(lim, entries, i, batches, currentBatch)
    {
      var file := entries[i];
      var batchFull := |currentBatch| >= lim.maxFiles || currentBatchSize + Size(file) > lim.maxBytes;
      OnePassStep(lim, entries, i, batches, currentBatch);
      if batchFull {
        batches := batches + [currentBatch];
        currentBatch := [];
        currentBatchSize := 0;
      }
      BytesInAppend(currentBatch, [file]);
      SingleSize([file]);
      assert [] + [file] == [file];
      currentBatch := currentBatch + [file];
      currentBatchSize := currentBatchSize + Size(file);
    }
    PassEnds(lim, entries, batches, currentBatch);
    if currentBatch != [] {
      batches := batches + [currentBatch];
    }
  }

  lemma NoneOpen(lim: Limits, entries: seq<FileSpec>)
    ensures OpenAt(lim, entries, 0, [], [])
  {
  }

  lemma PassEnds(lim: Limits, entries: seq<FileSpec>, batches: seq<seq<FileSpec>>, current: seq<FileSpec>)
    requires OpenAt(lim, entries, |entries|, batches, current)
    ensures (if current != [] then batches + [current] else batches) == OnePass(lim, entries)
  {
    assert current + entries[|entries|..] == current;
    if current != [] {
      LastBatch(lim, current);
    }
  }
}
