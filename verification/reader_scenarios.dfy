/** The cases of ipreader/ipreader_test.go as lemmas about the model, and
    three streams on which the original loop merges, loses or splits lines.
    Text in the comments is the ASCII the byte sequences spell. */
module ReaderScenarios {
  import opened Lines
  import opened Reader
  import opened ReaderFixed

  // ---- The five addresses of the test file --------------------------------

  /** "145.67.23.4" */
  const L1: Bytes := [49, 52, 53, 46, 54, 55, 46, 50, 51, 46, 52]
  /** "8.34.5.23" */
  const L2: Bytes := [56, 46, 51, 52, 46, 53, 46, 50, 51]
  /** "89.54.3.124" */
  const L3: Bytes := [56, 57, 46, 53, 52, 46, 51, 46, 49, 50, 52]
  /** "89.54.3.124" again */
  const L4: Bytes := [56, 57, 46, 53, 52, 46, 51, 46, 49, 50, 52]
  /** "3.45.71.5" */
  const L5: Bytes := [51, 46, 52, 53, 46, 55, 49, 46, 53]

  /** "8.34.5.2": the part of `L2` in the first 20-byte read. */
  const F1: Bytes := [56, 46, 51, 52, 46, 53, 46, 50]
  /** "89.54.": the part of `L4` in the second 20-byte read. */
  const F2: Bytes := [56, 57, 46, 53, 52, 46]

  /** The three reads of the file with a 20-byte buffer. */
  const C1: Bytes := L1 + [NL] + F1
  const C2: Bytes := [51] + [NL] + L3 + [NL] + F2
  const C3: Bytes := [51, 46, 49, 50, 52] + [NL] + L5 + [NL]

  /** The whole test file: the five addresses, each followed by '\n'. */
  const Content: Bytes := Unlines([L1, L2, L3, L4, L5])

  /** The test file without its final '\n'. */
  const Unterminated: Bytes := Unlines([L1, L2, L3, L4]) + L5

  // ---- Streams of reads ---------------------------------------------------

  /** Once the data is used up, `Read` answers with no bytes and `io.EOF`. */
  const Eof: seq<ReadResult> := [ReadResult([], AtEof)]

  /** A read answering `c` without error, then the reads of `rest`. */
  function Then(c: Bytes, rest: seq<ReadResult>): (stream: seq<ReadResult>)
    ensures |c| > 0 ==> Served(stream) == 1 + Served(rest)
    ensures |c| > 0 ==> Received(stream) == c + Received(rest)
    ensures |c| > 0 ==> StopError(stream) == StopError(rest)
  {
    var stream := [ReadResult(c, Ok)] + rest;
    assert stream[1..] == rest;
    stream
  }

  /** The loop stops without error at the end of the data. */
  lemma EofStops(bufLen: nat, carry: Bytes)
    ensures ReadLoop(Eof, bufLen, carry) == (None, [])
    ensures Served(Eof) == 0 && Received(Eof) == [] && StopError(Eof) == None
  {
    ReadLoopStop(Eof, bufLen, carry);
  }

  /** One delivering read in front of `rest` adds its batch in front. */
  lemma LoopThen(c: Bytes, rest: seq<ReadResult>, bufLen: nat, carry: Bytes, batch: Batch, next: Bytes, batches: seq<Batch>)
    requires |c| > 0
    requires Process(carry, c, bufLen) == Step(batch, next)
    requires ReadLoop(rest, bufLen, next) == (None, batches)
    ensures ReadLoop(Then(c, rest), bufLen, carry) == (None, [batch] + batches)
  {
    assert Then(c, rest)[1..] == rest;
    ReadLoopStep(Then(c, rest), bufLen, carry);
  }

  /** A file that arrives in one read `c` is passed on as one batch. */
  lemma SingleRead(c: Bytes, bufLen: nat, batch: Batch, next: Bytes)
    requires |c| > 0 && bufLen >= MinBuffer
    requires Process([], c, bufLen) == Step(batch, next)
    ensures ReadFile(Then(c, Eof), bufLen) == Outcome(None, [batch], 1)
  {
    EofStops(bufLen, next);
    LoopThen(c, Eof, bufLen, [], batch, next, []);
  }

  /** Scanning lines joined with '\n' and followed by an open fragment
      gives back the lines, then the fragment. */
  lemma ScannedJoined(lines: seq<Bytes>, frag: Bytes)
    requires forall i :: 0 <= i < |lines| ==> Plain(lines[i]) && |lines[i]| > 0
    requires Plain(frag)
    ensures Scanned(Unlines(lines) + frag) == lines + Held(frag)
  {
    ScanUnlines(lines);
    ScanLinesAppend(Unlines(lines), frag);
    NonEmptyAppend(ScanLines(Unlines(lines)), ScanLines(frag));
    NonEmptyKeeps(lines);
    if |frag| > 0 {
      ScanLinesLast(frag);
      assert NonEmpty([frag]) == [frag];
    }
  }

  /** One line joined: the line and its '\n'. */
  lemma Join1(a: Bytes)
    ensures Unlines([a]) == a + [NL]
  {
    UnlinesCons(a, []);
    assert [a] == [a] + [];
  }

  /** Two lines joined, each followed by '\n'. */
  lemma Join2(a: Bytes, b: Bytes)
    ensures Unlines([a, b]) == a + [NL] + (b + [NL])
  {
    UnlinesCons(a, [b]);
    Join1(b);
    assert [a, b] == [a] + [b];
  }

  // ---- ipreader_test.go ---------------------------------------------------

  /** The first 20-byte read: "145.67.23.4" goes out, "8.34.5.2" waits. */
  lemma SmallBufferFirst()
    ensures Process([], C1, 20) == Step([L1], F1)
  {
    Join1(L1);
    assert [] + C1 == Unlines([L1]) + F1;
    ScannedJoined([L1], F1);
    FullReadSplit([], C1, 20, [L1], F1);
  }

  /** The second read completes "8.34.5.23"; "89.54." waits. */
  lemma SmallBufferSecond()
    ensures Process(F1, C2, 20) == Step([L2, L3], F2)
  {
    Join2(L2, L3);
    assert F1 + C2 == Unlines([L2, L3]) + F2;
    ScannedJoined([L2, L3], F2);
    FullReadSplit(F1, C2, 20, [L2, L3], F2);
  }

  /** The third, short read completes the last two lines. */
  lemma SmallBufferThird()
    ensures Process(F2, C3, 20) == Step([L4, L5], [])
  {
    Join2(L4, L5);
    assert F2 + C3 == Unlines([L4, L5]) + [];
    ScannedJoined([L4, L5], []);
    ShortRead(F2, C3, 20);
  }

  /** The batches of the small-buffer case, written as a list.
      Stated apart so that the solver never unfolds the display inside the
      recursive functions of the scenario. */
  lemma ThreeBatches()
    ensures [[L1]] + ([[L2, L3]] + ([[L4, L5]] + [])) == [[L1], [L2, L3], [L4, L5]]
  {
  }

  /** Five addresses read 20 bytes at a time: every full read holds back the
      line it cut, so the batches are exactly the five lines, in order. */
  lemma FiveLinesSmallBuffer()
    ensures ReadFile(Then(C1, Then(C2, Then(C3, Eof))), 20) == Outcome(None, [[L1], [L2, L3], [L4, L5]], 1)
  {
    SmallBufferFirst();
    SmallBufferSecond();
    SmallBufferThird();
    EofStops(20, []);
    LoopThen(C3, Eof, 20, F2, [L4, L5], [], []);
    LoopThen(C2, Then(C3, Eof), 20, F1, [L2, L3], F2, [[L4, L5]] + []);
    LoopThen(C1, Then(C2, Then(C3, Eof)), 20, [], [L1], F1, [[L2, L3]] + ([[L4, L5]] + []));
    ThreeBatches();
  }

  /** Joining one more line adds its length and one '\n'. */
  lemma JoinedLength(line: Bytes, lines: seq<Bytes>, n: nat)
    requires |Unlines(lines)| == n
    ensures |Unlines([line] + lines)| == |line| + 1 + n
  {
    UnlinesCons(line, lines);
  }

  /** The test file is 56 bytes long; without its last line, 46. */
  lemma ContentLength()
    ensures |Unlines([L1, L2, L3, L4])| == 46
    ensures |Content| == 56
  {
    JoinedLength(L4, [], 0);
    assert [L4] == [L4] + [];
    JoinedLength(L3, [L4], 12);
    assert [L3, L4] == [L3] + [L4];
    JoinedLength(L2, [L3, L4], 24);
    assert [L2, L3, L4] == [L2] + [L3, L4];
    JoinedLength(L1, [L2, L3, L4], 34);
    assert [L1, L2, L3, L4] == [L1] + [L2, L3, L4];
    JoinedLength(L5, [], 0);
    assert [L5] == [L5] + [];
    JoinedLength(L4, [L5], 10);
    assert [L4, L5] == [L4] + [L5];
    JoinedLength(L3, [L4, L5], 22);
    assert [L3, L4, L5] == [L3] + [L4, L5];
    JoinedLength(L2, [L3, L4, L5], 34);
    assert [L2, L3, L4, L5] == [L2] + [L3, L4, L5];
    JoinedLength(L1, [L2, L3, L4, L5], 44);
    assert [L1, L2, L3, L4, L5] == [L1] + [L2, L3, L4, L5];
  }

  /** Scanning the whole file gives its five lines. */
  lemma ContentScan()
    ensures Process([], Content, 1024) == Step([L1, L2, L3, L4, L5], [])
  {
    ContentLength();
    assert [] + Content == Unlines([L1, L2, L3, L4, L5]) + [];
    ScannedJoined([L1, L2, L3, L4, L5], []);
    ShortRead([], Content, 1024);
  }

  /** The file in one read into a 1024-byte buffer: one batch with all five
      lines. */
  lemma FiveLinesOneRead()
    ensures ReadFile(Then(Content, Eof), 1024) == Outcome(None, [[L1, L2, L3, L4, L5]], 1)
  {
    ContentScan();
    SingleRead(Content, 1024, [L1, L2, L3, L4, L5], []);
  }

  /** The first four lines, then the unterminated fifth. */
  lemma FourThenOne()
    ensures [L1, L2, L3, L4] + Held(L5) == [L1, L2, L3, L4, L5]
  {
    assert Held(L5) == [L5];
  }

  /** Four terminated lines and an open fifth scan to five lines. */
  lemma UnterminatedLines()
    ensures Scanned(Unlines([L1, L2, L3, L4]) + L5) == [L1, L2, L3, L4, L5]
  {
    ScannedJoined([L1, L2, L3, L4], L5);
    FourThenOne();
  }

  /** Scanning the file without its last '\n' still gives five lines. */
  lemma UnterminatedScan()
    ensures Process([], Unterminated, 1024) == Step([L1, L2, L3, L4, L5], [])
  {
    ContentLength();
    UnterminatedLines();
    assert [] + Unterminated == Unlines([L1, L2, L3, L4]) + L5;
    ShortRead([], Unterminated, 1024);
  }

  /** The file without its last '\n': still one batch of five lines. */
  lemma NoTrailingNewline()
    ensures ReadFile(Then(Unterminated, Eof), 1024) == Outcome(None, [[L1, L2, L3, L4, L5]], 1)
  {
    UnterminatedScan();
    SingleRead(Unterminated, 1024, [L1, L2, L3, L4, L5], []);
  }

  /** An empty file: no batch, no error, one `Close`. */
  lemma EmptyFile()
    ensures ReadFile(Eof, 1024) == Outcome(None, [], 1)
  {
    EofStops(1024, []);
  }

  /** A file holding only "\n": one read, whose batch is empty. */
  lemma NewlineOnly()
    ensures ReadFile(Then([NL], Eof), 1024) == Outcome(None, [[]], 1)
  {
    Join1([]);
    assert [] + [NL] == Unlines([[]]) + [];
    ScanUnlines([[]]);
    assert Scanned([NL]) == NonEmpty([[]]);
    ShortRead([], [NL], 1024);
    EofStops(1024, []);
    LoopThen([NL], Eof, 1024, [], [], [], []);
  }

  // ---- Where the original loop goes wrong ---------------------------------

  /** "10.1.1.1" */
  const P: Bytes := [49, 48, 46, 49, 46, 49, 46, 49]
  /** "2.2.2.2" */
  const Q: Bytes := [50, 46, 50, 46, 50, 46, 50]
  /** "3.3.3.3" */
  const R: Bytes := [51, 46, 51, 46, 51, 46, 51]

  /** "10.1.1.1\n2.2.2.2\n": 17 bytes that end at a line end. */
  const PQ: Bytes := Unlines([P, Q])
  /** "3.3.3.3\n" */
  const RL: Bytes := Unlines([R])

  /** A full 17-byte read that ends exactly at a '\n', then "3.3.3.3\n". */
  const EndsAtLineEnd: seq<ReadResult> := Then(PQ, Then(RL, Eof))

  /** A file of exactly one full 17-byte read. */
  const FullLastRead: seq<ReadResult> := Then(PQ, Eof)

  /** The first read of both streams is exactly 17 bytes. */
  lemma FirstReadLength()
    ensures PQ == P + [NL] + (Q + [NL])
    ensures |PQ| == 17
  {
    Join2(P, Q);
  }

  /** The first read scans to "10.1.1.1" and "2.2.2.2". */
  lemma PQLines()
    ensures Scanned([] + PQ) == [P, Q]
  {
    assert [] + PQ == Unlines([P, Q]) + [];
    ScannedJoined([P, Q], []);
  }

  /** The first read of both streams: it fills the 17-byte buffer, so
      "2.2.2.2" is held back although its '\n' was read. */
  lemma FullReadAtLineEnd()
    ensures Process([], PQ, 17) == Step([P], Q)
  {
    FirstReadLength();
    PQLines();
    FullReadSplit([], PQ, 17, [P], Q);
  }

  /** The second read of `EndsAtLineEnd` continues the held-back line. */
  lemma GluedRead()
    ensures Process(Q, RL, 17) == Step([Q + R], [])
  {
    Join1(R);
    Join1(Q + R);
    assert |RL| == 8;
    assert Q + RL == Unlines([Q + R]) + [];
    ScannedJoined([Q + R], []);
    ShortRead(Q, RL, 17);
  }

  /** The two reads of `EndsAtLineEnd` together are three joined lines. */
  lemma ThreeLinesJoined()
    ensures PQ + RL == Unlines([P, Q, R]) + []
  {
    Join1(R);
    Join2(P, Q);
    UnlinesCons(P, [Q, R]);
    Join2(Q, R);
    assert [P, Q, R] == [P] + [Q, R];
  }

  /** The data of `EndsAtLineEnd` holds three lines. */
  lemma ThreeLinesReceived()
    ensures Scanned(Received(EndsAtLineEnd)) == [P, Q, R]
  {
    ChunksNonEmpty();
    EofStops(17, []);
    assert Received(EndsAtLineEnd) == PQ + RL;
    ThreeLinesJoined();
    ScannedJoined([P, Q, R], []);
  }

  /** The merged batches hold two lines, not three. */
  lemma MergedFlatten()
    ensures Flatten([[P], [Q + R]]) == [P, Q + R]
  {
    FlattenCons([P], [[Q + R]]);
    FlattenCons([Q + R], []);
  }

  /** Both reads deliver bytes. */
  lemma ChunksNonEmpty()
    ensures |RL| > 0 && |PQ| > 0
  {
  }

  /** After the first read, "2.2.2.2" and "3.3.3.3" go out as one line. */
  lemma GluedLoop()
    ensures ReadLoop(Then(RL, Eof), 17, Q) == (None, [[Q + R]] + [])
  {
    ChunksNonEmpty();
    GluedRead();
    EofStops(17, []);
    LoopThen(RL, Eof, 17, Q, [Q + R], [], []);
  }

  /** The loop over `EndsAtLineEnd`: "10.1.1.1", then the merged line. */
  lemma MergedLoop()
    ensures ReadLoop(EndsAtLineEnd, 17, []) == (None, [[P]] + ([[Q + R]] + []))
  {
    ChunksNonEmpty();
    GluedLoop();
    FullReadAtLineEnd();
    LoopThen(PQ, Then(RL, Eof), 17, [], [P], Q, [[Q + R]] + []);
  }

  /** The batches of `MergedLoop`, written as a list.
      Stated apart so that the solver never unfolds the display inside the
      recursive functions of the scenario. */
  lemma TwoBatches()
    ensures [[P]] + ([[Q + R]] + []) == [[P], [Q + R]]
  {
  }

  /** `ReadFile` on `EndsAtLineEnd`: no error, one `Close`, two batches. */
  lemma MergedBatches()
    ensures ReadFile(EndsAtLineEnd, 17) == Outcome(None, [[P], [Q + R]], 1)
  {
    MergedLoop();
    TwoBatches();
  }

  /** As written: the complete line "2.2.2.2" is held back and glued to the
      next read, so "2.2.2.23.3.3.3" is passed on instead of two lines. */
  lemma MergesLinesAtFullRead()
    ensures Scanned(Received(EndsAtLineEnd)) == [P, Q, R]
    ensures ReadFile(EndsAtLineEnd, 17) == Outcome(None, [[P], [Q + R]], 1)
    ensures Flatten(ReadFile(EndsAtLineEnd, 17).batches) != Scanned(Received(EndsAtLineEnd))
  {
    ThreeLinesReceived();
    MergedBatches();
    MergedFlatten();
    assert |[P, Q + R]| != |[P, Q, R]|;
  }

  /** As written: the line held back by the last, full read is never passed
      on, so "2.2.2.2" is lost. */
  lemma LosesLineAtFullLastRead()
    ensures Scanned(Received(FullLastRead)) == [P, Q]
    ensures ReadFile(FullLastRead, 17) == Outcome(None, [[P]], 1)
  {
    ChunksNonEmpty();
    FullReadAtLineEnd();
    SingleRead(PQ, 17, [P], Q);
    EofStops(17, []);
    assert Received(FullLastRead) == [] + PQ;
    PQLines();
  }

  /** "10.1.": the first part of "10.1.1.1". */
  const Pre: Bytes := [49, 48, 46, 49, 46]
  /** "1.1": the rest of "10.1.1.1". */
  const Post: Bytes := [49, 46, 49]

  /** "10.1.1.1\n" in two short reads, cut inside the line. */
  const CutInLine: seq<ReadResult> := Then(Pre, Then(Post + [NL], Eof))

  /** The first read of `CutInLine` is short, so its fragment goes out. */
  lemma PreRead()
    ensures Process([], Pre, 17) == Step([Pre], [])
  {
    assert [] + Pre == Unlines([]) + Pre;
    ScannedJoined([], Pre);
    ShortRead([], Pre, 17);
  }

  /** The second read of `CutInLine` passes on the rest of the line. */
  lemma PostRead()
    ensures Process([], Post + [NL], 17) == Step([Post], [])
  {
    Join1(Post);
    assert [] + (Post + [NL]) == Unlines([Post]) + [];
    ScannedJoined([Post], []);
    ShortRead([], Post + [NL], 17);
  }

  /** The loop over `CutInLine`: one batch for each half of the line. */
  lemma CutLoop()
    ensures ReadLoop(CutInLine, 17, []) == (None, [[Pre]] + ([[Post]] + []))
  {
    PreRead();
    PostRead();
    EofStops(17, []);
    LoopThen(Post + [NL], Eof, 17, [], [Post], [], []);
    LoopThen(Pre, Then(Post + [NL], Eof), 17, [], [Pre], [], [[Post]] + []);
  }

  /** The data of `CutInLine` is the one line "10.1.1.1". */
  lemma OneLineReceived()
    ensures Scanned(Received(CutInLine)) == [P]
  {
    EofStops(17, []);
    assert Received(CutInLine) == Pre + (Post + [NL]);
    Join1(P);
    assert Pre + (Post + [NL]) == Unlines([P]) + [];
    ScannedJoined([P], []);
  }

  /** The halves of the line go out as two lines. */
  lemma SplitFlatten()
    ensures Flatten([[Pre], [Post]]) == [Pre, Post]
  {
    FlattenCons([Pre], [[Post]]);
    FlattenCons([Post], []);
  }

  /** As written: a short read that stops inside a line, with more data to
      come, passes on its fragment as a line of its own, so "10.1.1.1"
      goes out as "10.1." and "1.1". */
  lemma SplitsRecord()
    ensures Scanned(Received(CutInLine)) == [P]
    ensures ReadFile(CutInLine, 17) == Outcome(None, [[Pre], [Post]], 1)
    ensures Flatten(ReadFile(CutInLine, 17).batches) != Scanned(Received(CutInLine))
  {
    OneLineReceived();
    CutLoop();
    assert [[Pre]] + ([[Post]] + []) == [[Pre], [Post]];
    SplitFlatten();
    assert |[Pre, Post]| != |[P]|;
  }

  /** The corrected loop passes on all lines of the three streams. */
  lemma FixedKeepsEveryLine()
    ensures Flatten(ReadFileFixed(EndsAtLineEnd, 17).batches) == [P, Q, R]
    ensures Flatten(ReadFileFixed(FullLastRead, 17).batches) == [P, Q]
    ensures Flatten(ReadFileFixed(CutInLine, 17).batches) == [P]
  {
    ThreeLinesReceived();
    LosesLineAtFullLastRead();
    EofStops(17, []);
    ReadFileFixedIntegrity(EndsAtLineEnd, 17);
    ReadFileFixedIntegrity(FullLastRead, 17);
    OneLineReceived();
    ReadFileFixedIntegrity(CutInLine, 17);
  }
}
