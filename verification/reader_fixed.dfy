/** A corrected `ReadFile` loop.  ipreader/ipreader.go decides what to carry
    into the next read by whether the read filled the buffer, and holds back
    the last line even when the read ended exactly at a '\n'; the carried line
    of a final full read is never passed on.  Here every read carries exactly
    the bytes after its last '\n', and the carry is passed on at the end, so
    the lines passed on do not depend on how the data arrives. */
module ReaderFixed {
  import opened Lines
  import opened Reader

  /** `data` cut after its last '\n': the complete lines, and the open
      fragment that follows them. */
  function CutAtLastNL(data: Bytes): (r: (Bytes, Bytes))
    ensures r.0 + r.1 == data
    ensures NL !in r.1
    ensures |r.0| == 0 || r.0[|r.0| - 1] == NL
    decreases |data|
  {
    if |data| == 0 then ([], [])
    else if data[|data| - 1] == NL then (data, [])
    else
      var p := CutAtLastNL(data[..|data| - 1]);
      assert data == data[..|data| - 1] + [data[|data| - 1]];
      (p.0, p.1 + [data[|data| - 1]])
  }

  /** The corrected loop over the remaining reads with `carry` pending. */
  function FixedLoop(stream: seq<ReadResult>, carry: Bytes): (r: (Option<Error>, seq<Batch>))
    ensures r.0 == StopError(stream)
    ensures AllRecords(r.1)
    ensures Served(stream) <= |r.1| <= Served(stream) + 1
    decreases |stream|
  {
    if |stream| == 0 || !Delivers(stream[0]) then
      if |stream| > 0 && stream[0].status == Failed then (Some(ReadFailed), [])
      else if |carry| > 0 then
        AllRecordsCons(Scanned(carry), []);
        (None, [Scanned(carry)])
      else (None, [])
    else
      var cut := CutAtLastNL(carry + stream[0].data);
      var rest := FixedLoop(stream[1..], cut.1);
      AllRecordsCons(Scanned(cut.0), rest.1);
      (rest.0, [Scanned(cut.0)] + rest.1)
  }

  /** `ReadFile` with the corrected loop: the same buffer check, errors and
      single `Close`. */
  function ReadFileFixed(stream: seq<ReadResult>, bufLen: nat): (r: Outcome)
    ensures bufLen < MinBuffer <==> r.err == Some(BufferTooSmall)
    ensures bufLen < MinBuffer ==> r.batches == [] && r.closeCalls == 0
    ensures bufLen >= MinBuffer ==> r.closeCalls == 1 && r.err == StopError(stream)
    ensures AllRecords(r.batches)
  {
    if bufLen < MinBuffer then Outcome(Some(BufferTooSmall), [], 0)
    else
      var loop := FixedLoop(stream, []);
      Outcome(loop.0, loop.1, 1)
  }

  lemma Assoc(a: Bytes, b: Bytes, c: Bytes)
    ensures a + (b + c) == (a + b) + c
  {
  }

  /** Complete lines scan apart from the open fragment and what follows. */
  lemma CutScan(carry: Bytes, chunk: Bytes, rest: Bytes)
    ensures var cut := CutAtLastNL(carry + chunk);
      Scanned(carry + (chunk + rest)) == Scanned(cut.0) + Scanned(cut.1 + rest)
  {
    var cut := CutAtLastNL(carry + chunk);
    Assoc(carry, chunk, rest);
    Assoc(cut.0, cut.1, rest);
    ScannedAppend(cut.0, cut.1 + rest);
  }

  lemma StopErrorTail(stream: seq<ReadResult>)
    requires |stream| > 0 && Delivers(stream[0])
    ensures StopError(stream[1..]) == StopError(stream)
  {
    assert Served(stream) == 1 + Served(stream[1..]);
  }

  /** One corrected iteration: the complete lines go out now, the open
      fragment waits for what follows. */
  lemma FixedStep(stream: seq<ReadResult>, carry: Bytes)
    requires |stream| > 0 && Delivers(stream[0])
    ensures var cut := CutAtLastNL(carry + stream[0].data);
      StopError(stream[1..]) == StopError(stream) &&
      Scanned(carry + Received(stream)) == Scanned(cut.0) + Scanned(cut.1 + Received(stream[1..]))
  {
    CutScan(carry, stream[0].data, Received(stream[1..]));
    StopErrorTail(stream);
  }

  /** When the reads stop cleanly, the corrected loop passes on the carry. */
  lemma FixedEnd(stream: seq<ReadResult>, carry: Bytes)
    requires |stream| == 0 || !Delivers(stream[0])
    requires StopError(stream) == None
    ensures Flatten(FixedLoop(stream, carry).1) == Scanned(carry + Received(stream))
  {
    assert carry + Received(stream) == carry;
    if |carry| > 0 {
      FlattenCons(Scanned(carry), []);
      assert Scanned(carry) + [] == Scanned(carry);
    }
  }

  /** Whatever the chunks, the corrected loop passes on exactly the
      non-empty lines of `carry` and everything received, unless a read
      fails. */
  lemma {:induction false} FixedLoopIntegrity(stream: seq<ReadResult>, carry: Bytes)
    requires NL !in carry
    requires StopError(stream) == None
    ensures Flatten(FixedLoop(stream, carry).1) == Scanned(carry + Received(stream))
    decreases |stream|
  {
    if |stream| == 0 || !Delivers(stream[0]) {
      FixedEnd(stream, carry);
    } else {
      var cut := CutAtLastNL(carry + stream[0].data);
      var loop := FixedLoop(stream[1..], cut.1);
      assert FixedLoop(stream, carry) == (loop.0, [Scanned(cut.0)] + loop.1);
      FixedStep(stream, carry);
      FixedLoopIntegrity(stream[1..], cut.1);
      FlattenCons(Scanned(cut.0), loop.1);
    }
  }

  /** The corrected `ReadFile` passes on every non-empty line it read, once
      and in order, for any buffer size and any way the reader splits the
      data, unless a read fails. */
  lemma ReadFileFixedIntegrity(stream: seq<ReadResult>, bufLen: nat)
    requires bufLen >= MinBuffer && StopError(stream) == None
    ensures ReadFileFixed(stream, bufLen).err == None
    ensures Flatten(ReadFileFixed(stream, bufLen).batches) == Scanned(Received(stream))
  {
    FixedLoopIntegrity(stream, []);
    assert [] + Received(stream) == Received(stream);
  }

  /** On clean streams the original and the corrected loop pass on the same
      lines. */
  lemma FixAgreesOnClean(stream: seq<ReadResult>, bufLen: nat)
    requires bufLen >= MinBuffer && Clean(stream, bufLen)
    ensures Flatten(ReadFileFixed(stream, bufLen).batches) == Flatten(ReadFile(stream, bufLen).batches)
  {
    ReadFileIntegrity(stream, bufLen);
    ReadFileFixedIntegrity(stream, bufLen);
  }
}
