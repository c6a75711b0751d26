/** `ReadFile` of ipreader/ipreader.go: read an `io.Reader` into a caller's
    buffer, split what was read into lines, skip empty lines, and hand each
    read's lines to the counter as one batch.  A read that fills the whole
    buffer holds its last line back and puts it in front of the next read. */
module Reader {
  import opened Lines

  /** How one `Read` call answered: with no error, with `io.EOF`, or with
      another error. */
  datatype ReadStatus = Ok | AtEof | Failed

  /** The bytes one `Read` call put into the buffer, and its status. */
  datatype ReadResult = ReadResult(data: Bytes, status: ReadStatus)

  datatype Option<T> = None | Some(value: T)

  /** The two errors `ReadFile` returns. */
  datatype Error = BufferTooSmall | ReadFailed

  /** The lines of one `AddIpSlice` call. */
  type Batch = seq<Bytes>

  /** What a `ReadFile` call does: the error it returns, the batches it
      passes to `AddIpSlice` in order, and how often it calls `Close`. */
  datatype Outcome = Outcome(err: Option<Error>, batches: seq<Batch>, closeCalls: nat)

  /** Smallest buffer `ReadFile` accepts. */
  const MinBuffer := 17

  /** What one loop iteration hands on: its batch and the bytes it leaves in
      `tmpBuffer` for the next read. */
  datatype Step = Step(batch: Batch, carry: Bytes)

  /** A line as `AddIpSlice` may receive it. */
  predicate Record(line: Bytes)
  {
    |line| > 0 && NL !in line
  }

  predicate Records(batch: Batch)
  {
    forall i :: 0 <= i < |batch| ==> Record(batch[i])
  }

  predicate AllRecords(batches: seq<Batch>)
  {
    forall i :: 0 <= i < |batches| ==> Records(batches[i])
  }

  lemma AllRecordsCons(batch: Batch, batches: seq<Batch>)
    requires Records(batch) && AllRecords(batches)
    ensures AllRecords([batch] + batches)
  {
    forall i | 0 <= i < |[batch] + batches|
      ensures Records(([batch] + batches)[i])
    {
      if i > 0 {
        assert ([batch] + batches)[i] == batches[i - 1];
      }
    }
  }

  lemma RecordsPrefix(batch: Batch, k: nat)
    requires Records(batch) && k <= |batch|
    ensures Records(batch[..k])
  {
    forall i | 0 <= i < k
      ensures Record(batch[..k][i])
    {
      assert batch[..k][i] == batch[i];
    }
  }

  lemma {:induction false} NonEmptyRecords(lines: seq<Bytes>)
    requires forall i :: 0 <= i < |lines| ==> NL !in lines[i]
    ensures Records(NonEmpty(lines))
    decreases |lines|
  {
    if |lines| > 0 {
      NonEmptyRecords(lines[1..]);
      if |lines[0]| > 0 {
        AllRecordsCons([lines[0]], []);
        var r := [lines[0]] + NonEmpty(lines[1..]);
        forall i | 0 <= i < |r|
          ensures Record(r[i])
        {
          if i > 0 {
            assert r[i] == NonEmpty(lines[1..])[i - 1];
          }
        }
      }
    }
  }

  /** The lines one scan of `data` appends to `ips`: every line that
      `bufio.ScanLines` returns except the empty ones. */
  function Scanned(data: Bytes): (ips: Batch)
    ensures Records(ips)
  {
    NonEmptyRecords(ScanLines(data));
    NonEmpty(ScanLines(data))
  }

  /** The carry as a list: nothing, or the one held-back line. */
  function Held(carry: Bytes): seq<Bytes>
  {
    if |carry| > 0 then [carry] else []
  }

  lemma DropLast<T>(s: seq<T>)
    requires |s| > 0
    ensures s[..|s| - 1] + [s[|s| - 1]] == s
  {
  }

  /** A read the loop processes: no error other than EOF, and some bytes. */
  predicate Delivers(r: ReadResult)
  {
    r.status != Failed && |r.data| > 0
  }

  /** How many reads the loop processes before it stops; reads past the end
      of the sequence answer with no bytes and `io.EOF`. */
  function Served(stream: seq<ReadResult>): (n: nat)
    ensures n <= |stream|
    ensures forall i :: 0 <= i < n ==> Delivers(stream[i])
    ensures n < |stream| ==> !Delivers(stream[n])
    decreases |stream|
  {
    if |stream| == 0 || !Delivers(stream[0]) then 0 else 1 + Served(stream[1..])
  }

  /** The data of the first `n` reads, one after the other. */
  function Datas(stream: seq<ReadResult>, n: nat): Bytes
    requires n <= |stream|
  {
    Flatten(seq(n, i requires 0 <= i < n => stream[i].data))
  }

  /** The bytes the loop reads up to its stop, in order. */
  function Received(stream: seq<ReadResult>): (data: Bytes)
    ensures data == Datas(stream, Served(stream))
    decreases |stream|
  {
    if |stream| == 0 || !Delivers(stream[0]) then [] else
      var rest := Received(stream[1..]);
      var n := Served(stream);
      var ds := seq(n, i requires 0 <= i < n => stream[i].data);
      var ts := seq(n - 1, i requires 0 <= i < n - 1 => stream[1..][i].data);
      assert n == 1 + Served(stream[1..]);
      assert ds[1..] == ts by {
        forall i | 0 <= i < n - 1
          ensures ds[1..][i] == ts[i]
        {
        }
      }
      assert Flatten(ds) == ds[0] + Flatten(ds[1..]);
      stream[0].data + rest
  }

  /** The error the loop stops with: that of the first read it does not
      process, if that read failed. */
  function StopError(stream: seq<ReadResult>): Option<Error>
  {
    var n := Served(stream);
    if n < |stream| && stream[n].status == Failed then Some(ReadFailed) else None
  }

  /** `keepResidual`: the last line when it is non-empty and does not end
      in '\n', otherwise nothing. */
  function KeepResidual(lines: seq<Bytes>): (r: Bytes)
    ensures |r| > 0 ==> |lines| > 0 && r == lines[|lines| - 1]
  {
    if |lines| > 0 then
      var last := lines[|lines| - 1];
      if |last| > 0 && last[|last| - 1] != NL then last else []
    else []
  }

  /** One iteration after a read of `chunk` into a buffer of `bufLen` bytes,
      with `carry` left in `tmpBuffer`: the non-empty lines of both, of which
      a full read holds the last one back. */
  function Process(carry: Bytes, chunk: Bytes, bufLen: nat): (s: Step)
    ensures Records(s.batch)
    ensures s.batch + Held(s.carry) == Scanned(carry + chunk)
    ensures |chunk| != bufLen ==> s.carry == []
  {
    var ips := Scanned(carry + chunk);
    if |chunk| == bufLen then
      var residual := KeepResidual(ips);
      if |residual| > 0 then
        DropLast(ips);
        RecordsPrefix(ips, |ips| - 1);
        Step(ips[..|ips| - 1], residual)
      else Step(ips, [])
    else Step(ips, [])
  }

  /** The `for` loop of `ReadFile` over the remaining `stream`, with `carry`
      in `tmpBuffer`: the error it returns and the batches it passes on. */
  function ReadLoop(stream: seq<ReadResult>, bufLen: nat, carry: Bytes): (r: (Option<Error>, seq<Batch>))
    ensures |r.1| == Served(stream)
    ensures r.0 == StopError(stream)
    ensures AllRecords(r.1)
    decreases |stream|
  {
    if |stream| == 0 || !Delivers(stream[0]) then
      (if |stream| > 0 && stream[0].status == Failed then Some(ReadFailed) else None, [])
    else
      var s := Process(carry, stream[0].data, bufLen);
      var rest := ReadLoop(stream[1..], bufLen, s.carry);
      AllRecordsCons(s.batch, rest.1);
      (rest.0, [s.batch] + rest.1)
  }

  /** `ReadFile(file, counter, buffer)` with `file` answering `stream` and a
      buffer of `bufLen` bytes. */
  function ReadFile(stream: seq<ReadResult>, bufLen: nat): (r: Outcome)
    ensures bufLen < MinBuffer <==> r.err == Some(BufferTooSmall)
    ensures bufLen < MinBuffer ==> r.batches == [] && r.closeCalls == 0
    ensures bufLen >= MinBuffer ==> r.closeCalls == 1
    ensures bufLen >= MinBuffer ==> |r.batches| == Served(stream)
    ensures bufLen >= MinBuffer ==>
      (r.err == Some(ReadFailed) <==> Served(stream) < |stream| && stream[Served(stream)].status == Failed)
    ensures AllRecords(r.batches)
  {
    if bufLen < MinBuffer then Outcome(Some(BufferTooSmall), [], 0)
    else
      var loop := ReadLoop(stream, bufLen, []);
      Outcome(loop.0, loop.1, 1)
  }

  // ---- keepResidual never sees a '\n' -------------------------------------

  /** On scanner lines the '\n' test of `keepResidual` never fires: it
      returns the last line whenever that line is non-empty. */
  lemma ResidualIsLastLine(lines: seq<Bytes>)
    requires forall i :: 0 <= i < |lines| ==> NL !in lines[i]
    ensures KeepResidual(lines) == (if |lines| > 0 then lines[|lines| - 1] else [])
  {
    if |lines| > 0 {
      var last := lines[|lines| - 1];
      assert NL !in last;
      if |last| > 0 {
        assert last[|last| - 1] in last;
      }
    }
  }

  /** A full read always holds the last non-empty line back, whether or not
      the read ended at a line end. */
  lemma FullReadHoldsLastLine(carry: Bytes, chunk: Bytes, bufLen: nat)
    requires |chunk| == bufLen
    ensures var ips := Scanned(carry + chunk);
      |ips| > 0 ==> Process(carry, chunk, bufLen) == Step(ips[..|ips| - 1], ips[|ips| - 1])
  {
    var ips := Scanned(carry + chunk);
    if |ips| > 0 {
      assert Record(ips[|ips| - 1]);
      ResidualIsLastLine(ips);
    }
  }

  /** A full read whose non-empty lines are `done` and then `last`: the
      batch is `done` and `last` is carried. */
  lemma FullReadSplit(carry: Bytes, chunk: Bytes, bufLen: nat, done: Batch, last: Bytes)
    requires |chunk| == bufLen && Scanned(carry + chunk) == done + [last]
    ensures Process(carry, chunk, bufLen) == Step(done, last)
  {
    FullReadHoldsLastLine(carry, chunk, bufLen);
    assert (done + [last])[..|done|] == done;
  }

  /** A short read passes on all its non-empty lines and carries nothing. */
  lemma ShortRead(carry: Bytes, chunk: Bytes, bufLen: nat)
    requires |chunk| != bufLen
    ensures Process(carry, chunk, bufLen) == Step(Scanned(carry + chunk), [])
  {
  }

  /** One turn of the loop on a read that delivers bytes. */
  lemma ReadLoopStep(stream: seq<ReadResult>, bufLen: nat, carry: Bytes)
    requires |stream| > 0 && Delivers(stream[0])
    ensures var s := Process(carry, stream[0].data, bufLen);
      var rest := ReadLoop(stream[1..], bufLen, s.carry);
      ReadLoop(stream, bufLen, carry) == (rest.0, [s.batch] + rest.1)
  {
  }

  /** The loop ends without error at a read of no bytes and `io.EOF`,
      dropping whatever is carried. */
  lemma ReadLoopStop(stream: seq<ReadResult>, bufLen: nat, carry: Bytes)
    requires |stream| > 0 && stream[0] == ReadResult([], AtEof)
    ensures ReadLoop(stream, bufLen, carry) == (None, [])
  {
  }

  // ---- Nothing is lost on well-chunked streams ----------------------------

  /** The last byte of `c` is inside a line: neither '\n' nor '\r'. */
  predicate OpenEnd(c: Bytes)
  {
    |c| > 0 && c[|c| - 1] != NL && c[|c| - 1] != CR
  }

  /** Streams on which the full-read hold-back is harmless: every full read
      stops inside a line and is followed by more data, and every short read
      that is followed by more data ends with '\n'; the stream ends without
      a read error. */
  predicate Clean(stream: seq<ReadResult>, bufLen: nat)
    decreases |stream|
  {
    if |stream| == 0 then true
    else if !Delivers(stream[0]) then stream[0].status != Failed
    else
      var c := stream[0].data;
      var more := |stream| > 1 && Delivers(stream[1]);
      |c| <= bufLen && Clean(stream[1..], bufLen) &&
      (if |c| == bufLen then more && OpenEnd(c) else !more || c[|c| - 1] == NL)
  }

  lemma SnocCancel(a: seq<Bytes>, b: seq<Bytes>, x: Bytes)
    requires a + [x] == b + [x]
    ensures a == b
  {
    assert a == (a + [x])[..|a|];
    assert b == (b + [x])[..|b|];
  }

  /** Scanning data that ends inside a line: the non-empty complete lines,
      then the open fragment, which whatever follows continues. */
  lemma ScannedOpenEnd(data: Bytes, rest: Bytes) returns (done: Batch, frag: Bytes)
    requires OpenEnd(data)
    ensures Scanned(data) == done + [frag]
    ensures Record(frag)
    ensures Scanned(data + rest) == done + Scanned(frag + rest)
  {
    var init;
    init, frag := ScanLinesOpenEnd(data, rest);
    done := NonEmpty(init);
    NonEmptyAppend(init, [frag]);
    NonEmptyAppend(init, ScanLines(frag + rest));
    assert NonEmpty([frag]) == [frag];
  }

  /** Scanning data that ends at a line end: what follows scans on its own. */
  lemma ScannedAppend(data: Bytes, rest: Bytes)
    requires |data| == 0 || data[|data| - 1] == NL
    ensures Scanned(data + rest) == Scanned(data) + Scanned(rest)
  {
    ScanLinesAppend(data, rest);
    NonEmptyAppend(ScanLines(data), ScanLines(rest));
  }

  /** A full read that stops inside a line: its batch holds the complete
      lines and its carry the open fragment, which what follows continues. */
  lemma FullStep(carry: Bytes, chunk: Bytes, rest: Bytes, bufLen: nat)
    requires |chunk| == bufLen && OpenEnd(chunk) && NL !in carry
    ensures var s := Process(carry, chunk, bufLen);
      Record(s.carry) && Scanned(carry + (chunk + rest)) == s.batch + Scanned(s.carry + rest)
  {
    var data := carry + chunk;
    LastOfAppend(carry, chunk);
    assert data + rest == carry + (chunk + rest);
    var done, frag := ScannedOpenEnd(data, rest);
    FullReadHoldsLastLine(carry, chunk, bufLen);
    var s := Process(carry, chunk, bufLen);
    assert s.carry == frag;
    SnocCancel(s.batch, done, frag);
  }

  /** A short read passes every line on and leaves nothing behind; when it
      ends with '\n' (or nothing follows) the lines after it scan apart. */
  lemma ShortStep(carry: Bytes, chunk: Bytes, rest: Bytes, bufLen: nat)
    requires |chunk| > 0 && |chunk| != bufLen
    requires rest == [] || chunk[|chunk| - 1] == NL
    ensures var s := Process(carry, chunk, bufLen);
      s.carry == [] && Scanned(carry + (chunk + rest)) == s.batch + Scanned(rest)
  {
    var data := carry + chunk;
    assert data + rest == carry + (chunk + rest);
    LastOfAppend(carry, chunk);
    if rest == [] {
      assert data + rest == data;
    } else {
      ScannedAppend(data, rest);
    }
  }

  lemma FlattenCons(batch: Batch, batches: seq<Batch>)
    ensures Flatten([batch] + batches) == batch + Flatten(batches)
  {
    assert ([batch] + batches)[1..] == batches;
  }

  /** One iteration on a clean stream: the lines received so far are the
      batch, then the lines of the carry and everything after. */
  lemma CleanStep(stream: seq<ReadResult>, bufLen: nat, carry: Bytes)
    requires Clean(stream, bufLen) && NL !in carry
    requires |stream| > 0 && Delivers(stream[0])
    ensures var s := Process(carry, stream[0].data, bufLen);
      Clean(stream[1..], bufLen) && NL !in s.carry &&
      (|s.carry| > 0 ==> |stream| > 1 && Delivers(stream[1])) &&
      Scanned(carry + Received(stream)) == s.batch + Scanned(s.carry + Received(stream[1..]))
  {
    var c := stream[0].data;
    var more := stream[1..];
    var s := Process(carry, c, bufLen);
    if |c| == bufLen {
      FullStep(carry, c, Received(more), bufLen);
    } else {
      if |more| == 0 || !Delivers(more[0]) {
        assert Received(more) == [];
      }
      ShortStep(carry, c, Received(more), bufLen);
      assert s.carry + Received(more) == Received(more);
    }
  }

  /** On a clean stream the loop returns no error and passes on exactly the
      non-empty lines of `carry` followed by everything received. */
  lemma {:induction false} ReadLoopIntegrity(stream: seq<ReadResult>, bufLen: nat, carry: Bytes)
    requires Clean(stream, bufLen)
    requires NL !in carry
    requires |carry| > 0 ==> |stream| > 0 && Delivers(stream[0])
    ensures ReadLoop(stream, bufLen, carry).0 == None
    ensures Flatten(ReadLoop(stream, bufLen, carry).1) == Scanned(carry + Received(stream))
    decreases |stream|
  {
    if |stream| == 0 || !Delivers(stream[0]) {
      assert carry + Received(stream) == [];
    } else {
      var s := Process(carry, stream[0].data, bufLen);
      var loop := ReadLoop(stream[1..], bufLen, s.carry);
      assert ReadLoop(stream, bufLen, carry) == (loop.0, [s.batch] + loop.1);
      CleanStep(stream, bufLen, carry);
      ReadLoopIntegrity(stream[1..], bufLen, s.carry);
      FlattenCons(s.batch, loop.1);
    }
  }

  /** `ReadFile` on a clean stream: no error, one `Close`, and the batches
      hold exactly the non-empty lines of everything read. */
  lemma ReadFileIntegrity(stream: seq<ReadResult>, bufLen: nat)
    requires bufLen >= MinBuffer && Clean(stream, bufLen)
    ensures ReadFile(stream, bufLen).err == None
    ensures ReadFile(stream, bufLen).closeCalls == 1
    ensures Flatten(ReadFile(stream, bufLen).batches) == Scanned(Received(stream))
  {
    ReadLoopIntegrity(stream, bufLen, []);
    assert [] + Received(stream) == Received(stream);
  }

  /** On clean streams the lines passed on do not depend on how the data
      was cut into stream, nor on the buffer size. */
  lemma ChunkingInvariance(stream1: seq<ReadResult>, buf1: nat, stream2: seq<ReadResult>, buf2: nat)
    requires buf1 >= MinBuffer && Clean(stream1, buf1)
    requires buf2 >= MinBuffer && Clean(stream2, buf2)
    requires Received(stream1) == Received(stream2)
    ensures Flatten(ReadFile(stream1, buf1).batches) == Flatten(ReadFile(stream2, buf2).batches)
  {
    ReadFileIntegrity(stream1, buf1);
    ReadFileIntegrity(stream2, buf2);
  }
}
