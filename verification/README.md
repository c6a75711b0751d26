# Distinct IPv4 counter: presence bitset and chunked line reader

The system counts the distinct IPv4 addresses in a very large
newline-separated file. Two sequential cores do the work, and this project
models both of them in Dafny.

- **The presence counter** (`ipcounter/ipcounter.go`). It keeps a table of
  134,217,728 `uint32` words, which is one bit for each of the 2^32 keys. It
  also keeps a `uint32` field `Counter`.
  - Key `k` lives at word `k / 32`, bit `k % 32`.
  - Processing a key is a test-and-set. `Counter` goes up only when the bit
    changes from 0 to 1.
  - `Count` consumes the slices sent on a channel by `AddIpSlice`. `Close`
    closes that channel, once.
  - Module `Counter` models the state as an immutable datatype. The channel
    becomes a queue of pending slices, and the per-key step is a pure
    function.
  - `Count` is a method with nested loops. It is proved equal to a fold of
    the step.
  - The headline invariant is `Tracks`: the table holds exactly the keys
    seen, and the counter is their number modulo 2^32.
- **The reader** (`ipreader/ipreader.go`). `ReadFile` reads an `io.Reader`
  into a caller's buffer and splits carry ++ chunk into lines with
  `bufio.ScanLines`. It drops empty lines and hands each read's lines to the
  counter as one batch. A read that fills the whole buffer holds its last
  line back as the carry for the next read.
  - Module `Lines` models `bufio.ScanLines`: split at '\n', remove one
    trailing '\r', and treat an unterminated last fragment as a line. It
    proves round trips with joining.
  - Module `Reader` models `ReadFile` as a fold over a sequence of read
    results. Each read result carries the bytes delivered and one of three
    statuses: no error, `io.EOF`, or another error. The model returns the
    error, the batches passed to `AddIpSlice`, and the number of `Close`
    calls.
- **The proofs.**
  - Module `ReaderFixed` is a corrected loop, described under Findings below.
  - `ReaderScenarios` and `CounterScenarios` state the cases of the
    repository's tests as lemmas about the model. `ReaderScenarios` also
    states three streams on which the original loop merges, loses or splits
    a line.
  - `ReadFileIntegrity` proves that no line is lost, merged or split on a
    stream that `Reader.Clean` accepts. On such a stream every full read
    stops inside a line, not at '\r', and is followed by more data; every
    short read that is followed by more data ends at '\n'; and no read
    fails. The small-buffer test reads such a stream.
  - `ReadFileFixedIntegrity` proves the same for the corrected loop on every
    stream without a read failure, however the data is cut into reads.
  - `Counter.AllKeysWrap` proves that the `uint32` counter reads 0 once all
    2^32 keys have been seen.

`ReadFile` never passes on a carry still held when the reads end
(ipreader/ipreader.go:33-34); the Findings section records this.

## Model

| member | source | states |
|---|---|---|
| Counter.WordIndex | ipcounter/ipcounter.go:35 | the word `k / 32` of every `uint32` key is below 134,217,728, and the key lies in that word's range of 32 keys |
| Counter.BitIndex | ipcounter/ipcounter.go:36 | the bit `k % 32` is below 32, and together with the word it gives back the key |
| Counter.KeyPosition | ipcounter/ipcounter.go:35-36 | two keys share word and bit exactly when they are the same key |
| Counter.NewIpCounter | ipcounter/ipcounter.go:20-28 | a new counter has no key set, counter 0, an empty channel, and is open |
| Counter.SetBit | ipcounter/ipcounter.go:37-40 | setting the bit of `ip` in its word sets that bit; every other key's bit and every other word stay as they were |
| Counter.CountKey | ipcounter/ipcounter.go:35-42 | the step sets the key's bit and leaves all other bits unchanged; if the bit was clear the counter is incremented with `uint32` wrap, and if it was set the state is unchanged |
| Counter.CountKeyKeys | ipcounter/ipcounter.go:38-41 | after one step, the set of keys is the previous set plus the key |
| Counter.CountKeyCounter | ipcounter/ipcounter.go:38-42 | the counter moves exactly when the key was absent before |
| Counter.CountKeyTracks | ipcounter/ipcounter.go:38-42 | one step keeps the invariant "table = keys seen, counter = their number mod 2^32" with the key added |
| Counter.CountBatch | ipcounter/ipcounter.go:33-44 | folding one slice adds exactly the slice's keys to the table |
| Counter.CountAll | ipcounter/ipcounter.go:32-45 | folding the slices adds exactly all their keys to the table |
| Counter.CountBatchTracks | ipcounter/ipcounter.go:33-44 | folding a slice keeps the invariant, with the slice's keys added to those seen |
| Counter.CountAllTracks | ipcounter/ipcounter.go:32-45 | folding the slices keeps the invariant, with all their keys added |
| Counter.Count | ipcounter/ipcounter.go:30-46 | the nested loops drain the channel and end in exactly the state of the fold of the step over all queued slices, so they keep the invariant for every key queued |
| Counter.TableExt | ipcounter/ipcounter.go:26 | a table is determined by its set of keys |
| Counter.TracksDetermines | ipcounter/ipcounter.go:32-45 | two states that satisfy the invariant for the same keys have the same table and counter |
| Counter.OrderIndependent | ipcounter/ipcounter.go:32-33 | the final state depends only on the set of keys, not on their order or how they are cut into slices |
| Counter.NeverClears | ipcounter/ipcounter.go:38-40 | bits are never cleared, however many keys have been seen, and every folded key's bit is set afterwards |
| Counter.Monotone | ipcounter/ipcounter.go:38-41 | while fewer than 2^32 distinct keys have been seen, bits are never cleared and the counter never decreases |
| Counter.ExactCount | ipcounter/ipcounter.go:13 | below 2^32 distinct keys the `uint32` counter equals their number exactly |
| Counter.AllKeysWrap | ipcounter/ipcounter.go:41 | once every one of the 2^32 keys has been seen, the counter has wrapped around to 0 |
| Counter.AddIpSlice | ipcounter/ipcounter.go:57-59 | sending a slice appends it to the channel's queue and changes nothing else |
| Counter.Close | ipcounter/ipcounter.go:49-55 | the counter is closed afterwards, a second call changes nothing, and nothing but the flag changes |
| Counter.CloseIdempotent | ipcounter/ipcounter.go:49-55 | closing twice is closing once |
| CounterScenarios.CountOneSlice | ipcounter/ipcounter_test.go:39-50 | new counter, one slice, `Close`, `Count`: the counter is the number of distinct keys of the slice |
| CounterScenarios.ThreeDistinct | ipcounter/ipcounter_test.go:35-56 | 127.0.0.1, 127.0.0.2, 127.0.0.3 count 3 |
| CounterScenarios.ThreeOfFour | ipcounter/ipcounter_test.go:58-80 | the same three keys with one repeated still count 3 |
| Lines.DropCR | ipreader/ipreader.go:39 | one trailing '\r' is removed, and nothing else changes |
| Lines.ScanLines | ipreader/ipreader.go:38-43 | no token contains '\n', and the data is empty exactly when there are no tokens |
| Lines.NonEmpty | ipreader/ipreader.go:44-47 | every kept line is non-empty, and a line is kept exactly when it occurs in the input and is non-empty |
| Lines.ScanLinesCons | ipreader/ipreader.go:42-43 | a line followed by '\n' is the first token, and the rest scans on its own |
| Lines.ScanLinesAppend | ipreader/ipreader.go:37-43 | data that ends at a line end scans independently of what follows it |
| Lines.ScanLinesOpenEnd | ipreader/ipreader.go:37-43 | data that ends inside a line scans to complete lines plus an open fragment, which whatever follows continues |
| Lines.ScanUnlines | ipreader/ipreader.go:38-43 | scanning lines joined with '\n' gives them back |
| Lines.UnlinesScan | ipreader/ipreader.go:38-43 | joining the scanned lines of data without '\r' gives back the data with a final '\n' |
| Lines.NonEmptyAppend | ipreader/ipreader.go:44-47 | dropping empty lines distributes over concatenation |
| Reader.Scanned | ipreader/ipreader.go:37-48 | the lines of one scan are all non-empty and free of '\n' |
| Reader.KeepResidual | ipreader/ipreader.go:68-76 | a non-empty result is the last line |
| Reader.ResidualIsLastLine | ipreader/ipreader.go:68-76 | on scanner lines the '\n' test at line 71 never fires: the result is the last line whenever that line is non-empty |
| Reader.Process | ipreader/ipreader.go:37-63 | the batch followed by the carry is exactly the scanned lines of carry ++ chunk; a short read carries nothing |
| Reader.FullReadHoldsLastLine | ipreader/ipreader.go:56-61 | a full read always holds back its last non-empty line, even when the read ended at a '\n' |
| Reader.FullReadSplit | ipreader/ipreader.go:56-61 | a full read whose lines are `done` then `last` passes on `done` and carries `last` |
| Reader.ShortRead | ipreader/ipreader.go:55-63 | a short read passes on every non-empty line and carries nothing |
| Reader.Served | ipreader/ipreader.go:27-35 | the loop processes exactly the leading reads that deliver bytes without error, and stops at the first that does not |
| Reader.Received | ipreader/ipreader.go:26-36 | the bytes the loop works on are exactly the data of the reads it processes, one after the other |
| Reader.ReadLoop | ipreader/ipreader.go:26-64 | one batch per processed read, all lines non-empty, and the error of the read that stopped the loop if it failed |
| Reader.ReadLoopStop | ipreader/ipreader.go:33-34 | a read of no bytes with `io.EOF` ends the loop without error and drops the carry |
| Reader.ReadFile | ipreader/ipreader.go:17-66 | a buffer under 17 bytes is an error with no batch and no `Close`; otherwise `Close` is called once, there is one batch per processed read, and the error is returned exactly when a read failed |
| Reader.CleanStep | ipreader/ipreader.go:37-63 | on a clean stream one iteration passes on the lines received so far and carries an open fragment only when more data follows |
| Reader.ReadLoopIntegrity | ipreader/ipreader.go:26-64 | on a clean stream the loop passes on exactly the non-empty lines of the carry and everything received |
| Reader.ReadFileIntegrity | ipreader/ipreader.go:17-66 | on a clean stream `ReadFile` returns no error, closes once, and passes on every non-empty line once, in order |
| Reader.ChunkingInvariance | ipreader/ipreader.go:26-64 | on clean streams the lines passed on do not depend on the buffer size or on where the reads cut the data |
| ReaderFixed.CutAtLastNL | ipreader/ipreader.go:55-61 | the data splits into a part that ends at a '\n' (or is empty) and a fragment without '\n' |
| ReaderFixed.FixedLoop | ipreader/ipreader.go:26-64 | the corrected loop stops with the same error and emits only non-empty lines, with at most one extra flush batch |
| ReaderFixed.ReadFileFixed | ipreader/ipreader.go:17-66 | the corrected `ReadFile` has the same buffer guard, `Close` behaviour and errors |
| ReaderFixed.FixedLoopIntegrity | ipreader/ipreader.go:26-64 | the corrected loop passes on exactly the non-empty lines of carry ++ everything received, unless a read fails |
| ReaderFixed.ReadFileFixedIntegrity | ipreader/ipreader.go:17-66 | the corrected `ReadFile` passes on every non-empty line once, in order, for any buffer and any chunking |
| ReaderFixed.FixAgreesOnClean | ipreader/ipreader.go:26-64 | on clean streams the corrected and the original loop pass on the same lines |
| ReaderScenarios.SmallBufferFirst | ipreader/ipreader_test.go:21-36 | the first 20-byte read passes on "145.67.23.4" and carries "8.34.5.2" |
| ReaderScenarios.SmallBufferSecond | ipreader/ipreader_test.go:21-36 | the second read completes "8.34.5.23", passes on two lines and carries "89.54." |
| ReaderScenarios.SmallBufferThird | ipreader/ipreader_test.go:21-36 | the last, short read passes on the last two lines and carries nothing |
| ReaderScenarios.FiveLinesSmallBuffer | ipreader/ipreader_test.go:21-53 | with a 20-byte buffer the batches are the five lines, in order, with no error and one `Close` |
| ReaderScenarios.FiveLinesOneRead | ipreader/ipreader_test.go:55-83 | with a 1024-byte buffer there is one batch of the five lines |
| ReaderScenarios.NoTrailingNewline | ipreader/ipreader_test.go:85-111 | without the final '\n' the last line is still passed on |
| ReaderScenarios.EmptyFile | ipreader/ipreader_test.go:113-129 | an empty file gives no batch, no error and one `Close` |
| ReaderScenarios.NewlineOnly | ipreader/ipreader_test.go:131-148 | a file of one '\n' gives one empty batch |
| ReaderScenarios.MergesLinesAtFullRead | ipreader/ipreader.go:56-61 | a full read ending at '\n' glues "2.2.2.2" to the next line: the batches differ from the lines received |
| ReaderScenarios.LosesLineAtFullLastRead | ipreader/ipreader.go:33-34 | the line held back by a final full read is never passed on |
| ReaderScenarios.SplitsRecord | ipreader/ipreader.go:55-63 | "10.1.1.1\n" in two short reads cut inside the line goes out as "10.1." and "1.1" |
| ReaderScenarios.FixedKeepsEveryLine | ipreader/ipreader.go:55-61 | the corrected loop passes on every line of the three streams |

## Left out

- Goroutines, the `ipSlices` channel, `sync.Mutex` and `sync.WaitGroup`. The per-key step is modelled as atomic, and the channel as an ordered queue that `Count` drains after the slices were sent. With one consumer this gives the same final state.
- Counter.AddIpSlice: requires an open counter, because sending on a closed channel panics in Go.
- The `fmt.Printf` logging, and the wrapping of errors into messages. The model returns the kind of error only.
- The scanner error path (ipreader/ipreader.go:50-53). It fires only for a token over the scanner's 64 KiB limit, and the model has no such limit.
- `io.Reader` and `bufio.Scanner` are library code. A `Read` call is modelled by its result (bytes and status), and the scanner by the `Lines.ScanLines` function.
- `main.go` and `main_test.go`: opening files, printing, benchmarks and random file generation. How they wire the two cores together is the subject of the composition line below.
- `Ipv4ToInt` and `createIPInts` (ipcounter/ipcounter_test.go:13-30) wrap `net.ParseIP`. The scenarios use the resulting `uint32` keys directly.
- The composition of reader and counter. The reader's `Counter` interface takes `[]string` (ipreader/ipreader.go:10-13) and the counter's `AddIpSlice` takes `[]uint32` (ipcounter/ipcounter.go:57). Only test code (`createIPInts`, ipcounter/ipcounter_test.go:20-30) converts address strings to keys. main.go:26 and main_test.go:34 pass the counter to `ReadFile` unconverted, which does not type-check in Go, so there is no composition to model.
- The benchmarks of both test files.
- Reader.ReadFileIntegrity: holds only on streams that `Reader.Clean` accepts. A full read that ends in '\r' is excluded because the scanner removes that '\r' before the line is completed. This loses a byte only when the next read does not start with '\n'; a '\r\n' line end cut between the two bytes still gives the line intact. Full reads at a line end, a final full read and short reads cut inside a line are excluded because the code mishandles them (see Findings).

## Findings

| source | as written | input that shows it | evidently intended | confidence | as-written member | corrected member |
|---|---|---|---|---|---|---|
| ipreader/ipreader.go:56-61 | a full read holds back its last line even when the read ended with '\n', so the complete line is glued to the first line of the next read | a 17-byte buffer and reads "10.1.1.1\n2.2.2.2\n", then "3.3.3.3\n": the batches are ["10.1.1.1"] and ["2.2.2.23.3.3.3"] | carry only the bytes after the last '\n' of the read | not executed | ReaderScenarios.MergesLinesAtFullRead | ReaderFixed.ReadFileFixedIntegrity |
| ipreader/ipreader.go:33-34 | when the last read that delivers bytes fills the buffer, the loop breaks at the next (empty) read and the held-back line is never passed on | a 17-byte buffer and one read "10.1.1.1\n2.2.2.2\n", then EOF: the only batch is ["10.1.1.1"] | pass the carry on when the reads end | not executed | ReaderScenarios.LosesLineAtFullLastRead | ReaderScenarios.FixedKeepsEveryLine |
| ipreader/ipreader.go:55-63 | a short read that is followed by more data is scanned on its own, so an unterminated fragment at its end goes out as a line and the rest of that line goes out as another | a 17-byte buffer and reads "10.1.", then "1.1\n", then EOF: the batches are ["10.1."] and ["1.1"] | carry the bytes after the last '\n' of every read, short or full | not executed | ReaderScenarios.SplitsRecord | ReaderFixed.ReadFileFixedIntegrity |
