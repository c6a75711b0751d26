/** Bytes, lines, and the line splitting `bufio.ScanLines` performs for
    ipreader/ipreader.go: a line ends at '\n', one trailing '\r' is removed
    from it, and a last fragment without '\n' is still a line. */
module Lines {

  newtype byte = b: int | 0 <= b < 256

  type Bytes = seq<byte>

  /** '\n' */
  const NL: byte := 10

  /** '\r' */
  const CR: byte := 13

  /** `bytes.IndexByte`: the first position of `c` in `s`, or -1. */
  function IndexByte(s: Bytes, c: byte): (i: int)
    ensures -1 <= i < |s|
    ensures i >= 0 ==> s[i] == c && c !in s[..i]
    ensures i < 0 ==> c !in s
    decreases |s|
  {
    if |s| == 0 then -1
    else if s[0] == c then 0
    else
      var j := IndexByte(s[1..], c);
      assert s == [s[0]] + s[1..];
      if j < 0 then -1
      else
        assert s[..j + 1] == [s[0]] + s[1..][..j];
        j + 1
  }

  /** `dropCR`: remove one trailing '\r'. */
  function DropCR(line: Bytes): (r: Bytes)
    ensures r == line || (line == r + [CR])
    ensures |line| > 0 && line[|line| - 1] == CR ==> |r| == |line| - 1
    ensures |line| == 0 || line[|line| - 1] != CR ==> r == line
  {
    if |line| > 0 && line[|line| - 1] == CR then line[..|line| - 1] else line
  }

  /** The tokens `bufio.Scanner` produces with `bufio.ScanLines` when it
      reads all of `data`: every line, without its '\n' and one trailing
      '\r'; a final fragment without '\n' is a line as well. */
  function ScanLines(data: Bytes): (lines: seq<Bytes>)
    ensures forall i :: 0 <= i < |lines| ==> NL !in lines[i]
    ensures |data| == 0 <==> |lines| == 0
    decreases |data|
  {
    if |data| == 0 then []
    else
      var i := IndexByte(data, NL);
      if i >= 0 then [DropCR(data[..i])] + ScanLines(data[i + 1..])
      else [DropCR(data)]
  }

  /** The inverse direction: every line followed by '\n'. */
  function Unlines(lines: seq<Bytes>): (data: Bytes)
    ensures |lines| > 0 ==> |data| > 0 && data[|data| - 1] == NL
    decreases |lines|
  {
    if |lines| == 0 then [] else lines[0] + [NL] + Unlines(lines[1..])
  }

  /** `data` with a '\n' added unless it is empty or already ends with one. */
  function Terminated(data: Bytes): Bytes
  {
    if |data| == 0 || data[|data| - 1] == NL then data else data + [NL]
  }

  /** The lines that are not empty, in order (the `if ip == ""` filter). */
  function NonEmpty(lines: seq<Bytes>): (r: seq<Bytes>)
    ensures forall i :: 0 <= i < |r| ==> |r[i]| > 0
    ensures forall l :: l in r <==> l in lines && |l| > 0
    ensures |r| <= |lines|
    decreases |lines|
  {
    if |lines| == 0 then []
    else if |lines[0]| == 0 then NonEmpty(lines[1..])
    else
      assert forall l :: l in lines <==> l == lines[0] || l in lines[1..];
      [lines[0]] + NonEmpty(lines[1..])
  }

  /** All batches one after the other. */
  function Flatten<T>(batches: seq<seq<T>>): (r: seq<T>)
    decreases |batches|
  {
    if |batches| == 0 then [] else batches[0] + Flatten(batches[1..])
  }

  // ---- Properties of NonEmpty and Flatten --------------------------------

  /** Filtering distributes over concatenation. */
  lemma {:induction false} NonEmptyAppend(a: seq<Bytes>, b: seq<Bytes>)
    ensures NonEmpty(a + b) == NonEmpty(a) + NonEmpty(b)
    decreases |a|
  {
    if |a| == 0 {
      assert a + b == b;
    } else {
      assert (a + b)[1..] == a[1..] + b;
      NonEmptyAppend(a[1..], b);
    }
  }

  /** Lines that are all non-empty pass the filter unchanged. */
  lemma {:induction false} NonEmptyKeeps(lines: seq<Bytes>)
    requires forall i :: 0 <= i < |lines| ==> |lines[i]| > 0
    ensures NonEmpty(lines) == lines
    decreases |lines|
  {
    if |lines| > 0 {
      NonEmptyKeeps(lines[1..]);
    }
  }

  // ---- Properties of ScanLines --------------------------------------------

  /** A line without '\n' followed by '\n' is the first token. */
  lemma ScanLinesCons(line: Bytes, rest: Bytes)
    requires NL !in line
    ensures ScanLines(line + [NL] + rest) == [DropCR(line)] + ScanLines(rest)
  {
    var data := line + [NL] + rest;
    var i := IndexByte(data, NL);
    assert data[|line|] == NL;
    assert data[..|line|] == line;
    assert i == |line|;
    assert data[i + 1..] == rest;
  }

  /** Data cut at its first '\n', found at `i`. */
  lemma SplitAt(data: Bytes, i: int) returns (line: Bytes, tail: Bytes)
    requires i == IndexByte(data, NL) && i >= 0
    ensures data == line + [NL] + tail && NL !in line
    ensures |tail| < |data|
  {
    line, tail := data[..i], data[i + 1..];
    assert data == line + [NL] + tail;
  }

  lemma LastOfAppend(a: Bytes, b: Bytes)
    requires |b| > 0
    ensures (a + b)[|a + b| - 1] == b[|b| - 1]
  {
  }

  lemma ConsAssoc<T>(d: T, x: seq<T>, y: seq<T>)
    ensures [d] + (x + y) == ([d] + x) + y
  {
  }

  /** A non-empty fragment without '\n' is one token. */
  lemma ScanLinesLast(frag: Bytes)
    requires |frag| > 0 && NL !in frag
    ensures ScanLines(frag) == [DropCR(frag)]
  {
  }

  /** Data that ends at a line end splits independently of what follows. */
  lemma {:induction false} ScanLinesAppend(data: Bytes, rest: Bytes)
    requires |data| == 0 || data[|data| - 1] == NL
    ensures ScanLines(data + rest) == ScanLines(data) + ScanLines(rest)
    decreases |data|
  {
    if |data| == 0 {
      assert data + rest == rest;
    } else {
      var line, tail := SplitAt(data, IndexByte(data, NL));
      if |tail| > 0 {
        LastOfAppend(line + [NL], tail);
      }
      assert data + rest == line + [NL] + (tail + rest);
      ScanLinesCons(line, tail + rest);
      ScanLinesAppend(tail, rest);
      ScanLinesCons(line, tail);
      ConsAssoc(DropCR(line), ScanLines(tail), ScanLines(rest));
    }
  }

  /** Data whose last byte is neither '\n' nor '\r' splits into complete
      lines `init` and a non-empty unterminated fragment `frag`, and whatever
      follows continues that fragment. */
  lemma {:induction false} ScanLinesOpenEnd(data: Bytes, rest: Bytes) returns (init: seq<Bytes>, frag: Bytes)
    requires |data| > 0 && data[|data| - 1] != NL && data[|data| - 1] != CR
    ensures ScanLines(data) == init + [frag]
    ensures |frag| > 0 && NL !in frag
    ensures ScanLines(data + rest) == init + ScanLines(frag + rest)
    decreases |data|
  {
    var i := IndexByte(data, NL);
    if i < 0 {
      init, frag := [], data;
      ScanLinesLast(data);
    } else {
      var line, tail := SplitAt(data, i);
      LastOfAppend(line + [NL], tail);
      assert data + rest == line + [NL] + (tail + rest);
      ScanLinesCons(line, tail);
      ScanLinesCons(line, tail + rest);
      var init';
      init', frag := ScanLinesOpenEnd(tail, rest);
      init := [DropCR(line)] + init';
      ConsAssoc(DropCR(line), init', [frag]);
      ConsAssoc(DropCR(line), init', ScanLines(frag + rest));
    }
  }

  /** A line that splitting returns unchanged: no '\n' and no trailing '\r'. */
  predicate Plain(line: Bytes)
  {
    NL !in line && (|line| == 0 || line[|line| - 1] != CR)
  }

  lemma UnlinesCons(line: Bytes, lines: seq<Bytes>)
    ensures Unlines([line] + lines) == line + [NL] + Unlines(lines)
  {
    assert ([line] + lines)[1..] == lines;
  }

  /** Splitting undoes joining: plain lines come back unchanged. */
  lemma {:induction false} ScanUnlines(lines: seq<Bytes>)
    requires forall i :: 0 <= i < |lines| ==> Plain(lines[i])
    ensures ScanLines(Unlines(lines)) == lines
    decreases |lines|
  {
    if |lines| > 0 {
      var line, more := lines[0], lines[1..];
      assert lines == [line] + more;
      assert Plain(line);
      UnlinesCons(line, more);
      ScanLinesCons(line, Unlines(more));
      ScanUnlines(more);
    }
  }

  lemma TerminatedCons(line: Bytes, tail: Bytes)
    ensures Terminated(line + [NL] + tail) == line + [NL] + Terminated(tail)
  {
    if |tail| > 0 {
      LastOfAppend(line + [NL], tail);
    }
  }

  lemma NotInParts(line: Bytes, tail: Bytes, c: byte)
    requires c !in line + [NL] + tail
    ensures c !in line && c !in tail
  {
  }

  /** Joining undoes splitting for data without '\r', up to the final
      '\n' that a last unterminated line gains. */
  lemma {:induction false} UnlinesScan(data: Bytes)
    requires CR !in data
    ensures Unlines(ScanLines(data)) == Terminated(data)
    decreases |data|
  {
    if |data| > 0 {
      var i := IndexByte(data, NL);
      if i < 0 {
        ScanLinesLast(data);
        UnlinesCons(data, []);
      } else {
        var line, tail := SplitAt(data, i);
        NotInParts(line, tail, CR);
        ScanLinesCons(line, tail);
        UnlinesScan(tail);
        UnlinesCons(line, ScanLines(tail));
        TerminatedCons(line, tail);
      }
    }
  }
}
