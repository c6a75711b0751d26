/** The two cases of ipcounter/ipcounter_test.go as lemmas about the model:
    a fresh counter, one slice, `Close`, then `Count` until the channel is
    drained. */
module CounterScenarios {
  import opened Counter

  /** 127.0.0.1, 127.0.0.2 and 127.0.0.3 as big-endian `uint32` keys. */
  const Loopback1: uint32 := 0x7F00_0001
  const Loopback2: uint32 := 0x7F00_0002
  const Loopback3: uint32 := 0x7F00_0003

  /** The keys of a single slice are its elements. */
  lemma KeysOfSingle(b: Batch)
    ensures KeysOf([b]) == Elems(b)
  {
    forall k | k in Elems(b)
      ensures k in KeysOf([b])
    {
      var j :| 0 <= j < |b| && b[j] == k;
      assert [b][0][j] == k;
    }
  }

  /** Feed one slice to a fresh counter, close it, and drain it; the count
      is the number of distinct keys of the slice. */
  method CountOneSlice(ips: Batch) returns (count: uint32)
    ensures count as int == |Elems(ips)| % KeySpace
  {
    var s := NewIpCounter();
    s := AddIpSlice(s, ips);
    s := Close(s);
    s := Count(s, {});
    KeysOfSingle(ips);
    count := s.counter;
  }

  /** Three different keys count 3. */
  method ThreeDistinct() returns (count: uint32)
    ensures count == 3
  {
    count := CountOneSlice([Loopback1, Loopback2, Loopback3]);
    assert Elems([Loopback1, Loopback2, Loopback3]) == {Loopback1, Loopback2, Loopback3};
  }

  /** Three different keys out of four (one repeated) still count 3. */
  method ThreeOfFour() returns (count: uint32)
    ensures count == 3
  {
    count := CountOneSlice([Loopback1, Loopback2, Loopback3, Loopback3]);
    assert Elems([Loopback1, Loopback2, Loopback3, Loopback3]) == {Loopback1, Loopback2, Loopback3};
  }
}
