/** Model of the presence counter of ipcounter/ipcounter.go.

    The Go type `IpCounter` keeps a table of 134,217,728 `uint32` words, one
    bit for every IPv4 key, and a `uint32` field `Counter` that is incremented
    each time a key's bit goes from 0 to 1. The goroutines, the mutex and the
    wait group only make that per-key test-and-set atomic; here the step is a
    pure function on an immutable state, the channel is the queue `pending`
    and `Count` drains that queue in order.
 */
module Counter {

  /** Go's `uint32`: the type of the keys and of the `Counter` field. */
  newtype uint32 = x: int | 0 <= x < 0x1_0000_0000

  /** Number of distinct `uint32` keys (2^32). */
  const KeySpace: nat := 0x1_0000_0000

  /** Bits per table word (`ipSize`). */
  const IpSize: nat := 32

  /** Words in the table: 2^32 / 32. */
  const TableWords: nat := 134_217_728

  /** The presence table: always exactly `TableWords` words. */
  type Table = t: seq<bv32> | |t| == TableWords
    witness seq(TableWords, _ => 0)

  /** One slice handed to `AddIpSlice`. */
  type Batch = seq<uint32>

  /** The Go struct without its mutex: the table, the counter, the batches
      sent on the channel and not yet consumed, and the `closed` flag (which
      is set together with closing the channel). */
  datatype IpCounter = IpCounter(table: Table, counter: uint32, pending: seq<Batch>, closed: bool)

  /** `1 << a` as a `uint32` word, for a 5-bit shift amount. */
  function Bit(a: bv5): bv32
  {
    (1 as bv32) << a
  }

  /** `1 << r` as a `uint32` word (`r` is below 32, so it fits in 5 bits). */
  function Mask(r: nat): bv32
    requires r < IpSize
  {
    Bit(r as bv5)
  }

  /** Word `k / 32` holding key `k`; always inside the table. */
  function WordIndex(k: uint32): (q: nat)
    ensures q < TableWords
    ensures q * 32 <= k as int < q * 32 + 32
  {
    k as int / 32
  }

  /** Bit `k % 32` of key `k` within its word. */
  function BitIndex(k: uint32): (r: nat)
    ensures r < IpSize
    ensures k as int == WordIndex(k) * 32 + r
  {
    k as int % 32
  }

  /** True when the bit of key `k` is set in `t` (`row & (1 << r) != 0`). */
  predicate Has(t: Table, k: uint32)
  {
    t[WordIndex(k)] & Mask(BitIndex(k)) != 0
  }

  /** The set of keys whose bit is set; its size is the popcount of `t`. */
  ghost function Keys(t: Table): set<uint32>
  {
    set k: uint32 | Has(t, k)
  }

  /** Go's `Counter++` on a `uint32`: wraps to 0 after 2^32 - 1. */
  function Inc(c: uint32): uint32
  {
    ((c as int + 1) % KeySpace) as uint32
  }

  /** The headline invariant: the table holds exactly the keys `seen`, and
      the counter is their number (modulo 2^32, because it is a `uint32`). */
  ghost predicate Tracks(s: IpCounter, seen: set<uint32>)
  {
    && Keys(s.table) == seen
    && s.counter as int == |seen| % KeySpace
  }

  /** The keys of one batch. */
  ghost function Elems(b: Batch): set<uint32>
  {
    set k | k in b
  }

  /** All keys of a sequence of batches. */
  ghost function KeysOf(batches: seq<Batch>): set<uint32>
  {
    set i, j | 0 <= i < |batches| && 0 <= j < |batches[i]| :: batches[i][j]
  }

  /** `NewIpCounter`: an all-zero table, counter 0, nothing queued, open. */
  function NewIpCounter(): (s: IpCounter)
    ensures Tracks(s, {})
    ensures s.counter == 0 && s.pending == [] && !s.closed
  {
    var s := IpCounter(seq(TableWords, _ => 0), 0, [], false);
    assert forall k: uint32 :: !Has(s.table, k);
    s
  }

  /** The bit-vector fact behind `SetBitWord`, on 5-bit bit indices. */
  lemma SetBitWord5(w: bv32, a: bv5, b: bv5)
    ensures ((w | Bit(a)) & Bit(b) != 0) == (a == b || w & Bit(b) != 0)
  {
  }

  /** Bit indices below 32 are equal exactly when their 5-bit forms are. */
  lemma Bv5Injective(r: nat, r2: nat)
    requires r < IpSize && r2 < IpSize
    ensures (r == r2) == (r as bv5 == r2 as bv5)
  {
  }

  /** After `w | (1 << r)`, bit `r` is set and every other bit is that of `w`. */
  lemma SetBitWord(w: bv32, r: nat, r2: nat)
    requires r < IpSize && r2 < IpSize
    ensures ((w | Mask(r)) & Mask(r2) != 0) == (r2 == r || w & Mask(r2) != 0)
  {
    Bv5Injective(r, r2);
    SetBitWord5(w, r as bv5, r2 as bv5);
  }

  /** Two keys with the same word and bit are the same key. */
  lemma KeyPosition(k: uint32, k2: uint32)
    ensures WordIndex(k) == WordIndex(k2) && BitIndex(k) == BitIndex(k2) <==> k == k2
  {
  }

  /** Setting the bit of `ip` sets it and leaves the bit of every other key
      as it was. */
  lemma SetBitFrame(t: Table, ip: uint32, k: uint32)
    ensures var q := WordIndex(ip);
            Has(t[q := t[q] | Mask(BitIndex(ip))], k) == (k == ip || Has(t, k))
  {
    var q, r := WordIndex(ip), BitIndex(ip);
    var qk, rk := WordIndex(k), BitIndex(k);
    KeyPosition(k, ip);
    if qk == q {
      SetBitWord(t[q], r, rk);
    }
  }

  /** `row |= 1 << r; ips[q] = row`: set the bit of `ip` and nothing else. */
  function SetBit(t: Table, ip: uint32): (t': Table)
    ensures forall k: uint32 :: Has(t', k) == (k == ip || Has(t, k))
    ensures forall j :: 0 <= j < TableWords && j != WordIndex(ip) ==> t'[j] == t[j]
  {
    var q := WordIndex(ip);
    var r := BitIndex(ip);
    var row := t[q];
    var t' := t[q := row | Mask(r)];
    assert forall k: uint32 :: Has(t', k) == (k == ip || Has(t, k)) by {
      forall k: uint32
        ensures Has(t', k) == (k == ip || Has(t, k))
      {
        SetBitFrame(t, ip, k);
      }
    }
    t'
  }

  /** The per-key body of `Count`, executed under the mutex: if the key's
      bit is clear, set it and increment the counter; otherwise do nothing. */
  function CountKey(s: IpCounter, ip: uint32): (s': IpCounter)
    ensures Has(s'.table, ip)
    ensures forall k: uint32 :: k != ip ==> Has(s'.table, k) == Has(s.table, k)
    ensures !Has(s.table, ip) ==> s'.counter == Inc(s.counter)
    ensures Has(s.table, ip) ==> s' == s
    ensures s'.pending == s.pending && s'.closed == s.closed
  {
    if !Has(s.table, ip) then
      s.(table := SetBit(s.table, ip), counter := Inc(s.counter))
    else
      s
  }

  /** The keys after one step are the keys before plus `ip`. */
  lemma CountKeyKeys(s: IpCounter, ip: uint32)
    ensures Keys(CountKey(s, ip).table) == Keys(s.table) + {ip}
  {
    var t' := CountKey(s, ip).table;
    forall k: uint32
      ensures k in Keys(t') <==> k in Keys(s.table) + {ip}
    {
      assert k in Keys(t') <==> Has(t', k);
      assert k in Keys(s.table) <==> Has(s.table, k);
    }
  }

  /** Setting a clear bit adds exactly one key and one to the counter; a set
      bit changes nothing. */
  lemma CountKeyTracks(s: IpCounter, seen: set<uint32>, ip: uint32)
    requires Tracks(s, seen)
    ensures Tracks(CountKey(s, ip), seen + {ip})
  {
    CountKeyKeys(s, ip);
    CountKeyCounter(s, ip);
    if ip in seen {
      assert seen + {ip} == seen;
    } else {
      assert |seen + {ip}| == |seen| + 1;
      IncCounts(|seen|);
    }
  }

  /** Incrementing a count kept modulo 2^32 counts one more. */
  lemma IncCounts(n: nat)
    ensures Inc((n % KeySpace) as uint32) as int == (n + 1) % KeySpace
  {
    var m := n % 0x1_0000_0000;
    assert n == (n / 0x1_0000_0000) * 0x1_0000_0000 + m;
    if m + 1 == 0x1_0000_0000 {
      assert n + 1 == (n / 0x1_0000_0000 + 1) * 0x1_0000_0000;
    } else {
      assert n + 1 == (n / 0x1_0000_0000) * 0x1_0000_0000 + (m + 1);
    }
  }

  /** The counter moves exactly when the key was absent. */
  lemma CountKeyCounter(s: IpCounter, ip: uint32)
    ensures CountKey(s, ip).counter == if ip in Keys(s.table) then s.counter else Inc(s.counter)
  {
    assert ip in Keys(s.table) <==> Has(s.table, ip);
  }

  /** The inner loop of `Count` over one slice, as a left fold. */
  function CountBatch(s: IpCounter, batch: Batch): (s': IpCounter)
    ensures Keys(s'.table) == Keys(s.table) + Elems(batch)
    ensures s'.pending == s.pending && s'.closed == s.closed
    decreases |batch|
  {
    if |batch| == 0 then s
    else
      var s1 := CountKey(s, batch[0]);
      CountKeyKeys(s, batch[0]);
      assert Elems(batch) == {batch[0]} + Elems(batch[1..]);
      CountBatch(s1, batch[1..])
  }

  /** The outer loop of `Count` over the slices received, as a left fold. */
  function CountAll(s: IpCounter, batches: seq<Batch>): (s': IpCounter)
    ensures Keys(s'.table) == Keys(s.table) + KeysOf(batches)
    ensures s'.pending == s.pending && s'.closed == s.closed
    decreases |batches|
  {
    if |batches| == 0 then
      assert KeysOf(batches) == {};
      s
    else
      var s1 := CountBatch(s, batches[0]);
      assert KeysOf(batches) == Elems(batches[0]) + KeysOf(batches[1..]) by {
        forall k
          ensures k in KeysOf(batches) <==> k in Elems(batches[0]) + KeysOf(batches[1..])
        {
          if k in KeysOf(batches) {
            var i, j :| 0 <= i < |batches| && 0 <= j < |batches[i]| && batches[i][j] == k;
            if i > 0 {
              assert batches[1..][i - 1][j] == k;
            }
          }
          if k in KeysOf(batches[1..]) {
            var i, j :| 0 <= i < |batches[1..]| && 0 <= j < |batches[1..][i]| && batches[1..][i][j] == k;
            assert batches[i + 1][j] == k;
          }
        }
      }
      CountAll(s1, batches[1..])
  }

  /** Folding one slice keeps the invariant: the counter grows by exactly
      the number of keys of the slice not seen before. */
  lemma {:induction false} CountBatchTracks(s: IpCounter, seen: set<uint32>, batch: Batch)
    requires Tracks(s, seen)
    ensures Tracks(CountBatch(s, batch), seen + Elems(batch))
    decreases |batch|
  {
    if |batch| == 0 {
      assert Elems(batch) == {};
    } else {
      CountKeyTracks(s, seen, batch[0]);
      CountBatchTracks(CountKey(s, batch[0]), seen + {batch[0]}, batch[1..]);
      assert Elems(batch) == {batch[0]} + Elems(batch[1..]);
    }
  }

  /** Folding several slices keeps the invariant. */
  lemma {:induction false} CountAllTracks(s: IpCounter, seen: set<uint32>, batches: seq<Batch>)
    requires Tracks(s, seen)
    ensures Tracks(CountAll(s, batches), seen + KeysOf(batches))
    decreases |batches|
  {
    if |batches| == 0 {
    } else {
      var s1 := CountBatch(s, batches[0]);
      CountBatchTracks(s, seen, batches[0]);
      CountAllTracks(s1, seen + Elems(batches[0]), batches[1..]);
      assert Keys(CountAll(s, batches).table) == seen + KeysOf(batches);
    }
  }

  /** `Count`: consume every queued slice, one key at a time, in order. */
  method Count(s: IpCounter, ghost seen: set<uint32>) returns (s': IpCounter)
    requires Tracks(s, seen)
    ensures Tracks(s', seen + KeysOf(s.pending))
    ensures s'.table == CountAll(s, s.pending).table
    ensures s'.pending == [] && s'.closed == s.closed
    ensures s' == CountAll(s, s.pending).(pending := [])
  {
    var cur := s;
    var i := 0;
    while i < |s.pending|
      invariant 0 <= i <= |s.pending|
      invariant cur == CountAll(s, s.pending[..i])
    {
      var batch := s.pending[i];
      ghost var start := cur;
      var j := 0;
      while j < |batch|
        invariant 0 <= j <= |batch|
        invariant cur == CountBatch(start, batch[..j])
      {
        CountBatchPrefix(start, batch, j);
        cur := CountKey(cur, batch[j]);
        j := j + 1;
      }
      assert batch[..j] == batch;
      CountAllPrefix(s, s.pending, i);
      i := i + 1;
    }
    assert s.pending[..i] == s.pending;
    CountAllTracks(s, seen, s.pending);
    s' := cur.(pending := []);
  }

  /** Folding a slice extended by one key ends with that key's step. */
  lemma {:induction false} CountBatchSnoc(s: IpCounter, batch: Batch, k: uint32)
    ensures CountBatch(s, batch + [k]) == CountKey(CountBatch(s, batch), k)
    decreases |batch|
  {
    if |batch| == 0 {
      assert batch + [k] == [k];
    } else {
      assert (batch + [k])[1..] == batch[1..] + [k];
      CountBatchSnoc(CountKey(s, batch[0]), batch[1..], k);
    }
  }

  /** One more key of the slice is one more step. */
  lemma CountBatchPrefix(s: IpCounter, batch: Batch, j: nat)
    requires j < |batch|
    ensures CountBatch(s, batch[..j + 1]) == CountKey(CountBatch(s, batch[..j]), batch[j])
  {
    assert batch[..j + 1] == batch[..j] + [batch[j]];
    CountBatchSnoc(s, batch[..j], batch[j]);
  }

  /** One more slice is one more slice fold. */
  lemma CountAllPrefix(s: IpCounter, batches: seq<Batch>, i: nat)
    requires i < |batches|
    ensures CountAll(s, batches[..i + 1]) == CountBatch(CountAll(s, batches[..i]), batches[i])
  {
    assert batches[..i + 1] == batches[..i] + [batches[i]];
    CountAllSnoc(s, batches[..i], batches[i]);
  }

  /** Folding slices extended by one slice ends with that slice's fold. */
  lemma {:induction false} CountAllSnoc(s: IpCounter, batches: seq<Batch>, b: Batch)
    ensures CountAll(s, batches + [b]) == CountBatch(CountAll(s, batches), b)
    decreases |batches|
  {
    if |batches| == 0 {
      assert batches + [b] == [b];
    } else {
      assert (batches + [b])[1..] == batches[1..] + [b];
      CountAllSnoc(CountBatch(s, batches[0]), batches[1..], b);
    }
  }

  /** Bit `r` of `a` and of `b` agree. */
  predicate SameBit(a: bv32, b: bv32, r: bv5)
  {
    (a & Bit(r) != 0) == (b & Bit(r) != 0)
  }

  /** A word is determined by its 32 bits. */
  lemma WordExt(a: bv32, b: bv32)
    requires forall r: bv5 :: SameBit(a, b, r)
    ensures a == b
  {
    // The bit-vector solver compares the words once it sees each bit.
    assert SameBit(a, b, 0) && SameBit(a, b, 1) && SameBit(a, b, 2) && SameBit(a, b, 3);
    assert SameBit(a, b, 4) && SameBit(a, b, 5) && SameBit(a, b, 6) && SameBit(a, b, 7);
    assert SameBit(a, b, 8) && SameBit(a, b, 9) && SameBit(a, b, 10) && SameBit(a, b, 11);
    assert SameBit(a, b, 12) && SameBit(a, b, 13) && SameBit(a, b, 14) && SameBit(a, b, 15);
    assert SameBit(a, b, 16) && SameBit(a, b, 17) && SameBit(a, b, 18) && SameBit(a, b, 19);
    assert SameBit(a, b, 20) && SameBit(a, b, 21) && SameBit(a, b, 22) && SameBit(a, b, 23);
    assert SameBit(a, b, 24) && SameBit(a, b, 25) && SameBit(a, b, 26) && SameBit(a, b, 27);
    assert SameBit(a, b, 28) && SameBit(a, b, 29) && SameBit(a, b, 30) && SameBit(a, b, 31);
  }

  /** The key stored at bit `r` of word `j`. */
  function KeyAt(j: nat, r: bv5): (k: uint32)
    requires j < TableWords
    ensures WordIndex(k) == j && Mask(BitIndex(k)) == Bit(r)
  {
    var k := (j * 32 + r as int) as uint32;
    assert BitIndex(k) == r as int;
    assert (r as int) as bv5 == r;
    k
  }

  /** A table is determined by the set of keys whose bit is set. */
  lemma TableExt(t1: Table, t2: Table)
    requires Keys(t1) == Keys(t2)
    ensures t1 == t2
  {
    forall j | 0 <= j < TableWords
      ensures t1[j] == t2[j]
    {
      forall r: bv5
        ensures SameBit(t1[j], t2[j], r)
      {
        var k := KeyAt(j, r);
        assert k in Keys(t1) <==> Has(t1, k);
        assert k in Keys(t2) <==> Has(t2, k);
      }
      WordExt(t1[j], t2[j]);
    }
  }

  /** The invariant pins the table and the counter down completely. */
  lemma TracksDetermines(s1: IpCounter, s2: IpCounter, seen: set<uint32>)
    requires Tracks(s1, seen) && Tracks(s2, seen)
    ensures s1.table == s2.table && s1.counter == s2.counter
  {
    TableExt(s1.table, s2.table);
  }

  /** The final state depends only on the set of keys processed: not on
      their order, their repetitions or how they were cut into slices. */
  lemma OrderIndependent(s: IpCounter, seen: set<uint32>, b1: seq<Batch>, b2: seq<Batch>)
    requires Tracks(s, seen)
    requires KeysOf(b1) == KeysOf(b2)
    ensures CountAll(s, b1) == CountAll(s, b2)
  {
    CountAllTracks(s, seen, b1);
    CountAllTracks(s, seen, b2);
    TracksDetermines(CountAll(s, b1), CountAll(s, b2), seen + KeysOf(b1));
  }

  /** Bits are never cleared, however many keys have been seen: the keys
      after the fold are those before plus every key folded. */
  lemma NeverClears(s: IpCounter, batches: seq<Batch>)
    ensures Keys(s.table) <= Keys(CountAll(s, batches).table)
    ensures forall i, j :: 0 <= i < |batches| && 0 <= j < |batches[i]| ==> Has(CountAll(s, batches).table, batches[i][j])
  {
    forall i, j | 0 <= i < |batches| && 0 <= j < |batches[i]|
      ensures Has(CountAll(s, batches).table, batches[i][j])
    {
      assert batches[i][j] in KeysOf(batches);
      assert batches[i][j] in Keys(CountAll(s, batches).table);
    }
  }

  /** Bits are never cleared, and while fewer than 2^32 distinct keys have
      been seen the counter never decreases. */
  lemma Monotone(s: IpCounter, seen: set<uint32>, batches: seq<Batch>)
    requires Tracks(s, seen)
    requires |seen + KeysOf(batches)| < KeySpace
    ensures Keys(s.table) <= Keys(CountAll(s, batches).table)
    ensures s.counter <= CountAll(s, batches).counter
  {
    CountAllTracks(s, seen, batches);
    SubsetCard(seen, seen + KeysOf(batches));
    ExactCount(s, seen);
    ExactCount(CountAll(s, batches), seen + KeysOf(batches));
  }

  /** Below 2^32 distinct keys the counter is exactly their number. */
  lemma ExactCount(s: IpCounter, seen: set<uint32>)
    requires Tracks(s, seen) && |seen| < KeySpace
    ensures s.counter as int == |seen|
  {
    assert |seen| % 0x1_0000_0000 == |seen|;
  }

  /** The keys below `n`: there are exactly `n` of them. */
  ghost function KeysBelow(n: nat): (ks: set<uint32>)
    requires n <= KeySpace
    ensures |ks| == n
    ensures forall k: uint32 :: k in ks <==> (k as int) < n
    decreases n
  {
    if n == 0 then {} else KeysBelow(n - 1) + {(n - 1) as uint32}
  }

  /** A set holding every key has 2^32 members. */
  lemma AllKeysCard(seen: set<uint32>)
    requires forall k: uint32 :: k in seen
    ensures |seen| == KeySpace
  {
    var all := KeysBelow(KeySpace);
    forall k: uint32
      ensures k in seen <==> k in all
    {
      assert (k as int) < KeySpace;
    }
    assert seen == all;
  }

  /** Once every one of the 2^32 keys has been seen, the `uint32` counter
      has wrapped around to 0. */
  lemma AllKeysWrap(s: IpCounter, seen: set<uint32>)
    requires Tracks(s, seen)
    requires forall k: uint32 :: k in seen
    ensures s.counter == 0
  {
    AllKeysCard(seen);
    assert |seen| % KeySpace == 0;
  }

  lemma SubsetCard<T>(a: set<T>, b: set<T>)
    requires a <= b
    ensures |a| <= |b|
  {
    assert b == a + (b - a);
  }

  /** `AddIpSlice`: send one slice on the channel. Sending on a closed
      channel panics in Go, so the caller must not have called `Close`. */
  function AddIpSlice(s: IpCounter, ips: Batch): (s': IpCounter)
    requires !s.closed
    ensures s'.pending == s.pending + [ips]
    ensures s'.table == s.table && s'.counter == s.counter && s'.closed == s.closed
  {
    s.(pending := s.pending + [ips])
  }

  /** `Close`: the first call closes the channel and sets `closed`; every
      later call returns at once. */
  function Close(s: IpCounter): (s': IpCounter)
    ensures s'.closed
    ensures s.closed ==> s' == s
    ensures s'.(closed := s.closed) == s
  {
    if s.closed then s else s.(closed := true)
  }

  /** Calling `Close` twice is the same as calling it once. */
  lemma CloseIdempotent(s: IpCounter)
    ensures Close(Close(s)) == Close(s)
  {
  }
}
