/** The buffer of recent terminal output that a re-attached terminal replays. */
module ReplayBuffer {

  const LIMIT := 64 * 1024

  type Byte = b: int | 0 <= b < 256

  function Total(chunks: seq<seq<Byte>>): nat {
    if chunks == [] then 0 else Total(chunks[..|chunks| - 1]) + |chunks[|chunks| - 1]|
  }

  function Concat(chunks: seq<seq<Byte>>): seq<Byte> {
    if chunks == [] then [] else Concat(chunks[..|chunks| - 1]) + chunks[|chunks| - 1]
  }

  function Stored(data: seq<Byte>): seq<Byte> {
    if |data| > LIMIT then data[|data| - LIMIT..] else data
  }

  /** Chunks leave from the front until the rest fits. */
  function Evict(chunks: seq<seq<Byte>>): seq<seq<Byte>>
    decreases |chunks|
  {
    if Total(chunks) > LIMIT && chunks != [] then Evict(chunks[1..]) else chunks
  }

  function Pushed(chunks: seq<seq<Byte>>, data: seq<Byte>): seq<seq<Byte>> {
    if data == [] then chunks else Evict(chunks + [Stored(data)])
  }

  /** The buffer after a history of pushes. */
  function After(history: seq<seq<Byte>>): seq<seq<Byte>> {
    if history == [] then [] else Pushed(After(history[..|history| - 1]), history[|history| - 1])
  }

  class OutputReplayBuffer {
    var chunks: seq<seq<Byte>>
    var totalBytes: nat
    ghost var history: seq<seq<Byte>>

    ghost predicate Valid()
      reads this
    {
      chunks == After(history) && totalBytes == Total(chunks)
    }

    constructor ()
      ensures Valid() && history == []
    {
      chunks, totalBytes, history := [], 0, [];
    }

    method Push(data: seq<Byte>)
      requires Valid()
      modifies this
      ensures Valid() && history == old(history) + [data]
      ensures chunks == Pushed(old(chunks), data)
    {
      history := history + [data];
      assert history[..|history| - 1] == old(history);
      if |data| == 0 {
        return;
      }
      var stored := Stored(data);
      totalBytes := totalBytes + |stored|;
      chunks := chunks + [stored];
      assert chunks[..|chunks| - 1] == old(chunks);
      while totalBytes > LIMIT
        invariant totalBytes == Total(chunks)
        invariant Evict(chunks) == Pushed(old(chunks), data)
        invariant history == old(history) + [data]
        decreases |chunks|
      {
        // Bytes over the limit lie in some chunk, so there is one to remove and its length is counted.
        var removed := chunks[0];
        TotalOfRest(chunks);
        chunks := chunks[1..];
        totalBytes := totalBytes - |removed|;
      }
    }

    method Snapshot() returns (copy: seq<seq<Byte>>)
      requires Valid()
      ensures copy == After(history)
    {
      copy := chunks;
    }
  }

  lemma {:induction false} TotalOfRest(chunks: seq<seq<Byte>>)
    requires chunks != []
    ensures Total(chunks) == |chunks[0]| + Total(chunks[1..])
  {
    if |chunks| > 1 {
      var front := chunks[..|chunks| - 1];
      TotalOfRest(front);
      assert chunks[1..][..|chunks| - 2] == front[1..];
    }
  }

  lemma {:induction false} ConcatOfRest(chunks: seq<seq<Byte>>)
    requires chunks != []
    ensures Concat(chunks) == chunks[0] + Concat(chunks[1..])
  {
    if |chunks| == 1 {
      assert chunks[..0] == [] && chunks[1..] == [];
      assert [] + chunks[0] == chunks[0] + [];
    } else {
      var front, last := chunks[..|chunks| - 1], chunks[|chunks| - 1];
      ConcatOfRest(front);
      assert chunks[1..][..|chunks| - 2] == front[1..];
      assert (chunks[0] + Concat(front[1..])) + last == chunks[0] + (Concat(front[1..]) + last);
    }
  }

  lemma {:induction false} TotalIsLength(chunks: seq<seq<Byte>>)
    ensures Total(chunks) == |Concat(chunks)|
  {
    if chunks != [] {
      TotalIsLength(chunks[..|chunks| - 1]);
    }
  }

  /** The non-empty pushes, each cut to the newest bytes that can be kept. */
  function Kept(history: seq<seq<Byte>>): seq<seq<Byte>> {
    if history == [] then []
    else
      var data := history[|history| - 1];
      Kept(history[..|history| - 1]) + if data == [] then [] else [Stored(data)]
  }

  predicate IsSuffix(s: seq<Byte>, all: seq<Byte>) {
    |s| <= |all| && all[|all| - |s|..] == s
  }

  /** Position `k` begins the longest run of newest chunks that fits. */
  predicate LongestFrom(chunks: seq<seq<Byte>>, k: nat) {
    k <= |chunks| && Total(chunks[k..]) <= LIMIT && (k > 0 ==> Total(chunks[k - 1..]) > LIMIT)
  }

  lemma {:induction false} EvictMeaning(chunks: seq<seq<Byte>>) returns (k: nat)
    requires chunks != [] && |chunks[|chunks| - 1]| <= LIMIT
    ensures k < |chunks| && Evict(chunks) == chunks[k..] && LongestFrom(chunks, k)
    decreases |chunks|
  {
    assert chunks[0..] == chunks;
    assert |chunks| == 1 ==> Total(chunks) == Total([]) + |chunks[0]|;
    k := 0;
    if Total(chunks) > LIMIT {
      var m := EvictMeaning(chunks[1..]);
      k := m + 1;
      assert chunks[1..][m..] == chunks[k..];
      assert m > 0 ==> chunks[1..][m - 1..] == chunks[k - 1..];
    }
  }

  lemma {:induction false} TotalGrows(chunks: seq<seq<Byte>>, more: seq<seq<Byte>>)
    ensures Total(chunks + more) == Total(chunks) + Total(more)
  {
    if more == [] {
      assert chunks + more == chunks;
    } else {
      var n := |more| - 1;
      assert (chunks + more)[..|chunks| + n] == chunks + more[..n];
      TotalGrows(chunks, more[..n]);
    }
  }

  /** Whatever was pushed, the buffer holds the longest run of newest chunks whose bytes fit: nothing was ever
      evicted, or the newest evicted chunk would not fit beside what is there. */
  lemma {:induction false} HoldsLongestRun(history: seq<seq<Byte>>) returns (k: nat)
    ensures LongestFrom(Kept(history), k) && After(history) == Kept(history)[k..]
    ensures Total(After(history)) <= LIMIT
  {
    k := 0;
    if history != [] {
      var front, data := history[..|history| - 1], history[|history| - 1];
      var i := HoldsLongestRun(front);
      if data == [] {
        assert Kept(history) == Kept(front) + [] == Kept(front);
        k := i;
      } else {
        k := LongestRunStep(Kept(front), i, Stored(data));
      }
    }
  }

  lemma LongestRunStep(kept: seq<seq<Byte>>, i: nat, stored: seq<Byte>) returns (k: nat)
    requires LongestFrom(kept, i) && |stored| <= LIMIT
    ensures LongestFrom(kept + [stored], k) && Evict(kept[i..] + [stored]) == (kept + [stored])[k..]
  {
    hide Evict;
    var all := kept + [stored];
    var run := kept[i..] + [stored];
    assert run == all[i..];
    var m := EvictMeaning(run);
    k := i + m;
    assert run[m..] == all[k..];
    if m > 0 {
      assert run[m - 1..] == all[k - 1..];
    } else if i > 0 {
      assert all[i - 1..] == kept[i - 1..] + [stored];
      TotalGrows(kept[i - 1..], [stored]);
    }
  }

  lemma SuffixOfMore(s: seq<Byte>, all: seq<Byte>, data: seq<Byte>)
    requires IsSuffix(s, all)
    ensures IsSuffix(s + data, all + data)
  {
    var more := all + data;
    assert more[|more| - |s + data|..] == s + data;
  }

  lemma {:induction false} EvictSuffix(chunks: seq<seq<Byte>>, all: seq<Byte>)
    requires IsSuffix(Concat(chunks), all)
    ensures IsSuffix(Concat(Evict(chunks)), all)
    decreases |chunks|
  {
    if Total(chunks) > LIMIT && chunks != [] {
      ConcatOfRest(chunks);
      var s := Concat(chunks);
      var rest := Concat(chunks[1..]);
      assert s[|chunks[0]|..] == rest;
      assert all[|all| - |rest|..] == rest;
      EvictSuffix(chunks[1..], all);
    }
  }

  lemma SuffixOfSuffix(s: seq<Byte>, middle: seq<Byte>, all: seq<Byte>)
    requires IsSuffix(s, all) && IsSuffix(middle, all) && |s| <= |middle|
    ensures IsSuffix(s, middle)
  {
    assert middle[|middle| - |s|..] == all[|all| - |s|..];
  }

  lemma SuffixWithin(s: seq<Byte>, middle: seq<Byte>, all: seq<Byte>)
    requires IsSuffix(s, middle) && IsSuffix(middle, all)
    ensures IsSuffix(s, all)
  {
    assert middle[|middle| - |s|..] == all[|all| - |s|..];
  }

  /** What a terminal replays is a suffix of everything that was ever pushed. */
  lemma {:induction false} ReplaysSuffix(history: seq<seq<Byte>>)
    ensures IsSuffix(Concat(After(history)), Concat(history))
  {
    hide Evict, IsSuffix, Stored;
    if history == [] {
      WholeIsSuffix([]);
    } else {
      var front, data := history[..|history| - 1], history[|history| - 1];
      ReplaysSuffix(front);
      var k := HoldsLongestRun(history);
      PushSuffix(After(front), Concat(front), data);
      assert Concat(front) + [] == Concat(front);
    }
  }

  /** One push keeps the buffer a suffix of all the output. */
  lemma PushSuffix(chunks: seq<seq<Byte>>, output: seq<Byte>, data: seq<Byte>)
    requires IsSuffix(Concat(chunks), output) && Total(Pushed(chunks, data)) <= LIMIT
    ensures IsSuffix(Concat(Pushed(chunks, data)), output + data)
  {
    hide Evict;
    var all := chunks + [Stored(data)];
    assert all[..|chunks|] == chunks;
    if data == [] {
      assert output + data == output;
    } else if |data| > LIMIT {
      TotalIsLength(Evict(all));
      WholeIsSuffix(Concat(all));
      EvictSuffix(all, Concat(all));
      SuffixOfSuffix(Concat(Evict(all)), Stored(data), Concat(all));
      SuffixWithin(Concat(Evict(all)), Stored(data), output + data);
    } else {
      SuffixOfMore(Concat(chunks), output, data);
      EvictSuffix(all, output + data);
    }
  }

  lemma WholeIsSuffix(s: seq<Byte>)
    ensures IsSuffix(s, s)
  {
  }
}
