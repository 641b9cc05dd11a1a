/** The sequential steps of `worker` (main.go:122-162) and the part of
    countUniqueIPs that reads the final count, with goroutines, channels and
    the mutex taken out: each worker's chunks are given as a sequence, and the
    merges, which the mutex serialises, run one after another in the order of
    the workers in that sequence. */
module Worker {
  import opened GoStrings
  import opened Address
  import opened Promotion
  import opened Counters

  /** What one line contributes: the key of the trimmed line, if it parses. */
  function ParseLine(line: seq<byte>): Result<Key>
  {
    ParseAddress(TrimSpace(line))
  }

  /** The keys among parse results, in order. */
  function OkKeys(rs: seq<Result<Key>>): set<Key>
  {
    if rs == [] then {}
    else OkKeys(rs[..|rs| - 1]) + (if rs[|rs| - 1].Ok? then {rs[|rs| - 1].value} else {})
  }

  /** The parse result of every line. */
  function ParseLines(lines: seq<seq<byte>>): (rs: seq<Result<Key>>)
    ensures |rs| == |lines| && forall i :: 0 <= i < |lines| ==> rs[i] == ParseLine(lines[i])
  {
    seq(|lines|, i requires 0 <= i < |lines| => ParseLine(lines[i]))
  }

  /** The keys of the lines that parse. */
  function LineKeys(lines: seq<seq<byte>>): set<Key>
  {
    OkKeys(ParseLines(lines))
  }

  /** The keys of one chunk: its `\n`-separated lines that parse. */
  function ChunkKeys(chunk: seq<byte>): set<Key>
  {
    LineKeys(Split(chunk, Newline))
  }

  /** The keys of every chunk. */
  function ChunkSets(chunks: seq<seq<byte>>): (ks: seq<set<Key>>)
    ensures |ks| == |chunks| && forall c :: 0 <= c < |chunks| ==> ks[c] == ChunkKeys(chunks[c])
  {
    seq(|chunks|, c requires 0 <= c < |chunks| => ChunkKeys(chunks[c]))
  }

  /** The keys of all chunks a worker received. */
  function LocalKeys(chunks: seq<seq<byte>>): set<Key>
  {
    Union(ChunkSets(chunks))
  }

  /** The local key set of each worker. */
  function LocalsOf(work: seq<seq<seq<byte>>>): (ls: seq<set<Key>>)
    ensures |ls| == |work| && forall w :: 0 <= w < |work| ==> ls[w] == LocalKeys(work[w])
  {
    seq(|work|, w requires 0 <= w < |work| => LocalKeys(work[w]))
  }

  lemma {:induction false} OkKeysMembers(rs: seq<Result<Key>>, k: Key)
    ensures k in OkKeys(rs) <==> Ok(k) in rs
  {
    if rs != [] {
      var n := |rs| - 1;
      OkKeysMembers(rs[..n], k);
      assert rs == rs[..n] + [rs[n]];
    }
  }

  /** A key is a line key exactly when some line parses to it; a line that
      does not parse adds nothing. */
  lemma LineKeysMembers(lines: seq<seq<byte>>, k: Key)
    ensures k in LineKeys(lines) <==> exists i :: 0 <= i < |lines| && ParseLine(lines[i]) == Ok(k)
  {
    OkKeysMembers(ParseLines(lines), k);
  }

  /** One more line adds its key, if it has one. */
  lemma LineKeysStep(lines: seq<seq<byte>>, l: nat)
    requires l < |lines|
    ensures LineKeys(lines[..l + 1]) ==
      LineKeys(lines[..l]) + (if ParseLine(lines[l]).Ok? then {ParseLine(lines[l]).value} else {})
  {
    assert ParseLines(lines[..l + 1])[..l] == ParseLines(lines[..l]);
  }

  /** A key is a local key exactly when some chunk holds a line that parses
      to it. */
  lemma LocalKeysMembers(chunks: seq<seq<byte>>, k: Key)
    ensures k in LocalKeys(chunks) <==> exists c :: 0 <= c < |chunks| && k in ChunkKeys(chunks[c])
  {
    UnionMembers(ChunkSets(chunks), k);
  }

  /** One more chunk adds its keys. */
  lemma LocalKeysStep(chunks: seq<seq<byte>>, c: nat)
    requires c < |chunks|
    ensures LocalKeys(chunks[..c + 1]) == LocalKeys(chunks[..c]) + ChunkKeys(chunks[c])
  {
    assert ChunkSets(chunks[..c + 1])[..c] == ChunkSets(chunks[..c]);
  }

  /** The keys that all workers together saw: those of every chunk. */
  lemma AllKeysMembers(work: seq<seq<seq<byte>>>, k: Key)
    ensures k in Union(LocalsOf(work)) <==>
      exists w, c :: 0 <= w < |work| && 0 <= c < |work[w]| && k in ChunkKeys(work[w][c])
  {
    UnionMembers(LocalsOf(work), k);
    forall w | 0 <= w < |work| {
      LocalKeysMembers(work[w], k);
    }
  }

  /** The final key set does not depend on how the chunks are shared among
      the workers, nor on how many workers there are: only on which chunks
      were read. */
  lemma DistributionIrrelevant(work: seq<seq<seq<byte>>>, other: seq<seq<seq<byte>>>)
    requires forall w, c :: 0 <= w < |work| && 0 <= c < |work[w]| ==>
      exists v, d :: 0 <= v < |other| && 0 <= d < |other[v]| && other[v][d] == work[w][c]
    requires forall v, d :: 0 <= v < |other| && 0 <= d < |other[v]| ==>
      exists w, c :: 0 <= w < |work| && 0 <= c < |work[w]| && work[w][c] == other[v][d]
    ensures Union(LocalsOf(work)) == Union(LocalsOf(other))
  {
    forall k: Key ensures k in Union(LocalsOf(work)) <==> k in Union(LocalsOf(other)) {
      AllKeysMembers(work, k);
      AllKeysMembers(other, k);
    }
  }

  /** White space around an address does not change its key. */
  lemma PaddedLine(pre: seq<byte>, token: seq<byte>, post: seq<byte>)
    requires forall k :: 0 <= k < |pre| ==> IsSpace(pre[k])
    requires forall k :: 0 <= k < |post| ==> IsSpace(post[k])
    ensures ParseLine(pre + token + post) == ParseLine(token)
  {
    TrimSpacePadding(pre, token, post);
  }

  /** The first phase of a worker: parse every line of every chunk into a
      fresh local HashSetCounter, skipping the lines that do not parse. */
  method Accumulate(chunks: seq<seq<byte>>) returns (local: HashSetCounter)
    ensures fresh(local)
    ensures local.Keys() == LocalKeys(chunks)
  {
    local := new HashSetCounter();
    for c := 0 to |chunks|
      invariant local.Keys() == LocalKeys(chunks[..c])
    {
      ghost var seen := local.Keys();
      var lines := Split(chunks[c], Newline);
      for l := 0 to |lines|
        invariant local.Keys() == seen + LineKeys(lines[..l])
      {
        LineKeysStep(lines, l);
        var ip := TrimSpace(lines[l]);
        var ipInt := IpToInt(ip);
        assert ipInt == ParseLine(lines[l]);
        if ipInt.Err? {
          continue;
        }
        local.Add(ipInt.value);
      }
      assert lines[..|lines|] == lines;
      LocalKeysStep(chunks, c);
    }
    assert chunks[..|chunks|] == chunks;
  }

  /** `for ip := range keys { h.Add(ip) }`, in any order. */
  method AddAllToHashSet(h: HashSetCounter, keys: set<Key>)
    modifies h
    ensures h.Keys() == old(h.Keys()) + keys
  {
    var remaining := keys;
    while remaining != {}
      invariant remaining <= keys
      invariant h.Keys() == old(h.Keys()) + (keys - remaining)
      decreases remaining
    {
      var ip :| ip in remaining;
      h.Add(ip);
      remaining := remaining - {ip};
    }
  }

  /** `for ip := range keys { b.Add(ip) }`, in any order. */
  method AddAllToBitMap(b: BitMapCounter, keys: set<Key>)
    modifies b
    ensures b.Keys() == old(b.Keys()) + keys
  {
    var remaining := keys;
    while remaining != {}
      invariant remaining <= keys
      invariant b.Keys() == old(b.Keys()) + (keys - remaining)
      decreases remaining
    {
      var ip :| ip in remaining;
      b.Add(ip);
      remaining := remaining - {ip};
    }
  }

  /** The critical section: merge the local set into the global counter,
      promoting a hash set to a new bitmap holding both sets when their
      sizes add up to more than the threshold. */
  method Merge(counter: SharedCounter, local: HashSetCounter)
    requires local != counter.current.Obj()
    modifies counter, counter.current.Obj()
    ensures counter.Snapshot() == MergeSpec(old(counter.Snapshot()), local.Keys())
    ensures old(counter.current).BitMap? ==> counter.current == old(counter.current)
    ensures !counter.current.BitMap? ==> counter.current == old(counter.current)
    ensures counter.current == old(counter.current) || fresh(counter.current.Obj())
  {
    match counter.current
    case HashSet(hashCounter) =>
      if hashCounter.Count() + local.Count() > HashSetThreshold {
        var newCounter := new BitMapCounter();
        AddAllToBitMap(newCounter, hashCounter.Keys());
        AddAllToBitMap(newCounter, local.Keys());
        counter.current := BitMap(newCounter);
      } else {
        AddAllToHashSet(hashCounter, local.Keys());
      }
    case BitMap(bitmapCounter) =>
      AddAllToBitMap(bitmapCounter, local.Keys());
  }

  /** One worker: accumulate its chunks locally, merge once, and report its
      local distinct count. */
  method RunWorker(chunks: seq<seq<byte>>, counter: SharedCounter) returns (localCount: nat)
    modifies counter, counter.current.Obj()
    ensures counter.Snapshot() == MergeSpec(old(counter.Snapshot()), LocalKeys(chunks))
    ensures old(counter.current).BitMap? ==> counter.current == old(counter.current)
    ensures !counter.current.BitMap? ==> counter.current == old(counter.current)
    ensures counter.current == old(counter.current) || fresh(counter.current.Obj())
    ensures localCount == |LocalKeys(chunks)|
  {
    var local := Accumulate(chunks);
    Merge(counter, local);
    localCount := local.Count();
  }

  /** countUniqueIPs without the file: every worker in turn runs over its
      chunks and merges, then the global counter's count is the answer. It
      equals the number of distinct keys over every line of every chunk. */
  method CountUniqueIPs(work: seq<seq<seq<byte>>>) returns (count: nat, ghost final: State)
    ensures final == MergeAll(Initial, LocalsOf(work))
    ensures count == |final.keys| && final.keys == Union(LocalsOf(work))
    ensures count == |Union(LocalsOf(work))|
  {
    var counter := new SharedCounter();
    var totalCount := 0;
    for w := 0 to |work|
      invariant fresh(counter) && fresh(counter.current.Obj())
      invariant counter.Snapshot() == MergeAll(Initial, LocalsOf(work[..w]))
      invariant totalCount == SumSizes(LocalsOf(work[..w]))
    {
      var n := RunWorker(work[w], counter);
      totalCount := totalCount + n;
      assert LocalsOf(work[..w + 1])[..w] == LocalsOf(work[..w]);
    }
    assert work[..|work|] == work;
    final := counter.Snapshot();
    MergeAllKeys(Initial, LocalsOf(work));
    count := counter.current.Count();
  }
}
