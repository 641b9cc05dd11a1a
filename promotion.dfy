/** The promotion policy of the global counter, on abstract values: which
    representation is active and which keys it holds. The merge step of the
    worker (main.go) is specified here as a function of the old state and the
    worker's local key set; the fold of it over any order of workers is what
    the final count is read from. */
module Promotion {
  import opened Address

  /** `hashSetThreshold`: the largest projected size a hash set may reach. */
  const HashSetThreshold: nat := 0x100_0000

  /** The global counter seen from outside: `promoted` is true once it is a
      BitMapCounter, `keys` is the set of keys it holds. */
  datatype State = State(promoted: bool, keys: set<Key>)

  /** A run starts with an empty HashSetCounter. */
  const Initial := State(false, {})

  /** The memory guarantee: a counter that is still a hash set holds at most
      `hashSetThreshold` keys. */
  predicate WithinBudget(s: State)
  {
    !s.promoted ==> |s.keys| <= HashSetThreshold
  }

  /** One merge of a local key set into the global counter, branch by branch
      as the worker does it. */
  function MergeSpec(g: State, local: set<Key>): (r: State)
  {
    if g.promoted then State(true, g.keys + local)
    else if |g.keys| + |local| > HashSetThreshold then State(true, g.keys + local)
    else State(false, g.keys + local)
  }

  /** Every merge leaves the union of the old keys and the local keys; it
      promotes exactly when the counter is a hash set and the projected size
      exceeds the threshold; and a bitmap stays a bitmap. */
  lemma MergeShape(g: State, local: set<Key>)
    ensures MergeSpec(g, local).keys == g.keys + local
    ensures !g.promoted ==>
      (MergeSpec(g, local).promoted <==> |g.keys| + |local| > HashSetThreshold)
    ensures g.promoted ==> MergeSpec(g, local).promoted
  {
  }

  lemma UnionSize(a: set<Key>, b: set<Key>)
    ensures |a + b| <= |a| + |b|
  {
    assert a + b == a + (b - a);
    assert |b - a| <= |b| by { assert b - a <= b; SubsetSize(b - a, b); }
  }

  lemma {:induction false} SubsetSize(a: set<Key>, b: set<Key>)
    requires a <= b
    ensures |a| <= |b|
  {
    if a != {} {
      var x :| x in a;
      SubsetSize(a - {x}, b - {x});
    }
  }

  /** A merge never leaves a hash set past the threshold, whatever the state
      before it: the hash set is kept only when the two sizes together stay
      within the threshold, and the union is no larger than that. */
  lemma MergeWithinBudget(g: State, local: set<Key>)
    ensures WithinBudget(MergeSpec(g, local))
  {
    UnionSize(g.keys, local);
  }

  /** The merges of the local sets `ls`, in the order given (the order in
      which the workers take the lock). */
  function MergeAll(g: State, ls: seq<set<Key>>): State
  {
    if ls == [] then g else MergeSpec(MergeAll(g, ls[..|ls| - 1]), ls[|ls| - 1])
  }

  /** The union of the sets in `ls`. */
  function Union(ls: seq<set<Key>>): set<Key>
  {
    if ls == [] then {} else Union(ls[..|ls| - 1]) + ls[|ls| - 1]
  }

  lemma {:induction false} UnionMembers(ls: seq<set<Key>>, k: Key)
    ensures k in Union(ls) <==> exists i :: 0 <= i < |ls| && k in ls[i]
  {
    if ls != [] {
      var n := |ls| - 1;
      UnionMembers(ls[..n], k);
      if k in Union(ls[..n]) {
        var i :| 0 <= i < n && k in ls[..n][i];
        assert k in ls[i];
      }
      if i :| 0 <= i < |ls| && k in ls[i] {
        if i < n { assert k in ls[..n][i]; }
      }
    }
  }

  /** After any sequence of merges the counter holds the old keys and every
      local key, and nothing else. */
  lemma {:induction false} MergeAllKeys(g: State, ls: seq<set<Key>>)
    ensures MergeAll(g, ls).keys == g.keys + Union(ls)
  {
    if ls != [] {
      MergeAllKeys(g, ls[..|ls| - 1]);
    }
  }

  /** Promotion is one-way. */
  lemma {:induction false} MergeAllKeepsBitmap(g: State, ls: seq<set<Key>>)
    requires g.promoted
    ensures MergeAll(g, ls).promoted
  {
    if ls != [] {
      MergeAllKeepsBitmap(g, ls[..|ls| - 1]);
    }
  }

  /** The memory guarantee holds after every sequence of merges: the last
      merge alone ensures it, and an empty sequence leaves the start state. */
  lemma MergeAllWithinBudget(g: State, ls: seq<set<Key>>)
    requires WithinBudget(g)
    ensures WithinBudget(MergeAll(g, ls))
  {
    if ls != [] {
      MergeWithinBudget(MergeAll(g, ls[..|ls| - 1]), ls[|ls| - 1]);
    }
  }

  /** A run that sees more than `hashSetThreshold` distinct keys ends with a
      bitmap, whatever the order of the merges. */
  lemma ManyKeysPromote(ls: seq<set<Key>>)
    requires |Union(ls)| > HashSetThreshold
    ensures MergeAll(Initial, ls).promoted
  {
    MergeAllKeys(Initial, ls);
    MergeAllWithinBudget(Initial, ls);
  }

  /** The final key set, hence the final count, does not depend on the order
      in which the workers merge. The final representation may: a large set
      merged first can keep a hash set that the same sets merged in another
      order, small ones first, push past the threshold. */
  lemma MergeOrderIrrelevant(g: State, ls: seq<set<Key>>, ms: seq<set<Key>>)
    requires multiset(ls) == multiset(ms)
    ensures MergeAll(g, ls).keys == MergeAll(g, ms).keys
    ensures |MergeAll(g, ls).keys| == |MergeAll(g, ms).keys|
  {
    MergeAllKeys(g, ls);
    MergeAllKeys(g, ms);
    forall k: Key ensures k in Union(ls) <==> k in Union(ms) {
      UnionMembers(ls, k);
      UnionMembers(ms, k);
      if i :| 0 <= i < |ls| && k in ls[i] {
        assert ls[i] in multiset(ms);
        var j :| 0 <= j < |ms| && ms[j] == ls[i];
      }
      if j :| 0 <= j < |ms| && k in ms[j] {
        assert ms[j] in multiset(ls);
        var i :| 0 <= i < |ls| && ls[i] == ms[j];
      }
    }
    assert Union(ls) == Union(ms);
  }

  /** The sum of the sizes of the sets in `ls` (the discarded `totalCount`). */
  function SumSizes(ls: seq<set<Key>>): nat
  {
    if ls == [] then 0 else SumSizes(ls[..|ls| - 1]) + |ls[|ls| - 1]|
  }

  /** Summing the local counts over-counts: a key seen by two workers is
      counted twice, so the sum is only an upper bound on the true count. */
  lemma {:induction false} SumBoundsUnion(ls: seq<set<Key>>)
    ensures |Union(ls)| <= SumSizes(ls)
  {
    if ls != [] {
      SumBoundsUnion(ls[..|ls| - 1]);
      UnionSize(Union(ls[..|ls| - 1]), ls[|ls| - 1]);
    }
  }
}
