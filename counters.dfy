/** The two representations behind the `Counter` interface (main.go:21-56)
    and the variable holding the global counter. */
module Counters {
  import opened Address
  import opened Promotion

  /** `bitmapSize`: one bit per possible key. */
  const BitmapSize: nat := 0x1_0000_0000

  /** An exact counter: a Go map from key to the empty struct. */
  class HashSetCounter {
    var entries: map<Key, ()>

    /** NewHashSetCounter: an empty map. */
    constructor ()
      ensures entries == map[]
    {
      entries := map[];
    }

    function Keys(): set<Key>
      reads this
    {
      entries.Keys
    }

    /** Records `ip`; adding a key already present changes nothing. */
    method Add(ip: Key)
      modifies this
      ensures entries == old(entries)[ip := ()]
      ensures Keys() == old(Keys()) + {ip}
      ensures ip in old(Keys()) ==> entries == old(entries)
    {
      if ip in entries {
        assert entries[ip] == ();
        assert entries[ip := ()] == entries;
      }
      entries := entries[ip := ()];
    }

    /** `len(h.set)`: the number of distinct keys recorded. */
    function Count(): (n: nat)
      reads this
      ensures n == |Keys()|
    {
      |entries|
    }
  }

  /** A counter over a bit vector of `bitmapSize` bits, one per key. The bit
      vector is that of an external library; it is represented by the set of
      indices whose bit is set, every index being a key below 2^32. */
  class BitMapCounter {
    const size: nat := BitmapSize
    var bits: set<Key>

    /** NewBitMapCounter: `bitmapSize` bits, all clear. */
    constructor ()
      ensures bits == {}
    {
      bits := {};
    }

    /** Whether bit `i` is set. */
    predicate Test(i: nat)
      reads this
    {
      i in bits
    }

    function Keys(): set<Key>
      reads this
    {
      bits
    }

    /** Sets bit `ip` and no other bit. */
    method Add(ip: Key)
      modifies this
      ensures forall i: nat :: Test(i) <==> old(Test(i)) || i == ip
      ensures Keys() == old(Keys()) + {ip}
      ensures ip in old(Keys()) ==> bits == old(bits)
    {
      bits := bits + {ip};
    }

    /** The number of set bits, each of them an index below the size. */
    function Count(): (n: nat)
      reads this
      ensures n == |Keys()| && n == |set i: nat | i < size && Test(i)|
    {
      assert (set i: nat | i < size && Test(i)) == bits;
      |bits|
    }
  }

  /** A value of Go's `Counter` interface: a pointer to one or the other. */
  datatype Counter = HashSet(h: HashSetCounter) | BitMap(b: BitMapCounter)
  {
    function Obj(): object
    {
      if HashSet? then h else b
    }

    function Keys(): set<Key>
      reads Obj()
    {
      if HashSet? then h.Keys() else b.Keys()
    }

    function Count(): (n: nat)
      reads Obj()
      ensures n == |Keys()|
    {
      if HashSet? then h.Count() else b.Count()
    }
  }

  /** The variable `counter` of countUniqueIPs, which every worker reaches
      through a `*Counter` pointer and may overwrite when it promotes. */
  class SharedCounter {
    var current: Counter

    /** `var counter Counter = NewHashSetCounter()`. */
    constructor ()
      ensures current.HashSet? && fresh(current.h) && current.Keys() == {}
    {
      var h := new HashSetCounter();
      current := HashSet(h);
    }

    /** The abstract state: is it a bitmap, and which keys does it hold. */
    function Snapshot(): State
      reads this, current.Obj()
    {
      State(current.BitMap?, current.Keys())
    }
  }
}
