/** The token-bucket store of the request limiter (limiter/limiter.go): a
    bounded least-recently-used table from keys to rate limiters, kept as a
    doubly linked list (most recent at the front) plus a map from key to list
    element. The list is modelled as a sequence whose index 0 is the front,
    the map as a map from key to the stored value, and the rate limiter as
    the opaque type parameter V. */
module Limiter {

  const MINSIZE: nat := 65535
  const MAXCLIP: nat := 1024

  const PREFIXREQUEST: string := "req_"
  const PREFIXBYTES: string := "bytes_"

  /** The store never holds fewer than MINSIZE entries' room. */
  function StoreSize(size: int): (s: nat)
    ensures MINSIZE <= s && size <= s
    ensures s == size || s == MINSIZE
  {
    if size < MINSIZE then MINSIZE else size
  }

  /** How many entries one overflow evicts: a 256th of the room, at most MAXCLIP. */
  function ClipFor(s: nat): (c: nat)
    ensures c <= MAXCLIP && c * 256 <= s
    ensures c == MAXCLIP || s < (c + 1) * 256
  {
    var c := s / 256;
    if c > MAXCLIP then MAXCLIP else c
  }

  /** A store built from any requested size evicts at least one and at most
      its whole room on overflow, and caps the clip exactly from 262144 on. */
  lemma ClipOfStoreSize(size: int)
    ensures 1 <= ClipFor(StoreSize(size)) <= StoreSize(size)
    ensures ClipFor(StoreSize(size)) == MAXCLIP <==> MAXCLIP * 256 <= StoreSize(size)
  {
  }

  /** The sizes of limiter_test.go: 0 is raised to MINSIZE, MINSIZE + 1 is kept
      with clip 256, and 300000 clips MAXCLIP. */
  lemma StoreSizeExamples()
    ensures StoreSize(0) == MINSIZE && ClipFor(MINSIZE) == 255
    ensures StoreSize(MINSIZE + 1) == MINSIZE + 1 && ClipFor(MINSIZE + 1) == 256
    ensures StoreSize(300000) == 300000 && ClipFor(300000) == MAXCLIP
  {
  }

  /** A list node: the key and its rate limiter. */
  datatype Entry<V> = Entry(key: string, value: V)

  function Keys<V>(es: seq<Entry<V>>): set<string>
  {
    set i | 0 <= i < |es| :: es[i].key
  }

  /** Every key is on the list at most once. */
  predicate Distinct<V>(es: seq<Entry<V>>)
  {
    forall i, j :: 0 <= i < j < |es| ==> es[i].key != es[j].key
  }

  /** The map and the list agree: same keys, each once, same values. */
  ghost predicate Indexed<V>(es: seq<Entry<V>>, index: map<string, V>)
  {
    && Distinct(es)
    && index.Keys == Keys(es)
    && forall i :: 0 <= i < |es| ==> index[es[i].key] == es[i].value
  }

  /** The position of a key on the list. */
  function Find<V>(es: seq<Entry<V>>, k: string): (i: nat)
    requires k in Keys(es)
    ensures i < |es| && es[i].key == k
  {
    if es[0].key == k then 0
    else
      assert k in Keys(es[1..]) by {
        var j :| 0 <= j < |es| && es[j].key == k;
        assert es[1..][j - 1].key == k;
      }
      1 + Find(es[1..], k)
  }

  /** The list with its i-th node moved to the front. */
  function MoveToFront<V>(es: seq<Entry<V>>, i: nat): seq<Entry<V>>
    requires i < |es|
  {
    [es[i]] + es[..i] + es[i + 1..]
  }

  /** Moving a node to the front keeps the nodes and so the keys. */
  lemma MoveToFrontPermutes<V>(es: seq<Entry<V>>, i: nat)
    requires i < |es|
    ensures multiset(MoveToFront(es, i)) == multiset(es)
    ensures Keys(MoveToFront(es, i)) == Keys(es)
  {
    assert es == es[..i] + [es[i]] + es[i + 1..];
    KeysOfPermutation(MoveToFront(es, i), es);
  }

  /** Moving a node to the front keeps every key once. */
  lemma MoveToFrontKeepsDistinct<V>(es: seq<Entry<V>>, i: nat)
    requires i < |es| && Distinct(es)
    ensures Distinct(MoveToFront(es, i))
  {
    var r := MoveToFront(es, i);
    forall a, b | 0 <= a < b < |r| ensures r[a].key != r[b].key {
      var ia := if a == 0 then i else if a - 1 < i then a - 1 else a;
      var ib := if b == 0 then i else if b - 1 < i then b - 1 else b;
      assert r[a] == es[ia] && r[b] == es[ib];
    }
  }

  /** The list after getSet(k): a hit moves k's node to the front; a miss
      pushes a new node to the front and, if the list then exceeds `size`,
      drops `clip` nodes from the back. */
  function Accessed<V>(es: seq<Entry<V>>, k: string, made: V, size: nat, clip: nat): seq<Entry<V>>
    requires clip <= size
  {
    if k in Keys(es) then
      MoveToFront(es, Find(es, k))
    else
      var pushed := [Entry(k, made)] + es;
      if |pushed| > size then pushed[..|pushed| - clip] else pushed
  }

  /** Two lists holding the same nodes hold the same keys. */
  lemma KeysOfPermutation<V>(r: seq<Entry<V>>, es: seq<Entry<V>>)
    requires multiset(r) == multiset(es)
    ensures Keys(r) == Keys(es)
  {
    forall key | key in Keys(r) ensures key in Keys(es) {
      var j :| 0 <= j < |r| && r[j].key == key;
      assert r[j] in multiset(es);
      var i :| 0 <= i < |es| && es[i] == r[j];
    }
    forall key | key in Keys(es) ensures key in Keys(r) {
      var j :| 0 <= j < |es| && es[j].key == key;
      assert es[j] in multiset(r);
      var i :| 0 <= i < |r| && r[i] == es[j];
    }
  }

  /** A hit only reorders: k's node comes to the front, the others keep their
      order, and neither the keys nor the length change. */
  lemma HitMovesToFront<V>(es: seq<Entry<V>>, k: string, made: V, size: nat, clip: nat)
    requires clip <= size && k in Keys(es)
    ensures var r := Accessed(es, k, made, size, clip);
      && |r| == |es| && Keys(r) == Keys(es) && multiset(r) == multiset(es)
      && r[0] == es[Find(es, k)]
      && r[1..] == es[..Find(es, k)] + es[Find(es, k) + 1..]
  {
    var i := Find(es, k);
    MoveToFrontPermutes(es, i);
    assert MoveToFront(es, i)[1..] == es[..i] + es[i + 1..];
  }

  /** A miss puts a new node for k in front of the old list, then keeps the
      first |es| + 1 - clip nodes exactly when the list outgrew `size`. */
  lemma MissPushesFront<V>(es: seq<Entry<V>>, k: string, made: V, size: nat, clip: nat)
    requires clip <= size && k !in Keys(es)
    ensures var r := Accessed(es, k, made, size, clip);
      var n := if |es| + 1 > size then |es| + 1 - clip else |es| + 1;
      && |r| == n && 1 <= n
      && r[0] == Entry(k, made)
      && r[1..] == es[..n - 1]
  {
  }

  /** getSet keeps the list and the map consistent. */
  lemma AccessedKeepsDistinct<V>(es: seq<Entry<V>>, k: string, made: V, size: nat, clip: nat)
    requires clip <= size && Distinct(es)
    ensures Distinct(Accessed(es, k, made, size, clip))
  {
    var r := Accessed(es, k, made, size, clip);
    if k in Keys(es) {
      MoveToFrontKeepsDistinct(es, Find(es, k));
    } else {
      forall a, b | 0 <= a < b < |r| ensures r[a].key != r[b].key {
        if a == 0 {
          assert r[b] == es[b - 1];
        } else {
          assert r[a] == es[a - 1] && r[b] == es[b - 1];
        }
      }
    }
  }

  /** A store that evicts at least one node never holds more than `size` nodes. */
  lemma AccessedStaysBounded<V>(es: seq<Entry<V>>, k: string, made: V, size: nat, clip: nat)
    requires 1 <= clip <= size && |es| <= size
    ensures |Accessed(es, k, made, size, clip)| <= size
  {
    if k in Keys(es) {
      HitMovesToFront(es, k, made, size, clip);
    }
  }

  /** The scenario of limiter_test.go: with room 2 and clip 2, inserting test1,
      test2 and test3 leaves test3 alone, and a further hit on test3 keeps it so. */
  lemma EvictionExample<V>(v: V)
    ensures var s1 := Accessed([], "test1", v, 2, 2);
      var s2 := Accessed(s1, "test2", v, 2, 2);
      var s3 := Accessed(s2, "test3", v, 2, 2);
      s3 == [Entry("test3", v)] && Accessed(s3, "test3", v, 2, 2) == s3
  {
    var s1 := Accessed([], "test1", v, 2, 2);
    assert s1 == [Entry("test1", v)];
    assert "test2" !in Keys(s1) by {
      assert "test2" != "test1";
    }
    var s2 := Accessed(s1, "test2", v, 2, 2);
    assert s2 == [Entry("test2", v), Entry("test1", v)];
    assert "test3" !in Keys(s2) by {
      assert "test3" != "test1" && "test3" != "test2";
    }
    var s3 := Accessed(s2, "test3", v, 2, 2);
    assert s3 == [Entry("test3", v)];
    assert "test3" in Keys(s3) by {
      assert s3[0].key == "test3";
    }
  }

  /** Dropping the last node and its key keeps list and map consistent. */
  lemma DropLastKeepsIndexed<V>(es: seq<Entry<V>>, index: map<string, V>)
    requires Indexed(es, index) && |es| > 0
    ensures Indexed(es[..|es| - 1], index - {es[|es| - 1].key})
  {
    var last := es[|es| - 1];
    var rest := es[..|es| - 1];
    var m := index - {last.key};
    forall key | key in m ensures key in Keys(rest) {
      var j :| 0 <= j < |es| && es[j].key == key;
      assert j < |es| - 1;
      assert rest[j].key == key;
    }
    forall key | key in Keys(rest) ensures key in m {
      var j :| 0 <= j < |rest| && rest[j].key == key;
      assert es[j].key == key;
    }
  }

  /** Pushing a node for a new key in front keeps list and map consistent. */
  lemma PushKeepsIndexed<V>(es: seq<Entry<V>>, index: map<string, V>, k: string, made: V)
    requires Indexed(es, index) && k !in Keys(es)
    ensures Indexed([Entry(k, made)] + es, index[k := made])
  {
    var p := [Entry(k, made)] + es;
    forall key | key in Keys(p) ensures key in index[k := made].Keys {
      var j :| 0 <= j < |p| && p[j].key == key;
      if j > 0 {
        assert es[j - 1].key == key;
      }
    }
    forall key | key in index[k := made].Keys ensures key in Keys(p) {
      if key != k {
        var j :| 0 <= j < |es| && es[j].key == key;
        assert p[j + 1].key == key;
      } else {
        assert p[0].key == k;
      }
    }
    forall i | 0 <= i < |p| ensures index[k := made][p[i].key] == p[i].value {
      if i > 0 {
        assert p[i] == es[i - 1];
        assert es[i - 1].key in Keys(es);
      }
    }
  }

  /** A hit reorders the list only, so the map still agrees with it. */
  lemma HitKeepsIndexed<V>(es: seq<Entry<V>>, index: map<string, V>, k: string, made: V, size: nat, clip: nat)
    requires clip <= size && Indexed(es, index) && k in Keys(es)
    ensures Indexed(Accessed(es, k, made, size, clip), index)
  {
    var r := Accessed(es, k, made, size, clip);
    HitMovesToFront(es, k, made, size, clip);
    AccessedKeepsDistinct(es, k, made, size, clip);
    forall j | 0 <= j < |r| ensures index[r[j].key] == r[j].value {
      assert r[j] in multiset(es);
      var i :| 0 <= i < |es| && es[i] == r[j];
    }
  }

  /** The store: the room `size`, the eviction batch `clip`, the list and the map. */
  class Store<V> {
    var size: nat
    var clip: nat
    var entries: seq<Entry<V>>
    var index: map<string, V>

    ghost predicate Valid()
      reads this
    {
      clip <= size && Indexed(entries, index)
    }

    /** newStore: room and clip from the requested size, empty list and map. */
    constructor(requested: int)
      ensures Valid()
      ensures size == StoreSize(requested) && clip == ClipFor(size)
      ensures entries == [] && index == map[]
    {
      size, clip := StoreSize(requested), ClipFor(StoreSize(requested));
      entries, index := [], map[];
    }

    /** getSet: returns the value stored under k, storing `made` first when k
        is missing. */
    method GetSet(k: string, made: V) returns (v: V)
      requires Valid()
      modifies this
      ensures Valid() && size == old(size) && clip == old(clip)
      ensures entries == Accessed(old(entries), k, made, size, clip)
      ensures v == if k in old(index) then old(index)[k] else made
      ensures k in index && index[k] == v && entries[0] == Entry(k, v)
    {
      if k in index {
        var i := Find(entries, k);
        HitKeepsIndexed(entries, index, k, made, size, clip);
        entries := MoveToFront(entries, i);
        v := index[k];
      } else {
        PushKeepsIndexed(entries, index, k, made);
        entries := [Entry(k, made)] + entries;
        index := index[k := made];
        if |entries| > size {
          Evict();
        }
        v := made;
      }
    }

    /** The eviction loop: removes `clip` nodes from the back of the list and
        their keys from the map. */
    method Evict()
      requires Valid() && |entries| > size
      modifies this
      ensures Valid() && size == old(size) && clip == old(clip)
      ensures entries == old(entries)[..|old(entries)| - clip]
    {
      ghost var pushed := entries;
      var i := 0;
      while i < clip
        invariant 0 <= i <= clip && size == old(size) && clip == old(clip)
        invariant entries == pushed[..|pushed| - i]
        invariant Indexed(entries, index)
      {
        var last := entries[|entries| - 1];
        DropLastKeepsIndexed(entries, index);
        index := index - {last.key};
        entries := entries[..|entries| - 1];
        i := i + 1;
      }
    }
  }

  /** The key under which LimitByRequests looks up its bucket. */
  function RequestKey(remoteIP: string, path: string): string
  {
    PREFIXREQUEST + remoteIP + path
  }

  /** The key under which LimitByBytes looks up its bucket. */
  function BytesKey(remoteIP: string): string
  {
    PREFIXBYTES + remoteIP
  }

  /** Request buckets and byte buckets never share a key. */
  lemma RequestAndBytesKeysDiffer(ip1: string, path: string, ip2: string)
    ensures RequestKey(ip1, path) != BytesKey(ip2)
  {
    assert RequestKey(ip1, path)[0] == 'r';
    assert BytesKey(ip2)[0] == 'b';
  }

  /** Distinct clients get distinct byte buckets. */
  lemma BytesKeyInjective(ip1: string, ip2: string)
    requires BytesKey(ip1) == BytesKey(ip2)
    ensures ip1 == ip2
  {
    assert ip1 == BytesKey(ip1)[|PREFIXBYTES|..];
    assert ip2 == BytesKey(ip2)[|PREFIXBYTES|..];
  }

  /** In an address without '/' followed by a path starting with '/', the
      first '/' is where the path begins. */
  lemma SlashOnlyAfterAddress(ip: string, path: string, n: nat)
    requires '/' !in ip && |path| > 0 && path[0] == '/' && n <= |ip|
    ensures (ip + path)[n] == '/' <==> n == |ip|
  {
    if n < |ip| {
      assert (ip + path)[n] == ip[n];
    }
  }

  /** An address without '/' followed by a path starting with '/': the key
      determines both, so distinct (address, path) pairs get distinct buckets. */
  lemma RequestKeyInjective(ip1: string, path1: string, ip2: string, path2: string)
    requires '/' !in ip1 && '/' !in ip2
    requires |path1| > 0 && path1[0] == '/' && |path2| > 0 && path2[0] == '/'
    requires RequestKey(ip1, path1) == RequestKey(ip2, path2)
    ensures ip1 == ip2 && path1 == path2
  {
    var s1, s2 := ip1 + path1, ip2 + path2;
    assert s1 == RequestKey(ip1, path1)[|PREFIXREQUEST|..];
    assert s2 == RequestKey(ip2, path2)[|PREFIXREQUEST|..];
    var m := if |ip1| < |ip2| then |ip1| else |ip2|;
    SlashOnlyAfterAddress(ip1, path1, m);
    SlashOnlyAfterAddress(ip2, path2, m);
    assert ip1 == s1[..|ip1|] && ip2 == s2[..|ip2|];
    assert path1 == s1[|ip1|..] && path2 == s2[|ip2|..];
  }
}
