/**
 The hash of a node's topic set: CRC-64 over its topics, sorted as byte strings and joined
 without a separator. It is a function of the set alone, whatever order the topics are
 listed in, but not an injective one.
 */
module TopicHash {
  import opened Crc64

  type Topic = Bytes

  /** Byte-wise lexicographic order, the order of std::string. */
  predicate Leq(a: Topic, b: Topic)
    decreases |a|
  {
    a == [] || (b != [] && (if a[0] == b[0] then Leq(a[1..], b[1..]) else a[0] < b[0]))
  }

  /** The strings agree up to i, and there the first has the smaller byte. */
  predicate SmallerAt(a: Topic, b: Topic, i: nat) {
    i < |a| && i < |b| && a[..i] == b[..i] && a[i] < b[i]
  }

  lemma {:induction false} SmallerLater(a: Topic, b: Topic, i: nat)
    requires a != [] && b != [] && a[0] == b[0] && SmallerAt(a, b, i)
    ensures i > 0 && SmallerAt(a[1..], b[1..], i - 1)
  {
    assert a[1..][..i - 1] == a[..i][1..] && b[1..][..i - 1] == b[..i][1..];
  }

  lemma {:induction false} FirstByteSame(a: Topic, b: Topic)
    requires a != [] && b != [] && a[0] == b[0]
    ensures (exists i :: SmallerAt(a, b, i)) <==> exists i :: SmallerAt(a[1..], b[1..], i)
    ensures a <= b <==> a[1..] <= b[1..]
  {
    assert a == [a[0]] + a[1..] && b == [b[0]] + b[1..];
    if i: nat :| SmallerAt(a[1..], b[1..], i) {
      assert a[..i + 1] == [a[0]] + a[1..][..i] && b[..i + 1] == [b[0]] + b[1..][..i];
      assert SmallerAt(a, b, i + 1);
    }
    if i: nat :| SmallerAt(a, b, i) {
      SmallerLater(a, b, i);
    }
  }

  lemma {:induction false} FirstByteLarger(a: Topic, b: Topic)
    requires a != [] && b != [] && a[0] > b[0]
    ensures forall i :: !SmallerAt(a, b, i)
  {
    forall i: nat | i < |a| && i < |b| ensures !SmallerAt(a, b, i) {
      assert i > 0 ==> a[..i][0] == a[0] && b[..i][0] == b[0];
    }
  }

  /** The order is that of std::string: a prefix, or a smaller byte at the first difference. */
  lemma {:induction false} LeqIff(a: Topic, b: Topic)
    ensures Leq(a, b) <==> a <= b || exists i :: SmallerAt(a, b, i)
    decreases |a|
  {
    if a != [] && b != [] {
      if a[0] == b[0] {
        FirstByteSame(a, b);
        LeqIff(a[1..], b[1..]);
      } else if a[0] < b[0] {
        assert SmallerAt(a, b, 0);
      } else {
        FirstByteLarger(a, b);
      }
    }
  }

  lemma {:induction false} LeqTotal(a: Topic, b: Topic)
    ensures Leq(a, b) || Leq(b, a)
    decreases |a|
  {
    if a != [] && b != [] && a[0] == b[0] {
      LeqTotal(a[1..], b[1..]);
    }
  }

  lemma {:induction false} LeqAntisymmetric(a: Topic, b: Topic)
    requires Leq(a, b) && Leq(b, a)
    ensures a == b
    decreases |a|
  {
    if a != [] && b != [] {
      LeqAntisymmetric(a[1..], b[1..]);
      assert a == [a[0]] + a[1..] && b == [b[0]] + b[1..];
    }
  }

  lemma {:induction false} LeqTransitive(a: Topic, b: Topic, c: Topic)
    requires Leq(a, b) && Leq(b, c)
    ensures Leq(a, c)
    decreases |a|
  {
    if a != [] && a[0] == b[0] && b[0] == c[0] {
      LeqTransitive(a[1..], b[1..], c[1..]);
    }
  }

  ghost predicate Sorted(s: seq<Topic>) {
    forall i, j :: 0 <= i < j < |s| ==> Leq(s[i], s[j])
  }

  function Insert(x: Topic, s: seq<Topic>): (r: seq<Topic>)
    requires Sorted(s)
    ensures Sorted(r) && multiset(r) == multiset(s) + multiset{x}
    decreases |s|
  {
    if s == [] then [x]
    else if Leq(x, s[0]) then
      InsertFirst(x, s);
      [x] + s
    else
      var r' := Insert(x, s[1..]);
      InsertLater(x, s, r');
      [s[0]] + r'
  }

  lemma {:induction false} InsertFirst(x: Topic, s: seq<Topic>)
    requires s != [] && Sorted(s) && Leq(x, s[0])
    ensures Sorted([x] + s) && multiset([x] + s) == multiset(s) + multiset{x}
  {
    forall j | 0 < j < |s| ensures Leq(x, s[j]) { LeqTransitive(x, s[0], s[j]); }
  }

  lemma {:induction false} InsertLater(x: Topic, s: seq<Topic>, r: seq<Topic>)
    requires s != [] && Sorted(s) && !Leq(x, s[0])
    requires Sorted(r) && multiset(r) == multiset(s[1..]) + multiset{x}
    ensures Sorted([s[0]] + r) && multiset([s[0]] + r) == multiset(s) + multiset{x}
  {
    LeqTotal(x, s[0]);
    forall j | 0 <= j < |r| ensures Leq(s[0], r[j]) {
      assert r[j] in multiset(r);
      if r[j] != x {
        assert r[j] in s[1..];
      }
    }
    assert s == [s[0]] + s[1..];
  }

  /** What std::sort leaves behind. */
  function Sort(s: seq<Topic>): (r: seq<Topic>)
    ensures Sorted(r) && multiset(r) == multiset(s)
    decreases |s|
  {
    if s == [] then []
    else
      assert s == [s[0]] + s[1..];
      Insert(s[0], Sort(s[1..]))
  }

  lemma {:induction false} WithoutFirst(s: seq<Topic>)
    requires s != []
    ensures multiset(s[1..]) == multiset(s) - multiset{s[0]}
  {
    assert s == [s[0]] + s[1..];
  }

  lemma {:induction false} SameFirst(s: seq<Topic>, t: seq<Topic>)
    requires s != [] && t != [] && Sorted(s) && Sorted(t) && multiset(s) == multiset(t)
    ensures s[0] == t[0]
  {
    assert s[0] in multiset(t) && t[0] in multiset(s);
    FirstIsLeast(s, t[0]);
    FirstIsLeast(t, s[0]);
    LeqAntisymmetric(s[0], t[0]);
  }

  /** A multiset of topics has only one sorted listing. */
  lemma {:induction false} SortedListingUnique(s: seq<Topic>, t: seq<Topic>)
    requires Sorted(s) && Sorted(t) && multiset(s) == multiset(t)
    ensures s == t
    decreases |s|
  {
    assert |s| == |multiset(s)| && |multiset(t)| == |t|;
    if s != [] {
      SameFirst(s, t);
      WithoutFirst(s);
      WithoutFirst(t);
      SortedListingUnique(s[1..], t[1..]);
      assert s == [s[0]] + s[1..] && t == [t[0]] + t[1..];
    }
  }

  lemma {:induction false} LeqReflexive(a: Topic)
    ensures Leq(a, a)
  {
    LeqTotal(a, a);
  }

  lemma {:induction false} FirstIsLeast(s: seq<Topic>, x: Topic)
    requires s != [] && Sorted(s) && x in s
    ensures Leq(s[0], x)
  {
    LeqReflexive(x);
  }

  /** A sequence that names every element of a set once, as iterating over a hash table does. */
  ghost predicate Lists(s: seq<Topic>, topics: set<Topic>) {
    multiset(s) == multiset(topics)
  }

  ghost function SortedListing(topics: set<Topic>): (r: seq<Topic>)
    ensures Sorted(r) && Lists(r, topics)
    decreases |topics|
  {
    if topics == {} then []
    else
      var x :| x in topics;
      assert multiset(topics) == multiset(topics - {x}) + multiset{x};
      Insert(x, SortedListing(topics - {x}))
  }

  /** The advertised hash of a topic set. */
  ghost function HashOf(topics: set<Topic>): bv64 {
    Crc(Join(SortedListing(topics)))
  }

  /** Every iteration order of the same topic set hashes to the same value. */
  lemma {:induction false} HashIgnoresOrder(s: seq<Topic>, topics: set<Topic>)
    requires Lists(s, topics)
    ensures Crc(Join(Sort(s))) == HashOf(topics)
  {
    SortedListingUnique(Sort(s), SortedListing(topics));
  }

  lemma {:induction false} ListingIs(s: seq<Topic>, topics: set<Topic>)
    requires Sorted(s) && Lists(s, topics)
    ensures SortedListing(topics) == s
  {
    SortedListingUnique(s, SortedListing(topics));
  }

  lemma {:induction false} PairLists(x: Topic, y: Topic)
    requires x != y
    ensures Lists([x, y], {x, y})
  {}

  lemma {:induction false} PairListing(x: Topic, y: Topic)
    requires x != y && Leq(x, y)
    ensures SortedListing({x, y}) == [x, y]
  {
    PairLists(x, y);
    assert Sorted([x, y]);
    ListingIs([x, y], {x, y});
  }

  lemma {:induction false} PairHash(x: Topic, y: Topic)
    requires x != y && Leq(x, y)
    ensures HashOf({x, y}) == Crc(x + y)
  {
    PairListing(x, y);
    assert Join([x, y]) == x + Join([y]) && Join([y]) == y + Join([]);
    assert x + y == Join([x, y]);
  }

  /**
   The join has no separator: any two sorted pairs of topics that concatenate to the same
   bytes share a hash, so the hash does not determine the set.
   */
  lemma {:induction false} HashCollision(x: Topic, y: Topic, u: Topic, v: Topic)
    requires x != y && Leq(x, y) && u != v && Leq(u, v)
    requires x + y == u + v && x != u
    ensures {x, y} != {u, v} && HashOf({x, y}) == HashOf({u, v})
  {
    PairHash(x, y);
    PairHash(u, v);
    if {x, y} == {u, v} {
      assert u in {x, y} && v in {x, y};
      LeqAntisymmetric(x, y);
    }
  }

  /** For instance {"ab", "c"} and {"a", "bc"}. */
  lemma {:induction false} CollidingTopics() returns (x: Topic, y: Topic, u: Topic, v: Topic)
    ensures {x, y} != {u, v} && HashOf({x, y}) == HashOf({u, v})
  {
    x, y, u, v := [0x61, 0x62], [0x63], [0x61], [0x62, 0x63];
    assert |x| != |u|;
    HashCollision(x, y, u, v);
  }
}
