/** The hash table of a cache (util/cache.cc, class HandleTable): chained buckets, linked through the handles.

    Handles are numbered; what never changes about them is in `info`. */
module HandleTables {
  import opened DbFormat
  import opened Coding
  import opened Rings

  datatype Info = Info(key: Bytes, hash: uint32, value: int, charge: nat)

  const NULL: int := -1

  /** Where a pointer to a handle is stored. */
  datatype Slot = Bucket(b: nat) | Field(h: nat)

  // ----- chains -----

  function HeadOf(chain: seq<nat>): int {
    if chain == [] then NULL else chain[0] as int
  }

  function NextIn(chain: seq<nat>, i: nat): int
    requires i < |chain|
  {
    if i + 1 < |chain| then chain[i + 1] as int else NULL
  }

  ghost predicate Link(links: map<nat, int>, chain: seq<nat>, i: nat)
    requires i < |chain|
  {
    chain[i] in links && links[chain[i]] == NextIn(chain, i)
  }

  /** Following the links from `start` gives the handles of `chain`, each once. */
  ghost predicate Chain(start: int, links: map<nat, int>, chain: seq<nat>) {
    start == HeadOf(chain) && Once(chain) && forall i | 0 <= i < |chain| :: Link(links, chain, i)
  }

  lemma ChainFrame(start: int, links: map<nat, int>, links': map<nat, int>, chain: seq<nat>)
    requires Chain(start, links, chain) && forall h | h in chain && h in links :: h in links' && links'[h] == links[h]
    ensures Chain(start, links', chain)
  {
    forall i | 0 <= i < |chain|
      ensures Link(links', chain, i)
    {
      assert Link(links, chain, i) && chain[i] in chain;
    }
  }

  /** The slot that points at position `k` of a chain. */
  ghost predicate PointsAt(slot: Slot, b: nat, chain: seq<nat>, k: nat) {
    && k <= |chain| && (if k == 0 then slot == Bucket(b) else slot == Field(chain[k - 1]))
  }

  /** A chain whose slot at `k` is made to point to `x`, which goes on as the chain did from `m`. */
  function Spliced(chain: seq<nat>, k: nat, x: seq<nat>, m: nat): seq<nat>
    requires k <= m <= |chain|
  {
    chain[..k] + x + chain[m..]
  }

  function StoreLink(links: map<nat, int>, slot: Slot, x: int): map<nat, int> {
    if slot.Field? then links[slot.h := x] else links
  }

  function SpliceLinks(links: map<nat, int>, x: seq<nat>, rest: int, slot: Slot): map<nat, int> {
    if x == [] then StoreLink(links, slot, rest) else StoreLink(links[x[0] := rest], slot, x[0])
  }

  lemma SplicedLink(links: map<nat, int>, chain: seq<nat>, k: nat, x: seq<nat>, m: nat, slot: Slot, b: nat, i: nat)
    requires Once(chain) && k <= m <= |chain| && PointsAt(slot, b, chain, k)
    requires forall j | 0 <= j < |chain| :: Link(links, chain, j)
    requires |x| <= 1 && forall h | h in x :: h !in chain
    requires i < |Spliced(chain, k, x, m)|
    ensures Link(SpliceLinks(links, x, HeadOf(chain[m..]), slot), Spliced(chain, k, x, m), i)
  {
    var c, links' := Spliced(chain, k, x, m), SpliceLinks(links, x, HeadOf(chain[m..]), slot);
    assert x != [] ==> x[0] in x;
    assert HeadOf(chain[m..]) == if m < |chain| then chain[m] as int else NULL;
    if i < k {
      assert c[i] == chain[i] && chain[i] in chain && Link(links, chain, i);
      assert i < k - 1 ==> c[i + 1] == chain[i + 1] && chain[i] != chain[k - 1];
    } else if i < k + |x| {
      assert c[i] == x[0] && (i + 1 < |c| ==> c[i + 1] == chain[m]);
      assert 0 < k ==> chain[k - 1] in chain;
    } else {
      var j := i - k - |x| + m;
      assert c[i] == chain[j] && chain[j] in chain && Link(links, chain, j);
      assert i + 1 < |c| ==> c[i + 1] == chain[j + 1];
      assert 0 < k ==> chain[k - 1] != chain[j];
    }
  }

  lemma SplicedOnce(chain: seq<nat>, k: nat, x: seq<nat>, m: nat)
    requires Once(chain) && k <= m <= |chain| && |x| <= 1 && forall h | h in x :: h !in chain
    ensures Once(Spliced(chain, k, x, m))
  {
    assert x != [] ==> x[0] in x;
    assert forall j | 0 <= j < |chain| :: chain[j] in chain;
  }

  lemma ChainSplice(start: int, links: map<nat, int>, chain: seq<nat>, k: nat, x: seq<nat>, m: nat, slot: Slot, b: nat)
    requires Chain(start, links, chain) && k <= m <= |chain| && PointsAt(slot, b, chain, k)
    requires |x| <= 1 && forall h | h in x :: h !in chain
    ensures Chain(if k == 0 then HeadOf(x + chain[m..]) else start,
                  SpliceLinks(links, x, HeadOf(chain[m..]), slot), Spliced(chain, k, x, m))
  {
    SplicedOnce(chain, k, x, m);
    forall i | 0 <= i < |Spliced(chain, k, x, m)|
      ensures Link(SpliceLinks(links, x, HeadOf(chain[m..]), slot), Spliced(chain, k, x, m), i)
    {
      SplicedLink(links, chain, k, x, m, slot, b, i);
    }
  }

  // ----- the table -----

  predicate PowerOfTwo(n: nat) {
    n == 1 || (0 < n && n % 2 == 0 && PowerOfTwo(n / 2))
  }

  predicate Matches(i: Info, key: Bytes, hash: uint32) {
    i.hash == hash && i.key == key
  }

  ghost predicate Buckets(list: seq<int>, links: map<nat, int>, chains: seq<seq<nat>>) {
    |list| == |chains| && forall b | 0 <= b < |chains| :: Chain(list[b], links, chains[b])
  }

  /** `hash & (n - 1)`, `n` being a power of two. */
  function BucketIn(n: nat, hash: uint32): (b: nat)
    requires 0 < n
    ensures b < n
  {
    hash % n
  }

  predicate InPlace(info: seq<Info>, n: nat, b: nat, h: nat) {
    0 < n && h < |info| && BucketIn(n, info[h].hash) == b
  }

  /** Every handle is in the chain its hash says. */
  ghost predicate Placed(info: seq<Info>, chains: seq<seq<nat>>) {
    0 < |chains| && forall b, h {:trigger h in chains[b]} | 0 <= b < |chains| && h in chains[b] :: InPlace(info, |chains|, b, h)
  }

  ghost predicate Collects(chains: seq<seq<nat>>, members: set<nat>) {
    && (forall b, h {:trigger h in chains[b]} | 0 <= b < |chains| && h in chains[b] :: h in members)
    && (forall h | h in members :: InSome(chains, h))
  }

  ghost predicate InSome(chains: seq<seq<nat>>, h: nat) {
    exists b :: 0 <= b < |chains| && h in chains[b]
  }

  /** No two members have the same key. */
  ghost predicate Distinct(info: seq<Info>, members: set<nat>) {
    && (forall h | h in members :: h < |info|)
    && (forall g, h | g in members && h in members && Matches(info[g], info[h].key, info[h].hash) :: g == h)
  }

  lemma InOwnChain(info: seq<Info>, chains: seq<seq<nat>>, members: set<nat>, h: nat)
    requires Placed(info, chains) && Collects(chains, members) && h in members
    ensures h < |info| && h in chains[BucketIn(|chains|, info[h].hash)]
  {
    assert InSome(chains, h);
  }

  /** Splicing one chain puts `x` in and takes the handles from k up to m out. */
  lemma SpliceMembers(info: seq<Info>, chains: seq<seq<nat>>, members: set<nat>, b: nat, k: nat, x: seq<nat>, m: nat)
    requires Placed(info, chains) && Collects(chains, members) && b < |chains| && k <= m <= |chains[b]| && m <= k + 1
    requires Once(chains[b]) && |x| <= 1 && forall h | h in x :: h < |info| && BucketIn(|chains|, info[h].hash) == b
    ensures var chains' := chains[b := Spliced(chains[b], k, x, m)];
            var members' := members - (if k < m then {chains[b][k]} else {}) + (if x == [] then {} else {x[0]});
            Placed(info, chains') && Collects(chains', members')
  {
    var chain := chains[b];
    var c := Spliced(chain, k, x, m);
    var chains' := chains[b := c];
    var members' := members - (if k < m then {chain[k]} else {}) + (if x == [] then {} else {x[0]});
    assert x != [] ==> x[0] in x;
    forall h: nat
      ensures h in c <==> (h in chain && !(k < m && h == chain[k])) || (x != [] && h == x[0])
    {
      SplicedHas(chain, k, x, m, h);
    }
    forall h | h in members'
      ensures InSome(chains', h)
    {
      if x != [] && h == x[0] {
        assert h in chains'[b];
      } else {
        assert InSome(chains, h);
        var d :| 0 <= d < |chains| && h in chains[d];
        assert h in chains'[d];
      }
    }
    forall d, h | 0 <= d < |chains'| && h in chains'[d]
      ensures h in members'
    {
      if d != b {
        assert h in chains[d] && (k < m ==> chain[k] in chains[b]);
      }
    }
  }

  lemma SplicedHas(chain: seq<nat>, k: nat, x: seq<nat>, m: nat, h: nat)
    requires Once(chain) && k <= m <= |chain| && m <= k + 1 && |x| <= 1
    ensures h in Spliced(chain, k, x, m) <==> (h in chain && !(k < m && h == chain[k])) || (x != [] && h == x[0])
  {
    var c := Spliced(chain, k, x, m);
    if h in chain && !(k < m && h == chain[k]) {
      var i :| 0 <= i < |chain| && chain[i] == h;
      assert i < k ==> c[i] == h;
      assert m <= i ==> c[i - m + k + |x|] == h;
    }
    if x != [] {
      assert c[k] == x[0];
    }
  }

  /** The change of one bucket at a slot, seen in all of them. */
  lemma Respliced(list: seq<int>, links: map<nat, int>, info: seq<Info>, chains: seq<seq<nat>>, members: set<nat>,
                  b: nat, k: nat, x: seq<nat>, m: nat, slot: Slot)
    requires Buckets(list, links, chains) && Placed(info, chains) && Collects(chains, members)
    requires b < |chains| && k <= m <= |chains[b]| && m <= k + 1 && PointsAt(slot, b, chains[b], k)
    requires |x| <= 1 && forall h | h in x :: h !in members
    ensures var chains' := chains[b := Spliced(chains[b], k, x, m)];
            var links' := SpliceLinks(links, x, HeadOf(chains[b][m..]), slot);
            Buckets(if k == 0 then list[b := HeadOf(x + chains[b][m..])] else list, links', chains')
  {
    var chain, links' := chains[b], SpliceLinks(links, x, HeadOf(chains[b][m..]), slot);
    assert Chain(list[b], links, chain);
    ChainSplice(list[b], links, chain, k, x, m, slot, b);
    assert x != [] ==> x[0] in x;
    assert 0 < k ==> chain[k - 1] in chain;
    forall d | 0 <= d < |chains| && d != b
      ensures Chain(list[d], links', chains[d])
    {
      ChainFrame(list[d], links, links', chains[d]);
    }
  }

  lemma EmptyBuckets(info: seq<Info>, n: nat, links: map<nat, int>)
    requires 0 < n
    ensures var list, chains := seq(n, _ => NULL), seq(n, _ => []);
            Buckets(list, links, chains) && Placed(info, chains) && Collects(chains, {})
  {
  }

  /** Buckets do not share handles. */
  lemma BucketsApart(info: seq<Info>, chains: seq<seq<nat>>, i: nat, moved: set<nat>, h: nat)
    requires Placed(info, chains) && i < |chains| && h in chains[i] && forall g | g in moved :: InSome(chains[..i], g)
    ensures h !in moved
  {
    assert InPlace(info, |chains|, i, h);
    forall d | 0 <= d < i
      ensures h !in chains[..i][d]
    {
      assert h in chains[d] ==> d == i;
    }
  }

  lemma OneMoreBucket(chains: seq<seq<nat>>, i: nat, moved: set<nat>, chain: seq<nat>)
    requires i < |chains| && chain == chains[i] && Collects(chains[..i], moved)
    ensures Collects(chains[..i + 1], moved + set h | h in chain)
  {
    var moved' := moved + set h | h in chain;
    forall h | h in moved'
      ensures InSome(chains[..i + 1], h)
    {
      if h in chain {
        assert h in chains[..i + 1][i];
      } else {
        assert InSome(chains[..i], h);
        var d :| 0 <= d < i && h in chains[..i][d];
        assert h in chains[..i + 1][d];
      }
    }
    var c := chains[..i + 1];
    forall d, h | 0 <= d < i + 1 && h in c[d]
      ensures h in moved'
    {
      assert d < i ==> h in chains[..i][d];
    }
  }

  lemma SameCollection(chains: seq<seq<nat>>, a: set<nat>, b: set<nat>)
    requires Collects(chains, a) && Collects(chains, b)
    ensures a == b
  {
    forall h
      ensures h in a <==> h in b
    {
      if h in a {
        assert InSome(chains, h);
      }
      if h in b {
        assert InSome(chains, h);
      }
    }
  }

  lemma ReplacedDistinct(info: seq<Info>, members: set<nat>, h: nat, old': int)
    requires Distinct(info, members) && h < |info| && h !in members
    requires if old' == NULL then forall g | g in members :: !Matches(info[g], info[h].key, info[h].hash)
             else 0 <= old' < |info| && old' in members && Matches(info[old'], info[h].key, info[h].hash)
    ensures old' == NULL ==> Distinct(info, members + {h}) && |members + {h}| == |members| + 1
    ensures old' != NULL ==> Distinct(info, members - {old' as nat} + {h}) && |members - {old' as nat} + {h}| == |members|
  {
  }

  class HandleTable {
    var length: nat
    var elems: nat
    var list: seq<int>
    var links: map<nat, int>
    ghost var chains: seq<seq<nat>>
    ghost var members: set<nat>

    ghost predicate Shape(info: seq<Info>)
      reads this
    {
      && length == |list| && PowerOfTwo(length)
      && Buckets(list, links, chains) && Placed(info, chains) && Collects(chains, members)
    }

    ghost predicate Counted(info: seq<Info>)
      reads this
    {
      Shape(info) && Distinct(info, members) && elems == |members|
    }

    /** There are at least as many buckets as handles: lists have a length of at most 1 on the average. */
    ghost predicate Valid(info: seq<Info>)
      reads this
    {
      Counted(info) && elems <= length && 4 <= length
    }

    function BucketOf(hash: uint32): (b: nat)
      requires 0 < length
      reads `length
      ensures b < length
    {
      BucketIn(length, hash)
    }

    /** Handle `i` of a bucket is a known one. */
    lemma Known(info: seq<Info>, b: nat, i: nat)
      requires Shape(info) && b < length && i < |chains[b]|
      ensures chains[b][i] < |info| && InPlace(info, length, b, chains[b][i]) && chains[b][i] in members
    {
      assert chains[b][i] in chains[b];
    }

    /** None of the first `k` handles of the bucket has this key. */
    ghost predicate NoneUpTo(info: seq<Info>, b: nat, k: nat, key: Bytes, hash: uint32)
      requires b < |chains| && k <= |chains[b]|
      reads `chains
    {
      forall i | 0 <= i < k :: chains[b][i] < |info| && !Matches(info[chains[b][i]], key, hash)
    }

    /** The slot that points to the handle with this key, or the last slot of the bucket; `k` is its place there. */
    method FindPointer(info: seq<Info>, key: Bytes, hash: uint32) returns (slot: Slot, ptr: int, ghost k: nat)
      requires Shape(info)
      ensures var chain := chains[BucketOf(hash)];
              PointsAt(slot, BucketOf(hash), chain, k) && k <= |chain| && ptr == HeadOf(chain[k..])
      ensures NoneUpTo(info, BucketOf(hash), k, key, hash)
      ensures ptr != NULL ==> 0 <= ptr < |info| && k < |chains[BucketOf(hash)]| && ptr == chains[BucketOf(hash)][k]
                              && Matches(info[ptr], key, hash)
      ensures ptr == NULL ==> k == |chains[BucketOf(hash)]|
    {
      var b := BucketOf(hash);
      ghost var chain := chains[b];
      slot, ptr, k := Bucket(b), list[b], 0;
      assert Chain(list[b], links, chain) && chain[0..] == chain;
      if chain != [] {
        Known(info, b, 0);
      }
      while ptr != NULL && !Matches(info[ptr], key, hash)
        invariant PointsAt(slot, b, chain, k) && k <= |chain| && ptr == HeadOf(chain[k..])
        invariant k < |chain| ==> chain[k] < |info|
        invariant NoneUpTo(info, b, k, key, hash)
        decreases |chain| - k
      {
        assert Link(links, chain, k);
        slot, ptr, k := Field(ptr), links[ptr], k + 1;
        if k < |chain| {
          Known(info, b, k);
        }
      }
    }

    method Store(slot: Slot, x: int)
      requires slot.Bucket? ==> slot.b < |list|
      modifies this`list, this`links
      ensures list == if slot.Bucket? then old(list)[slot.b := x] else old(list)
      ensures links == StoreLink(old(links), slot, x)
    {
      match slot {
        case Bucket(b) => list := list[b := x];
        case Field(h) => links := links[h := x];
      }
    }

    lemma NoMatch(info: seq<Info>, key: Bytes, hash: uint32)
      requires Shape(info)
      requires NoneUpTo(info, BucketOf(hash), |chains[BucketOf(hash)]|, key, hash)
      ensures forall h | h in members :: h < |info| && !Matches(info[h], key, hash)
    {
      forall h | h in members
        ensures h < |info| && !Matches(info[h], key, hash)
      {
        InOwnChain(info, chains, members, h);
        var b := BucketIn(|chains|, info[h].hash);
        var i :| 0 <= i < |chains[b]| && chains[b][i] == h;
      }
    }

    /** The member with this key, or NULL. */
    method Lookup(info: seq<Info>, key: Bytes, hash: uint32) returns (r: int)
      requires Shape(info)
      ensures if r == NULL then forall h | h in members :: h < |info| && !Matches(info[h], key, hash)
              else 0 <= r < |info| && r in members && Matches(info[r], key, hash)
    {
      ghost var k;
      var slot;
      slot, r, k := FindPointer(info, key, hash);
      if r == NULL {
        NoMatch(info, key, hash);
      } else {
        Known(info, BucketOf(hash), k);
      }
    }

    /** Makes a slot point to `x`, or past the handle it points to. */
    method SpliceAt(info: seq<Info>, slot: Slot, x: seq<nat>, rest: int, ghost b: nat, ghost k: nat, ghost m: nat)
      requires Shape(info) && b < |chains| && k <= m <= |chains[b]| && m <= k + 1 && PointsAt(slot, b, chains[b], k)
      requires |x| <= 1 && forall h | h in x :: h !in members && h < |info| && BucketIn(|chains|, info[h].hash) == b
      requires rest == HeadOf(chains[b][m..])
      modifies this`list, this`links, this`chains, this`members
      ensures Shape(info)
      ensures members == old(members) - (if k < m then {old(chains)[b][k]} else {}) + (if x == [] then {} else {x[0]})
    {
      Respliced(list, links, info, chains, members, b, k, x, m, slot);
      SpliceMembers(info, chains, members, b, k, x, m);
      ghost var chain := chains[b];
      assert Chain(list[b], links, chain);
      assert x == [] ==> x + chain[m..] == chain[m..];
      if x == [] {
        Store(slot, rest);
      } else {
        links := links[x[0] := rest];
        Store(slot, x[0]);
      }
      chains := chains[b := Spliced(chain, k, x, m)];
      members := members - (if k < m then {chain[k]} else {}) + (if x == [] then {} else {x[0]});
    }

    lemma RestOf(b: nat, k: nat)
      requires Buckets(list, links, chains) && b < |chains| && k < |chains[b]|
      ensures chains[b][k] in links && links[chains[b][k]] == HeadOf(chains[b][k + 1..])
    {
      assert Chain(list[b], links, chains[b]) && Link(links, chains[b], k);
    }

    /** Adds a handle; the one it replaces, if any, is returned. */
    method InsertHandle(info: seq<Info>, h: nat) returns (old': int)
      requires Shape(info) && Distinct(info, members) && h < |info| && h !in members
      modifies this`list, this`links, this`chains, this`members
      ensures Shape(info)
      ensures if old' == NULL then members == old(members) + {h}
                                   && forall g | g in old(members) :: g < |info| && !Matches(info[g], info[h].key, info[h].hash)
              else 0 <= old' && old' in old(members) && members == old(members) - {old' as nat} + {h}
                   && old' < |info| && Matches(info[old'], info[h].key, info[h].hash)
    {
      var slot, ptr;
      ghost var k;
      slot, ptr, k := FindPointer(info, info[h].key, info[h].hash);
      old' := ptr;
      ghost var b := BucketOf(info[h].hash);
      var rest := NULL;
      if old' == NULL {
        NoMatch(info, info[h].key, info[h].hash);
      } else {
        Known(info, b, k);
        RestOf(b, k);
        rest := links[old'];
      }
      SpliceAt(info, slot, [h], rest, b, k, if old' == NULL then k else k + 1);
    }

    method RemoveHandle(info: seq<Info>, key: Bytes, hash: uint32) returns (r: int)
      requires Shape(info)
      modifies this`list, this`links, this`chains, this`members
      ensures Shape(info)
      ensures if r == NULL then members == old(members) && forall g | g in members :: g < |info| && !Matches(info[g], key, hash)
              else 0 <= r && r in old(members) && members == old(members) - {r as nat}
                   && r < |info| && Matches(info[r], key, hash)
    {
      var slot;
      ghost var k;
      slot, r, k := FindPointer(info, key, hash);
      if r == NULL {
        NoMatch(info, key, hash);
        return;
      }
      Known(info, BucketOf(hash), k);
      RestOf(BucketOf(hash), k);
      SpliceAt(info, slot, [], links[r], BucketOf(hash), k, k + 1);
    }

    method Remove(info: seq<Info>, key: Bytes, hash: uint32) returns (r: int)
      requires Valid(info)
      modifies this`list, this`links, this`chains, this`members, this`elems
      ensures Valid(info)
      ensures if r == NULL then members == old(members) && forall g | g in members :: g < |info| && !Matches(info[g], key, hash)
              else 0 <= r && r in old(members) && members == old(members) - {r as nat}
                   && r < |info| && Matches(info[r], key, hash)
    {
      r := RemoveHandle(info, key, hash);
      if r != NULL {
        elems := elems - 1;
      }
    }

    /** Moves the handles of one old bucket to the fronts of their new ones. */
    method MoveBucket(info: seq<Info>, start: int, newList: seq<int>,
                      ghost chain: seq<nat>, ghost newChains: seq<seq<nat>>, ghost moved: set<nat>)
        returns (list': seq<int>, ghost chains': seq<seq<nat>>)
      requires Chain(start, links, chain) && forall h | h in chain :: h < |info| && h !in moved
      requires Buckets(newList, links, newChains) && Placed(info, newChains) && Collects(newChains, moved)
      modifies `links
      ensures Buckets(list', links, chains') && Placed(info, chains') && |list'| == |newList|
      ensures Collects(chains', moved + set h | h in chain)
      ensures forall g | g in old(links) && g !in chain :: g in links && links[g] == old(links)[g]
    {
      var h := start;
      list', chains' := newList, newChains;
      ghost var p, now := 0, moved;
      assert chain[0..] == chain;
      while h != NULL
        invariant p <= |chain| && h == HeadOf(chain[p..]) && |list'| == |newList|
        invariant forall i | p <= i < |chain| :: Link(links, chain, i)
        invariant now == moved + set i | 0 <= i < p :: chain[i]
        invariant Buckets(list', links, chains') && Placed(info, chains') && Collects(chains', now)
        invariant forall g | g in old(links) && g !in chain :: g in links && links[g] == old(links)[g]
        decreases |chain| - p
      {
        assert Link(links, chain, p) && chain[p] in chain;
        var next := links[h];
        var b := BucketIn(|list'|, info[h].hash);
        Respliced(list', links, info, chains', now, b, 0, [h as nat], 0, Bucket(b));
        SpliceMembers(info, chains', now, b, 0, [h as nat], 0);
        assert Chain(list'[b], links, chains'[b]) && chains'[b][0..] == chains'[b];
        ghost var before := links;
        links := links[h as nat := list'[b]];
        list' := list'[b := h];
        chains' := chains'[b := Spliced(chains'[b], 0, [h as nat], 0)];
        now := now - {} + {h as nat};
        forall i | p + 1 <= i < |chain|
          ensures Link(links, chain, i)
        {
          assert Link(before, chain, i);
        }
        h, p := next, p + 1;
      }
      assert (set i | 0 <= i < |chain| :: chain[i]) == set h | h in chain;
    }

    /** Twice the size until it fits and no further, and every handle in its new place: the contents are unchanged. */
    method Resize(info: seq<Info>)
      requires Shape(info)
      modifies `list, `links, `length, `chains
      ensures Shape(info) && elems <= length && 4 <= length && (length == 4 || length < 2 * elems)
    {
      var newLength := 4;
      while newLength < elems
        invariant PowerOfTwo(newLength) && 4 <= newLength && (newLength == 4 || newLength < 2 * elems)
      {
        newLength := newLength * 2;
      }
      EmptyBuckets(info, newLength, links);
      var newList := seq(newLength, _ => NULL);
      ghost var newChains, moved := seq(newLength, _ => []), {};
      for i := 0 to length
        invariant |newList| == newLength && length == |list|
        invariant list == old(list) && chains == old(chains) && members == old(members) && length == old(length)
        invariant Buckets(newList, links, newChains) && Placed(info, newChains) && Collects(newChains, moved)
        invariant Collects(chains[..i], moved)
        invariant forall d | i <= d < length :: Chain(list[d], links, chains[d])
      {
        forall h | h in chains[i]
          ensures h < |info| && h !in moved
        {
          BucketsApart(info, chains, i, moved, h);
        }
        ghost var before := links;
        newList, newChains := MoveBucket(info, list[i], newList, chains[i], newChains, moved);
        forall d | i < d < length
          ensures Chain(list[d], links, chains[d])
        {
          forall h | h in chains[d]
            ensures h !in chains[i]
          {
            assert h in chains[i] ==> InPlace(info, |chains|, i, h);
          }
          ChainFrame(list[d], before, links, chains[d]);
        }
        OneMoreBucket(chains, i, moved, chains[i]);
        moved := moved + set h | h in chains[i];
      }
      assert chains[..length] == chains;
      SameCollection(chains, members, moved);
      list, length, chains := newList, newLength, newChains;
    }

    /** More handles may be allocated. */
    lemma InfoGrows(info: seq<Info>, info': seq<Info>)
      requires Valid(info) && info <= info'
      ensures Valid(info')
    {
      forall b, h {:trigger h in chains[b]} | 0 <= b < |chains| && h in chains[b]
        ensures InPlace(info', |chains|, b, h)
      {
        assert InPlace(info, |chains|, b, h);
      }
    }

    constructor ()
      ensures forall info :: Valid(info)
      ensures members == {}
    {
      length, elems, list, links := 4, 0, seq(4, _ => NULL), map[];
      chains, members := seq(4, _ => []), {};
      new;
      assert PowerOfTwo(2);
    }

    method InsertUnique(info: seq<Info>, h: nat) returns (old': int)
      requires Valid(info) && h < |info| && h !in members
      modifies this
      ensures Counted(info) && length == old(length) && elems == old(elems) + if old' == NULL then 1 else 0
      ensures old' == NULL ==> members == old(members) + {h}
      ensures old' == NULL ==> forall g | g in old(members) :: g < |info| && !Matches(info[g], info[h].key, info[h].hash)
      ensures old' != NULL ==> 0 <= old' < |info| && old' in old(members) && members == old(members) - {old' as nat} + {h}
                               && Matches(info[old'], info[h].key, info[h].hash)
    {
      old' := InsertHandle(info, h);
      ReplacedDistinct(info, old(members), h, old');
      if old' == NULL {
        elems := elems + 1;
      }
    }

    /** Adds a handle; the one it replaces, if any, is returned. */
    method Insert(info: seq<Info>, h: nat) returns (old': int)
      requires Valid(info) && h < |info| && h !in members
      modifies this
      ensures Valid(info)
      ensures old' == NULL ==> members == old(members) + {h}
      ensures old' == NULL ==> forall g | g in old(members) :: g < |info| && !Matches(info[g], info[h].key, info[h].hash)
      ensures old' != NULL ==> 0 <= old' < |info| && old' in old(members) && members == old(members) - {old' as nat} + {h}
                               && Matches(info[old'], info[h].key, info[h].hash)
    {
      old' := InsertUnique(info, h);
      if old' == NULL && elems > length {
        Resize(info);
      }
    }
  }
}
