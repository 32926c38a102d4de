/** The skip list under a memtable (db/skiplist.h): one writer, readers at every moment of an insertion.

    Nodes live in an arena and are named by their index in it; `next[n]` is the array of links of node `n`. */
module SkipLists {
  import opened DbFormat

  const MAX_HEIGHT := 12
  const HEAD: int := 0
  const NULL: int := -1

  /** One moment of the list's memory. */
  datatype List = List(entries: seq<Entry>, next: seq<seq<int>>, maxHeight: nat)

  // ----- order and links -----

  predicate Before(es: seq<Entry>, n: int, m: int) {
    0 <= n < |es| && 0 < m < |es| && (n == HEAD || Less(es[n].key, es[m].key))
  }

  /** A search target; None is past every key. */
  predicate Under(key: InternalKey, target: Option<InternalKey>) {
    target.None? || Less(key, target.value)
  }

  ghost predicate IsSuccessor(es: seq<Entry>, linked: set<int>, n: int, m: int) {
    if m == NULL then
      forall k | k in linked :: !Before(es, n, k)
    else
      && m in linked && Before(es, n, m)
      && forall k | k in linked && Before(es, n, k) :: k == m || Before(es, m, k)
  }

  ghost predicate OnLevel(linked: set<int>, n: int) {
    n == HEAD || n in linked
  }

  /** Level `h` is the sorted list of `linked`: each node points at its successor. */
  ghost predicate LevelOk(l: List, linked: set<int>, h: nat) {
    forall n | OnLevel(linked, n) ::
      0 <= n < |l.next| && h < |l.next[n]| && IsSuccessor(l.entries, linked, n, l.next[n][h])
  }

  ghost predicate Distinct(es: seq<Entry>, linked: set<int>) {
    forall n, m | n in linked && m in linked && n != m :: Before(es, n, m) || Before(es, m, n)
  }

  ghost predicate Ok(l: List, linked: seq<set<int>>) {
    && 0 < |l.entries| == |l.next| && |linked| == MAX_HEIGHT && 1 <= l.maxHeight <= MAX_HEIGHT
    && (forall h, n | 0 <= h < MAX_HEIGHT && n in linked[h] :: 0 < n < |l.entries|)
    && (forall h | 0 < h < MAX_HEIGHT :: linked[h] <= linked[h - 1])
    && (forall h | l.maxHeight <= h < MAX_HEIGHT :: linked[h] == {})
    && Distinct(l.entries, linked[0])
    && (forall h | 0 <= h < MAX_HEIGHT :: LevelOk(l, linked[h], h))
  }

  lemma {:induction false} InBottom(l: List, linked: seq<set<int>>, h: nat)
    requires Ok(l, linked) && h < MAX_HEIGHT
    ensures linked[h] <= linked[0]
  {
    if 0 < h {
      InBottom(l, linked, h - 1);
    }
  }

  // ----- what a search must answer -----

  /** `x` is the last node under the target, `r` the first one not under it. */
  ghost predicate Splits(l: List, linked: set<int>, target: Option<InternalKey>, x: int, r: int) {
    && OnLevel(linked, x) && 0 <= x < |l.entries| && (x != HEAD ==> Under(l.entries[x].key, target))
    && (r != NULL ==> r in linked && 0 < r < |l.entries| && !Under(l.entries[r].key, target))
    && (forall k | k in linked && 0 < k < |l.entries| && Under(l.entries[k].key, target) :: k == x || Before(l.entries, k, x))
    && (forall k | k in linked && 0 < k < |l.entries| && !Under(l.entries[k].key, target) ::
          r != NULL && (k == r || Before(l.entries, r, k)))
  }

  /** A searching reader stands at `x` on level `h`. */
  ghost predicate Standing(l: List, linked: seq<set<int>>, target: Option<InternalKey>, x: int, h: nat)
    requires |linked| == MAX_HEIGHT
  {
    && h < MAX_HEIGHT && OnLevel(linked[h], x)
    && 0 <= x < |l.entries| && (x != HEAD ==> Under(l.entries[x].key, target))
  }

  lemma SplitsHere(l: List, linked: set<int>, target: Option<InternalKey>, x: int, h: nat)
    requires LevelOk(l, linked, h) && Distinct(l.entries, linked) && |l.entries| == |l.next|
    requires OnLevel(linked, x) && 0 <= x < |l.entries| && (x != HEAD ==> Under(l.entries[x].key, target))
    requires var r := l.next[x][h]; r == NULL || !Under(l.entries[r].key, target)
    ensures Splits(l, linked, target, x, l.next[x][h])
  {
    var r := l.next[x][h];
    assert IsSuccessor(l.entries, linked, x, r);
    forall k | k in linked && 0 < k < |l.entries|
      ensures Under(l.entries[k].key, target) ==> k == x || Before(l.entries, k, x)
      ensures !Under(l.entries[k].key, target) ==> r != NULL && (k == r || Before(l.entries, r, k))
    {
      if !Under(l.entries[k].key, target) {
        assert Before(l.entries, x, k);
      } else if k != x && x != HEAD {
        assert Before(l.entries, x, k) ==> r != NULL && (k == r || Before(l.entries, r, k));
      }
    }
  }

  // ----- the writer's stores, one memory write each -----

  function Raised(l: List, height: nat): List {
    l.(maxHeight := height)
  }

  function Allocated(l: List, e: Entry, height: nat): List {
    l.(entries := l.entries + [e], next := l.next + [seq(height, _ => NULL)])
  }

  function Stored(l: List, n: int, h: nat, m: int): List
    requires 0 <= n < |l.next| && h < |l.next[n]|
  {
    l.(next := l.next[n := l.next[n][h := m]])
  }

  lemma RaisedOk(l: List, linked: seq<set<int>>, height: nat)
    requires Ok(l, linked) && l.maxHeight <= height <= MAX_HEIGHT
    ensures Ok(Raised(l, height), linked)
  {
    forall h | 0 <= h < MAX_HEIGHT
      ensures LevelOk(Raised(l, height), linked[h], h)
    {
      assert LevelOk(l, linked[h], h);
    }
  }

  lemma SuccessorFrame(es: seq<Entry>, es': seq<Entry>, linked: set<int>, n: int, m: int)
    requires es <= es' && IsSuccessor(es, linked, n, m) && 0 <= n < |es|
    requires forall k | k in linked :: 0 < k < |es|
    ensures IsSuccessor(es', linked, n, m)
  {
    assert forall k | 0 <= k < |es| :: es[k] == es'[k];
    assert forall i, k | 0 <= i < |es| && 0 < k < |es| :: Before(es, i, k) == Before(es', i, k);
  }

  lemma AllocatedOk(l: List, linked: seq<set<int>>, e: Entry, height: nat)
    requires Ok(l, linked)
    ensures Ok(Allocated(l, e, height), linked)
  {
    var l' := Allocated(l, e, height);
    forall h | 0 <= h < MAX_HEIGHT
      ensures LevelOk(l', linked[h], h)
    {
      assert LevelOk(l, linked[h], h);
      forall n | OnLevel(linked[h], n)
        ensures IsSuccessor(l'.entries, linked[h], n, l.next[n][h])
      {
        SuccessorFrame(l.entries, l'.entries, linked[h], n, l.next[n][h]);
      }
    }
    assert Distinct(l'.entries, linked[0]) by {
      assert forall i, k | 0 <= i < |l.entries| && 0 < k < |l.entries| && Before(l.entries, i, k) :: Before(l'.entries, i, k);
    }
  }

  /** A store into a link that no reader follows yet. */
  lemma PrivateOk(l: List, linked: seq<set<int>>, x: int, h: nat, m: int)
    requires Ok(l, linked) && h < MAX_HEIGHT && 0 < x < |l.next| && h < |l.next[x]| && x !in linked[h]
    ensures Ok(Stored(l, x, h, m), linked)
  {
    var l' := Stored(l, x, h, m);
    forall g | 0 <= g < MAX_HEIGHT
      ensures LevelOk(l', linked[g], g)
    {
      assert LevelOk(l, linked[g], g);
      forall n | OnLevel(linked[g], n)
        ensures l'.next[n][g] == l.next[n][g]
      {
      }
    }
  }

  /** `p` is the last node of its level before `x`, and `x` already points past itself. */
  ghost predicate Fits(l: List, linked: set<int>, p: int, h: nat, x: int) {
    && OnLevel(linked, p) && 0 <= p < |l.next| && h < |l.next[p]| && 0 < x < |l.next| == |l.entries| && h < |l.next[x]|
    && x !in linked && Before(l.entries, p, x)
    && (l.next[p][h] != NULL ==> Before(l.entries, x, l.next[p][h]))
  }

  lemma SplicedSuccessor(es: seq<Entry>, linked: set<int>, p: int, x: int, s: int, n: int, m: int)
    requires Distinct(es, linked) && OnLevel(linked, p) && OnLevel(linked, n) && n != p && 0 <= n < |es|
    requires IsSuccessor(es, linked, p, s) && IsSuccessor(es, linked, n, m)
    requires x !in linked && Before(es, p, x) && (s != NULL ==> Before(es, x, s))
    ensures IsSuccessor(es, linked + {x}, n, m)
  {
    if Before(es, n, x) {
      // p lies between n and x
      assert p == HEAD ==> n in linked && Before(es, p, n);
      assert Before(es, p, n) ==> s != NULL && (n == s || Before(es, s, n));
      assert Before(es, n, p);
      assert m != NULL && (p == m || Before(es, m, p));
    }
  }

  lemma SplicedLevel(l: List, linked: set<int>, p: int, h: nat, x: int)
    requires |l.entries| == |l.next| && LevelOk(l, linked, h) && Distinct(l.entries, linked)
    requires Fits(l, linked, p, h, x) && l.next[x][h] == l.next[p][h]
    ensures LevelOk(Stored(l, p, h, x), linked + {x}, h)
  {
    var l', s := Stored(l, p, h, x), l.next[p][h];
    assert IsSuccessor(l.entries, linked, p, s);
    forall n | OnLevel(linked + {x}, n)
      ensures 0 <= n < |l'.next| && h < |l'.next[n]| && IsSuccessor(l.entries, linked + {x}, n, l'.next[n][h])
    {
      if n == p || n == x {
        forall k | k in linked && Before(l.entries, n, k)
          ensures Before(l.entries, p, k)
        {
        }
      } else {
        SplicedSuccessor(l.entries, linked, p, x, s, n, l.next[n][h]);
      }
    }
  }

  function Linked(linked: seq<set<int>>, h: nat, x: int): seq<set<int>>
    requires h < |linked|
  {
    linked[h := linked[h] + {x}]
  }

  /** The store that makes `x` reachable on level `h`. */
  lemma PublishedOk(l: List, linked: seq<set<int>>, p: int, h: nat, x: int)
    requires Ok(l, linked) && h < l.maxHeight && Fits(l, linked[h], p, h, x) && l.next[x][h] == l.next[p][h]
    requires 0 < h ==> x in linked[h - 1]
    requires h == 0 ==> forall k | k in linked[0] :: Before(l.entries, x, k) || Before(l.entries, k, x)
    ensures Ok(Stored(l, p, h, x), Linked(linked, h, x))
  {
    var l', linked' := Stored(l, p, h, x), Linked(linked, h, x);
    InBottom(l, linked, h);
    assert Distinct(l.entries, linked[h]);
    forall g | 0 <= g < MAX_HEIGHT
      ensures LevelOk(l', linked'[g], g)
    {
      assert LevelOk(l, linked[g], g);
      if g == h {
        SplicedLevel(l, linked[h], p, h, x);
      }
    }
  }

  // ----- a reader among the writer's stores -----

  /** A moment of the list, with the nodes reachable on each level. */
  datatype Moment = Moment(list: List, linked: seq<set<int>>)

  ghost predicate MomentOk(m: Moment) {
    Ok(m.list, m.linked)
  }

  /** What any store of the writer leaves in place. */
  ghost predicate Grows(a: Moment, b: Moment) {
    && a.list.entries <= b.list.entries && |a.linked| == |b.linked| == MAX_HEIGHT
    && forall h | 0 <= h < MAX_HEIGHT :: a.linked[h] <= b.linked[h]
  }

  datatype Reader = At(x: int, level: nat) | Done(before: int, found: int)

  /** One step of the search loop the three searches share: one link is read in the list `l`. */
  ghost predicate Reads(l: List, target: Option<InternalKey>, r: Reader, r': Reader) {
    && r.At? && 0 <= r.x < |l.next| && r.level < |l.next[r.x]|
    && var next := l.next[r.x][r.level];
       if next != NULL && 0 <= next < |l.entries| && Under(l.entries[next].key, target) then r' == At(next, r.level)
       else if r.level == 0 then r' == Done(r.x, next)
       else r' == At(r.x, r.level - 1)
  }

  /** Step `i` of a search reads the list as it is at moment `i`; the search begins in moment 0. */
  ghost predicate Search(moments: seq<Moment>, target: Option<InternalKey>, run: seq<Reader>) {
    && |run| == |moments| > 0
    && run[0] == At(HEAD, if moments[0].list.maxHeight == 0 then 0 else moments[0].list.maxHeight - 1)
    && forall i | 0 < i < |run| :: Reads(moments[i].list, target, run[i - 1], run[i])
  }

  ghost predicate Writing(moments: seq<Moment>) {
    && (forall i | 0 <= i < |moments| :: MomentOk(moments[i]))
    && (forall i | 0 < i < |moments| :: Grows(moments[i - 1], moments[i]))
  }

  ghost predicate ReaderOk(m: Moment, target: Option<InternalKey>, r: Reader)
    requires |m.linked| == MAX_HEIGHT
  {
    match r
    case At(x, h) => Standing(m.list, m.linked, target, x, h)
    case Done(x, n) => Splits(m.list, m.linked[0], target, x, n)
  }

  lemma StandingStays(a: Moment, b: Moment, target: Option<InternalKey>, x: int, h: nat)
    requires Grows(a, b) && Standing(a.list, a.linked, target, x, h)
    ensures Standing(b.list, b.linked, target, x, h)
  {
  }

  lemma ReadKeeps(m: Moment, target: Option<InternalKey>, r: Reader, r': Reader)
    requires MomentOk(m) && r.At? && Standing(m.list, m.linked, target, r.x, r.level)
    requires Reads(m.list, target, r, r')
    ensures ReaderOk(m, target, r')
  {
    var l, h := m.list, r.level;
    assert LevelOk(l, m.linked[h], h);
    assert IsSuccessor(l.entries, m.linked[h], r.x, l.next[r.x][h]);
    if r'.Done? {
      SplitsHere(l, m.linked[0], target, r.x, 0);
    }
  }

  /** A reader never leaves the arena: the link it reads next exists. */
  lemma ReaderSafe(m: Moment, target: Option<InternalKey>, r: Reader)
    requires MomentOk(m) && r.At? && Standing(m.list, m.linked, target, r.x, r.level)
    ensures 0 <= r.x < |m.list.next| && r.level < |m.list.next[r.x]|
  {
    assert LevelOk(m.list, m.linked[r.level], r.level);
  }

  /** Main result: however the writer's stores fall between the reads of a search, the search answers exactly for the
      nodes linked at level 0 at the moment of its last read. */
  lemma {:induction false} SearchIsExact(moments: seq<Moment>, target: Option<InternalKey>, run: seq<Reader>)
    requires Writing(moments) && Search(moments, target, run)
    ensures ReaderOk(moments[|moments| - 1], target, run[|run| - 1])
    decreases |run|
  {
    var n := |run| - 1;
    assert MomentOk(moments[n]);
    if 0 < n {
      assert MomentOk(moments[n - 1]);
      SearchIsExact(moments[..n], target, run[..n]);
      assert Reads(moments[n].list, target, run[n - 1], run[n]);
      StandingStays(moments[n - 1], moments[n], target, run[n - 1].x, run[n - 1].level);
      ReadKeeps(moments[n], target, run[n - 1], run[n]);
    }
  }

  /** A reader samples the moments in order; it may miss some and may look at one several times. */
  ghost predicate Schedule(times: seq<nat>, count: nat) {
    && (forall i | 0 <= i < |times| :: times[i] < count)
    && (forall i, j | 0 <= i <= j < |times| :: times[i] <= times[j])
  }

  function Sampled(trace: seq<Moment>, times: seq<nat>): seq<Moment>
    requires forall i | 0 <= i < |times| :: times[i] < |trace|
  {
    seq(|times|, i requires 0 <= i < |times| => trace[times[i]])
  }

  lemma {:induction false} GrowsFrom(trace: seq<Moment>, i: nat, j: nat)
    requires Writing(trace) && i <= j < |trace|
    ensures Grows(trace[i], trace[j])
    decreases j
  {
    assert MomentOk(trace[i]) && MomentOk(trace[j]);
    if i < j {
      GrowsFrom(trace, i, j - 1);
      var a, b, c := trace[i], trace[j - 1], trace[j];
      assert Grows(b, c);
      forall h | 0 <= h < MAX_HEIGHT
        ensures a.linked[h] <= c.linked[h]
      {
        assert a.linked[h] <= b.linked[h];
      }
    }
  }

  lemma SampledWriting(trace: seq<Moment>, times: seq<nat>)
    requires Writing(trace) && Schedule(times, |trace|)
    ensures Writing(Sampled(trace, times))
  {
    forall i | 0 < i < |times|
      ensures Grows(trace[times[i - 1]], trace[times[i]])
    {
      GrowsFrom(trace, times[i - 1], times[i]);
    }
  }

  /** Main result: a search whose reads fall anywhere among the moments of any insertions answers exactly for the
      nodes linked at level 0 when it makes its last read. */
  lemma ConcurrentSearch(trace: seq<Moment>, times: seq<nat>, target: Option<InternalKey>, run: seq<Reader>)
    requires Writing(trace) && Schedule(times, |trace|) && Search(Sampled(trace, times), target, run)
    requires run[|run| - 1].Done?
    ensures var m, r := trace[times[|times| - 1]], run[|run| - 1];
            |m.linked| == MAX_HEIGHT && Splits(m.list, m.linked[0], target, r.before, r.found)
  {
    SampledWriting(trace, times);
    assert MomentOk(Sampled(trace, times)[|times| - 1]);
    SearchIsExact(Sampled(trace, times), target, run);
  }

  // ----- the list -----

  /** Nodes still ahead of a search. */
  ghost function Ahead(es: seq<Entry>, linked: set<int>, x: int): set<int> {
    set k | k in linked && Before(es, x, k)
  }

  lemma AheadShrinks(es: seq<Entry>, linked: set<int>, x: int, y: int)
    requires y in linked && Before(es, x, y)
    ensures Ahead(es, linked, y) < Ahead(es, linked, x)
  {
    assert y in Ahead(es, linked, x) && y !in Ahead(es, linked, y);
    forall k | k in Ahead(es, linked, y)
      ensures Before(es, x, k)
    {
    }
  }

  /** What FindGreaterOrEqual records on one level. */
  ghost predicate LastBefore(l: List, linked: set<int>, h: nat, key: InternalKey, p: int) {
    && OnLevel(linked, p) && 0 <= p < |l.next| == |l.entries| && h < |l.next[p]|
    && (p != HEAD ==> Less(l.entries[p].key, key))
    && var s := l.next[p][h];
       s != NULL ==> 0 < s < |l.entries| && AtMost(key, l.entries[s].key)
  }

  /** Storing into the links of level `i` leaves the other levels as they were. */
  lemma StillFits(l: List, linked: set<int>, q: int, h: nat, x: int, p: int, i: nat)
    requires Fits(l, linked, q, h, x) && h != i && p != x && 0 <= p < |l.next| && i < |l.next[p]| && i < |l.next[x]|
    ensures Fits(Stored(Stored(l, x, i, l.next[p][i]), p, i, x), linked, q, h, x)
  {
  }

  /** The moments of an insertion of `x`: each is a proper list, nothing is ever unlinked, and level 0 gains only `x`. */
  ghost predicate Recorded(trace: seq<Moment>, first: Moment, last: Moment, x: int) {
    && Writing(trace) && trace != [] && trace[0] == first && trace[|trace| - 1] == last
    && |first.linked| == MAX_HEIGHT
    && forall i | 0 <= i < |trace| ::
         |trace[i].linked| == MAX_HEIGHT
         && (trace[i].linked[0] == first.linked[0] || trace[i].linked[0] == first.linked[0] + {x})
  }

  lemma RecordedGrows(trace: seq<Moment>, first: Moment, last: Moment, m: Moment, x: int)
    requires Recorded(trace, first, last, x) && MomentOk(m) && Grows(last, m)
    requires m.linked[0] == first.linked[0] || m.linked[0] == first.linked[0] + {x}
    ensures Recorded(trace + [m], first, m, x)
  {
    var t := trace + [m];
    assert forall i | 0 <= i < |trace| :: t[i] == trace[i];
  }

  ghost function EntriesOf(es: seq<Entry>, linked: set<int>): set<Entry> {
    set n | n in linked && 0 < n < |es| :: es[n]
  }

  lemma EntriesGrow(es: seq<Entry>, e: Entry, linked: set<int>)
    requires 0 < |es| && forall n | n in linked :: 0 < n < |es|
    ensures EntriesOf(es + [e], linked + {|es|}) == EntriesOf(es, linked) + {e}
  {
    var es' := es + [e];
    assert es'[|es|] == e;
    forall n | 0 < n < |es|
      ensures es'[n] == es[n]
    {
    }
    forall f | f in EntriesOf(es, linked) + {e}
      ensures f in EntriesOf(es', linked + {|es|})
    {
      if f in EntriesOf(es, linked) {
        var n :| n in linked && 0 < n < |es| && es[n] == f;
        assert es'[n] == f;
      }
    }
  }

  lemma KeysApart(es: seq<Entry>, linked: set<int>, key: InternalKey)
    requires forall n | n in linked :: 0 < n < |es|
    requires forall f | f in EntriesOf(es, linked) :: Less(f.key, key) || Less(key, f.key)
    ensures forall k | k in linked :: Less(es[k].key, key) || Less(key, es[k].key)
  {
    forall k | k in linked
      ensures Less(es[k].key, key) || Less(key, es[k].key)
    {
      assert es[k] in EntriesOf(es, linked);
    }
  }

  class SkipList {
    var entries: seq<Entry>
    var next: seq<seq<int>>
    var maxHeight: nat
    /** The nodes reachable on each level. */
    ghost var linked: seq<set<int>>

    ghost function Now(): List
      reads this
    {
      List(entries, next, maxHeight)
    }

    ghost predicate Valid()
      reads this
    {
      Ok(Now(), linked)
    }

    /** The entries in the list. */
    ghost function Contents(): set<Entry>
      requires Valid()
      reads this
    {
      EntriesOf(entries, linked[0])
    }

    constructor ()
      ensures Valid() && Contents() == {}
    {
      entries := [Entry(InternalKey(0.0, 0, TypeDeletion), [])];
      next := [seq(MAX_HEIGHT, _ => NULL)];
      maxHeight := 1;
      linked := seq(MAX_HEIGHT, _ => {});
    }

    /** One level's step of a search, from the node it stands at. */
    lemma StepFacts(target: Option<InternalKey>, x: int, level: nat)
      requires Valid() && Standing(Now(), linked, target, x, level)
      ensures 0 <= x < |next| && level < |next[x]|
      ensures next[x][level] != NULL ==> 0 < next[x][level] < |entries| && next[x][level] in linked[level]
                                         && Before(entries, x, next[x][level])
                                         && Ahead(entries, linked[0], next[x][level]) < Ahead(entries, linked[0], x)
    {
      assert LevelOk(Now(), linked[level], level);
      var m := next[x][level];
      assert IsSuccessor(entries, linked[level], x, m);
      if m != NULL {
        InBottom(Now(), linked, level);
        AheadShrinks(entries, linked[0], x, m);
      }
    }

    method FindGreaterOrEqual(key: InternalKey) returns (found: int, prev: seq<int>, ghost before: int)
      requires Valid()
      ensures Splits(Now(), linked[0], Some(key), before, found)
      ensures |prev| == maxHeight && forall h | 0 <= h < maxHeight :: LastBefore(Now(), linked[h], h, key, prev[h])
    {
      var x, level := HEAD, maxHeight - 1;
      prev := seq(maxHeight, _ => HEAD);
      while true
        invariant 0 <= level < maxHeight == |prev|
        invariant Standing(Now(), linked, Some(key), x, level)
        invariant forall h | level < h < maxHeight :: LastBefore(Now(), linked[h], h, key, prev[h])
        decreases level, Ahead(entries, linked[0], x)
      {
        StepFacts(Some(key), x, level);
        var n := next[x][level];
        if n != NULL && Less(entries[n].key, key) {
          x := n;
        } else {
          prev := prev[level := x];
          if level == 0 {
            SplitsHere(Now(), linked[0], Some(key), x, 0);
            return n, prev, x;
          }
          level := level - 1;
        }
      }
    }

    method FindLessThan(key: InternalKey) returns (x: int)
      requires Valid()
      ensures exists after :: Splits(Now(), linked[0], Some(key), x, after)
    {
      var level := maxHeight - 1;
      x := HEAD;
      while true
        invariant 0 <= level < maxHeight
        invariant Standing(Now(), linked, Some(key), x, level)
        decreases level, Ahead(entries, linked[0], x)
      {
        StepFacts(Some(key), x, level);
        var n := next[x][level];
        if n == NULL || AtMost(key, entries[n].key) {
          if level == 0 {
            SplitsHere(Now(), linked[0], Some(key), x, 0);
            return;
          }
          level := level - 1;
        } else {
          x := n;
        }
      }
    }

    method FindLast() returns (x: int)
      requires Valid()
      ensures Splits(Now(), linked[0], None, x, NULL)
    {
      var level := maxHeight - 1;
      x := HEAD;
      while true
        invariant 0 <= level < maxHeight
        invariant Standing(Now(), linked, None, x, level)
        decreases level, Ahead(entries, linked[0], x)
      {
        StepFacts(None, x, level);
        var n := next[x][level];
        if n == NULL {
          if level == 0 {
            SplitsHere(Now(), linked[0], None, x, 0);
            return;
          }
          level := level - 1;
        } else {
          x := n;
        }
      }
    }

    method Contains(key: InternalKey) returns (r: bool)
      requires Valid()
      ensures r <==> exists e :: e in Contents() && !Less(e.key, key) && !Less(key, e.key)
    {
      var x, prev, before := FindGreaterOrEqual(key);
      r := x != NULL && !Less(key, entries[x].key);
    }

    /** One store into a link. */
    method SetNext(n: int, h: nat, m: int)
      requires 0 <= n < |next| && h < |next[n]|
      modifies this`next
      ensures Now() == Stored(old(Now()), n, h, m)
    {
      next := next[n := next[n][h := m]];
    }

    lemma TopLevelsEmpty(h: nat)
      requires Valid() && maxHeight <= h < MAX_HEIGHT
      ensures linked[h] == {} && h < |next[HEAD]| && next[HEAD][h] == NULL
    {
      assert LevelOk(Now(), linked[h], h) && OnLevel(linked[h], HEAD);
    }

    /** The nodes recorded by the search are where the new node `x` fits. */
    lemma WhereItFits(x: int, height: nat, prev: seq<int>, was: List)
      requires Valid() && Ok(was, linked) && 0 < x == |was.entries| && |entries| == x + 1 && |next[x]| == height == |prev|
      requires was.entries <= entries && was.next <= next && height <= MAX_HEIGHT
      requires forall h | 0 <= h < height :: LastBefore(was, linked[h], h, entries[x].key, prev[h])
      requires forall k | k in linked[0] :: Before(entries, x, k) || Before(entries, k, x)
      ensures forall h | 0 <= h < height :: Fits(Now(), linked[h], prev[h], h, x)
    {
      forall h | 0 <= h < height
        ensures Fits(Now(), linked[h], prev[h], h, x)
      {
        assert LastBefore(was, linked[h], h, entries[x].key, prev[h]);
        assert LevelOk(was, linked[h], h) && OnLevel(linked[h], prev[h]);
        var p := prev[h];
        var n := was.next[p][h];
        assert was.next[p] == next[p] && entries[p] == was.entries[p];
        assert IsSuccessor(was.entries, linked[h], p, n);
        if n != NULL {
          InBottom(was, linked, h);
          assert entries[n] == was.entries[n];
          assert Before(entries, x, n) || Before(entries, n, x);
        }
      }
    }

    /** Links `x` on level `i`: first its own link, then the link that readers follow. */
    method LinkLevel(x: int, i: nat, p: int) returns (ghost middle: Moment)
      requires Valid() && i < maxHeight && Fits(Now(), linked[i], p, i, x)
      requires 0 < i ==> x in linked[i - 1]
      requires i == 0 ==> forall k | k in linked[0] :: Before(entries, x, k) || Before(entries, k, x)
      modifies this`next, this`linked
      ensures Valid() && linked == Linked(old(linked), i, x)
      ensures Now() == Stored(Stored(old(Now()), x, i, old(next[p][i])), p, i, x)
      ensures MomentOk(middle) && middle.linked == old(linked) && middle.list.entries == entries
    {
      PrivateOk(Now(), linked, x, i, next[p][i]);
      SetNext(x, i, next[p][i]);
      middle := Moment(Now(), linked);
      PublishedOk(Now(), linked, p, i, x);
      SetNext(p, i, x);
      linked := Linked(linked, i, x);
    }

    /** What the link loop still has to do on levels `i` and up, and the moments so far. */
    ghost predicate Linking(x: int, i: nat, height: nat, prev: seq<int>, was: Moment, trace: seq<Moment>)
      reads this
    {
      && Valid() && |was.linked| == MAX_HEIGHT && i <= height <= maxHeight && height <= |prev|
      && (forall k | k in was.linked[0] :: Before(entries, x, k) || Before(entries, k, x))
      && (forall h | 0 <= h < MAX_HEIGHT :: linked[h] == if h < i then was.linked[h] + {x} else was.linked[h])
      && (forall h | i <= h < height :: Fits(Now(), linked[h], prev[h], h, x))
      && Recorded(trace, was, Moment(Now(), linked), x)
    }

    method LinkOne(x: int, i: nat, height: nat, prev: seq<int>, ghost was: Moment, ghost trace: seq<Moment>)
        returns (ghost trace': seq<Moment>)
      requires Linking(x, i, height, prev, was, trace) && i < height
      modifies this`next, this`linked
      ensures Linking(x, i + 1, height, prev, was, trace')
    {
      assert Fits(Now(), linked[i], prev[i], i, x);
      ghost var before := Moment(Now(), linked);
      ghost var middle := LinkLevel(x, i, prev[i]);
      forall h | i < h < height
        ensures Fits(Now(), linked[h], prev[h], h, x)
      {
        StillFits(before.list, linked[h], prev[h], h, x, prev[i], i);
      }
      RecordedGrows(trace, was, before, middle, x);
      RecordedGrows(trace + [middle], was, middle, Moment(Now(), linked), x);
      trace' := trace + [middle] + [Moment(Now(), linked)];
    }

    /** Raises the list if the new node `x` is higher than any before it. */
    method Raise(height: nat, key: InternalKey, found: seq<int>, ghost x: int) returns (prev: seq<int>, ghost trace: seq<Moment>)
      requires Valid() && 1 <= height <= MAX_HEIGHT
      requires |found| == maxHeight && forall h | 0 <= h < maxHeight :: LastBefore(Now(), linked[h], h, key, found[h])
      modifies this`maxHeight
      ensures Valid() && height <= maxHeight == |prev|
      ensures forall h | 0 <= h < maxHeight :: LastBefore(old(Now()), linked[h], h, key, prev[h])
      ensures Recorded(trace, Moment(old(Now()), linked), Moment(Now(), linked), x)
    {
      ghost var was := Moment(Now(), linked);
      trace := [was];
      prev := found;
      if height > maxHeight {
        forall h | maxHeight <= h < height
          ensures LastBefore(was.list, linked[h], h, key, HEAD)
        {
          TopLevelsEmpty(h);
        }
        prev := prev + seq(height - maxHeight, _ => HEAD);
        RaisedOk(Now(), linked, height);
        maxHeight := height;
        RecordedGrows(trace, was, was, Moment(Now(), linked), x);
        trace := trace + [Moment(Now(), linked)];
      }
    }

    /** Allocates the node; nothing points at it yet. */
    method Allocate(e: Entry, height: nat)
      requires Valid()
      modifies this`entries, this`next
      ensures Valid() && Now() == Allocated(old(Now()), e, height)
    {
      AllocatedOk(Now(), linked, e, height);
      entries, next := entries + [e], next + [seq(height, _ => NULL)];
    }

    method Prepare(e: Entry, height: nat, found: seq<int>) returns (prev: seq<int>, ghost trace: seq<Moment>)
      requires Valid() && 1 <= height <= MAX_HEIGHT
      requires forall k | k in linked[0] :: Less(entries[k].key, e.key) || Less(e.key, entries[k].key)
      requires |found| == maxHeight && forall h | 0 <= h < maxHeight :: LastBefore(Now(), linked[h], h, e.key, found[h])
      modifies this`entries, this`next, this`maxHeight
      ensures entries == old(entries) + [e]
      ensures Linking(|entries| - 1, 0, height, prev, Moment(old(Now()), linked), trace)
    {
      ghost var was := Now();
      ghost var x := |entries|;
      prev, trace := Raise(height, e.key, found, x);
      ghost var raised := Moment(Now(), linked);
      Allocate(e, height);
      RecordedGrows(trace, Moment(was, linked), raised, Moment(Now(), linked), x);
      trace := trace + [Moment(Now(), linked)];
      WhereItFits(x, height, prev[..height], was);
    }

    method LinkAll(x: int, height: nat, prev: seq<int>, ghost was: Moment, ghost first: seq<Moment>)
        returns (ghost trace: seq<Moment>)
      requires Linking(x, 0, height, prev, was, first)
      modifies this`next, this`linked
      ensures Linking(x, height, height, prev, was, trace)
    {
      trace := first;
      for i := 0 to height
        invariant Linking(x, i, height, prev, was, trace)
      {
        trace := LinkOne(x, i, height, prev, was, trace);
      }
    }

    method AddNode(e: Entry, height: nat, found: seq<int>) returns (ghost trace: seq<Moment>)
      requires Valid() && 1 <= height <= MAX_HEIGHT
      requires forall k | k in linked[0] :: Less(entries[k].key, e.key) || Less(e.key, entries[k].key)
      requires |found| == maxHeight && forall h | 0 <= h < maxHeight :: LastBefore(Now(), linked[h], h, e.key, found[h])
      modifies this
      ensures Valid() && entries == old(entries) + [e]
      ensures linked[0] == old(linked)[0] + {|entries| - 1}
      ensures forall h | 0 <= h < MAX_HEIGHT ::
          linked[h] == if h < height then old(linked)[h] + {|entries| - 1} else old(linked)[h]
      ensures Recorded(trace, Moment(old(Now()), old(linked)), Moment(Now(), linked), |entries| - 1)
    {
      ghost var was := Moment(Now(), linked);
      var x := |entries|;
      var prev;
      prev, trace := Prepare(e, height, found);
      trace := LinkAll(x, height, prev, was, trace);
    }

    /** Adds one entry; `trace` is every moment a concurrent reader can meet. */
    method Insert(e: Entry, height: nat) returns (ghost trace: seq<Moment>)
      requires Valid() && 1 <= height <= MAX_HEIGHT
      requires forall f | f in Contents() :: Less(f.key, e.key) || Less(e.key, f.key)
      modifies this
      ensures Valid() && Contents() == old(Contents()) + {e}
      ensures entries == old(entries) + [e]
      ensures forall h | 0 <= h < MAX_HEIGHT ::
          linked[h] == if h < height then old(linked)[h] + {|entries| - 1} else old(linked)[h]
      ensures Recorded(trace, Moment(old(Now()), old(linked)), Moment(Now(), linked), |entries| - 1)
    {
      ghost var es, bottom := entries, linked[0];
      var found, prev, before := FindGreaterOrEqual(e.key);
      KeysApart(entries, linked[0], e.key);
      trace := AddNode(e, height, prev);
      EntriesGrow(es, e, bottom);
    }
  }

  // ----- iteration -----

  /** The last node before `n`, or NULL. */
  ghost predicate IsPredecessor(es: seq<Entry>, linked: set<int>, n: int, m: int) {
    if m == NULL then
      forall k | k in linked :: !Before(es, k, n)
    else
      && m in linked && Before(es, m, n)
      && forall k | k in linked && Before(es, k, n) :: k == m || Before(es, k, m)
  }

  class Iterator {
    const list: SkipList
    var node: int

    ghost predicate Ok()
      reads this, list
    {
      list.Valid() && (node == NULL || node in list.linked[0])
    }

    predicate Valid()
      reads this
    {
      node != NULL
    }

    function Key(): Entry
      requires Ok() && Valid()
      reads this, list
    {
      list.entries[node]
    }

    constructor (list: SkipList)
      requires list.Valid()
      ensures Ok() && this.list == list && !Valid()
    {
      this.list, this.node := list, NULL;
    }

    method Next()
      requires Ok() && Valid()
      modifies this
      ensures Ok() && IsSuccessor(list.entries, list.linked[0], old(node), node)
    {
      assert LevelOk(list.Now(), list.linked[0], 0) && OnLevel(list.linked[0], node);
      node := list.next[node][0];
    }

    method Prev()
      requires Ok() && Valid()
      modifies this
      ensures Ok() && IsPredecessor(list.entries, list.linked[0], old(node), node)
    {
      var x := list.FindLessThan(list.entries[node].key);
      node := if x == HEAD then NULL else x;
    }

    method Seek(target: InternalKey)
      requires Ok()
      modifies this
      ensures Ok() && exists x :: Splits(list.Now(), list.linked[0], Some(target), x, node)
    {
      var found, prev, before := list.FindGreaterOrEqual(target);
      node := found;
    }

    method SeekToFirst()
      requires Ok()
      modifies this
      ensures Ok() && IsSuccessor(list.entries, list.linked[0], HEAD, node)
    {
      assert LevelOk(list.Now(), list.linked[0], 0) && OnLevel(list.linked[0], HEAD);
      node := list.next[HEAD][0];
    }

    method SeekToLast()
      requires Ok()
      modifies this
      ensures Ok()
      ensures Valid() ==> forall k | k in list.linked[0] :: k == node || Before(list.entries, k, node)
      ensures !Valid() ==> forall k :: k !in list.linked[0]
    {
      var x := list.FindLast();
      assert forall k | k in list.linked[0] :: Under(list.entries[k].key, None);
      node := if x == HEAD then NULL else x;
    }
  }
}
