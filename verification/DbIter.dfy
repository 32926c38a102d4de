/** The iterator a reader holds (db/db_iter.cc): it walks internal entries in either direction and shows the sorted
    map of live keys at one snapshot. */
module DbIter {
  import opened DbFormat
  import opened Cursors

  datatype Direction = Forward | Reverse

  // ----- the map shown -----

  ghost predicate Seen(es: seq<Entry>, s: nat, i: int) {
    0 <= i < |es| && es[i].key.seqno <= s
  }

  /** Entry `i` is the newest version of its key at snapshot `s`, and a value. */
  ghost predicate Shown(es: seq<Entry>, s: nat, i: int) {
    && Seen(es, s, i) && es[i].key.kind.TypeValue?
    && forall j | 0 <= j < i && Seen(es, s, j) :: es[j].key.user != es[i].key.user
  }

  ghost function ViewUpTo(es: seq<Entry>, s: nat, n: nat): seq<(UserKey, Bytes)>
    requires n <= |es|
  {
    if n == 0 then []
    else ViewUpTo(es, s, n - 1) + if Shown(es, s, n - 1) then [(es[n - 1].key.user, es[n - 1].value)] else []
  }

  /** The live keys at snapshot `s` with their values, in key order. */
  ghost function View(es: seq<Entry>, s: nat): seq<(UserKey, Bytes)> {
    ViewUpTo(es, s, |es|)
  }

  lemma {:induction false} ViewGrows(es: seq<Entry>, s: nat, m: nat, n: nat)
    requires m <= n <= |es|
    ensures ViewUpTo(es, s, m) <= ViewUpTo(es, s, n)
    decreases n
  {
    if m < n {
      ViewGrows(es, s, m, n - 1);
    }
  }

  lemma {:induction false} NothingShown(es: seq<Entry>, s: nat, m: nat, n: nat)
    requires m <= n <= |es|
    requires forall j | m <= j < n :: !Shown(es, s, j)
    ensures ViewUpTo(es, s, m) == ViewUpTo(es, s, n)
    decreases n
  {
    if m < n {
      NothingShown(es, s, m, n - 1);
    }
  }

  lemma ShownAt(es: seq<Entry>, s: nat, i: nat)
    requires Shown(es, s, i)
    ensures |ViewUpTo(es, s, i)| < |View(es, s)| && |ViewUpTo(es, s, i + 1)| == |ViewUpTo(es, s, i)| + 1
    ensures View(es, s)[|ViewUpTo(es, s, i)|] == (es[i].key.user, es[i].value)
  {
    ViewGrows(es, s, i + 1, |es|);
  }

  lemma {:induction false} ViewMember(es: seq<Entry>, s: nat, n: nat, k: nat) returns (i: nat)
    requires n <= |es| && k < |ViewUpTo(es, s, n)|
    ensures i < n && Shown(es, s, i) && k == |ViewUpTo(es, s, i)|
    ensures ViewUpTo(es, s, n)[k] == (es[i].key.user, es[i].value)
    decreases n
  {
    if k < |ViewUpTo(es, s, n - 1)| {
      i := ViewMember(es, s, n - 1, k);
    } else {
      i := n - 1;
    }
  }

  lemma {:induction false} ViewMonotone(es: seq<Entry>, s: nat, m: nat, n: nat)
    requires m <= n <= |es|
    ensures |ViewUpTo(es, s, m)| <= |ViewUpTo(es, s, n)|
  {
    ViewGrows(es, s, m, n);
  }

  lemma ShownOrder(es: seq<Entry>, s: nat, i: nat, j: nat)
    requires Sorted(es) && Shown(es, s, i) && Shown(es, s, j) && i < j
    ensures es[i].key.user < es[j].key.user
  {
    assert Less(es[i].key, es[j].key);
  }

  /** The map shown is strictly sorted by key. */
  lemma ViewSorted(es: seq<Entry>, s: nat, k: nat, l: nat)
    requires Sorted(es) && k < l < |View(es, s)|
    ensures View(es, s)[k].0 < View(es, s)[l].0
  {
    var i := ViewMember(es, s, |es|, k);
    var j := ViewMember(es, s, |es|, l);
    if j <= i {
      ViewMonotone(es, s, j, i);
    }
    ShownOrder(es, s, i, j);
  }

  lemma ShownIsNewest(es: seq<Entry>, s: nat, i: nat)
    requires Sorted(es) && Shown(es, s, i)
    ensures Newest(Contents(es), es[i].key.user, s, es[i])
  {
    forall f | f in es && Candidate(f, es[i].key.user, s)
      ensures f.key.seqno <= es[i].key.seqno
    {
      var j :| 0 <= j < |es| && es[j] == f;
      assert Seen(es, s, j);
      assert i < j ==> Less(es[i].key, es[j].key);
    }
  }

  lemma NewestIsShown(es: seq<Entry>, s: nat, u: UserKey, e: Entry, i: nat)
    requires Sorted(es) && UniqueVersions(Contents(es)) && Newest(Contents(es), u, s, e)
    requires i < |es| && es[i] == e && e.key.kind.TypeValue?
    ensures Shown(es, s, i)
  {
    forall j | 0 <= j < i && Seen(es, s, j)
      ensures es[j].key.user != es[i].key.user
    {
      assert Less(es[j].key, es[i].key);
      assert es[j] in Contents(es);
    }
  }

  /** The map shown is exactly what lookups at the snapshot answer. */
  lemma ViewIsVisible(es: seq<Entry>, s: nat, u: UserKey, v: Bytes)
    requires Sorted(es) && UniqueVersions(Contents(es))
    ensures (u, v) in View(es, s) <==> Visible(Contents(es), u, s) == Some(v)
  {
    if (u, v) in View(es, s) {
      var k :| 0 <= k < |View(es, s)| && View(es, s)[k] == (u, v);
      var i := ViewMember(es, s, |es|, k);
      ShownIsNewest(es, s, i);
      VisibleIs(Contents(es), u, s, es[i]);
    }
    if Visible(Contents(es), u, s) == Some(v) {
      var e :| Newest(Contents(es), u, s, e);
      VisibleIs(Contents(es), u, s, e);
      var i :| 0 <= i < |es| && es[i] == e;
      NewestIsShown(es, s, u, e, i);
      ShownAt(es, s, i);
    }
  }

  // ----- neighbours -----

  /** `i` is the first shown entry after `floor`, or `|es|` when there is none. */
  ghost predicate NextShown(es: seq<Entry>, s: nat, floor: int, i: nat) {
    && -1 <= floor < i <= |es|
    && (i < |es| ==> Shown(es, s, i))
    && forall j | floor < j < i :: !Shown(es, s, j)
  }

  /** `i` is the last shown entry before `ceiling`, or -1 when there is none. */
  ghost predicate PrevShown(es: seq<Entry>, s: nat, ceiling: nat, i: int) {
    && -1 <= i < ceiling <= |es|
    && (0 <= i ==> Shown(es, s, i))
    && forall j | i < j < ceiling :: !Shown(es, s, j)
  }

  lemma NextRank(es: seq<Entry>, s: nat, at: nat, i: nat)
    requires Shown(es, s, at) && NextShown(es, s, at, i)
    ensures |ViewUpTo(es, s, i)| == |ViewUpTo(es, s, at)| + 1
  {
    ShownAt(es, s, at);
    NothingShown(es, s, at + 1, i);
  }

  lemma FirstRank(es: seq<Entry>, s: nat, i: nat)
    requires NextShown(es, s, -1, i)
    ensures ViewUpTo(es, s, i) == []
  {
    NothingShown(es, s, 0, i);
  }

  /** Ranks seen from the right: the last shown entry before `ceiling` has the rank just below. */
  lemma PrevRank(es: seq<Entry>, s: nat, ceiling: nat, i: int)
    requires PrevShown(es, s, ceiling, i)
    ensures i < 0 ==> ViewUpTo(es, s, ceiling) == []
    ensures 0 <= i ==> |ViewUpTo(es, s, i)| + 1 == |ViewUpTo(es, s, ceiling)|
  {
    if i < 0 {
      NothingShown(es, s, 0, ceiling);
    } else {
      ShownAt(es, s, i);
      NothingShown(es, s, i + 1, ceiling);
    }
  }

  lemma RankSeeks(es: seq<Entry>, s: nat, target: UserKey, start: nat, i: nat)
    requires Sorted(es) && SeekPosition(es, SeekKey(target, s), start) && start <= i
    requires NextShown(es, s, start - 1, i)
    ensures ViewUpTo(es, s, i) <= View(es, s)
    ensures forall k | 0 <= k < |ViewUpTo(es, s, i)| :: View(es, s)[k].0 < target
    ensures i < |es| ==> target <= es[i].key.user
  {
    NothingShown(es, s, start, i);
    ViewGrows(es, s, i, |es|);
    forall k | 0 <= k < |ViewUpTo(es, s, start)|
      ensures View(es, s)[k].0 < target
    {
      var j := ViewMember(es, s, start, k);
      assert Less(es[j].key, SeekKey(target, s));
    }
  }

  // ----- the two scans -----

  /** What the forward scan may rely on at internal position `p`, everything shown up to `floor` being done. */
  ghost predicate Scanning(es: seq<Entry>, s: nat, p: nat, skipping: bool, skip: Option<UserKey>, floor: int) {
    && p <= |es| && -1 <= floor < |es| && (0 <= p <= floor ==> Shown(es, s, floor))
    && (forall j | floor < j < p :: !Shown(es, s, j))
    && (forall j | p <= j < floor :: !Seen(es, s, j))
    && (!skipping ==>
          floor < p && forall i, j | 0 <= j < p <= i < |es| && Seen(es, s, j) :: es[j].key.user != es[i].key.user)
    && (skipping ==>
          && skip.Some?
          && (0 <= floor ==> es[floor].key.user <= skip.value)
          && (forall j | 0 <= j < p && Seen(es, s, j) :: es[j].key.user <= skip.value)
          && (forall j | p <= j < |es| && Shown(es, s, j) && es[j].key.user <= skip.value :: j <= floor))
  }

  lemma KeysRise(es: seq<Entry>, i: nat, j: nat)
    requires Sorted(es) && i <= j < |es|
    ensures es[i].key.user <= es[j].key.user
  {
    assert i < j ==> Less(es[i].key, es[j].key);
  }

  /** Next sets out to skip the key it shows, from the entry shown or from before it. */
  lemma SkipsShown(es: seq<Entry>, s: nat, p: nat, skip: UserKey, at: nat)
    requires Sorted(es) && Shown(es, s, at) && p <= |es| && skip == es[at].key.user
    requires forall j | p <= j < at :: !Seen(es, s, j)
    requires p <= at && forall j | 0 <= j < p && Seen(es, s, j) :: es[j].key.user < skip
    ensures Scanning(es, s, p, true, Some(skip), at)
  {
    forall j | at < j < |es| && Shown(es, s, j)
      ensures skip < es[j].key.user
    {
      KeysRise(es, at, j);
    }
  }

  /** Seek sets out from the first entry at or past (target, s): no entry before it matters. */
  lemma StartsScan(es: seq<Entry>, s: nat, target: UserKey, p: nat, skip: Option<UserKey>)
    requires Sorted(es) && SeekPosition(es, SeekKey(target, s), p) && p < |es|
    ensures Scanning(es, s, p, false, skip, p - 1)
  {
    forall i, j | 0 <= j < p <= i < |es| && Seen(es, s, j)
      ensures es[j].key.user != es[i].key.user
    {
      assert Less(es[j].key, SeekKey(target, s)) && AtMost(SeekKey(target, s), es[i].key);
    }
  }

  lemma ScanInvisible(es: seq<Entry>, s: nat, p: nat, skipping: bool, skip: Option<UserKey>, floor: int)
    requires Scanning(es, s, p, skipping, skip, floor) && p < |es| && !Seen(es, s, p)
    ensures Scanning(es, s, p + 1, skipping, skip, floor)
  {
  }

  lemma ScanHidden(es: seq<Entry>, s: nat, p: nat, skip: Option<UserKey>, floor: int)
    requires Scanning(es, s, p, true, skip, floor) && p < |es| && es[p].key.user <= skip.value
    ensures Scanning(es, s, p + 1, true, skip, floor)
  {
  }

  lemma ScanDeletion(es: seq<Entry>, s: nat, p: nat, skipping: bool, skip: Option<UserKey>, floor: int)
    requires Sorted(es) && Scanning(es, s, p, skipping, skip, floor)
    requires p < |es| && Seen(es, s, p) && es[p].key.kind.TypeDeletion?
    ensures Scanning(es, s, p + 1, true, Some(es[p].key.user), floor)
  {
    forall j | 0 <= j <= p
      ensures es[j].key.user <= es[p].key.user
    {
      KeysRise(es, j, p);
    }
    forall j | p < j < |es| && Shown(es, s, j)
      ensures es[p].key.user < es[j].key.user
    {
      KeysRise(es, p, j);
    }
  }

  lemma ScanFound(es: seq<Entry>, s: nat, p: nat, skipping: bool, skip: Option<UserKey>, floor: int)
    requires Sorted(es) && Scanning(es, s, p, skipping, skip, floor)
    requires p < |es| && Seen(es, s, p) && es[p].key.kind.TypeValue? && (skipping ==> skip.value < es[p].key.user)
    ensures NextShown(es, s, floor, p)
  {
    forall j | p <= j < |es|
      ensures es[p].key.user <= es[j].key.user
    {
      KeysRise(es, p, j);
    }
  }

  /** What the backward scan knows once the entries in (p, ceiling) are behind it: `m` is the candidate it saved. */
  ghost predicate ScanningBack(es: seq<Entry>, s: nat, p: int, ceiling: nat, m: int) {
    && -1 <= p < ceiling <= |es|
    && if m < 0 then
         forall j | p < j < ceiling :: !Shown(es, s, j)
       else
         && p < m < ceiling && Seen(es, s, m) && es[m].key.kind.TypeValue?
         && (forall j | p < j < m :: !Seen(es, s, j))
         && (forall j | m < j < ceiling :: !Shown(es, s, j))
  }

  lemma BackInvisible(es: seq<Entry>, s: nat, p: nat, ceiling: nat, m: int)
    requires ScanningBack(es, s, p, ceiling, m) && !Seen(es, s, p)
    ensures ScanningBack(es, s, p - 1, ceiling, m)
  {
  }

  lemma BackTakes(es: seq<Entry>, s: nat, p: nat, ceiling: nat, m: int)
    requires ScanningBack(es, s, p, ceiling, m) && Seen(es, s, p)
    requires 0 <= m ==> es[p].key.user == es[m].key.user
    ensures ScanningBack(es, s, p - 1, ceiling, if es[p].key.kind.TypeValue? then p else -1)
  {
  }

  lemma BackFound(es: seq<Entry>, s: nat, p: int, ceiling: nat, m: nat)
    requires Sorted(es) && ScanningBack(es, s, p, ceiling, m)
    requires 0 <= p ==> Seen(es, s, p) && es[p].key.user < es[m].key.user
    ensures PrevShown(es, s, ceiling, m)
  {
    forall j | 0 <= j < m && Seen(es, s, j)
      ensures es[j].key.user != es[m].key.user
    {
      KeysRise(es, j, p);
    }
  }

  // ----- the iterator -----

  class DBIter {
    const iter: Cursor
    const sequence: nat
    var savedKey: Option<UserKey>
    var savedValue: Bytes
    var direction: Direction
    var valid: bool
    /** The entry being shown. */
    ghost var at: nat

    constructor (iter: Cursor, sequence: nat)
      requires iter.Ok()
      ensures Ok() && this.iter == iter && this.sequence == sequence && !valid
    {
      this.iter, this.sequence := iter, sequence;
      savedKey, savedValue, direction, valid := None, [], Forward, false;
      at := |iter.entries|;
    }

    /** Going backwards, the internal iterator stands on the last visible entry of a smaller key; entries newer than
        the snapshot may lie between it and the entry shown. */
    ghost predicate Behind(p: nat)
      reads this, iter
    {
      && at < |iter.entries|
      && (p < |iter.entries| ==>
            p < at && Seen(iter.entries, sequence, p) && iter.entries[p].key.user < iter.entries[at].key.user)
      && (forall j | 0 <= j < at && (p < |iter.entries| ==> p < j) :: !Seen(iter.entries, sequence, j))
    }

    ghost predicate Ok()
      reads this, iter
    {
      && iter.Ok()
      && if valid then
           && at < |iter.entries| && Shown(iter.entries, sequence, at)
           && (direction.Forward? ==> iter.pos == at)
           && (direction.Reverse? ==>
                 && savedKey == Some(iter.entries[at].key.user) && savedValue == iter.entries[at].value
                 && Behind(iter.pos))
         else
           at == |iter.entries|
    }

    /** The map this iterator shows, and the position in it. */
    ghost function Map(): seq<(UserKey, Bytes)>
      reads this, iter
    {
      View(iter.entries, sequence)
    }

    ghost function Position(): nat
      requires Ok()
      reads this, iter
    {
      |ViewUpTo(iter.entries, sequence, at)|
    }

    lemma ShowsPosition()
      requires Ok()
      ensures valid <==> Position() < |Map()|
      ensures !valid ==> Position() == |Map()|
      ensures valid ==> Map()[Position()] == (iter.entries[at].key.user, iter.entries[at].value)
    {
      if valid {
        ShownAt(iter.entries, sequence, at);
      }
    }

    function Key(): (u: UserKey)
      requires Ok() && valid
      reads this, iter
      ensures Position() < |Map()| && u == Map()[Position()].0
    {
      ShowsPosition();
      if direction.Forward? then iter.Key().user else savedKey.value
    }

    function Value(): (v: Bytes)
      requires Ok() && valid
      reads this, iter
      ensures Position() < |Map()| && v == Map()[Position()].1
    {
      ShowsPosition();
      if direction.Forward? then iter.Value() else savedValue
    }

    method FindNextUserEntry(skip: bool, ghost floor: int)
      requires iter.Ok() && iter.Valid() && direction.Forward?
      requires Scanning(iter.entries, sequence, iter.pos, skip, savedKey, floor)
      modifies this, iter
      ensures Ok() && NextShown(iter.entries, sequence, floor, at)
    {
      var skipping := skip;
      while true
        invariant iter.Ok() && iter.Valid() && direction.Forward?
        invariant Scanning(iter.entries, sequence, iter.pos, skipping, savedKey, floor)
        decreases |iter.entries| - iter.pos
      {
        ghost var p := iter.pos;
        var ikey := iter.Key();
        if ikey.seqno <= sequence {
          match ikey.kind {
            case TypeDeletion =>
              ScanDeletion(iter.entries, sequence, p, skipping, savedKey, floor);
              savedKey := Some(ikey.user);
              skipping := true;
            case TypeValue =>
              if skipping && ikey.user <= savedKey.value {
                ScanHidden(iter.entries, sequence, p, savedKey, floor);
              } else {
                ScanFound(iter.entries, sequence, p, skipping, savedKey, floor);
                valid := true;
                savedKey := None;
                at := iter.pos;
                return;
              }
          }
        } else {
          ScanInvisible(iter.entries, sequence, p, skipping, savedKey, floor);
        }
        iter.Next();
        if !iter.Valid() {
          break;
        }
      }
      savedKey := None;
      valid := false;
      at := |iter.entries|;
    }

    method FindPrevUserEntry(ghost ceiling: nat)
      requires iter.Ok() && direction.Reverse?
      requires ScanningBack(iter.entries, sequence, if iter.Valid() then iter.pos else -1, ceiling, -1)
      modifies this, iter
      ensures Ok()
      ensures valid ==> PrevShown(iter.entries, sequence, ceiling, at)
      ensures !valid ==> PrevShown(iter.entries, sequence, ceiling, -1)
    {
      var valueType := TypeDeletion;
      ghost var m := -1;
      while iter.Valid()
        invariant iter.Ok() && direction.Reverse?
        invariant ScanningBack(iter.entries, sequence, if iter.Valid() then iter.pos else -1, ceiling, m)
        invariant valueType.TypeValue? <==> 0 <= m
        invariant 0 <= m ==> savedKey == Some(iter.entries[m].key.user) && savedValue == iter.entries[m].value
        decreases if iter.Valid() then iter.pos + 1 else 0
      {
        ghost var p := iter.pos;
        var ikey := iter.Key();
        if ikey.seqno <= sequence {
          if valueType != TypeDeletion && ikey.user < savedKey.value {
            BackFound(iter.entries, sequence, p, ceiling, m);
            break;
          }
          if 0 <= m {
            KeysRise(iter.entries, p, m);
          }
          BackTakes(iter.entries, sequence, p, ceiling, m);
          valueType := ikey.kind;
          if valueType == TypeDeletion {
            savedKey, savedValue, m := None, [], -1;
          } else {
            savedKey, savedValue, m := Some(ikey.user), iter.Value(), p;
          }
        } else {
          BackInvisible(iter.entries, sequence, p, ceiling, m);
        }
        iter.Prev();
      }
      if valueType == TypeDeletion {
        valid := false;
        savedKey, savedValue := None, [];
        direction := Forward;
        at := |iter.entries|;
      } else {
        valid := true;
        at := m;
      }
    }

    method Next()
      requires Ok() && valid
      modifies this, iter
      ensures Ok() && Map() == old(Map()) && Position() == old(Position()) + 1
    {
      ghost var was := at;
      if direction.Reverse? {
        direction := Forward;
        if !iter.Valid() {
          iter.SeekToFirst();
        } else {
          iter.Next();
        }
        if !iter.Valid() {
          // The entry shown is still ahead, so the source's early return is never taken.
          assert false;
        }
      } else {
        savedKey := Some(iter.Key().user);
      }
      SkipsShown(iter.entries, sequence, iter.pos, savedKey.value, was);
      FindNextUserEntry(true, was);
      NextRank(iter.entries, sequence, was, at);
    }

    method Prev()
      requires Ok() && valid
      modifies this, iter
      ensures Ok() && Map() == old(Map()) && Position() == PreviousPosition(|Map()|, old(Position()))
    {
      ghost var was := at;
      if direction.Forward? {
        savedKey := Some(iter.Key().user);
        while true
          invariant iter.Ok() && iter.Valid() && iter.pos <= was
          invariant savedKey == Some(iter.entries[was].key.user)
          invariant forall j | iter.pos <= j < was :: iter.entries[j].key.user == iter.entries[was].key.user
          decreases iter.pos
        {
          iter.Prev();
          if !iter.Valid() {
            valid := false;
            savedKey, savedValue := None, [];
            at := |iter.entries|;
            PrevRank(iter.entries, sequence, was, -1);
            return;
          }
          if iter.Key().user < savedKey.value {
            break;
          }
          KeysRise(iter.entries, iter.pos, was);
        }
        direction := Reverse;
      }
      FindPrevUserEntry(was);
      PrevRank(iter.entries, sequence, was, if valid then at else -1);
    }

    method Seek(target: UserKey)
      requires Ok()
      modifies this, iter
      ensures Ok() && Map() == old(Map())
      ensures forall k | 0 <= k < Position() <= |Map()| :: Map()[k].0 < target
      ensures Position() < |Map()| ==> target <= Map()[Position()].0
    {
      direction := Forward;
      savedKey, savedValue := None, [];
      iter.Seek(SeekKey(target, sequence));
      ghost var start: int := iter.pos;
      if iter.Valid() {
        StartsScan(iter.entries, sequence, target, start, savedKey);
        FindNextUserEntry(false, start - 1);
      } else {
        valid := false;
        at := |iter.entries|;
      }
      RankSeeks(iter.entries, sequence, target, start, at);
      ShowsPosition();
    }

    method SeekToFirst()
      requires Ok()
      modifies this, iter
      ensures Ok() && Map() == old(Map()) && Position() == 0
    {
      direction := Forward;
      savedValue := [];
      iter.SeekToFirst();
      if iter.Valid() {
        FindNextUserEntry(false, -1);
      } else {
        valid := false;
        at := |iter.entries|;
      }
      FirstRank(iter.entries, sequence, at);
    }

    method SeekToLast()
      requires Ok()
      modifies this, iter
      ensures Ok() && Map() == old(Map()) && Position() == PreviousPosition(|Map()|, |Map()|)
    {
      direction := Reverse;
      savedValue := [];
      iter.SeekToLast();
      FindPrevUserEntry(|iter.entries|);
      PrevRank(iter.entries, sequence, |iter.entries|, if valid then at else -1);
    }
  }
}
