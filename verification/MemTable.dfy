/** The memtable over the skip list, and the lookup through all layers (db/memtable.cc, db/db_impl.cc). */
module MemTables {
  import opened DbFormat
  import opened Version
  import opened LsmSteps
  import opened SkipLists

  class MemTable {
    const table: SkipList

    ghost predicate Valid()
      reads this, table
    {
      table.Valid()
    }

    ghost function Contents(): set<Entry>
      requires Valid()
      reads this, table
    {
      table.Contents()
    }

    constructor ()
      ensures Valid() && fresh(table) && Contents() == {}
    {
      table := new SkipList();
    }

    method Add(s: nat, kind: ValueType, key: UserKey, value: Bytes, height: nat)
      requires Valid() && 1 <= height <= MAX_HEIGHT
      requires forall e | e in Contents() :: e.key.user != key || e.key.seqno != s
      modifies table
      ensures Valid() && Contents() == old(Contents()) + {Entry(InternalKey(key, s, kind), value)}
    {
      ghost var trace := table.Insert(Entry(InternalKey(key, s, kind), value), height);
    }

    /** The newest version of `u` at or below `s`, deletions included, or nothing when there is none. */
    method Get(u: UserKey, s: nat) returns (saver: Saver, ghost hit: Option<Entry>)
      requires Valid()
      ensures saver == NotFound ==> NoCandidate(Contents(), u, s)
      ensures saver != NotFound ==> hit.Some? && Newest(Contents(), u, s, hit.value) && saver == SaveValue(u, hit)
    {
      var x, prev, before := table.FindGreaterOrEqual(SeekKey(u, s));
      FirstAtOrPast(table, u, s, before, x);
      hit := if x == NULL then None else Some(table.entries[x]);
      saver := NotFound;
      if x != NULL {
        var e := table.entries[x];
        if e.key.user == u {
          match e.key.kind {
            case TypeValue => saver := Found(e.value);
            case TypeDeletion => saver := Deleted;
          }
        }
      }
    }
  }

  lemma FirstAtOrPast(table: SkipList, u: UserKey, s: nat, before: int, x: int)
    requires table.Valid() && Splits(table.Now(), table.linked[0], Some(SeekKey(u, s)), before, x)
    ensures if x != NULL && table.entries[x].key.user == u then Newest(table.Contents(), u, s, table.entries[x])
            else NoCandidate(table.Contents(), u, s)
  {
    forall f | f in table.Contents() && Candidate(f, u, s)
      ensures x != NULL && table.entries[x].key.user == u && f.key.seqno <= table.entries[x].key.seqno
    {
      var k :| k in table.linked[0] && 0 < k < |table.entries| && table.entries[k] == f;
      assert !Under(f.key, Some(SeekKey(u, s)));
      assert k == x || Before(table.entries, x, k);
    }
  }

  /** DBImpl::Get: the memtable, then the immutable one, then the files; the first answer is the newest. */
  method Get(mem: MemTable, imm: MemTable?, levels: seq<Level>, u: UserKey, s: nat) returns (r: Option<Bytes>)
    requires mem.Valid() && (imm != null ==> imm.Valid()) && Lsm(levels)
    requires imm != null ==> NewerSet(mem.Contents(), imm.Contents())
    requires NewerSet(mem.Contents(), AllEntries(levels))
    requires imm != null ==> NewerSet(imm.Contents(), AllEntries(levels))
    requires UniqueVersions(mem.Contents() + (if imm == null then {} else imm.Contents()) + AllEntries(levels))
    ensures r == Visible(mem.Contents() + (if imm == null then {} else imm.Contents()) + AllEntries(levels), u, s)
  {
    ghost var m, i, f := mem.Contents(), if imm == null then {} else imm.Contents(), AllEntries(levels);
    var saver, hit := mem.Get(u, s);
    if saver == NotFound && imm != null {
      saver, hit := imm.Get(u, s);
      if saver != NotFound {
        Promote(i, m + i + f, u, s, hit.value);
      }
    } else if saver != NotFound {
      Promote(m, m + i + f, u, s, hit.value);
    }
    if saver != NotFound {
      VisibleIs(m + i + f, u, s, hit.value);
      return if saver.Found? then Some(saver.value) else None;
    }
    r := Version.Get(levels, u, s);
    OnlyFiles(m + i, f, u, s);
  }

  lemma OnlyFiles(memory: set<Entry>, files: set<Entry>, u: UserKey, s: nat)
    requires NoCandidate(memory, u, s) && UniqueVersions(memory + files)
    ensures Visible(memory + files, u, s) == Visible(files, u, s)
  {
    if c :| c in files && Candidate(c, u, s) {
      NewestExists(files, u, s, c);
      var e :| Newest(files, u, s, e);
      Promote(files, memory + files, u, s, e);
      VisibleIs(files, u, s, e);
      VisibleIs(memory + files, u, s, e);
    } else {
      VisibleNothing(files, u, s);
      VisibleNothing(memory + files, u, s);
    }
  }
}
