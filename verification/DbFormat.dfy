/** Internal keys and entries (db/dbformat.h, db/dbformat.cc).

    A user key is a point of the real line.  Every statement about user keys in this project
    uses nothing but their order, and `Bytewise.RankKeepsOrder` embeds the byte strings under
    the built-in bytewise comparator into the reals, order and all. */
module DbFormat {

  datatype Option<+T> = None | Some(value: T)

  newtype byte = i: int | 0 <= i < 0x100

  type Bytes = seq<byte>

  type UserKey = real

  const NUM_LEVELS := 7
  const MAX_MEM_COMPACT_LEVEL := 2
  const MAX_SEQUENCE: nat := 0xFF_FFFF_FFFF_FFFF

  datatype ValueType = TypeDeletion | TypeValue

  datatype InternalKey = InternalKey(user: UserKey, seqno: nat, kind: ValueType) {
    /** The sequence number and the type share one 64-bit word. */
    function Tag(): nat {
      256 * seqno + if kind.TypeValue? then 1 else 0
    }
  }

  datatype Entry = Entry(key: InternalKey, value: Bytes)

  /** Increasing user key, then decreasing tag. */
  predicate Less(a: InternalKey, b: InternalKey) {
    a.user < b.user || (a.user == b.user && a.Tag() > b.Tag())
  }

  predicate AtMost(a: InternalKey, b: InternalKey) {
    !Less(b, a)
  }

  /** The key a lookup of `u` at snapshot `s` seeks to: before every version of `u` at or below `s`. */
  function SeekKey(u: UserKey, s: nat): InternalKey {
    InternalKey(u, s, TypeValue)
  }

  ghost predicate Sorted(es: seq<Entry>) {
    forall i, j | 0 <= i < j < |es| :: Less(es[i].key, es[j].key)
  }

  /** No two entries for one user key carry the same sequence number. */
  ghost predicate UniqueVersions(es: set<Entry>) {
    forall e, f | e in es && f in es && e.key.user == f.key.user && e.key.seqno == f.key.seqno :: e == f
  }

  function Contents(es: seq<Entry>): set<Entry> {
    set e | e in es
  }

  ghost predicate Candidate(e: Entry, u: UserKey, s: nat) {
    e.key.user == u && e.key.seqno <= s
  }

  ghost predicate Newest(es: set<Entry>, u: UserKey, s: nat, e: Entry) {
    && e in es
    && Candidate(e, u, s)
    && forall f | f in es && Candidate(f, u, s) :: f.key.seqno <= e.key.seqno
  }

  function Read(e: Entry): Option<Bytes> {
    if e.key.kind.TypeValue? then Some(e.value) else None
  }

  /** The meaning of a database: what a reader of `u` at snapshot `s` must see. */
  ghost function Visible(es: set<Entry>, u: UserKey, s: nat): Option<Bytes> {
    if exists e :: Newest(es, u, s, e) then
      var e :| Newest(es, u, s, e);
      Read(e)
    else
      None
  }

  lemma {:induction false} NewestExists(es: set<Entry>, u: UserKey, s: nat, c: Entry)
    requires c in es && Candidate(c, u, s)
    ensures exists e :: Newest(es, u, s, e)
    decreases es
  {
    var rest := es - {c};
    if d :| d in rest && Candidate(d, u, s) {
      NewestExists(rest, u, s, d);
      var e :| Newest(rest, u, s, e);
      assert Newest(es, u, s, if e.key.seqno < c.key.seqno then c else e);
    } else {
      assert Newest(es, u, s, c);
    }
  }

  lemma VisibleIs(es: set<Entry>, u: UserKey, s: nat, e: Entry)
    requires UniqueVersions(es) && Newest(es, u, s, e)
    ensures Visible(es, u, s) == Read(e)
  {
  }

  lemma VisibleNothing(es: set<Entry>, u: UserKey, s: nat)
    requires forall e | e in es :: !Candidate(e, u, s)
    ensures Visible(es, u, s) == None
  {
  }
}
