/** A cursor over the blocks of a table, through the cursor of its index (table/two_level_iterator.cc). */
module TwoLevel {
  import opened DbFormat
  import opened Cursors

  /** Opens the block that an index value stands for. */
  type Opener = Bytes -> seq<Entry>

  /** The entries of the first `k` blocks. */
  function Flat(index: seq<Entry>, open: Opener, k: nat): seq<Entry>
    requires k <= |index|
  {
    if k == 0 then [] else Flat(index, open, k - 1) + open(index[k - 1].value)
  }

  /** Sorted blocks, each closed off by its index key: nothing in it is above the key, everything after is. */
  ghost predicate TableOk(index: seq<Entry>, open: Opener) {
    && Sorted(index) && Sorted(Flat(index, open, |index|))
    && (forall k {:trigger Bounds(index, open, k)} | 0 <= k < |index| :: Bounds(index, open, k))
  }

  ghost predicate Bounds(index: seq<Entry>, open: Opener, k: nat)
    requires k < |index|
  {
    var flat, end := Flat(index, open, |index|), |Flat(index, open, k + 1)|;
    && (forall i | 0 <= i < end && i < |flat| :: AtMost(flat[i].key, index[k].key))
    && (forall i | end <= i < |flat| :: Less(index[k].key, flat[i].key))
  }

  lemma {:induction false} FlatAt(index: seq<Entry>, open: Opener, k: nat, n: nat, i: nat)
    requires k < n <= |index| && i < |open(index[k].value)|
    ensures |Flat(index, open, k)| + i < |Flat(index, open, n)|
    ensures Flat(index, open, n)[|Flat(index, open, k)| + i] == open(index[k].value)[i]
  {
    if k < n - 1 {
      FlatAt(index, open, k, n - 1, i);
    }
  }

  lemma {:induction false} FlatGrows(index: seq<Entry>, open: Opener, k: nat, n: nat)
    requires k <= n <= |index|
    ensures |Flat(index, open, k)| <= |Flat(index, open, n)|
  {
    if k < n {
      FlatGrows(index, open, k, n - 1);
    }
  }

  lemma BlockSorted(index: seq<Entry>, open: Opener, k: nat)
    requires TableOk(index, open) && k < |index|
    ensures Sorted(open(index[k].value))
  {
    var block, flat, at := open(index[k].value), Flat(index, open, |index|), |Flat(index, open, k)|;
    forall i, j | 0 <= i < j < |block|
      ensures Less(block[i].key, block[j].key)
    {
      FlatAt(index, open, k, |index|, i);
      FlatAt(index, open, k, |index|, j);
      assert Less(flat[at + i].key, flat[at + j].key);
    }
  }

  /** Where the two cursors together stand: an exhausted block stands for the start of the next one. */
  function Place(index: seq<Entry>, open: Opener, k: nat, i: nat): nat
    requires k <= |index|
  {
    if k == |index| then |Flat(index, open, |index|)| else |Flat(index, open, k)| + i
  }

  lemma EarlierBlocks(index: seq<Entry>, open: Opener, target: InternalKey, k: nat, j: nat)
    requires TableOk(index, open) && SeekPosition(index, target, k)
    requires j < |Flat(index, open, k)| && j < |Flat(index, open, |index|)|
    ensures Less(Flat(index, open, |index|)[j].key, target)
  {
    assert Bounds(index, open, k - 1) && Less(index[k - 1].key, target);
    assert AtMost(Flat(index, open, |index|)[j].key, index[k - 1].key);
  }

  lemma LaterBlocks(index: seq<Entry>, open: Opener, target: InternalKey, k: nat, j: nat)
    requires TableOk(index, open) && SeekPosition(index, target, k) && k < |index|
    requires |Flat(index, open, k + 1)| <= j < |Flat(index, open, |index|)|
    ensures AtMost(target, Flat(index, open, |index|)[j].key)
  {
    assert Bounds(index, open, k) && AtMost(target, index[k].key);
    assert Less(index[k].key, Flat(index, open, |index|)[j].key);
  }

  lemma InBlock(index: seq<Entry>, open: Opener, target: InternalKey, k: nat, i: nat, m: nat, j: nat)
    requires k < |index| && SeekPosition(open(index[k].value), target, i) && m < |open(index[k].value)|
    requires j == |Flat(index, open, k)| + m
    ensures j < |Flat(index, open, |index|)|
    ensures var key := Flat(index, open, |index|)[j].key; if m < i then Less(key, target) else AtMost(target, key)
  {
    FlatAt(index, open, k, |index|, m);
  }

  predicate OnItsSide(flat: seq<Entry>, target: InternalKey, p: nat, j: nat)
    requires j < |flat|
  {
    if j < p then Less(flat[j].key, target) else AtMost(target, flat[j].key)
  }

  lemma SeekSide(index: seq<Entry>, open: Opener, target: InternalKey, k: nat, i: nat, j: nat)
    requires TableOk(index, open) && SeekPosition(index, target, k) && j < |Flat(index, open, |index|)|
    requires k < |index| ==> SeekPosition(open(index[k].value), target, i)
    ensures OnItsSide(Flat(index, open, |index|), target, Place(index, open, k, i), j)
  {
    var at := |Flat(index, open, k)|;
    if j < at {
      EarlierBlocks(index, open, target, k, j);
    } else if k < |index| {
      if j < at + |open(index[k].value)| {
        InBlock(index, open, target, k, i, j - at, j);
      } else {
        LaterBlocks(index, open, target, k, j);
      }
    }
  }

  lemma PlaceBound(index: seq<Entry>, open: Opener, k: nat, i: nat)
    requires k <= |index| && (k < |index| ==> i <= |open(index[k].value)|)
    ensures Place(index, open, k, i) <= |Flat(index, open, |index|)|
  {
    if k < |index| {
      FlatGrows(index, open, k + 1, |index|);
    }
  }

  lemma BothSides(flat: seq<Entry>, target: InternalKey, p: nat)
    requires p <= |flat| && forall j | 0 <= j < |flat| :: OnItsSide(flat, target, p, j)
    ensures SeekPosition(flat, target, p)
  {
    forall j | 0 <= j < |flat|
      ensures if j < p then Less(flat[j].key, target) else AtMost(target, flat[j].key)
    {
      assert OnItsSide(flat, target, p, j);
    }
  }

  /** Seeking in the index and then in one block is seeking in all. */
  lemma SeekPlace(index: seq<Entry>, open: Opener, target: InternalKey, k: nat, i: nat, flat: seq<Entry>, p: nat)
    requires TableOk(index, open) && SeekPosition(index, target, k)
    requires k < |index| ==> SeekPosition(open(index[k].value), target, i)
    requires flat == Flat(index, open, |index|) && p == Place(index, open, k, i)
    ensures SeekPosition(flat, target, p)
  {
    PlaceBound(index, open, k, i);
    forall j | 0 <= j < |flat|
      ensures OnItsSide(flat, target, p, j)
    {
      SeekSide(index, open, target, k, i, j);
    }
    BothSides(flat, target, p);
  }

  class TwoLevelIterator {
    const index: Cursor
    const open: Opener
    var data: Cursor?
    var handle: Bytes

    ghost function Entries(): seq<Entry> {
      Flat(index.entries, open, |index.entries|)
    }

    /** The block at the index position is open, unless the index has run off. */
    ghost predicate Opened()
      reads this, index, data
    {
      && TableOk(index.entries, open) && index.Ok()
      && (data == null <==> !index.Valid())
      && (data != null ==> data != index && data.Ok() && data.entries == open(index.entries[index.pos].value) && handle == index.entries[index.pos].value)
    }

    ghost predicate Ok()
      reads this, index, data
    {
      Opened() && (data != null ==> data.Valid())
    }

    predicate Valid()
      reads this, data
    {
      data != null && data.Valid()
    }

    ghost function Position(): nat
      requires Opened()
      reads this, index, data
    {
      Place(index.entries, open, index.pos, if data == null then 0 else data.pos)
    }

    constructor (index: Cursor, open: Opener)
      requires index.Ok() && index.pos == |index.entries| && TableOk(index.entries, open)
      ensures Ok() && !Valid() && this.index == index && this.open == open
    {
      this.index, this.open, data, handle := index, open, null, [];
    }

    /** Opens the block at the index position; an open block with the same handle is kept, wherever it stands. */
    method InitDataBlock()
      requires TableOk(index.entries, open) && index.Ok()
      requires data != null ==> data != index && data.Ok() && data.entries == open(handle)
      modifies this
      ensures Opened() && (data == old(data) || data == null || fresh(data))
    {
      if !index.Valid() {
        data := null;
      } else if data != null && handle == index.Value() {
      } else {
        BlockSorted(index.entries, open, index.pos);
        handle := index.Value();
        data := new Cursor(open(handle));
      }
    }

    method SkipEmptyDataBlocksForward()
      requires Opened()
      modifies this, index, data
      ensures Ok() && Position() == old(Position())
    {
      while data == null || !data.Valid()
        invariant Opened() && Position() == old(Position())
        invariant data == old(data) || data == null || fresh(data)
        decreases |index.entries| - index.pos
      {
        if !index.Valid() {
          data := null;
          return;
        }
        index.Next();
        InitDataBlock();
        if data != null {
          data.SeekToFirst();
        }
      }
    }

    /** An exhausted block stands for its own start here, and the entry before that is wanted. */
    method SkipEmptyDataBlocksBackward()
      requires Opened()
      modifies this, index, data
      ensures Ok()
      ensures Position() == if old(data == null || data.Valid()) then old(Position())
                            else PreviousPosition(|Entries()|, |Flat(index.entries, open, old(index.pos))|)
    {
      while data == null || !data.Valid()
        invariant Opened()
        invariant data == old(data) || data == null || fresh(data)
        invariant old(data == null || data.Valid()) ==> Position() == old(Position()) && (data == null || data.Valid())
        invariant old(data != null && !data.Valid()) ==>
            PreviousPosition(|Entries()|, |Flat(index.entries, open, old(index.pos))|)
            == if data == null || data.Valid() then Position() else PreviousPosition(|Entries()|, |Flat(index.entries, open, index.pos)|)
        decreases if data == null then 0 else index.pos + 1
      {
        if !index.Valid() {
          data := null;
          return;
        }
        index.Prev();
        InitDataBlock();
        if data != null {
          data.SeekToLast();
        }
      }
    }

    method Seek(target: InternalKey)
      requires Ok()
      modifies this, index, data
      ensures Ok() && SeekPosition(Entries(), target, Position())
    {
      index.Seek(target);
      InitDataBlock();
      if data != null {
        data.Seek(target);
      }
      SeekPlace(index.entries, open, target, index.pos, if data == null then 0 else data.pos, Entries(), Position());
      SkipEmptyDataBlocksForward();
    }

    method SeekToFirst()
      requires Ok()
      modifies this, index, data
      ensures Ok() && Position() == 0
    {
      index.SeekToFirst();
      InitDataBlock();
      if data != null {
        data.SeekToFirst();
      }
      SkipEmptyDataBlocksForward();
    }

    method SeekToLast()
      requires Ok()
      modifies this, index, data
      ensures Ok() && Position() == PreviousPosition(|Entries()|, |Entries()|)
    {
      index.SeekToLast();
      InitDataBlock();
      if data != null {
        data.SeekToLast();
      }
      SkipEmptyDataBlocksBackward();
    }

    method Next()
      requires Ok() && Valid()
      modifies this, index, data
      ensures Ok() && Position() == old(Position()) + 1
    {
      data.Next();
      SkipEmptyDataBlocksForward();
    }

    method Prev()
      requires Ok() && Valid()
      modifies this, index, data
      ensures Ok() && Position() == PreviousPosition(|Entries()|, old(Position()))
    {
      data.Prev();
      SkipEmptyDataBlocksBackward();
    }

    /** The entry at the position in the flat sequence. */
    lemma AtPosition()
      requires Ok()
      ensures Valid() <==> Position() < |Entries()|
      ensures Valid() ==> Entries()[Position()] == data.entries[data.pos]
    {
      if Valid() {
        FlatAt(index.entries, open, index.pos, |index.entries|, data.pos);
      }
    }
  }
}
