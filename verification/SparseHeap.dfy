/** The C heap as far as sparse results use it, and the release of a result. */
module SparseHeap {
  import opened Splade

  /** One entry of the items array: two pointers (0 is NULL) and a length. */
  datatype Cell = Cell(indices: nat, values: nat, length: nat)

  datatype Block = Raw | Cells(cells: seq<Cell>) | Ints(ints: seq<int>) | Reals(reals: seq<real>)

  type Live = map<nat, Block>

  const NULL_CELL := Cell(0, 0, 0)

  lemma FreshExists(keys: set<nat>) returns (p: nat)
    ensures p != 0 && forall k :: k in keys ==> k < p
  {
    if keys == {} {
      p := 1;
    } else {
      var x :| x in keys;
      p := FreshExists(keys - {x});
      assert keys == (keys - {x}) + {x};
      if p <= x {
        p := x + 1;
      }
    }
  }

  /** malloc, calloc and free. Allocation succeeds, but malloc may give NULL for size 0. Freeing demands a live block
      or NULL, so a second free of the same block cannot be written. */
  class Heap {
    var live: Live
    const nullForZero: bool

    constructor (nullForZero: bool)
      ensures live == map[] && this.nullForZero == nullForZero
    {
      live, this.nullForZero := map[], nullForZero;
    }

    method Alloc(block: Block) returns (p: nat)
      modifies this
      ensures p != 0 && p !in old(live) && live == old(live)[p := block]
    {
      ghost var bound := FreshExists(live.Keys);
      assert bound !in live;
      p :| p != 0 && p !in live;
      live := live[p := block];
    }

    method Calloc(count: nat) returns (p: nat)
      modifies this
      ensures p != 0 && p !in old(live) && live == old(live)[p := Cells(seq(count, _ => NULL_CELL))]
    {
      p := Alloc(Cells(seq(count, _ => NULL_CELL)));
    }

    method Malloc(size: nat) returns (p: nat)
      modifies this
      ensures p == 0 ==> size == 0 && nullForZero && live == old(live)
      ensures p != 0 ==> p !in old(live) && live == old(live)[p := Raw]
    {
      if size == 0 && nullForZero {
        return 0;
      }
      p := Alloc(Raw);
    }

    method Store(p: nat, block: Block)
      requires p in live
      modifies this
      ensures live == old(live)[p := block]
    {
      live := live[p := block];
    }

    method Free(p: nat)
      requires p == 0 || p in live
      modifies this
      ensures live == if p == 0 then old(live) else old(live) - {p}
    {
      if p != 0 {
        live := live - {p};
      }
    }
  }

  // ----- what a result owns -----

  function Pointers(c: Cell): set<nat> { {c.indices, c.values} - {0} }

  /** The buffers of the cells from `lo` on. */
  ghost function Owned(cells: seq<Cell>, lo: nat): set<nat>
    decreases |cells| - lo
  {
    if lo >= |cells| then {} else Pointers(cells[lo]) + Owned(cells, lo + 1)
  }

  /** No buffer is owned twice. */
  ghost predicate Separate(cells: seq<Cell>, lo: nat)
    decreases |cells| - lo
  {
    lo < |cells| ==>
      && (cells[lo].indices == cells[lo].values ==> cells[lo].indices == 0)
      && Pointers(cells[lo]) !! Owned(cells, lo + 1)
      && Separate(cells, lo + 1)
  }

  /** All blocks of a result: the items array and the buffers of its cells. */
  ghost function Footprint(items: nat, cells: seq<Cell>): set<nat> {
    {items} + Owned(cells, 0)
  }

  ghost predicate Owns(live: Live, items: nat, cells: seq<Cell>) {
    && items != 0 && items in live && live[items] == Cells(cells)
    && Separate(cells, 0) && items !in Owned(cells, 0) && Owned(cells, 0) <= live.Keys
  }

  /** A cell holds a result: its length, and when that is not 0 its two buffers. */
  ghost predicate Holds(live: Live, c: Cell, r: SparseResult) {
    && c.length == |r.indices| == |r.values|
    && (c.length > 0 ==>
          && c.indices in live && live[c.indices] == Ints(r.indices)
          && c.values in live && live[c.values] == Reals(r.values))
  }

  lemma {:induction false} NothingOwned(cells: seq<Cell>, lo: nat)
    requires forall k :: lo <= k < |cells| ==> cells[k] == NULL_CELL
    ensures Owned(cells, lo) == {} && Separate(cells, lo)
    decreases |cells| - lo
  {
    if lo < |cells| {
      NothingOwned(cells, lo + 1);
    }
  }

  /** Filling an empty cell with new buffers adds exactly those to what is owned. */
  lemma {:induction false} FillCell(cells: seq<Cell>, lo: nat, idx: nat, c: Cell)
    requires idx < |cells| && cells[idx] == NULL_CELL && Separate(cells, lo)
    requires Pointers(c) !! Owned(cells, lo) && (c.indices == c.values ==> c.indices == 0)
    ensures Separate(cells[idx := c], lo)
    ensures Owned(cells[idx := c], lo) == Owned(cells, lo) + (if lo <= idx then Pointers(c) else {})
    decreases |cells| - lo
  {
    if lo < |cells| {
      FillCell(cells, lo + 1, idx, c);
    }
  }

  class SparseEmbeddings {
    var items: nat
    var count: nat

    constructor ()
      ensures items == 0 && count == 0
    {
      items, count := 0, 0;
    }

    /** Releases the result. Freed already, or never filled, it does nothing. */
    method Free(heap: Heap)
      requires if items == 0 then count == 0 else
               items in heap.live && heap.live[items].Cells? && Owns(heap.live, items, heap.live[items].cells)
               && count == |heap.live[items].cells|
      modifies this, heap
      ensures items == 0 && count == 0
      ensures heap.live == if old(items) == 0 then old(heap.live)
                           else old(heap.live - Footprint(items, heap.live[items].cells))
    {
      if items != 0 {
        FreeBuffers(heap);
        heap.Free(items);
      }
      items, count := 0, 0;
    }

    method FreeBuffers(heap: Heap)
      requires items in heap.live && heap.live[items].Cells? && count == |heap.live[items].cells|
      requires Owns(heap.live, items, heap.live[items].cells)
      modifies heap
      ensures heap.live == old(heap.live - Owned(heap.live[items].cells, 0))
    {
      ghost var before := heap.live;
      ghost var cells := before[items].cells;
      for i := 0 to count
        invariant items in heap.live && heap.live[items] == Cells(cells)
        invariant Separate(cells, i) && Owned(cells, i) <= heap.live.Keys && items !in Owned(cells, i)
        invariant before - Owned(cells, 0) == heap.live - Owned(cells, i)
      {
        var c := heap.live[items].cells[i];
        heap.Free(c.indices);
        heap.Free(heap.live[items].cells[i].values);
      }
    }
  }
}
