/** Parts of `BagAdd` and `SetOverheadPerIndex` (source/crabs/bok.h) as the
    code is written, where that differs from what the comments and `BagFind`
    intend. The rest of the model uses the intended behaviour in module
    `Bok`; each lemma here names an input on which the two differ. */
module BokAsWritten {
  import opened Types
  import opened Utils
  import opened Bok

  // ---------------------------------------------------------------------------
  // The search of BagAdd
  // ---------------------------------------------------------------------------

  /** The search loop of `BagAdd`: it hits as `Search` does, but on a miss
      the insertion point it leaves behind is `mid`, the last slot probed,
      rather than `low`. `last` is the probe before this call. */
  function SearchAsWritten(hashes: seq<nat>, low: nat, high: int, h: nat, last: nat): (p: Probe)
    requires high < |hashes| && low <= high + 1
    ensures p.Hit? ==> p == Search(hashes, low, high, h)
    ensures p.Miss? ==> Search(hashes, low, high, h).Miss?
    ensures p.Miss? && low <= high ==> low <= p.at <= high
    decreases high - low + 1
  {
    if low > high then Miss(last)
    else
      var mid := (low + high) / 2;
      if hashes[mid] > h then SearchAsWritten(hashes, low, mid - 1, h, mid)
      else if hashes[mid] < h then SearchAsWritten(hashes, mid + 1, high, h, mid)
      else Hit(mid)
  }

  /** `BagAdd` searches slots `0..num_items`, one past the live ones. With
      one live hash 5 and a stale 9 in slot 1, a key hashing to 9 hits the
      dead slot 1; over the live slot alone it misses. */
  lemma StaleSlotDefect()
    ensures SearchAsWritten([5, 9], 0, 1, 9, 0) == Hit(1)
    ensures Search([5, 9], 0, 0, 9) == Miss(1)
  {
  }

  /** With live hashes 5 and 7, a key hashing to 6 goes in at slot 0, the
      last slot probed, and the hashes come out as 6, 5, 7. The insertion
      point of the search, slot 1, keeps them sorted. */
  lemma InsertPointDefect()
    ensures SearchAsWritten([5, 7, 0], 0, 2, 6, 0) == Miss(0)
    ensures InsertAt([5, 7, 0], 2, 0, 6) == [6, 5, 7] && !Sorted([6, 5, 7], 3)
    ensures Search([5, 7, 0], 0, 1, 6) == Miss(1)
    ensures InsertAt([5, 7, 0], 2, 1, 6) == [5, 6, 7] && Sorted([5, 6, 7], 3)
  {
    assert InsertAt([5, 7, 0], 2, 0, 6) == [6, 5, 7];
    assert [6, 5, 7][0] > [6, 5, 7][1];
    assert InsertAt([5, 7, 0], 2, 1, 6) == [5, 6, 7];
  }

  // ---------------------------------------------------------------------------
  // The insertion-index shift of BagAdd's miss path
  // ---------------------------------------------------------------------------

  /** The shift of the insertion indexes on a miss as written. `region` is
      the insertion-index array of `maxItems` entries followed by the
      collision pile, as they lie in memory. The loop starts at entry `mid`
      but moves `n` entries, not the `n - mid` live ones above it, so it runs
      up to entry `mid + n`; from `maxItems` up those entries are the pile's. */
  function IndexShiftAsWritten(region: seq<nat>, maxItems: nat, n: nat, mid: nat): (r: seq<nat>)
    requires mid <= n < maxItems && mid + n < |region|
    ensures |r| == |region| && r[mid] == n
    ensures forall s :: maxItems <= s <= mid + n ==> r[s] == region[s - 1]
    ensures forall s :: mid + n < s < |region| ==> r[s] == region[s]
  {
    InsertAt(region, mid + n, mid, n)
  }

  /** With 4 items of room, 3 live and a miss at slot 2, the shift as written
      moves entries up to entry 5, that is pile entries 0 and 1. A pile
      holding the chain 7, 8 (pile 7, 8, 255) comes out as 9, 7, 255, where
      the shift over the live entries alone leaves it alone; both give the
      same live insertion indexes 0, 1, 3, 2. */
  lemma IndexShiftOverrunDefect()
    ensures IndexShiftAsWritten([0, 1, 2, 9, 7, 8, 255], 4, 3, 2) == [0, 1, 3, 2, 9, 7, 255]
    ensures InsertAt([0, 1, 2, 9], 3, 2, 3) == [0, 1, 3, 2]
  {
    assert InsertAt([0, 1, 2, 9, 7, 8, 255], 5, 2, 3) == [0, 1, 3, 2, 9, 7, 255];
    assert InsertAt([0, 1, 2, 9], 3, 2, 3) == [0, 1, 3, 2];
  }

  // ---------------------------------------------------------------------------
  // The room checks of BagAdd
  // ---------------------------------------------------------------------------

  /** The checks at the top of `BagAdd` as written, against the room as
      written: `Some` is an early return, `None` goes on to the search. The
      second check returns 0, the index of the first key, rather than the
      terminator. */
  function EarlyAddAsWritten(t: Table, lay: Layout, key: seq<byte>): (r: Option<nat>)
    ensures 0 < t.numItems < t.maxItems && |key| == RoomAsWritten(t, lay) ==> r == Some(0)
    ensures r.None? ==> 0 < t.numItems < t.maxItems && |key| < RoomAsWritten(t, lay)
  {
    var value := RoomAsWritten(t, lay);
    if t.numItems >= t.maxItems || |key| > value then Some(Terminator(lay))
    else if t.numItems == 0 then Some(0)
    else if |key| >= value then Some(0)
    else None
  }

  /** A Bok2 table of 20 bytes with room for two items holding "a": as
      written the room is 20 - 2 * 8 = 4, so adding "bbbb" passes the first
      check and the second returns 0, the index of "a". The arrays leave 2
      bytes, so the intended add refuses the key. */
  lemma RoomCheckDefect()
    ensures var lay := Layout(1, 2, 2, 0);
      var t := Table(0, 20, 0, 1, 2, [0, 0], [NoCollision, NoCollision], [0, 0], [], [[0x61], []]);
      && RoomAsWritten(t, lay) == 4 && Room(t, lay) == 2
      && EarlyAddAsWritten(t, lay, [0x62, 0x62, 0x62, 0x62]) == Some(0)
      && t.keys[0] != [0x62, 0x62, 0x62, 0x62]
  {
  }

  // ---------------------------------------------------------------------------
  // The hit path of BagAdd
  // ---------------------------------------------------------------------------

  /** The `TIndex` word stored for a slot's collision mark: `~0` for none,
      otherwise the pile position of its chain. */
  function HeadWord(head: Head, lay: Layout): (w: nat)
    ensures (w == Terminator(lay)) == (head.NoCollision? || head.start == Terminator(lay))
  {
    match head
    case NoCollision => Terminator(lay)
    case Pile(start) => start
  }

  /** The chain test of `BagAdd`, `index < ~0` with `index` an `int`: `~0`
      is the `int` -1, so no index passes it. */
  function ChainTestAsWritten(index: nat): (r: bool)
    ensures !r
  {
    (index as int) < -1
  }

  /** On a hit `BagAdd` never walks a chain, since no index passes its chain
      test; it compares the key with the one at `key_offsets[indexes[mid]]`,
      and for a slot without collisions that index is `~0`, at or past the
      end of the key offsets. */
  lemma HitPathDefect(t: Table, lay: Layout, mid: nat)
    requires Shaped(t, lay) && mid < t.numItems
    ensures !ChainTestAsWritten(HeadWord(t.heads[mid], lay))
    ensures t.heads[mid].NoCollision? ==> HeadWord(t.heads[mid], lay) >= t.maxItems
  {
  }

  // ---------------------------------------------------------------------------
  // The hit path of BagFind
  // ---------------------------------------------------------------------------

  /** The chain test of `BagFind`, `index < ~0` with `index` a `TIndex`. A
      `byte` or `uint16_t` index is promoted to `int` and compared with -1,
      so for Bok2 and Bok4 no index passes; a `uint32_t` index is compared
      with -1 converted to 0xFFFFFFFF, so for Bok8 the test is the intended
      "not the terminator". */
  function FindChainTestAsWritten(index: nat, lay: Layout): (r: bool)
    ensures lay.indexWidth < 4 ==> !r
    ensures lay.indexWidth == 4 ==> (r <==> index < Terminator(lay))
  {
    assert Pow256(4) == 0x1_0000_0000 by {
      assert Pow256(3) == 0x100_0000;
    }
    if lay.indexWidth < 4 then (index as int) < -1 else index < 0xFFFF_FFFF
  }

  /** `BagFind` as written: on a hit it walks the slot's chain only when
      the chain test passes, and otherwise compares the key with the item
      the slot names in `unsorted_indexes`. A slot without a chain holds
      `~0`, which fails the test for every width, so only a slot with a
      chain needs the test. What it returns is still sound. */
  function FindAsWritten(t: Table, lay: Layout, key: seq<byte>): (r: nat)
    requires Consistent(t, lay)
    ensures r == Terminator(lay) || (r < t.numItems && t.keys[r] == key)
  {
    var n := t.numItems;
    if n == 0 then Terminator(lay)
    else if n == 1 then (if t.keys[0] == key then 0 else Terminator(lay))
    else match Search(t.hashes, 0, n - 1, KeyHash(key, lay))
      case Miss(_) => Terminator(lay)
      case Hit(mid) =>
        if t.heads[mid].Pile? && FindChainTestAsWritten(HeadWord(t.heads[mid], lay), lay) then
          ChainFindSpec(t.pile, t.heads[mid].start, Limit(lay), t.keys, key);
          (match ChainFind(t.pile, t.heads[mid].start, Limit(lay), t.keys, key)
           case Found(i) => i
           case Ended(_) => Terminator(lay))
        else if t.keys[t.order[mid]] == key then t.order[mid] else Terminator(lay)
  }

  const Bok2Layout := Layout(1, 2, 2, 0)

  /** "ab" and "ba" added in that order to an empty Bok2 table: they have
      the same hash, so the slot of "ab" and the tail slot both point at a
      chain of items 0 and 1 at the bottom of the pile. */
  const ChainedTable := Table(0, 64, 3, 2, 2, [62611, Placeholder], [Pile(0), Pile(0)], [0, 1], [0, 1, 255],
                              [[0x61, 0x62], [0x62, 0x61]])

  /** Both keys hash to 62611 and the table is consistent. */
  lemma ChainedTableConsistent()
    ensures KeyHash([0x61, 0x62], Bok2Layout) == KeyHash([0x62, 0x61], Bok2Layout) == 62611
    ensures Consistent(ChainedTable, Bok2Layout)
  {
    var t := ChainedTable;
    assert [0x61, 0x62][..1] == [0x61] && [0x62, 0x61][..1] == [0x62];
    assert [0x61][..0] == [] && [0x62][..0] == [];
    assert HashOf([0x61], 0) == Hash16(0x61, 0) == 64081;
    assert HashOf([0x62], 0) == Hash16(0x62, 0) == 64066;
    assert HashOf([0x61, 0x62], 0) == Hash16(0x62, 64081) == 62611;
    assert HashOf([0x62, 0x61], 0) == Hash16(0x61, 64066) == 62611;
    assert Limit(Bok2Layout) == 255;
    assert ChainOf(t.pile, 0, 255) == [0, 1];
    assert ChainEnd(t.pile, 0, 255) == 2;
    assert Covers(t, Bok2Layout, 0, 0) && Covers(t, Bok2Layout, 0, 1);
  }

  /** As written a find of "ba" in that table never walks the chain: it
      compares "ba" with "ab", the slot's own item, and returns the
      terminator, where the intended find returns 1. */
  lemma ChainedFindDefect()
    ensures Consistent(ChainedTable, Bok2Layout) && ChainedTable.keys[1] == [0x62, 0x61]
    ensures FindSpec(ChainedTable, Bok2Layout, [0x62, 0x61]) == 1
    ensures FindAsWritten(ChainedTable, Bok2Layout, [0x62, 0x61]) == Terminator(Bok2Layout) == 255
  {
    ChainedTableConsistent();
    assert Pow256(1) == 256;
    FindComplete(ChainedTable, Bok2Layout, [0x62, 0x61], 1);
  }

  // ---------------------------------------------------------------------------
  // SetOverheadPerIndex
  // ---------------------------------------------------------------------------

  /** The width of `size_t` on a 64-bit target. */
  const SizeOfSize: nat := 8

  /** `SetOverheadPerIndex` as written takes `sizeof` of the sum rather than
      the sum, the width of a `size_t` whatever the index widths. For each
      of the Bok2, Bok4 and Bok8 layouts that is less than an item costs. */
  function OverheadAsWritten(lay: Layout): (w: nat)
    ensures lay.indexWidth >= 1 && lay.keyWidth >= 2 && lay.dataWidth >= 2 ==> w < Overhead(lay)
  {
    SizeOfSize
  }

  /** The room `BagAdd` computes with the overhead as written. */
  function RoomAsWritten(t: Table, lay: Layout): (r: int)
    ensures Overhead(lay) > OverheadAsWritten(lay) && t.maxItems > 0 ==> r > Room(t, lay)
  {
    t.tableSize - t.maxItems * OverheadAsWritten(lay)
  }

  /** A Bok8 table (4-byte indexes and keys, 8-byte data) of 100 bytes with
      four items: the arrays take 92 bytes and leave 8 for keys, but the
      check as written allows 68, so a 60-byte key would run over the
      arrays. */
  lemma OverheadDefect()
    ensures var lay := Layout(4, 4, 8, 0);
      var t := Table(0, 100, 0, 0, 4, [0, 0, 0, 0], [NoCollision, NoCollision, NoCollision, NoCollision],
                     [0, 0, 0, 0], [], [[], [], [], []]);
      && Overhead(lay) == 23 && OverheadAsWritten(lay) == 8
      && Room(t, lay) == 8 && RoomAsWritten(t, lay) == 68
  {
  }
}
