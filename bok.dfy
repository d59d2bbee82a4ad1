/** The sorted-hash string map that lives in one caller-owned region
    (source/crabs/bok.h).

    The region holds the header words `size`, `table_size`, `pile_size`,
    `num_items` and `max_items`, then parallel arrays indexed by sorted slot
    (the hashes, the collision marks and the insertion index of each slot),
    the collision pile, and the keys, which are stored by insertion index.
    The model keeps each array as a sequence of its entries rather than as
    byte offsets into the region. */
module Bok {
  import opened Types
  import opened Utils

  // ---------------------------------------------------------------------------
  // Index widths
  // ---------------------------------------------------------------------------

  /** `~0` in a `TIndex` of `width` bytes. */
  function AllOnes(width: nat): nat
  {
    Pow256(width) - 1
  }

  /** `BagMaxIndexes<TIndex>`: the most items a table with `width`-byte
      indexes may hold. It is positive exactly for the widths the source
      instantiates, and never above the all-ones index, so an index below
      it is never mistaken for the end of a collision chain. */
  function BagMaxIndexes(width: nat): (n: nat)
    ensures n <= AllOnes(width)
    ensures n > 0 <==> width in {1, 2, 4}
  {
    assert Pow256(2) == 0x1_0000;
    assert Pow256(4) == 0x1_0000_0000 by {
      assert Pow256(3) == 0x100_0000;
    }
    if width == 1 then 255
    else if width == 2 then 8 * 1024
    else if width == 4 then 512 * 1024 * 1024
    else 0
  }

  /** The integer widths of one instantiation and the seed of its key hash. */
  datatype Layout = Layout(indexWidth: nat, keyWidth: nat, dataWidth: nat, seed: uint16)

  /** `SetOverheadPerIndex`: the bytes each item costs in the arrays, two
      indexes, a key offset, a data offset, a state byte and a 2-byte hash. */
  function Overhead(lay: Layout): nat
  {
    2 * lay.indexWidth + lay.keyWidth + lay.dataWidth + 3
  }

  /** The collision-pile terminator and the value returned for "none". */
  function Terminator(lay: Layout): nat
  {
    AllOnes(lay.indexWidth)
  }

  function Limit(lay: Layout): nat
  {
    BagMaxIndexes(lay.indexWidth)
  }

  /** The hash the tail slot of a collision gets, the largest 16-bit value. */
  const Placeholder: nat := 0xFFFF

  /** `Hash16(key)` over the key's characters. */
  function KeyHash(key: seq<byte>, lay: Layout): (h: nat)
    ensures h <= Placeholder
  {
    HashOf(key, lay.seed) as nat
  }

  // ---------------------------------------------------------------------------
  // The table
  // ---------------------------------------------------------------------------

  /** The collision mark of a sorted slot: none, or the pile position where
      the slot's chain of insertion indexes starts. */
  datatype Head = NoCollision | Pile(start: nat)

  /** The header words and the arrays. `hashes`, `heads` and `order` are
      indexed by sorted slot, `keys` by insertion index; all four have
      `maxItems` entries of which the first `numItems` are live. */
  datatype Table = Table(
    size: nat, tableSize: nat, pileSize: nat, numItems: nat, maxItems: nat,
    hashes: seq<nat>, heads: seq<Head>, order: seq<nat>, pile: seq<nat>, keys: seq<seq<byte>>)

  /** The bytes the arrays of `count` items take, `Overhead` bytes each. */
  function ArrayBytes(count: nat, lay: Layout): nat
  {
    count * Overhead(lay)
  }

  /** The key space `BagAdd` computes: the table size less the arrays. */
  function Room(t: Table, lay: Layout): int
  {
    t.tableSize - ArrayBytes(t.maxItems, lay)
  }

  // ---------------------------------------------------------------------------
  // Collision chains
  // ---------------------------------------------------------------------------

  /** The pile entries from position `j` up to the first at or above `limit`. */
  function ChainOf(pile: seq<nat>, j: nat, limit: nat): seq<nat>
    decreases |pile| - j
  {
    if j >= |pile| || pile[j] >= limit then [] else [pile[j]] + ChainOf(pile, j + 1, limit)
  }

  /** The position where that walk stops. */
  function ChainEnd(pile: seq<nat>, j: nat, limit: nat): (e: nat)
    ensures j <= e
    ensures e < |pile| ==> pile[e] >= limit
    decreases |pile| - j
  {
    if j >= |pile| || pile[j] >= limit then j else ChainEnd(pile, j + 1, limit)
  }

  /** A chain that ends inside the live pile and names only live items. */
  ghost predicate ChainOk(pile: seq<nat>, pileSize: nat, j: nat, n: nat, limit: nat)
  {
    ChainEnd(pile, j, limit) < pileSize && forall x :: x in ChainOf(pile, j, limit) ==> x < n
  }

  /** The result of walking a chain for a key. */
  datatype Walk = Found(index: nat) | Ended(at: nat)

  /** The chain loop of `BagAdd` and `BagFind`: the first entry whose key
      equals `key`, or the position of the terminator. */
  function ChainFind(pile: seq<nat>, j: nat, limit: nat, keys: seq<seq<byte>>, key: seq<byte>): Walk
    decreases |pile| - j
  {
    if j >= |pile| || pile[j] >= limit then Ended(j)
    else if pile[j] < |keys| && keys[pile[j]] == key then Found(pile[j])
    else ChainFind(pile, j + 1, limit, keys, key)
  }

  /** A chain walk finds an entry of the chain with the key, or reaches the
      chain's end having seen no entry with the key. */
  lemma {:induction false} ChainFindSpec(pile: seq<nat>, j: nat, limit: nat, keys: seq<seq<byte>>, key: seq<byte>)
    requires forall x :: x in ChainOf(pile, j, limit) ==> x < |keys|
    ensures var w := ChainFind(pile, j, limit, keys, key);
      && (w.Found? ==> w.index in ChainOf(pile, j, limit) && keys[w.index] == key)
      && (w.Ended? <==> forall x :: x in ChainOf(pile, j, limit) ==> keys[x] != key)
      && (w.Ended? ==> w.at == ChainEnd(pile, j, limit))
    decreases |pile| - j
  {
    if j < |pile| && pile[j] < limit {
      var tail := ChainOf(pile, j + 1, limit);
      assert ChainOf(pile, j, limit) == [pile[j]] + tail;
      forall x | x in tail
        ensures x < |keys|
      {
        assert x in ChainOf(pile, j, limit);
      }
      ChainFindSpec(pile, j + 1, limit, keys, key);
    }
  }

  /** The walk from `j` stops at or before any terminator at or after `j`. */
  lemma {:induction false} ChainEndBefore(pile: seq<nat>, j: nat, e: nat, limit: nat)
    requires j <= e < |pile| && pile[e] >= limit
    ensures ChainEnd(pile, j, limit) <= e
    decreases e - j
  {
    if j < e && pile[j] < limit {
      ChainEndBefore(pile, j + 1, e, limit);
    }
  }

  /** A chain that ends before position `m` reads only positions below `m`,
      so a pile that agrees below `m` holds the same chain. */
  lemma {:induction false} ChainStable(pile: seq<nat>, pile2: seq<nat>, j: nat, m: nat, limit: nat)
    requires ChainEnd(pile, j, limit) < m <= |pile| && m <= |pile2|
    requires pile2[..m] == pile[..m]
    ensures ChainOf(pile2, j, limit) == ChainOf(pile, j, limit)
    ensures ChainEnd(pile2, j, limit) == ChainEnd(pile, j, limit)
    decreases |pile| - j
  {
    assert pile2[j] == pile2[..m][j];
    if pile[j] < limit {
      assert pile2[j + 1] == pile2[..m][j + 1] || j + 1 >= m;
      ChainStable(pile, pile2, j + 1, m, limit);
    }
  }

  /** A chain that reaches the terminator at `e` gains `x` when `x` is
      inserted before that terminator. */
  lemma {:induction false} ChainGrows(pile: seq<nat>, pileSize: nat, j: nat, e: nat, x: nat, limit: nat)
    requires j <= e < pileSize <= |pile| && ChainEnd(pile, j, limit) == e && x < limit
    ensures var pile2 := pile[..e] + [x] + pile[e..pileSize];
      && ChainOf(pile2, j, limit) == ChainOf(pile, j, limit) + [x]
      && ChainEnd(pile2, j, limit) == e + 1
    decreases e - j
  {
    var pile2 := pile[..e] + [x] + pile[e..pileSize];
    if j == e {
      assert pile2[e] == x && pile2[e + 1] == pile[e];
    } else {
      assert pile2[j] == pile[j];
      ChainGrows(pile, pileSize, j + 1, e, x, limit);
    }
  }

  /** A chain that starts after the insertion point moves up one position
      and keeps its entries. */
  lemma {:induction false} ChainShifts(pile: seq<nat>, pileSize: nat, j: nat, e: nat, x: nat, limit: nat)
    requires e < j && ChainEnd(pile, j, limit) < pileSize <= |pile|
    ensures var pile2 := pile[..e] + [x] + pile[e..pileSize];
      && ChainOf(pile2, j + 1, limit) == ChainOf(pile, j, limit)
      && ChainEnd(pile2, j + 1, limit) == ChainEnd(pile, j, limit) + 1
    decreases |pile| - j
  {
    var pile2 := pile[..e] + [x] + pile[e..pileSize];
    assert pile2[j + 1] == pile[j];
    if pile[j] < limit {
      ChainShifts(pile, pileSize, j + 1, e, x, limit);
    }
  }

  // ---------------------------------------------------------------------------
  // Binary search
  // ---------------------------------------------------------------------------

  /** The result of the hash search: the slot holding the hash, or the slot
      where it belongs. */
  datatype Probe = Hit(slot: nat) | Miss(at: nat)

  /** The binary search of `BagFind` over slots `low..high`. */
  function Search(hashes: seq<nat>, low: nat, high: int, h: nat): (p: Probe)
    requires high < |hashes| && low <= high + 1
    ensures p.Hit? ==> low <= p.slot <= high && hashes[p.slot] == h
    ensures p.Miss? ==> low <= p.at <= high + 1
    decreases high - low + 1
  {
    if low > high then Miss(low)
    else
      var mid := (low + high) / 2;
      if hashes[mid] > h then Search(hashes, low, mid - 1, h)
      else if hashes[mid] < h then Search(hashes, mid + 1, high, h)
      else Hit(mid)
  }

  ghost predicate Sorted(hashes: seq<nat>, n: nat)
    requires n <= |hashes|
  {
    forall a, b :: 0 <= a < b < n ==> hashes[a] <= hashes[b]
  }

  /** Over sorted slots, the search finds a slot holding `h`, or the one
      position where `h` keeps the slots sorted. */
  lemma {:induction false} SearchSpec(hashes: seq<nat>, n: nat, low: nat, high: int, h: nat)
    requires n <= |hashes| && Sorted(hashes, n) && high < n && low <= high + 1
    requires forall k :: 0 <= k < low ==> hashes[k] < h
    requires forall k :: high < k < n ==> hashes[k] > h
    ensures var p := Search(hashes, low, high, h);
      && (p.Hit? ==> p.slot < n && hashes[p.slot] == h)
      && (p.Miss? ==>
            && p.at <= n
            && (forall k :: 0 <= k < p.at ==> hashes[k] < h)
            && (forall k :: p.at <= k < n ==> hashes[k] > h))
    decreases high - low + 1
  {
    if low <= high {
      var mid := (low + high) / 2;
      if hashes[mid] > h {
        SearchSpec(hashes, n, low, mid - 1, h);
      } else if hashes[mid] < h {
        SearchSpec(hashes, n, mid + 1, high, h);
      }
    }
  }

  /** The search over all `n` live slots: a hit holds the hash, a miss means
      no live slot holds it. */
  lemma SearchLive(hashes: seq<nat>, n: nat, h: nat)
    requires 0 < n <= |hashes| && Sorted(hashes, n)
    ensures var p := Search(hashes, 0, n - 1, h);
      && (p.Hit? ==> p.slot < n && hashes[p.slot] == h)
      && (p.Miss? <==> forall k :: 0 <= k < n ==> hashes[k] != h)
      && (p.Miss? ==>
            && p.at <= n
            && (forall k :: 0 <= k < p.at ==> hashes[k] < h)
            && (forall k :: p.at <= k < n ==> hashes[k] > h))
  {
    SearchSpec(hashes, n, 0, n - 1, h);
  }

  // ---------------------------------------------------------------------------
  // Consistency of a table
  // ---------------------------------------------------------------------------

  /** The header and the arrays fit together. */
  ghost predicate Shaped(t: Table, lay: Layout)
  {
    && lay.indexWidth in {1, 2, 4}
    && t.numItems <= t.maxItems <= Limit(lay)
    && |t.hashes| == t.maxItems && |t.heads| == t.maxItems
    && |t.order| == t.maxItems && |t.keys| == t.maxItems
    && ArrayBytes(t.maxItems, lay) <= t.tableSize
    && t.pileSize <= |t.pile|
  }

  /** The live hashes are sorted 16-bit values, and only the placeholder of
      collision tails occurs in more than one live slot. */
  ghost predicate Ordered(t: Table)
    requires t.numItems <= |t.hashes|
  {
    && Sorted(t.hashes, t.numItems)
    && (forall s :: 0 <= s < t.numItems ==> t.hashes[s] <= Placeholder)
    && (forall a, b :: 0 <= a < b < t.numItems && t.hashes[a] == t.hashes[b] ==> t.hashes[a] == Placeholder)
  }

  /** Every live slot names a live item, directly or through a chain that
      ends inside the live pile. */
  ghost predicate Linked(t: Table, lay: Layout)
    requires Shaped(t, lay)
  {
    && (forall s :: 0 <= s < t.numItems ==> t.order[s] < t.numItems)
    && (forall s :: 0 <= s < t.numItems && t.heads[s].Pile? ==>
          ChainOk(t.pile, t.pileSize, t.heads[s].start, t.numItems, Limit(lay)))
  }

  /** Slot `s` leads to item `i`. */
  ghost predicate Covers(t: Table, lay: Layout, s: nat, i: nat)
    requires s < |t.heads| && s < |t.order|
  {
    match t.heads[s]
    case NoCollision => t.order[s] == i
    case Pile(p) => i in ChainOf(t.pile, p, Limit(lay))
  }

  /** Every live key whose hash is not the placeholder is reached from a
      slot holding its hash, and such a key is stored only once. */
  ghost predicate Indexed(t: Table, lay: Layout)
    requires Shaped(t, lay)
  {
    && (forall i :: 0 <= i < t.numItems && KeyHash(t.keys[i], lay) != Placeholder ==>
          exists s :: 0 <= s < t.numItems && t.hashes[s] == KeyHash(t.keys[i], lay) && Covers(t, lay, s, i))
    && (forall i, j :: 0 <= i < j < t.numItems && t.keys[i] == t.keys[j] ==> KeyHash(t.keys[i], lay) == Placeholder)
  }

  ghost predicate Consistent(t: Table, lay: Layout)
  {
    Shaped(t, lay) && Ordered(t) && Linked(t, lay) && Indexed(t, lay)
  }

  /** The keys of the live items, in insertion order. */
  function Live(t: Table): seq<seq<byte>>
    requires t.numItems <= |t.keys|
  {
    t.keys[..t.numItems]
  }

  // ---------------------------------------------------------------------------
  // BagAdd
  // ---------------------------------------------------------------------------

  /** The table after an add, and the index `BagAdd` returns. */
  datatype Added = Added(table: Table, index: nat)

  /** Slots `at..n-1` move up one and `x` goes into slot `at`; slots past `n`
      keep what they held. */
  function InsertAt<T>(xs: seq<T>, n: nat, at: nat, x: T): (ys: seq<T>)
    requires at <= n < |xs|
    ensures |ys| == |xs|
    ensures forall s :: 0 <= s < at ==> ys[s] == xs[s]
    ensures ys[at] == x
    ensures forall s :: at < s <= n ==> ys[s] == xs[s - 1]
    ensures forall s :: n < s < |xs| ==> ys[s] == xs[s]
  {
    xs[..at] + [x] + xs[at..n] + xs[n + 1..]
  }

  /** The first item of an empty table: slot 0, no collision, index 0. */
  function First(t: Table, lay: Layout, key: seq<byte>): Table
    requires Shaped(t, lay) && 0 < t.maxItems
  {
    t.(numItems := 1, hashes := t.hashes[0 := KeyHash(key, lay)], heads := t.heads[0 := NoCollision],
       order := t.order[0 := 0], keys := t.keys[0 := key])
  }

  /** A hash not yet in the table: the slots from `at` move up and the new
      item takes slot `at`. */
  function InsertHash(t: Table, lay: Layout, key: seq<byte>, at: nat): Table
    requires Shaped(t, lay) && at <= t.numItems < t.maxItems
  {
    var n := t.numItems;
    t.(numItems := n + 1,
       hashes := InsertAt(t.hashes, n, at, KeyHash(key, lay)),
       heads := InsertAt(t.heads, n, at, NoCollision),
       order := InsertAt(t.order, n, at, n),
       keys := t.keys[n := key])
  }

  /** A second key for the hash of slot `mid`: a chain of the slot's item and
      the new one goes on top of the pile, and both `mid` and the new tail
      slot point at it. */
  function NewCollision(t: Table, lay: Layout, key: seq<byte>, mid: nat): Table
    requires Shaped(t, lay) && mid < t.numItems < t.maxItems
  {
    var n := t.numItems;
    var ps := t.pileSize;
    t.(numItems := n + 1, pileSize := ps + 3,
       pile := t.pile[..ps] + [t.order[mid], n, Terminator(lay)],
       heads := t.heads[mid := Pile(ps)][n := Pile(ps)],
       hashes := t.hashes[n := Placeholder],
       order := t.order[n := n],
       keys := t.keys[n := key])
  }

  /** The chain starts after pile position `end` move up one. */
  function Reanchor(heads: seq<Head>, n: nat, end: nat): (r: seq<Head>)
    ensures |r| == |heads|
  {
    seq(|heads|, s requires 0 <= s < |heads| =>
      if s < n && heads[s].Pile? && heads[s].start > end then Pile(heads[s].start + 1) else heads[s])
  }

  /** Another key for a hash that already has a chain ending at pile
      position `end`: the new index goes in before the terminator and the
      new tail slot points at the same chain. */
  function ExtendChain(t: Table, lay: Layout, key: seq<byte>, mid: nat, end: nat): Table
    requires Shaped(t, lay) && mid < t.numItems < t.maxItems && end < t.pileSize
  {
    var n := t.numItems;
    var ps := t.pileSize;
    t.(numItems := n + 1, pileSize := ps + 1,
       pile := t.pile[..end] + [n] + t.pile[end..ps],
       heads := Reanchor(t.heads, n, end)[n := t.heads[mid]],
       hashes := t.hashes[n := Placeholder],
       order := t.order[n := n],
       keys := t.keys[n := key])
  }

  // ---------------------------------------------------------------------------
  // BagFind
  // ---------------------------------------------------------------------------

  /** `BagFind` on a table: the index of the key, or the terminator.
      Whatever it returns other than the terminator is a live index holding
      the key. */
  function FindSpec(t: Table, lay: Layout, key: seq<byte>): (r: nat)
    requires Consistent(t, lay)
    ensures r == Terminator(lay) || (r < t.numItems && t.keys[r] == key)
  {
    var n := t.numItems;
    if n == 0 then Terminator(lay)
    else if n == 1 then (if t.keys[0] == key then 0 else Terminator(lay))
    else match Search(t.hashes, 0, n - 1, KeyHash(key, lay))
      case Miss(_) => Terminator(lay)
      case Hit(mid) =>
        match t.heads[mid]
        case Pile(start) =>
          ChainFindSpec(t.pile, start, Limit(lay), t.keys, key);
          (match ChainFind(t.pile, start, Limit(lay), t.keys, key)
           case Found(i) => i
           case Ended(_) => Terminator(lay))
        case NoCollision =>
          if t.keys[t.order[mid]] == key then t.order[mid] else Terminator(lay)
  }

  // ---------------------------------------------------------------------------
  // Each way of adding keeps the table consistent
  // ---------------------------------------------------------------------------

  /** A chain that names only items below `n` names only items below `n + 1`. */
  lemma ChainOkGrows(pile: seq<nat>, pileSize: nat, j: nat, n: nat, limit: nat)
    requires ChainOk(pile, pileSize, j, n, limit)
    ensures ChainOk(pile, pileSize, j, n + 1, limit)
  {
  }

  lemma FirstConsistent(t: Table, lay: Layout, key: seq<byte>)
    requires Consistent(t, lay) && t.numItems == 0 < t.maxItems
    ensures Consistent(First(t, lay, key), lay)
  {
    var t2 := First(t, lay, key);
    assert Covers(t2, lay, 0, 0);
  }

  /** Where old slot `s` is after an insertion at `at`. */
  function Up(s: nat, at: nat): nat
  {
    if s < at then s else s + 1
  }

  lemma InsertHashOrdered(t: Table, lay: Layout, key: seq<byte>, at: nat)
    requires Consistent(t, lay) && at <= t.numItems < t.maxItems
    requires forall k :: 0 <= k < at ==> t.hashes[k] < KeyHash(key, lay)
    requires forall k :: at <= k < t.numItems ==> t.hashes[k] > KeyHash(key, lay)
    ensures Ordered(InsertHash(t, lay, key, at))
  {
    var t2 := InsertHash(t, lay, key, at);
    var n := t.numItems;
    forall a, b | 0 <= a < b < n + 1
      ensures t2.hashes[a] <= t2.hashes[b]
      ensures t2.hashes[a] == t2.hashes[b] ==> t2.hashes[a] == Placeholder
    {
      var a0 := if a <= at then a else a - 1;
      var b0 := if b <= at then b else b - 1;
      if a != at && b != at {
        assert t2.hashes[a] == t.hashes[a0] && t2.hashes[b] == t.hashes[b0] && a0 < b0;
      } else if a == at {
        assert t2.hashes[b] == t.hashes[b - 1];
      } else {
        assert t2.hashes[a] == t.hashes[a];
      }
    }
  }

  lemma InsertHashLinked(t: Table, lay: Layout, key: seq<byte>, at: nat)
    requires Consistent(t, lay) && at <= t.numItems < t.maxItems
    ensures Shaped(InsertHash(t, lay, key, at), lay) && Linked(InsertHash(t, lay, key, at), lay)
  {
    var t2 := InsertHash(t, lay, key, at);
    var n := t.numItems;
    forall s | 0 <= s < n + 1 && t2.heads[s].Pile?
      ensures ChainOk(t2.pile, t2.pileSize, t2.heads[s].start, n + 1, Limit(lay))
    {
      var s0 := if s < at then s else s - 1;
      assert t2.heads[s] == t.heads[s0];
      ChainOkGrows(t.pile, t.pileSize, t.heads[s0].start, n, Limit(lay));
    }
  }

  lemma InsertHashCovered(t: Table, lay: Layout, key: seq<byte>, at: nat, i: nat)
    requires Consistent(t, lay) && at <= t.numItems < t.maxItems
    requires i < t.numItems + 1 && KeyHash(InsertHash(t, lay, key, at).keys[i], lay) != Placeholder
    ensures var t2 := InsertHash(t, lay, key, at);
      exists s :: 0 <= s < t.numItems + 1 && t2.hashes[s] == KeyHash(t2.keys[i], lay) && Covers(t2, lay, s, i)
  {
    var t2 := InsertHash(t, lay, key, at);
    var n := t.numItems;
    if i < n {
      var s :| 0 <= s < n && t.hashes[s] == KeyHash(t.keys[i], lay) && Covers(t, lay, s, i);
      var s2 := Up(s, at);
      assert t2.hashes[s2] == t.hashes[s] && t2.heads[s2] == t.heads[s] && t2.order[s2] == t.order[s];
      assert Covers(t2, lay, s2, i);
    } else {
      assert Covers(t2, lay, at, n);
    }
  }

  lemma InsertHashIndexed(t: Table, lay: Layout, key: seq<byte>, at: nat)
    requires Consistent(t, lay) && at <= t.numItems < t.maxItems
    requires forall k :: 0 <= k < t.numItems ==> t.hashes[k] != KeyHash(key, lay)
    ensures Shaped(InsertHash(t, lay, key, at), lay) && Indexed(InsertHash(t, lay, key, at), lay)
  {
    var t2 := InsertHash(t, lay, key, at);
    var n := t.numItems;
    InsertHashLinked(t, lay, key, at);
    forall i | 0 <= i < n + 1 && KeyHash(t2.keys[i], lay) != Placeholder
      ensures exists s :: 0 <= s < n + 1 && t2.hashes[s] == KeyHash(t2.keys[i], lay) && Covers(t2, lay, s, i)
    {
      InsertHashCovered(t, lay, key, at, i);
    }
    forall i, j | 0 <= i < j < n + 1 && t2.keys[i] == t2.keys[j]
      ensures KeyHash(t2.keys[i], lay) == Placeholder
    {
      if j == n {
        assert t.keys[i] == key;
      }
    }
  }

  /** The chain a new collision puts on top of the pile holds the slot's
      item and the new one. */
  lemma NewChain(pile: seq<nat>, ps: nat, i0: nat, n: nat, term: nat, limit: nat)
    requires ps <= |pile| && i0 < limit && n < limit && limit <= term
    ensures ChainOf(pile[..ps] + [i0, n, term], ps, limit) == [i0, n]
    ensures ChainEnd(pile[..ps] + [i0, n, term], ps, limit) == ps + 2
  {
    var pile2 := pile[..ps] + [i0, n, term];
    assert pile2[ps] == i0 && pile2[ps + 1] == n && pile2[ps + 2] == term;
    assert ChainOf(pile2, ps + 2, limit) == [] && ChainEnd(pile2, ps + 2, limit) == ps + 2;
    assert ChainOf(pile2, ps + 1, limit) == [n] && ChainEnd(pile2, ps + 1, limit) == ps + 2;
  }

  lemma NewCollisionLinked(t: Table, lay: Layout, key: seq<byte>, mid: nat)
    requires Consistent(t, lay) && mid < t.numItems < t.maxItems
    ensures Shaped(NewCollision(t, lay, key, mid), lay)
    ensures Ordered(NewCollision(t, lay, key, mid))
    ensures Linked(NewCollision(t, lay, key, mid), lay)
  {
    var t2 := NewCollision(t, lay, key, mid);
    var n := t.numItems;
    var ps := t.pileSize;
    var limit := Limit(lay);
    NewChain(t.pile, ps, t.order[mid], n, Terminator(lay), limit);
    assert t2.pile[..ps] == t.pile[..ps];
    forall s | 0 <= s < n + 1 && t2.heads[s].Pile?
      ensures ChainOk(t2.pile, t2.pileSize, t2.heads[s].start, n + 1, limit)
    {
      if s != mid && s != n {
        ChainStable(t.pile, t2.pile, t.heads[s].start, ps, limit);
      }
    }
  }

  lemma NewCollisionIndexed(t: Table, lay: Layout, key: seq<byte>, mid: nat)
    requires Consistent(t, lay) && mid < t.numItems < t.maxItems
    requires t.hashes[mid] == KeyHash(key, lay) && t.heads[mid] == NoCollision
    requires t.keys[t.order[mid]] != key
    ensures Shaped(NewCollision(t, lay, key, mid), lay) && Indexed(NewCollision(t, lay, key, mid), lay)
  {
    var t2 := NewCollision(t, lay, key, mid);
    var n := t.numItems;
    var ps := t.pileSize;
    var limit := Limit(lay);
    NewCollisionLinked(t, lay, key, mid);
    NewChain(t.pile, ps, t.order[mid], n, Terminator(lay), limit);
    assert t2.pile[..ps] == t.pile[..ps];
    forall i | 0 <= i < n + 1 && KeyHash(t2.keys[i], lay) != Placeholder
      ensures exists s :: 0 <= s < n + 1 && t2.hashes[s] == KeyHash(t2.keys[i], lay) && Covers(t2, lay, s, i)
    {
      if i < n {
        var s :| 0 <= s < n && t.hashes[s] == KeyHash(t.keys[i], lay) && Covers(t, lay, s, i);
        if s != mid && t.heads[s].Pile? {
          ChainStable(t.pile, t2.pile, t.heads[s].start, ps, limit);
        }
        assert Covers(t2, lay, s, i);
      } else {
        assert Covers(t2, lay, mid, n);
      }
    }
    forall i, j | 0 <= i < j < n + 1 && t2.keys[i] == t2.keys[j]
      ensures KeyHash(t2.keys[i], lay) == Placeholder
    {
      if j == n {
        assert t.keys[i] == key;
      }
    }
  }

  /** Inserting `x` before the terminator at `end`: a chain starting after
      `end` moves up one and keeps its entries, one ending at `end` gains
      `x`, and any other keeps its entries in place. */
  lemma ExtendedChain(pile: seq<nat>, ps: nat, p: nat, end: nat, x: nat, limit: nat)
    requires ChainEnd(pile, p, limit) < ps <= |pile| && end < ps && pile[end] >= limit && x < limit
    ensures var pile2 := pile[..end] + [x] + pile[end..ps];
      var p2 := if p > end then p + 1 else p;
      && ChainEnd(pile2, p2, limit) < ps + 1
      && (ChainEnd(pile, p, limit) == end ==> p <= end && ChainOf(pile2, p2, limit) == ChainOf(pile, p, limit) + [x])
      && (ChainEnd(pile, p, limit) != end ==> ChainOf(pile2, p2, limit) == ChainOf(pile, p, limit))
  {
    var pile2 := pile[..end] + [x] + pile[end..ps];
    if p > end {
      ChainShifts(pile, ps, p, end, x, limit);
    } else {
      ChainEndBefore(pile, p, end, limit);
      if ChainEnd(pile, p, limit) == end {
        ChainGrows(pile, ps, p, end, x, limit);
      } else {
        assert pile2[..end] == pile[..end];
        ChainStable(pile, pile2, p, end, limit);
      }
    }
  }

  lemma ExtendChainLinked(t: Table, lay: Layout, key: seq<byte>, mid: nat, end: nat)
    requires Consistent(t, lay) && mid < t.numItems < t.maxItems && t.heads[mid].Pile?
    requires end == ChainEnd(t.pile, t.heads[mid].start, Limit(lay)) && end < t.pileSize
    ensures Shaped(ExtendChain(t, lay, key, mid, end), lay)
    ensures Ordered(ExtendChain(t, lay, key, mid, end))
    ensures Linked(ExtendChain(t, lay, key, mid, end), lay)
  {
    var t2 := ExtendChain(t, lay, key, mid, end);
    var n := t.numItems;
    var limit := Limit(lay);
    forall s | 0 <= s < n + 1 && t2.heads[s].Pile?
      ensures ChainOk(t2.pile, t2.pileSize, t2.heads[s].start, n + 1, limit)
    {
      var s0 := if s == n then mid else s;
      ExtendedChain(t.pile, t.pileSize, t.heads[s0].start, end, n, limit);
    }
  }

  /** Every key reached before an extension is still reached, and the new
      key is reached from slot `mid`. */
  lemma ExtendChainCovered(t: Table, lay: Layout, key: seq<byte>, mid: nat, end: nat, i: nat)
    requires Consistent(t, lay) && mid < t.numItems < t.maxItems && t.heads[mid].Pile?
    requires t.hashes[mid] == KeyHash(key, lay)
    requires end == ChainEnd(t.pile, t.heads[mid].start, Limit(lay)) && end < t.pileSize
    requires i < t.numItems + 1 && KeyHash(ExtendChain(t, lay, key, mid, end).keys[i], lay) != Placeholder
    ensures var t2 := ExtendChain(t, lay, key, mid, end);
      exists s :: 0 <= s < t.numItems + 1 && t2.hashes[s] == KeyHash(t2.keys[i], lay) && Covers(t2, lay, s, i)
  {
    var t2 := ExtendChain(t, lay, key, mid, end);
    var n := t.numItems;
    var limit := Limit(lay);
    if i < n {
      var s :| 0 <= s < n && t.hashes[s] == KeyHash(t.keys[i], lay) && Covers(t, lay, s, i);
      if t.heads[s].Pile? {
        ExtendedChain(t.pile, t.pileSize, t.heads[s].start, end, n, limit);
      }
      assert Covers(t2, lay, s, i);
    } else {
      ExtendedChain(t.pile, t.pileSize, t.heads[mid].start, end, n, limit);
      assert Covers(t2, lay, mid, n);
    }
  }

  lemma ExtendChainIndexed(t: Table, lay: Layout, key: seq<byte>, mid: nat, end: nat)
    requires Consistent(t, lay) && mid < t.numItems < t.maxItems && t.heads[mid].Pile?
    requires t.hashes[mid] == KeyHash(key, lay)
    requires ChainFind(t.pile, t.heads[mid].start, Limit(lay), t.keys, key) == Ended(end)
    requires end == ChainEnd(t.pile, t.heads[mid].start, Limit(lay)) && end < t.pileSize
    ensures Shaped(ExtendChain(t, lay, key, mid, end), lay) && Indexed(ExtendChain(t, lay, key, mid, end), lay)
  {
    var t2 := ExtendChain(t, lay, key, mid, end);
    var n := t.numItems;
    ExtendChainLinked(t, lay, key, mid, end);
    forall i | 0 <= i < n + 1 && KeyHash(t2.keys[i], lay) != Placeholder
      ensures exists s :: 0 <= s < n + 1 && t2.hashes[s] == KeyHash(t2.keys[i], lay) && Covers(t2, lay, s, i)
    {
      ExtendChainCovered(t, lay, key, mid, end, i);
    }
    ChainFindSpec(t.pile, t.heads[mid].start, Limit(lay), t.keys, key);
    forall i, j | 0 <= i < j < n + 1 && t2.keys[i] == t2.keys[j]
      ensures KeyHash(t2.keys[i], lay) == Placeholder
    {
      if j == n {
        assert t.keys[i] == key;
      }
    }
  }

  // ---------------------------------------------------------------------------
  // What BagAdd and BagFind promise
  // ---------------------------------------------------------------------------

  lemma InsertHashConsistent(t: Table, lay: Layout, key: seq<byte>, at: nat)
    requires Consistent(t, lay) && at <= t.numItems < t.maxItems
    requires forall k :: 0 <= k < at ==> t.hashes[k] < KeyHash(key, lay)
    requires forall k :: at <= k < t.numItems ==> t.hashes[k] > KeyHash(key, lay)
    ensures Consistent(InsertHash(t, lay, key, at), lay)
  {
    InsertHashOrdered(t, lay, key, at);
    InsertHashLinked(t, lay, key, at);
    InsertHashIndexed(t, lay, key, at);
  }

  /** `BagAdd` either refuses the key and leaves the table as it was, or
      returns an index holding the key: an earlier item's, with the table
      unchanged, or the next index, with the key appended to the live keys. */
  ghost predicate Stored(t: Table, lay: Layout, key: seq<byte>, a: Added)
    requires t.numItems <= |t.keys| && a.table.numItems <= |a.table.keys|
  {
    && (a.index == Terminator(lay) ==> a.table == t)
    && (a.index != Terminator(lay) ==> a.index < a.table.numItems && a.table.keys[a.index] == key)
    && (a.table == t || (a.index == t.numItems && Live(a.table) == Live(t) + [key]))
  }

  /** `BagAdd` on a table: the room checks, then the first item of an
      empty table or the search for the key's hash. The table stays
      consistent and the key is stored or refused as `Stored` says. */
  function AddSpec(t: Table, lay: Layout, key: seq<byte>): (a: Added)
    requires Consistent(t, lay)
    ensures Consistent(a.table, lay)
    ensures Stored(t, lay, key, a)
  {
    var n := t.numItems;
    if n >= t.maxItems || |key| > Room(t, lay) then Added(t, Terminator(lay))
    else if n == 0 then
      FirstConsistent(t, lay, key);
      assert Live(First(t, lay, key)) == [key];
      Added(First(t, lay, key), 0)
    else if |key| >= Room(t, lay) then Added(t, Terminator(lay))
    else
      SearchLive(t.hashes, n, KeyHash(key, lay));
      match Search(t.hashes, 0, n - 1, KeyHash(key, lay))
      case Miss(at) =>
        InsertHashConsistent(t, lay, key, at);
        assert Live(InsertHash(t, lay, key, at)) == Live(t) + [key];
        Added(InsertHash(t, lay, key, at), n)
      case Hit(mid) => AddAtSlot(t, lay, key, mid)
  }

  /** `BagAdd` once the search hit slot `mid`, which holds the key's hash: a
      key already present gives its index back, a new one joins or starts
      the slot's chain. */
  function AddAtSlot(t: Table, lay: Layout, key: seq<byte>, mid: nat): (a: Added)
    requires Consistent(t, lay) && mid < t.numItems < t.maxItems
    requires t.hashes[mid] == KeyHash(key, lay)
    ensures Consistent(a.table, lay)
    ensures Stored(t, lay, key, a)
  {
    var n := t.numItems;
    match t.heads[mid]
    case Pile(start) =>
      ChainFindSpec(t.pile, start, Limit(lay), t.keys, key);
      (match ChainFind(t.pile, start, Limit(lay), t.keys, key)
       case Found(i) => Added(t, i)
       case Ended(end) =>
         ExtendChainLinked(t, lay, key, mid, end);
         ExtendChainIndexed(t, lay, key, mid, end);
         assert Live(ExtendChain(t, lay, key, mid, end)) == Live(t) + [key];
         Added(ExtendChain(t, lay, key, mid, end), n))
    case NoCollision =>
      var i := t.order[mid];
      if t.keys[i] == key then Added(t, i)
      else if Room(t, lay) < 3 then Added(t, Terminator(lay))
      else
        NewCollisionLinked(t, lay, key, mid);
        NewCollisionIndexed(t, lay, key, mid);
        assert Live(NewCollision(t, lay, key, mid)) == Live(t) + [key];
        Added(NewCollision(t, lay, key, mid), n)
  }

  /** A key whose hash is not the placeholder is reached through the slot
      holding its hash: that slot is the one the search hits, and the chain
      or the slot's index leads to the key's index. */
  lemma Locate(t: Table, lay: Layout, key: seq<byte>, i: nat)
    requires Consistent(t, lay) && i < t.numItems && t.keys[i] == key
    requires KeyHash(key, lay) != Placeholder
    ensures var p := Search(t.hashes, 0, t.numItems - 1, KeyHash(key, lay));
      && p.Hit?
      && (t.heads[p.slot].NoCollision? ==> t.order[p.slot] == i)
      && (t.heads[p.slot].Pile? ==> ChainFind(t.pile, t.heads[p.slot].start, Limit(lay), t.keys, key) == Found(i))
  {
    var n := t.numItems;
    var h := KeyHash(key, lay);
    var s :| 0 <= s < n && t.hashes[s] == h && Covers(t, lay, s, i);
    SearchLive(t.hashes, n, h);
    var p := Search(t.hashes, 0, n - 1, h);
    if t.heads[s].Pile? {
      ChainFindSpec(t.pile, t.heads[s].start, Limit(lay), t.keys, key);
      var w := ChainFind(t.pile, t.heads[s].start, Limit(lay), t.keys, key);
      assert w.Found?;
      assert w.index < n;
    }
  }

  /** `BagFind` returns the index of every live key whose hash is not the
      placeholder. */
  lemma FindComplete(t: Table, lay: Layout, key: seq<byte>, i: nat)
    requires Consistent(t, lay) && i < t.numItems && t.keys[i] == key
    requires KeyHash(key, lay) != Placeholder
    ensures FindSpec(t, lay, key) == i
  {
    if t.numItems > 1 {
      Locate(t, lay, key, i);
    }
  }

  /** After `BagAdd` stores or finds a key, `BagFind` returns the index
      `BagAdd` returned. */
  lemma FindAfterAdd(t: Table, lay: Layout, key: seq<byte>)
    requires Consistent(t, lay) && KeyHash(key, lay) != Placeholder
    requires AddSpec(t, lay, key).index != Terminator(lay)
    ensures FindSpec(AddSpec(t, lay, key).table, lay, key) == AddSpec(t, lay, key).index
  {
    var a := AddSpec(t, lay, key);
    FindComplete(a.table, lay, key, a.index);
  }

  /** Adding a key that is already live, when the room checks pass, returns
      its index and changes nothing. */
  lemma AddPresent(t: Table, lay: Layout, key: seq<byte>, i: nat)
    requires Consistent(t, lay) && i < t.numItems && t.keys[i] == key
    requires KeyHash(key, lay) != Placeholder
    requires t.numItems < t.maxItems && |key| < Room(t, lay)
    ensures AddSpec(t, lay, key) == Added(t, i)
  {
    Locate(t, lay, key, i);
  }

  /** A full table, a key longer than the room, or, once the table holds
      an item, a key as long as the room, is refused: the terminator comes
      back and the table is unchanged. */
  lemma AddRefuses(t: Table, lay: Layout, key: seq<byte>)
    requires Consistent(t, lay)
    requires t.numItems >= t.maxItems || |key| > Room(t, lay) || (0 < t.numItems && |key| >= Room(t, lay))
    ensures AddSpec(t, lay, key) == Added(t, Terminator(lay))
  {
  }

  /** The converse of `AddRefuses`: a key held by no live item, added to a
      table that has a free index, key room and room for a collision run,
      is accepted at the next index and appended to the live keys. */
  lemma AddAccepts(t: Table, lay: Layout, key: seq<byte>)
    requires Consistent(t, lay) && t.numItems < t.maxItems
    requires if t.numItems == 0 then |key| <= Room(t, lay) else |key| < Room(t, lay)
    requires Room(t, lay) >= 3
    requires forall i :: 0 <= i < t.numItems ==> t.keys[i] != key
    ensures AddSpec(t, lay, key).index == t.numItems
    ensures Live(AddSpec(t, lay, key).table) == Live(t) + [key]
  {
    var n := t.numItems;
    if n > 0 {
      SearchLive(t.hashes, n, KeyHash(key, lay));
      match Search(t.hashes, 0, n - 1, KeyHash(key, lay))
      case Miss(_) =>
      case Hit(mid) =>
        if t.heads[mid].Pile? {
          ChainFindSpec(t.pile, t.heads[mid].start, Limit(lay), t.keys, key);
        }
    }
  }

  // ---------------------------------------------------------------------------
  // BagClear and BagWipe on a table
  // ---------------------------------------------------------------------------

  /** The table after `BagClear`: no items and an empty pile, every array
      left as it was. */
  function Cleared(t: Table): Table
  {
    t.(numItems := 0, pileSize := 0)
  }

  lemma ClearedConsistent(t: Table, lay: Layout)
    requires Consistent(t, lay)
    ensures Consistent(Cleared(t), lay)
  {
  }

  /** A cleared table holds no live key, finds nothing and takes its next
      key at index 0. */
  lemma ClearEmpties(t: Table, lay: Layout, key: seq<byte>)
    requires Consistent(t, lay)
    ensures Consistent(Cleared(t), lay) && Live(Cleared(t)) == []
    ensures FindSpec(Cleared(t), lay, key) == Terminator(lay)
    ensures 0 < t.maxItems && |key| <= Room(t, lay) ==> AddSpec(Cleared(t), lay, key).index == 0
  {
  }

  /** `n` zero entries. */
  function Zeros(n: nat): (z: seq<nat>)
    ensures |z| == n && forall k :: 0 <= k < n ==> z[k] == 0
  {
    if n == 0 then [] else Zeros(n - 1) + [0]
  }

  /** The table after `BagWipe`: every header word and array entry zero.
      With `max_items` zero the arrays have no entries. */
  function Wiped(t: Table): Table
  {
    Table(0, 0, 0, 0, 0, [], [], [], Zeros(|t.pile|), [])
  }

  lemma WipedConsistent(t: Table, lay: Layout)
    requires lay.indexWidth in {1, 2, 4}
    ensures Consistent(Wiped(t), lay)
  {
  }

  /** A wiped table has no room: every add is refused and every find
      misses. */
  lemma WipeRefuses(t: Table, lay: Layout, key: seq<byte>)
    requires Consistent(t, lay)
    ensures Consistent(Wiped(t), lay) && Live(Wiped(t)) == []
    ensures AddSpec(Wiped(t), lay, key) == Added(Wiped(t), Terminator(lay))
    ensures FindSpec(Wiped(t), lay, key) == Terminator(lay)
  {
  }

  // ---------------------------------------------------------------------------
  // BagContains
  // ---------------------------------------------------------------------------

  /** `BagContains`: false for a null collection and for an address below
      the collection or above its end address. */
  function BagContains(collection: Option<nat>, endAddress: nat, data: nat): (r: bool)
    ensures r <==> collection.Some? && collection.value <= data <= endAddress
  {
    if collection.None? then false
    else if data < collection.value then false
    else if data > endAddress then false
    else true
  }

  /** With the end address `size` bytes past the start, every byte of the
      region is contained, the end address itself is too, and nothing below
      the start or past the end is. */
  lemma ContainsRegion(base: nat, size: nat, data: nat)
    ensures BagContains(Some(base), base + size, data) <==> base <= data <= base + size
    ensures !BagContains(None, base + size, data)
  {
  }

  // ---------------------------------------------------------------------------
  // The table in its region
  // ---------------------------------------------------------------------------

  /** A table in its region. The header words are fields and each array is
      a sequence field the operations rewrite entry by entry. */
  class Bok {
    const layout: Layout
    var size: nat
    var tableSize: nat
    var pileSize: nat
    var numItems: nat
    var maxItems: nat
    var hashes: seq<nat>
    var heads: seq<Head>
    var order: seq<nat>
    var pile: seq<nat>
    var keys: seq<seq<byte>>

    ghost function View(): Table
      reads this
    {
      Table(size, tableSize, pileSize, numItems, maxItems, hashes, heads, order, pile, keys)
    }

    ghost predicate Valid()
      reads this
    {
      Consistent(View(), layout)
    }
  }

  /** The binary-search loop of `BagFind` over the `n` live slots. */
  method SearchSlots(hashes: seq<nat>, n: nat, h: nat) returns (p: Probe)
    requires 0 < n <= |hashes|
    ensures p == Search(hashes, 0, n - 1, h)
  {
    var low: nat := 0;
    var high: int := n - 1;
    while low <= high
      invariant low <= high + 1 && high < n
      invariant Search(hashes, low, high, h) == Search(hashes, 0, n - 1, h)
      decreases high - low + 1
    {
      var mid := (low + high) / 2;
      if hashes[mid] > h {
        high := mid - 1;
      } else if hashes[mid] < h {
        low := mid + 1;
      } else {
        return Hit(mid);
      }
    }
    return Miss(low);
  }

  /** The collision-chain loop: from pile position `start`, compare the key
      of each entry until one matches or an entry reaches `limit`. */
  method WalkChain(pile: seq<nat>, start: nat, limit: nat, keys: seq<seq<byte>>, key: seq<byte>)
    returns (w: Walk)
    ensures w == ChainFind(pile, start, limit, keys, key)
  {
    var j := start;
    while j < |pile| && pile[j] < limit
      invariant ChainFind(pile, j, limit, keys, key) == ChainFind(pile, start, limit, keys, key)
      decreases |pile| - j
    {
      var index := pile[j];
      if index < |keys| && keys[index] == key {
        return Found(index);
      }
      j := j + 1;
    }
    return Ended(j);
  }

  /** The shifting loop of `BagAdd`: from slot `n` down to `at + 1` each slot
      takes its lower neighbour, then `x` goes into slot `at`. */
  method InsertShifting<T>(xs: seq<T>, n: nat, at: nat, x: T) returns (ys: seq<T>)
    requires at <= n < |xs|
    ensures ys == InsertAt(xs, n, at, x)
  {
    ys := xs;
    var k := n;
    while k > at
      invariant at <= k <= n && |ys| == |xs|
      invariant forall s :: 0 <= s <= k ==> ys[s] == xs[s]
      invariant forall s :: k < s <= n ==> ys[s] == xs[s - 1]
      invariant forall s :: n < s < |xs| ==> ys[s] == xs[s]
    {
      ys := ys[k := ys[k - 1]];
      k := k - 1;
    }
    ys := ys[at := x];
    assert forall s :: 0 <= s < |xs| ==> ys[s] == InsertAt(xs, n, at, x)[s];
  }

  /** `BagFind`. It changes nothing; a null collection gives 0 and a null
      key the terminator. */
  method BagFind(bok: Bok?, key: Option<seq<byte>>) returns (r: nat)
    requires bok != null ==> bok.Valid()
    requires key.Some? ==> Nul in key.value
    ensures bok == null ==> r == 0
    ensures bok != null && key.None? ==> r == Terminator(bok.layout)
    ensures bok != null && key.Some? ==> r == FindSpec(bok.View(), bok.layout, Chars(key.value))
  {
    if bok == null {
      return 0;
    }
    var lay := bok.layout;
    var n := bok.numItems;
    if key.None? || n == 0 {
      return AllOnes(lay.indexWidth);
    }
    var chars := Chars(key.value);
    var h := Hash16String(key.value, lay.seed) as nat;
    if n == 1 {
      return if bok.keys[0] == chars then 0 else AllOnes(lay.indexWidth);
    }
    var p := SearchSlots(bok.hashes, n, h);
    if p.Miss? {
      return AllOnes(lay.indexWidth);
    }
    var mid := p.slot;
    if bok.heads[mid].Pile? {
      var w := WalkChain(bok.pile, bok.heads[mid].start, BagMaxIndexes(lay.indexWidth), bok.keys, chars);
      return if w.Found? then w.index else AllOnes(lay.indexWidth);
    }
    var index := bok.order[mid];
    return if bok.keys[index] == chars then index else AllOnes(lay.indexWidth);
  }

  /** `BagClear`: no items and an empty pile; nothing else changes. */
  method BagClear(bok: Bok?)
    requires bok != null ==> bok.Valid()
    modifies bok
    ensures bok != null ==> bok.View() == Cleared(old(bok.View())) && bok.Valid()
  {
    if bok == null {
      return;
    }
    bok.numItems := 0;
    bok.pileSize := 0;
    ClearedConsistent(old(bok.View()), bok.layout);
  }

  /** `BagWipe`: the region is zero-filled, header included. */
  method BagWipe(bok: Bok?)
    requires bok != null ==> bok.Valid()
    modifies bok
    ensures bok != null ==> bok.View() == Wiped(old(bok.View())) && bok.Valid()
  {
    if bok == null {
      return;
    }
    ghost var t := bok.View();
    WipedConsistent(t, bok.layout);
    bok.size, bok.tableSize, bok.pileSize, bok.numItems, bok.maxItems := 0, 0, 0, 0, 0;
    bok.hashes, bok.heads, bok.order, bok.keys := [], [], [], [];
    bok.pile := Zeros(|bok.pile|);
    assert bok.View() == Wiped(t);
  }

  /** Shifting the live pile up from position `end` into one more entry
      inserts `x` before the entry at `end`. */
  lemma ShiftedPile(pile: seq<nat>, ps: nat, end: nat, x: nat, spare: nat)
    requires end < ps <= |pile|
    ensures InsertAt(pile[..ps] + [spare], ps, end, x) == pile[..end] + [x] + pile[end..ps]
  {
    var grown := pile[..ps] + [spare];
    var ys := InsertAt(grown, ps, end, x);
    var zs := pile[..end] + [x] + pile[end..ps];
    assert |ys| == |zs|;
    forall k | 0 <= k < |ys|
      ensures ys[k] == zs[k]
    {
      if k < end {
        assert ys[k] == grown[k];
      } else if end < k {
        assert ys[k] == grown[k - 1];
      }
    }
  }

  /** The first item of an empty table, written into the arrays. */
  method StoreFirst(bok: Bok, key: seq<byte>, h: nat)
    requires Shaped(bok.View(), bok.layout) && bok.numItems == 0 < bok.maxItems
    requires h == KeyHash(key, bok.layout)
    modifies bok
    ensures bok.View() == First(old(bok.View()), bok.layout, key)
  {
    bok.numItems := 1;
    bok.hashes := bok.hashes[0 := h];
    bok.heads := bok.heads[0 := NoCollision];
    bok.order := bok.order[0 := 0];
    bok.keys := bok.keys[0 := key];
  }

  /** A new hash: the shifting loops open slot `at` in the hashes, the
      collision marks and the insertion indexes. */
  method StoreNewHash(bok: Bok, key: seq<byte>, h: nat, at: nat)
    requires Shaped(bok.View(), bok.layout) && at <= bok.numItems < bok.maxItems
    requires h == KeyHash(key, bok.layout)
    modifies bok
    ensures bok.View() == InsertHash(old(bok.View()), bok.layout, key, at)
  {
    var n := bok.numItems;
    var hashes := InsertShifting(bok.hashes, n, at, h);
    var heads := InsertShifting(bok.heads, n, at, NoCollision);
    var order := InsertShifting(bok.order, n, at, n);
    bok.hashes, bok.heads, bok.order := hashes, heads, order;
    bok.keys := bok.keys[n := key];
    bok.numItems := n + 1;
  }

  /** Another key for a chain whose terminator is at pile position `end`:
      the pile loop shifts the entries from `end` up one and the new index
      goes in before the terminator. */
  method StoreInChain(bok: Bok, key: seq<byte>, mid: nat, end: nat)
    requires Shaped(bok.View(), bok.layout) && mid < bok.numItems < bok.maxItems && end < bok.pileSize
    modifies bok
    ensures bok.View() == ExtendChain(old(bok.View()), bok.layout, key, mid, end)
  {
    var n := bok.numItems;
    var ps := bok.pileSize;
    var term := AllOnes(bok.layout.indexWidth);
    ShiftedPile(bok.pile, ps, end, n, term);
    var pile := InsertShifting(bok.pile[..ps] + [term], ps, end, n);
    bok.pile, bok.pileSize := pile, ps + 1;
    bok.heads := Reanchor(bok.heads, n, end)[n := bok.heads[mid]];
    bok.hashes := bok.hashes[n := Placeholder];
    bok.order := bok.order[n := n];
    bok.keys := bok.keys[n := key];
    bok.numItems := n + 1;
  }

  /** A second key for the hash of slot `mid`: the run of the slot's index,
      the new index and a terminator goes on top of the pile. */
  method StoreCollision(bok: Bok, key: seq<byte>, mid: nat)
    requires Shaped(bok.View(), bok.layout) && mid < bok.numItems < bok.maxItems
    modifies bok
    ensures bok.View() == NewCollision(old(bok.View()), bok.layout, key, mid)
  {
    var n := bok.numItems;
    var ps := bok.pileSize;
    bok.pile, bok.pileSize := bok.pile[..ps] + [bok.order[mid], n, AllOnes(bok.layout.indexWidth)], ps + 3;
    bok.heads := bok.heads[mid := Pile(ps)][n := Pile(ps)];
    bok.hashes := bok.hashes[n := Placeholder];
    bok.order := bok.order[n := n];
    bok.keys := bok.keys[n := key];
    bok.numItems := n + 1;
  }

  /** `BagAdd`. A null collection or key gives 0 and changes nothing;
      otherwise the table and the result are those of `AddSpec`. */
  method BagAdd(bok: Bok?, key: Option<seq<byte>>) returns (r: nat)
    requires bok != null ==> bok.Valid()
    requires key.Some? ==> Nul in key.value
    modifies bok
    ensures bok == null || key.None? ==> r == 0
    ensures bok != null && key.None? ==> bok.View() == old(bok.View())
    ensures bok != null && key.Some? ==>
      var a := AddSpec(old(bok.View()), bok.layout, Chars(key.value));
      bok.View() == a.table && r == a.index
    ensures bok != null ==> bok.Valid()
  {
    if bok == null || key.None? {
      return 0;
    }
    ghost var t := bok.View();
    var lay := bok.layout;
    var chars := Chars(key.value);
    var n := bok.numItems;
    if n >= bok.maxItems {
      return AllOnes(lay.indexWidth);
    }
    var room := bok.tableSize - ArrayBytes(bok.maxItems, lay);
    var h := Hash16String(key.value, lay.seed) as nat;
    if |chars| > room {
      return AllOnes(lay.indexWidth);
    }
    if n == 0 {
      StoreFirst(bok, chars, h);
      return 0;
    }
    if |chars| >= room {
      return AllOnes(lay.indexWidth);
    }
    var p := SearchSlots(bok.hashes, n, h);
    if p.Hit? {
      r := AddToSlot(bok, chars, p.slot);
      return;
    }
    StoreNewHash(bok, chars, h, p.at);
    return n;
  }

  /** `BagAdd` once the search hit slot `mid`. */
  method AddToSlot(bok: Bok, key: seq<byte>, mid: nat) returns (r: nat)
    requires bok.Valid() && mid < bok.numItems < bok.maxItems
    requires bok.hashes[mid] == KeyHash(key, bok.layout)
    modifies bok
    ensures var a := AddAtSlot(old(bok.View()), bok.layout, key, mid);
      bok.View() == a.table && r == a.index
    ensures bok.Valid()
  {
    ghost var t := bok.View();
    var lay := bok.layout;
    var n := bok.numItems;
    if bok.heads[mid].Pile? {
      var w := WalkChain(bok.pile, bok.heads[mid].start, BagMaxIndexes(lay.indexWidth), bok.keys, key);
      if w.Found? {
        return w.index;
      }
      ChainFindSpec(t.pile, t.heads[mid].start, Limit(lay), t.keys, key);
      StoreInChain(bok, key, mid, w.at);
      return n;
    }
    var index := bok.order[mid];
    if bok.keys[index] == key {
      return index;
    }
    if bok.tableSize - ArrayBytes(bok.maxItems, lay) < 3 {
      return AllOnes(lay.indexWidth);
    }
    StoreCollision(bok, key, mid);
    return n;
  }
}
