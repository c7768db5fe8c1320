/**
 src/indexing/btree_index.cpp: the ordered index, whose two-level page layout is rebuilt from its entries on every write
 and which answers point and range queries by walking the leaves.
 */
module BTreeIndexes {
  import opened Results
  import opened Values
  import Ordering
  import opened Lists
  import opened Indexes

  datatype Node = Node(pageId: nat, leaf: bool, keys: seq<Value>, rowIds: seq<seq<nat>>, children: seq<nat>,
      nextLeaf: Option<nat>)

  /** A key with its row ids. */
  type Pair = (Value, seq<nat>)

  // ----- Leaves -----

  /** `keys` cut into runs of `max`; only the last run may be shorter. */
  function Chunks(keys: seq<Value>, max: nat): (r: seq<seq<Value>>)
    requires max > 0
    ensures keys == [] <==> r == []
    decreases |keys|
  {
    if keys == [] then []
    else if |keys| <= max then [keys]
    else [keys[..max]] + Chunks(keys[max..], max)
  }

  function Concat(chunks: seq<seq<Value>>): seq<Value> {
    if chunks == [] then [] else chunks[0] + Concat(chunks[1..])
  }

  /**
   Chunks joined are the keys; every chunk but the last is full, the last is not empty, and there are as few as
   possible.
   */
  lemma {:induction false} ChunksProperties(keys: seq<Value>, max: nat)
    requires max > 0
    ensures var chunks := Chunks(keys, max);
      && Concat(chunks) == keys
      && (forall i :: 0 <= i < |chunks| - 1 ==> |chunks[i]| == max)
      && (forall i :: 0 <= i < |chunks| ==> 0 < |chunks[i]| <= max)
      && |keys| <= |chunks| * max < |keys| + max
    decreases |keys|
  {
    var chunks := Chunks(keys, max);
    if keys == [] {
    } else if |keys| <= max {
      assert Concat([keys][1..]) == [] && keys + [] == keys;
    } else {
      ChunksProperties(keys[max..], max);
      assert chunks[1..] == Chunks(keys[max..], max);
      assert keys == keys[..max] + keys[max..];
      Times(|chunks[1..]|, max);
    }
  }

  lemma Times(n: nat, max: nat)
    ensures (n + 1) * max == n * max + max
  {
  }

  function RowsFor(entries: Entries, keys: seq<Value>): (r: seq<seq<nat>>)
    requires forall k :: k in keys ==> k in entries
    ensures |r| == |keys| && forall i :: 0 <= i < |r| ==> r[i] == entries[keys[i]]
  {
    seq(|keys|, i requires 0 <= i < |keys| => assert keys[i] in keys; entries[keys[i]])
  }

  /** A leaf page: number `i + 1` of `count`, linked to the next. */
  predicate IsLeaf(node: Node, entries: Entries, keys: seq<Value>, i: nat, count: nat) {
    && node.leaf && node.pageId == i + 1 && node.keys == keys && node.children == []
    && (forall k :: k in keys ==> k in entries) && node.rowIds == RowsFor(entries, keys)
    && node.nextLeaf == if i + 1 < count then Some(i + 2) else None
  }

  /** The root page over `count` leaves: children in order, separated by the first key of each child after the first. */
  predicate IsRoot(node: Node, chunks: seq<seq<Value>>)
    requires forall i :: 0 <= i < |chunks| ==> chunks[i] != []
  {
    && !node.leaf && node.pageId == |chunks| + 1 && node.rowIds == [] && node.nextLeaf == None
    && |node.children| == |chunks| && (forall i :: 0 <= i < |chunks| ==> node.children[i] == i + 1)
    && |node.keys| == |chunks| - 1 && (forall i :: 1 <= i < |chunks| ==> node.keys[i - 1] == chunks[i][0])
  }

  const EMPTY_LEAF := Node(1, true, [], [], [], None)

  /** The layout of the entries over pages of at most `max` keys. */
  ghost predicate IsLayout(nodes: seq<Node>, entries: Entries, max: nat)
    requires max > 0
  {
    var chunks := Chunks(SortedValues(entries.Keys), max);
    if entries == map[] then nodes == [EMPTY_LEAF]
    else
      && (forall i :: 0 <= i < |chunks| ==> chunks[i] != [])
      && |nodes| == (if |chunks| == 1 then 1 else |chunks| + 1)
      && (forall i :: 0 <= i < |chunks| ==> IsLeaf(nodes[i], entries, chunks[i], i, |chunks|))
      && (|chunks| > 1 ==> IsRoot(nodes[|chunks|], chunks))
  }

  // ----- Walking the leaves -----

  function NodePairs(node: Node): (r: seq<Pair>)
    requires |node.keys| == |node.rowIds|
    ensures |r| == |node.keys| && forall i :: 0 <= i < |r| ==> r[i] == (node.keys[i], node.rowIds[i])
  {
    seq(|node.keys|, i requires 0 <= i < |node.keys| => (node.keys[i], node.rowIds[i]))
  }

  predicate Paired(nodes: seq<Node>) {
    forall i :: 0 <= i < |nodes| && nodes[i].leaf ==> |nodes[i].keys| == |nodes[i].rowIds|
  }

  function LeafPairs(nodes: seq<Node>): seq<Pair>
    requires Paired(nodes)
  {
    if nodes == [] then []
    else (if nodes[0].leaf then NodePairs(nodes[0]) else []) + LeafPairs(nodes[1..])
  }

  function Pairs(entries: Entries, keys: seq<Value>): (r: seq<Pair>)
    requires forall k :: k in keys ==> k in entries
    ensures |r| == |keys| && forall i :: 0 <= i < |r| ==> keys[i] in entries && r[i] == (keys[i], entries[keys[i]])
  {
    seq(|keys|, i requires 0 <= i < |keys| => assert keys[i] in keys; (keys[i], entries[keys[i]]))
  }

  /** Row ids under the first pair with the key. */
  function FindIn(ps: seq<Pair>, key: Value): seq<nat> {
    if ps == [] then [] else if ps[0].0 == key then ps[0].1 else FindIn(ps[1..], key)
  }

  /** Row ids up to the first key that is not less. */
  function LessIn(ps: seq<Pair>, key: Value): seq<nat> {
    if ps == [] || !ValueLess(ps[0].0, key) then [] else ps[0].1 + LessIn(ps[1..], key)
  }

  /** Row ids once a greater key has been met; `collecting` says one was met already. */
  function GreaterIn(ps: seq<Pair>, key: Value, collecting: bool): seq<nat> {
    if ps == [] then []
    else
      var now := collecting || ValueLess(key, ps[0].0);
      (if now then ps[0].1 else []) + GreaterIn(ps[1..], key, now)
  }

  // ----- What the walks mean -----

  /** The row ids of the keys satisfying `keep`, key by key. */
  function Gather(entries: Entries, keys: seq<Value>, keep: Value -> bool): seq<nat>
    requires forall k :: k in keys ==> k in entries
  {
    if keys == [] then []
    else
      assert keys[0] in keys;
      (if keep(keys[0]) then entries[keys[0]] else []) + Gather(entries, keys[1..], keep)
  }

  lemma {:induction false} FindMeaning(entries: Entries, keys: seq<Value>, key: Value)
    requires forall k :: k in keys ==> k in entries
    ensures FindIn(Pairs(entries, keys), key) == if key in keys then entries[key] else []
  {
    if keys != [] {
      assert keys[0] in keys;
      assert Pairs(entries, keys)[1..] == Pairs(entries, keys[1..]);
      FindMeaning(entries, keys[1..], key);
      assert key in keys <==> key == keys[0] || key in keys[1..];
    }
  }

  lemma {:induction false} GatherNone(entries: Entries, keys: seq<Value>, keep: Value -> bool)
    requires forall k :: k in keys ==> k in entries && !keep(k)
    ensures Gather(entries, keys, keep) == []
  {
    if keys != [] {
      assert keys[0] in keys;
      GatherNone(entries, keys[1..], keep);
    }
  }

  /** The early exit is sound: on increasing keys the walk collects exactly the keys below. */
  lemma {:induction false} LessMeaning(entries: Entries, keys: seq<Value>, key: Value)
    requires Ordering.Increasing(ValueLess, keys) && forall k :: k in keys ==> k in entries
    ensures LessIn(Pairs(entries, keys), key) == Gather(entries, keys, k => ValueLess(k, key))
  {
    if keys != [] {
      assert keys[0] in keys;
      assert Pairs(entries, keys)[1..] == Pairs(entries, keys[1..]);
      if ValueLess(keys[0], key) {
        LessMeaning(entries, keys[1..], key);
      } else {
        ValueOrder();
        forall k | k in keys ensures !ValueLess(k, key) {
          var i :| 0 <= i < |keys| && keys[i] == k;
          if i > 0 { assert ValueLess(keys[0], keys[i]); }
        }
        GatherNone(entries, keys, k => ValueLess(k, key));
      }
    }
  }

  /** The latched flag is sound: on increasing keys the walk collects exactly the keys above. */
  lemma {:induction false} GreaterMeaning(entries: Entries, keys: seq<Value>, key: Value, collecting: bool)
    requires Ordering.Increasing(ValueLess, keys) && forall k :: k in keys ==> k in entries
    requires collecting ==> forall k :: k in keys ==> ValueLess(key, k)
    ensures GreaterIn(Pairs(entries, keys), key, collecting) == Gather(entries, keys, k => ValueLess(key, k))
  {
    if keys != [] {
      assert keys[0] in keys;
      assert Pairs(entries, keys)[1..] == Pairs(entries, keys[1..]);
      var now := collecting || ValueLess(key, keys[0]);
      ValueOrder();
      forall k | now && k in keys[1..] ensures ValueLess(key, k) {
        var i :| 0 <= i < |keys[1..]| && keys[1..][i] == k;
        assert ValueLess(keys[0], keys[i + 1]);
      }
      GreaterMeaning(entries, keys[1..], key, now);
    }
  }

  // ----- The layout's leaves hold the entries in key order -----

  lemma {:induction false} LeafPairsAppend(a: seq<Node>, b: seq<Node>)
    requires Paired(a) && Paired(b)
    ensures Paired(a + b) && LeafPairs(a + b) == LeafPairs(a) + LeafPairs(b)
  {
    if a == [] {
      assert a + b == b;
    } else {
      LeafPairsAppend(a[1..], b);
      assert (a + b)[1..] == a[1..] + b;
    }
  }

  lemma {:induction false} LeavesHold(nodes: seq<Node>, entries: Entries, chunks: seq<seq<Value>>, from: nat,
      count: nat)
    requires |nodes| == |chunks| && forall i :: 0 <= i < |chunks| ==>
        IsLeaf(nodes[i], entries, chunks[i], from + i, count)
    ensures Paired(nodes) && (forall k :: k in Concat(chunks) ==> k in entries)
    ensures LeafPairs(nodes) == Pairs(entries, Concat(chunks))
    decreases |nodes|
  {
    if nodes != [] {
      LeavesHold(nodes[1..], entries, chunks[1..], from + 1, count);
      assert Paired(nodes) by {
        forall i | 0 <= i < |nodes| && nodes[i].leaf ensures |nodes[i].keys| == |nodes[i].rowIds| {
          if i > 0 { assert nodes[1..][i - 1] == nodes[i]; }
        }
      }
      forall k | k in Concat(chunks) ensures k in entries {
        assert k in chunks[0] || k in Concat(chunks[1..]);
      }
      assert NodePairs(nodes[0]) + Pairs(entries, Concat(chunks[1..])) == Pairs(entries, Concat(chunks));
    }
  }

  lemma LayoutPairs(nodes: seq<Node>, entries: Entries, max: nat)
    requires max > 0 && IsLayout(nodes, entries, max)
    ensures Paired(nodes) && LeafPairs(nodes) == Pairs(entries, SortedValues(entries.Keys))
  {
    hide SortedValues, Chunks, IsLeaf;
    var keys := SortedValues(entries.Keys);
    var chunks := Chunks(keys, max);
    if entries == map[] {
      assert |keys| == 0;
      assert LeafPairs(nodes[1..]) == [];
    } else {
      ChunksProperties(keys, max);
      var leaves := nodes[..|chunks|];
      LeavesHold(leaves, entries, chunks, 0, |chunks|);
      if |chunks| > 1 {
        var root := [nodes[|chunks|]];
        assert LeafPairs(root[1..]) == [];
        assert LeafPairs(root) == [];
        LeafPairsAppend(leaves, root);
        assert nodes == leaves + root;
        assert LeafPairs(leaves) + [] == LeafPairs(leaves);
      } else {
        assert nodes == leaves;
      }
    }
  }

  // ----- The index -----

  /** A leaf before it is linked. */
  predicate IsLooseLeaf(node: Node, entries: Entries, keys: seq<Value>, i: nat) {
    (forall k :: k in keys ==> k in entries) && node == Node(i + 1, true, keys, RowsFor(entries, keys), [], None)
  }

  class BTreeIndex {
    const maxKeysPerLeaf: nat
    var entries: Entries
    var nodes: seq<Node>

    ghost predicate Valid()
      reads this
    {
      maxKeysPerLeaf > 0 && IsLayout(nodes, entries, maxKeysPerLeaf)
    }

    constructor (maxKeysPerLeaf: nat)
      requires maxKeysPerLeaf > 0
      ensures Valid() && entries == map[] && this.maxKeysPerLeaf == maxKeysPerLeaf
    {
      this.maxKeysPerLeaf := maxKeysPerLeaf;
      this.entries := map[];
      this.nodes := [EMPTY_LEAF];
    }

    method Insert(key: Value, id: nat)
      requires Valid()
      modifies this
      ensures Valid() && entries == Inserted(old(entries), key, id)
    {
      hide IsLayout;
      var ids := if key in entries then entries[key] else [];
      entries := entries[key := ids + [id]];
      RebuildLayout();
    }

    method Remove(key: Value, id: nat)
      requires Valid()
      modifies this
      ensures Valid() && entries == Removed(old(entries), key, id)
    {
      hide IsLayout;
      if key !in entries {
        return;
      }
      var rest := Without(entries[key], id);
      if rest == [] {
        entries := entries - {key};
      } else {
        entries := entries[key := rest];
      }
      RebuildLayout();
    }

    method Clear()
      requires Valid()
      modifies this
      ensures Valid() && entries == map[]
    {
      hide IsLayout;
      entries := map[];
      RebuildLayout();
    }

    /** Point lookup over the leaves. */
    method Find(key: Value) returns (ids: seq<nat>)
      requires Valid()
      ensures ids == Ids(entries, key)
    {
      hide IsLayout, SortedValues, LeafPairs, FindIn;
      LayoutPairs(nodes, entries, maxKeysPerLeaf);
      FindMeaning(entries, SortedValues(entries.Keys), key);
      ghost var all := LeafPairs(nodes);
      assert nodes[0..] == nodes;
      for n := 0 to |nodes|
        invariant FindIn(all, key) == FindIn(LeafPairs(nodes[n..]), key)
      {
        LeafStep(nodes, n);
        if nodes[n].leaf {
          ghost var pairs, after := NodePairs(nodes[n]), LeafPairs(nodes[n + 1..]);
          for i := 0 to |nodes[n].keys|
            invariant FindIn(all, key) == FindIn(pairs[i..] + after, key)
          {
            PairStep(pairs, i, after, key, false);
            if nodes[n].keys[i] == key {
              return nodes[n].rowIds[i];
            }
          }
          assert pairs[|pairs|..] + after == after;
        }
      }
      LeafStep(nodes, |nodes|);
      return [];
    }

    /** Range scan that stops at the first key not below the bound. */
    method LessThan(key: Value) returns (result: seq<nat>)
      requires Valid()
      ensures result == Gather(entries, SortedValues(entries.Keys), k => ValueLess(k, key))
    {
      hide IsLayout, SortedValues, LeafPairs, LessIn, Gather;
      LayoutPairs(nodes, entries, maxKeysPerLeaf);
      LessMeaning(entries, SortedValues(entries.Keys), key);
      ghost var all := LeafPairs(nodes);
      result := [];
      assert nodes[0..] == nodes;
      for n := 0 to |nodes|
        invariant LessIn(all, key) == result + LessIn(LeafPairs(nodes[n..]), key)
      {
        LeafStep(nodes, n);
        if nodes[n].leaf {
          ghost var pairs, after := NodePairs(nodes[n]), LeafPairs(nodes[n + 1..]);
          for i := 0 to |nodes[n].keys|
            invariant LessIn(all, key) == result + LessIn(pairs[i..] + after, key)
          {
            PairStep(pairs, i, after, key, false);
            if !ValueLess(nodes[n].keys[i], key) {
              return;
            }
            result := result + nodes[n].rowIds[i];
          }
          assert pairs[|pairs|..] + after == after;
        }
      }
      LeafStep(nodes, |nodes|);
    }

    /** Range scan that starts collecting at the first key above the bound. */
    method GreaterThan(key: Value) returns (result: seq<nat>)
      requires Valid()
      ensures result == Gather(entries, SortedValues(entries.Keys), k => ValueLess(key, k))
    {
      hide IsLayout, SortedValues, LeafPairs, GreaterIn, Gather;
      LayoutPairs(nodes, entries, maxKeysPerLeaf);
      GreaterMeaning(entries, SortedValues(entries.Keys), key, false);
      ghost var all := LeafPairs(nodes);
      result := [];
      var collecting := false;
      assert nodes[0..] == nodes;
      for n := 0 to |nodes|
        invariant GreaterIn(all, key, false) == result + GreaterIn(LeafPairs(nodes[n..]), key, collecting)
      {
        LeafStep(nodes, n);
        if nodes[n].leaf {
          ghost var pairs, after := NodePairs(nodes[n]), LeafPairs(nodes[n + 1..]);
          for i := 0 to |nodes[n].keys|
            invariant GreaterIn(all, key, false) == result + GreaterIn(pairs[i..] + after, key, collecting)
          {
            PairStep(pairs, i, after, key, collecting);
            ghost var before := result;
            if !collecting && ValueLess(key, nodes[n].keys[i]) {
              collecting := true;
            }
            if collecting {
              result := result + nodes[n].rowIds[i];
            }
            Reassociate(before, if collecting then nodes[n].rowIds[i] else [],
                GreaterIn(pairs[i + 1..] + after, key, collecting));
          }
          assert pairs[|pairs|..] + after == after;
        }
      }
      LeafStep(nodes, |nodes|);
    }

    /** Lays the entries out again: leaves filled in key order, linked, and a root over them when there are several. */
    method RebuildLayout()
      requires maxKeysPerLeaf > 0
      modifies this`nodes
      ensures Valid()
    {
      nodes := Layout(entries, maxKeysPerLeaf);
    }
  }

  method Layout(entries: Entries, max: nat) returns (nodes: seq<Node>)
    requires max > 0
    ensures IsLayout(nodes, entries, max)
  {
    hide SortedValues, IsRoot, Chunks, IsLooseLeaf, IsLeaf;
    if entries == map[] {
      return [EMPTY_LEAF];
    }
    var keys := SortedValues(entries.Keys);
    ghost var chunks := Chunks(keys, max);
    ChunksProperties(keys, max);
    NoKeysNoEntries(entries);
    var leaves, leafPageIds := BuildLeaves(entries, keys, max);
    nodes := LinkLeaves(leaves);
    LinkedAreLeaves(leaves, nodes, entries, chunks);
    if |nodes| > 1 {
      var root := BuildRoot(nodes, leafPageIds, |nodes| + 1, chunks);
      nodes := nodes + [root];
    }
  }

  lemma LinkedAreLeaves(leaves: seq<Node>, linked: seq<Node>, entries: Entries, chunks: seq<seq<Value>>)
    requires |linked| == |leaves| == |chunks|
    requires forall i :: 0 <= i < |leaves| ==> IsLooseLeaf(leaves[i], entries, chunks[i], i)
    requires forall i :: 0 <= i < |leaves| ==>
        linked[i] == leaves[i].(nextLeaf := if i + 1 < |leaves| then Some(i + 2) else None)
    ensures forall i :: 0 <= i < |chunks| ==>
        linked[i].keys == chunks[i] && IsLeaf(linked[i], entries, chunks[i], i, |chunks|)
  {
    forall i | 0 <= i < |chunks| ensures linked[i].keys == chunks[i] &&
        IsLeaf(linked[i], entries, chunks[i], i, |chunks|) {
      assert IsLooseLeaf(leaves[i], entries, chunks[i], i);
    }
  }

  lemma Reassociate(a: seq<nat>, b: seq<nat>, c: seq<nat>)
    ensures a + (b + c) == (a + b) + c
    ensures a + [] == a
  {
  }

  /** One turn of the loop over nodes. */
  lemma LeafStep(nodes: seq<Node>, n: nat)
    requires Paired(nodes) && n <= |nodes|
    ensures n == |nodes| ==> LeafPairs(nodes[n..]) == []
    ensures n == |nodes| ==> forall key :: FindIn([], key) == [] && LessIn([], key) == []
    ensures n == |nodes| ==> forall key, c :: GreaterIn([], key, c) == []
    ensures n < |nodes| && nodes[n].leaf ==>
      LeafPairs(nodes[n..]) == NodePairs(nodes[n])[0..] + LeafPairs(nodes[n + 1..])
    ensures n < |nodes| && !nodes[n].leaf ==> LeafPairs(nodes[n..]) == LeafPairs(nodes[n + 1..])
  {
    if n < |nodes| {
      assert nodes[n..][1..] == nodes[n + 1..];
      assert [] + LeafPairs(nodes[n + 1..]) == LeafPairs(nodes[n + 1..]);
      if nodes[n].leaf {
        assert NodePairs(nodes[n])[0..] == NodePairs(nodes[n]);
      }
    }
  }

  /** One turn of the loop over a leaf's keys. */
  lemma PairStep(pairs: seq<Pair>, i: nat, after: seq<Pair>, key: Value, collecting: bool)
    requires i < |pairs|
    ensures FindIn(pairs[i..] + after, key) == if pairs[i].0 ==
        key then pairs[i].1 else FindIn(pairs[i + 1..] + after, key)
    ensures LessIn(pairs[i..] + after, key) ==
        if ValueLess(pairs[i].0, key) then pairs[i].1 + LessIn(pairs[i + 1..] + after, key) else []
    ensures var now := collecting || ValueLess(key, pairs[i].0);
      GreaterIn(pairs[i..] + after, key, collecting) ==
          (if now then pairs[i].1 else []) + GreaterIn(pairs[i + 1..] + after, key, now)
  {
    assert (pairs[i..] + after)[1..] == pairs[i + 1..] + after;
  }

  lemma NoKeysNoEntries(entries: Entries)
    ensures SortedValues(entries.Keys) == [] <==> entries == map[]
    ensures forall k :: k in SortedValues(entries.Keys) ==> k in entries
  {
    if SortedValues(entries.Keys) == [] {
      assert |entries.Keys| == 0;
    }
  }

  lemma ChunkStep(keys: seq<Value>, it: nat, next: nat, max: nat, chunks: seq<seq<Value>>, n: nat)
    requires max > 0 && it < |keys| && n <= |chunks|
    requires next == if it + max < |keys| then it + max else |keys|
    requires Chunks(keys[it..], max) == chunks[n..]
    ensures n < |chunks| && chunks[n] == keys[it..next] && Chunks(keys[next..], max) == chunks[n + 1..]
  {
    var rest := keys[it..];
    assert Chunks(rest, max) != [];
    assert chunks[n..][0] == chunks[n] && chunks[n..][1..] == chunks[n + 1..];
    if |rest| <= max {
      assert rest == keys[it..next] && keys[next..] == [];
    } else {
      assert rest[..max] == keys[it..next] && rest[max..] == keys[next..];
    }
  }

  /** The outer filling loop: one leaf per turn until the entries run out. */
  method BuildLeaves(entries: Entries, keys: seq<Value>, max: nat) returns (leaves: seq<Node>, leafPageIds: seq<nat>)
    requires max > 0 && forall k :: k in keys ==> k in entries
    ensures |leaves| == |leafPageIds| == |Chunks(keys, max)|
    ensures forall i :: 0 <= i < |leaves| ==>
        leafPageIds[i] == i + 1 && leaves[i].pageId == i + 1 && leaves[i].nextLeaf == None
    ensures forall i :: 0 <= i < |leaves| ==> IsLooseLeaf(leaves[i], entries, Chunks(keys, max)[i], i)
  {
    hide Chunks;
    ghost var chunks := Chunks(keys, max);
    leaves, leafPageIds := [], [];
    var nextPageId := 1;
    var it := 0;
    assert keys[0..] == keys && chunks[0..] == chunks;
    while it < |keys|
      invariant 0 <= it <= |keys| && |leaves| <= |chunks| && nextPageId == |leaves| + 1
      invariant Chunks(keys[it..], max) == chunks[|leaves|..]
      invariant |leafPageIds| == |leaves| && forall i :: 0 <= i < |leaves| ==> leafPageIds[i] == i + 1
      invariant forall i :: 0 <= i < |leaves| ==> IsLooseLeaf(leaves[i], entries, chunks[i], i)
    {
      var leaf, next := BuildLeaf(entries, keys, it, nextPageId, max);
      ChunkStep(keys, it, next, max, chunks, |leaves|);
      leafPageIds := leafPageIds + [nextPageId];
      leaves := leaves + [leaf];
      nextPageId := nextPageId + 1;
      it := next;
    }
    assert keys[it..] == [];
  }

  /** The inner filling loop: at most `max` entries starting at position `it`. */
  method BuildLeaf(entries: Entries, keys: seq<Value>, it: nat, pageId: nat, max: nat) returns (leaf: Node, next: nat)
    requires it < |keys| && 0 < pageId && max > 0 && forall k :: k in keys ==> k in entries
    ensures next == if it + max < |keys| then it + max else |keys|
    ensures IsLooseLeaf(leaf, entries, keys[it..next], pageId - 1)
  {
    var leafKeys: seq<Value> := [];
    var rowIds: seq<seq<nat>> := [];
    var count := 0;
    next := it;
    while count < max && next < |keys|
      invariant next == it + count <= |keys| && count <= max
      invariant leafKeys == keys[it..next] && (forall k :: k in leafKeys ==> k in entries)
      invariant rowIds == RowsFor(entries, leafKeys)
    {
      assert keys[next] in keys;
      RowsForExtend(entries, leafKeys, keys[next]);
      leafKeys := leafKeys + [keys[next]];
      rowIds := rowIds + [entries[keys[next]]];
      count := count + 1;
      next := next + 1;
    }
    leaf := Node(pageId, true, leafKeys, rowIds, [], None);
  }

  lemma RowsForExtend(entries: Entries, keys: seq<Value>, key: Value)
    requires key in entries && forall k :: k in keys ==> k in entries
    ensures (forall k :: k in keys + [key] ==> k in entries)
    ensures RowsFor(entries, keys + [key]) == RowsFor(entries, keys) + [entries[key]]
  {
    assert forall k :: k in keys + [key] ==> k in keys || k == key;
  }

  /** `nextLeaf` of every leaf but the last. */
  method LinkLeaves(leaves: seq<Node>) returns (linked: seq<Node>)
    requires forall i :: 0 <= i < |leaves| ==> leaves[i].pageId == i + 1 && leaves[i].nextLeaf == None
    ensures |linked| == |leaves|
    ensures forall i :: 0 <= i < |leaves| ==>
        linked[i] == leaves[i].(nextLeaf := if i + 1 < |leaves| then Some(i + 2) else None)
  {
    linked := leaves;
    var i := 0;
    while i + 1 < |linked|
      invariant |linked| == |leaves| && 0 <= i && (|leaves| > 0 ==> i < |leaves|)
      invariant forall j :: 0 <= j < |leaves| ==>
        linked[j] == leaves[j].(nextLeaf := if j < i then Some(j + 2) else None)
    {
      linked := linked[i := linked[i].(nextLeaf := Some(linked[i + 1].pageId))];
      i := i + 1;
    }
  }

  method BuildRoot(leaves: seq<Node>, leafPageIds: seq<nat>, pageId: nat, ghost chunks: seq<seq<Value>>)
      returns (root: Node)
    requires |leaves| == |leafPageIds| == |chunks| > 1 && pageId == |leaves| + 1
    requires forall i :: 0 <= i < |leaves| ==> leafPageIds[i] == i + 1 && leaves[i].keys == chunks[i] && chunks[i] != []
    ensures IsRoot(root, chunks)
  {
    var keys: seq<Value> := [];
    for i := 1 to |leaves|
      invariant |keys| == i - 1 && forall j :: 1 <= j < i ==> keys[j - 1] == chunks[j][0]
    {
      keys := keys + [leaves[i].keys[0]];
    }
    root := Node(pageId, false, keys, [], leafPageIds, None);
  }
}
