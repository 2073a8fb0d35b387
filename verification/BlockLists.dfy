/** The free lists of os/kernel/mem.c in memory: a free block holds, in its first words, the entry with which it is on
    the list of its class. */
module BlockLists {
  import opened Words
  import opened Lists
  import opened TaggedLists
  import opened Slab

  /** The lists of the descriptors, with their nodes; `node` is the entry at the start of a block, and `block` is
      to_struct, which gets from the entry back to the block's address. */
  datatype Links = Links(w: World, lists: seq<List>, node: map<int, Entry>, block: map<Entry, int>)

  ghost predicate Distinct(lists: seq<List>) {
    forall i, j :: 0 <= i < j < |lists| ==> lists[i] != lists[j]
  }

  ghost predicate Shape(k: Links) {
    && TagsOk(k.node, k.block) && ChainsOk(k.block, k.w)
    && |k.lists| == DESC_CNT && Distinct(k.lists) && k.w.Keys == (set l | l in k.lists)
  }

  ghost function BlocksOn(k: Links, c: nat): seq<int>
    requires Shape(k) && c < DESC_CNT
  {
    assert k.lists[c] in k.w && ChainOk(k.block, k.lists[c], k.w[k.lists[c]]);
    Owners(k.block, Elems(k.w[k.lists[c]]))
  }

  /** The blocks of the free lists. */
  ghost function FreeOf(k: Links): (r: seq<seq<int>>)
    requires Shape(k)
    ensures |r| == DESC_CNT && forall c :: 0 <= c < DESC_CNT ==> r[c] == BlocksOn(k, c)
  {
    seq(DESC_CNT, c requires 0 <= c < DESC_CNT => BlocksOn(k, c))
  }

  /** All entries: those of the blocks and the sentinels. */
  ghost function Nodes(block: map<Entry, int>, lists: seq<List>): set<Entry> {
    block.Keys + (set l | l in lists :: l.header) + (set l | l in lists :: l.tailer)
  }

  ghost predicate OffLists(free: seq<seq<int>>, b: int) {
    forall c :: 0 <= c < |free| ==> b !in free[c]
  }

  lemma ListInWorld(k: Links, c: nat)
    requires Shape(k) && c < DESC_CNT
    ensures k.lists[c] in k.w && ChainOk(k.block, k.lists[c], k.w[k.lists[c]]) && BlocksOn(k, c) == FreeOf(k)[c]
    ensures Spells(k.block, Elems(k.w[k.lists[c]]), FreeOf(k)[c])
    ensures Elems(k.w[k.lists[c]]) == [] <==> FreeOf(k)[c] == []
    ensures forall e :: e in k.w[k.lists[c]] ==> e in Nodes(k.block, k.lists)
  {
    var l := k.lists[c];
    assert l in k.lists;
    forall e | e in k.w[l] ensures e in Nodes(k.block, k.lists) {
      ChainNode(k.block, l, k.w[l], e);
    }
  }

  lemma ShapeTags(k: Links)
    requires Shape(k)
    ensures TagsOk(k.node, k.block) && |k.lists| == DESC_CNT
  {
  }

  /** list_find on the entry tells whether the block is on the list. */
  lemma NodeOnList(k: Links, c: nat, b: int)
    requires Shape(k) && c < DESC_CNT && b in k.node
    ensures k.lists[c] in k.w && |k.w[k.lists[c]]| >= 2
    ensures k.node[b] in Elems(k.w[k.lists[c]]) <==> b in FreeOf(k)[c]
    ensures k.node[b] in k.w[k.lists[c]] <==> b in FreeOf(k)[c]
  {
    ListInWorld(k, c);
    InChain(k.node, k.block, k.lists[c], k.w[k.lists[c]], b);
  }

  /** The entry of a block that is on no list is not linked anywhere. */
  lemma NodeUnlinked(k: Links, b: int)
    requires Shape(k) && b in k.node && OffLists(FreeOf(k), b)
    ensures k.node[b] !in AllNodes(k.w) && k.node[b] in Nodes(k.block, k.lists)
  {
    forall l | l in k.w ensures k.node[b] !in k.w[l] {
      var c: nat :| c < DESC_CNT && k.lists[c] == l;
      NodeOnList(k, c, b);
    }
  }

  /** List `c` has a new chain `d`, with the entries of the blocks `bs`. */
  lemma NewChain(k: Links, k': Links, c: nat, d: seq<Entry>, bs: seq<int>)
    requires Shape(k) && c < DESC_CNT && k' == k.(w := k.w[k.lists[c] := d]) && |d| >= 2
    requires d[0] == k.lists[c].header && d[|d| - 1] == k.lists[c].tailer && Spells(k.block, Elems(d), bs)
    ensures Shape(k') && FreeOf(k') == FreeOf(k)[c := bs]
  {
    ListInWorld(k, c);
    assert k'.w.Keys == k.w.Keys;
    assert ChainOk(k.block, k.lists[c], d);
    assert Shape(k');
    forall i: nat | i < DESC_CNT ensures FreeOf(k')[i] == FreeOf(k)[c := bs][i] {
      assert BlocksOn(k', i) == FreeOf(k')[i] && BlocksOn(k, i) == FreeOf(k)[i];
    }
  }

  /** The entries of a chain are apart, so its blocks are. */
  lemma BlocksDiffer(node: map<int, Entry>, block: map<Entry, int>, c: seq<Entry>, bs: seq<int>)
    requires TagsOk(node, block) && Linked(c) && Spells(block, Elems(c), bs)
    ensures NoDup(bs) && forall i :: 0 <= i < |bs| ==> bs[i] in node && node[bs[i]] == Elems(c)[i]
  {
    var d := Elems(c);
    assert forall i :: 0 <= i < |bs| ==> d[i] in d && bs[i] == block[d[i]];
    assert forall i, j :: 0 <= i < j < |bs| ==> d[i] != d[j];
  }

  /** Where a block and its entry are on their list. */
  lemma PlaceOf(k: Links, c: nat, b: int) returns (i: nat)
    requires Shape(k) && Separate(k.w) && c < DESC_CNT && b in FreeOf(k)[c]
    ensures NoDup(FreeOf(k)[c]) && i < |FreeOf(k)[c]| && FreeOf(k)[c][i] == b
    ensures k.lists[c] in k.w && |k.w[k.lists[c]]| >= 2 && b in k.node
    ensures i < |Elems(k.w[k.lists[c]])| && Elems(k.w[k.lists[c]])[i] == k.node[b]
    ensures RemoveFirst(FreeOf(k)[c], b) == FreeOf(k)[c][..i] + FreeOf(k)[c][i + 1..]
  {
    ListInWorld(k, c);
    var l, bs := k.lists[c], FreeOf(k)[c];
    assert ListOk(l, k.w[l]);
    hide ChainsOk, ChainOk, FreeOf, BlocksOn, NoDup, RemoveFirst;
    BlocksDiffer(k.node, k.block, k.w[l], bs);
    hide Linked, TagsOk, Elems;
    i :| 0 <= i < |bs| && bs[i] == b;
    RemovedAt(bs, b, i);
  }

  lemma {:induction false} RemovedAt(s: seq<int>, x: int, i: nat)
    requires NoDup(s) && i < |s| && s[i] == x
    ensures RemoveFirst(s, x) == s[..i] + s[i + 1..]
  {
    if i > 0 {
      RemovedAt(s[1..], x, i - 1);
      assert s[1..][..i - 1] == s[1..i] && s[1..][i..] == s[i + 1..];
    }
  }

  lemma SpellsWithout(block: map<Entry, int>, c: seq<Entry>, bs: seq<int>, i: nat)
    requires Spells(block, c, bs) && i < |c|
    ensures |bs| == |c| && Spells(block, RemoveAt(c, i), bs[..i] + bs[i + 1..])
  {
  }

  // ---------------------------------------------------------------- list operations on blocks

  /** list_append(&desc->free_list, &b->free_elem) */
  method AppendBlock(l: List, e: Entry, ghost k: Links, ghost c: nat, ghost b: int) returns (ghost w: World)
    requires Shape(k) && Separate(k.w) && c < DESC_CNT && l == k.lists[c]
    requires b in k.node && e == k.node[b] && OffLists(FreeOf(k), b)
    modifies Nodes(k.block, k.lists)
    ensures Separate(w) && Shape(k.(w := w)) && FreeOf(k.(w := w)) == FreeOf(k)[c := FreeOf(k)[c] + [b]]
  {
    hide Shape, Separate, FreeOf, OffLists, TagsOk, ChainOk, Spells, Elems, AllNodes, Nodes;
    NodeUnlinked(k, b);
    ListInWorld(k, c);
    ShapeTags(k);
    SpellsOne(k.node, k.block, Elems(k.w[l]), FreeOf(k)[c], b);
    w := Append(l, e, k.w);
    Chained(w, l);
    NewChain(k, k.(w := w), c, w[l], FreeOf(k)[c] + [b]);
  }

  /** list_pop */
  method PopFree(l: List, ghost k: Links, ghost c: nat) returns (e: Entry, ghost w: World)
    requires Shape(k) && Separate(k.w) && c < DESC_CNT && l == k.lists[c] && FreeOf(k)[c] != []
    modifies Nodes(k.block, k.lists)
    ensures Separate(w) && Shape(k.(w := w)) && e in k.block && k.block[e] == FreeOf(k)[c][0]
    ensures FreeOf(k.(w := w)) == FreeOf(k)[c := FreeOf(k)[c][1..]]
  {
    hide Shape, Separate, FreeOf, TagsOk, ChainOk, Spells, Elems, AllNodes, Nodes;
    ListInWorld(k, c);
    e, w := Pop(l, k.w);
    Chained(w, l);
    ShapeTags(k);
    SpellsRest(k.node, k.block, e, Elems(w[l]), FreeOf(k)[c]);
    NewChain(k, k.(w := w), c, w[l], FreeOf(k)[c][1..]);
  }

  /** list_remove(&b->free_elem) */
  method RemoveBlock(e: Entry, ghost k: Links, ghost c: nat, ghost b: int) returns (ghost w: World)
    requires Shape(k) && Separate(k.w) && c < DESC_CNT && b in k.node && e == k.node[b] && b in FreeOf(k)[c]
    modifies Nodes(k.block, k.lists)
    ensures Separate(w) && Shape(k.(w := w))
    ensures FreeOf(k.(w := w)) == FreeOf(k)[c := RemoveFirst(FreeOf(k)[c], b)]
  {
    hide Shape, Separate, FreeOf, TagsOk, ChainOk, Spells, Elems, AllNodes, Nodes, NoDup;
    ShapeTags(k);
    ListInWorld(k, c);
    ghost var l := k.lists[c];
    ghost var i := PlaceOf(k, c, b);
    ChainPlaces(k.w[l], i);
    w := Remove(e, k.w, l, i);
    Chained(w, l);
    SpellsWithout(k.block, Elems(k.w[l]), FreeOf(k)[c], i);
    NewChain(k, k.(w := w), c, w[l], RemoveFirst(FreeOf(k)[c], b));
  }

  lemma ChainPlaces(c: seq<Entry>, i: nat)
    requires |c| >= 2 && i < |Elems(c)|
    ensures i + 2 < |c| && c[i] in c && c[i + 2] in c
  {
  }

  /** list_find */
  method FindBlock(l: List, e: Entry, ghost k: Links, ghost c: nat, ghost b: int) returns (found: bool)
    requires Shape(k) && Separate(k.w) && c < DESC_CNT && l == k.lists[c] && b in k.node && e == k.node[b]
    ensures Separate(k.w) && (found <==> b in FreeOf(k)[c])
  {
    hide Shape, Separate, FreeOf, Elems;
    NodeOnList(k, c, b);
    found := Find(l, e, k.w);
  }

  method NoBlocks(l: List, ghost k: Links, ghost c: nat) returns (empty: bool)
    requires Shape(k) && Separate(k.w) && c < DESC_CNT && l == k.lists[c]
    ensures Separate(k.w) && (empty <==> FreeOf(k)[c] == [])
  {
    hide Shape, Separate, FreeOf, ChainOk, Spells, Elems, Nodes;
    ListInWorld(k, c);
    ChainLong(k, l);
    empty := Empty(l, k.w);
  }

  lemma ChainLong(k: Links, l: List)
    requires l in k.w && ChainOk(k.block, l, k.w[l])
    ensures |k.w[l]| >= 2
  {
  }
}
