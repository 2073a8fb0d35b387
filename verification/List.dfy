/** os/ds/list.c: doubly linked lists with a header and a tailer node, whose elements are links
    embedded in other structures. */
module Lists {

  /** struct list_entry */
  class Entry {
    var prev: Entry?
    var next: Entry?
  }

  /** struct list: the two sentinels are part of it and stay where they are. */
  datatype List = List(header: Entry, tailer: Entry)

  /** The lists that are alive, each with its chain of nodes from header to tailer. */
  type World = map<List, seq<Entry>>

  /** A chain is acyclic, ends in null on both sides, and along it `next` and `prev` are inverse. */
  ghost predicate Linked(c: seq<Entry>)
    reads set e | e in c
  {
    && |c| >= 2
    && (forall i, j :: 0 <= i < j < |c| ==> c[i] != c[j])
    && c[0].prev == null && c[|c| - 1].next == null
    && (forall i {:trigger c[i].next} :: 0 <= i < |c| - 1 ==> c[i].next == c[i + 1])
    && (forall i {:trigger c[i].prev} :: 0 < i < |c| ==> c[i].prev == c[i - 1])
  }

  /** The chain of a list goes from its header to its tailer. */
  ghost predicate ListOk(l: List, c: seq<Entry>)
    reads set e | e in c
  {
    Linked(c) && c[0] == l.header && c[|c| - 1] == l.tailer
  }

  ghost predicate Apart(c: seq<Entry>, d: seq<Entry>) {
    forall e :: e in c ==> e !in d
  }

  ghost function AllNodes(w: World): set<Entry> {
    set l, e | l in w && e in w[l] :: e
  }

  ghost predicate AllApart(w: World) {
    forall l, m :: l in w && m in w && l != m ==> Apart(w[l], w[m])
  }

  /** Every list is well formed and no node is on two of them. */
  ghost predicate Separate(w: World)
    reads AllNodes(w)
  {
    && (forall l :: l in w ==> ListOk(l, w[l]))
    && AllApart(w)
  }

  /** The elements of a list, without the sentinels. */
  ghost function Elems(c: seq<Entry>): (s: seq<Entry>)
    requires |c| >= 2
    ensures |s| == |c| - 2
  {
    c[1..|c| - 1]
  }

  ghost function InsertAt(s: seq<Entry>, k: nat, x: Entry): (r: seq<Entry>)
    requires k <= |s|
    ensures |r| == |s| + 1
  {
    s[..k] + [x] + s[k..]
  }

  ghost function RemoveAt(s: seq<Entry>, k: nat): (r: seq<Entry>)
    requires k < |s|
    ensures |r| == |s| - 1
  {
    s[..k] + s[k + 1..]
  }

  /** The four assignments of list_insert_before, on one chain. */
  method Link(before: Entry, elem: Entry, ghost c: seq<Entry>, ghost k: nat)
    requires Linked(c) && 0 < k < |c| && c[k] == before && elem !in c
    modifies before, c[k - 1], elem
    ensures Linked(InsertAt(c, k, elem))
  {
    assert before.prev == c[k - 1];
    before.prev.next := elem;
    elem.prev := before.prev;
    elem.next := before;
    before.prev := elem;
    ghost var d := InsertAt(c, k, elem);
    assert forall i :: 0 <= i < k ==> d[i] == c[i];
    assert forall i :: k < i < |d| ==> d[i] == c[i - 1];
  }

  /** The two assignments of list_remove, on one chain: the element itself is enough to find its neighbours. */
  method Unlink(elem: Entry, ghost c: seq<Entry>, ghost k: nat)
    requires Linked(c) && 0 < k < |c| - 1 && c[k] == elem
    modifies c[k - 1], c[k + 1]
    ensures Linked(RemoveAt(c, k))
  {
    assert elem.prev == c[k - 1] && elem.next == c[k + 1];
    elem.prev.next := elem.next;
    elem.next.prev := elem.prev;
    ghost var d := RemoveAt(c, k);
    assert forall i :: 0 <= i < k ==> d[i] == c[i];
    assert forall i :: k <= i < |d| ==> d[i] == c[i + 1];
  }

  /** A chain may be replaced by one that uses only its own nodes and nodes of no list. */
  lemma ReplaceChain(w: World, l: List, d: seq<Entry>)
    requires AllApart(w) && l in w
    requires forall e :: e in d ==> e in w[l] || e !in AllNodes(w)
    ensures AllApart(w[l := d])
  {
    forall m | m in w && m != l ensures Apart(w[m], d) && Apart(d, w[m]) {
      assert Apart(w[m], w[l]);
    }
  }

  /** list_insert_before: `elem`, which is on no list, goes in front of `before`. */
  method InsertBefore(before: Entry, elem: Entry, ghost w: World, ghost l: List, ghost k: nat) returns (ghost w': World)
    requires Separate(w) && l in w && elem !in AllNodes(w)
    requires 0 < k < |w[l]| && w[l][k] == before
    modifies before, w[l][k - 1], elem
    ensures w' == w[l := InsertAt(w[l], k, elem)]
    ensures Separate(w')
  {
    ghost var c := w[l];
    assert ListOk(l, c);
    assert forall m :: m in w ==> elem !in w[m];
    ReplaceChain(w, l, InsertAt(c, k, elem));
    assert AllApart(w);
    assert forall m :: m in w && m != l ==> Apart(w[m], c);
    ghost var d := InsertAt(c, k, elem);
    assert d[0] == c[0] && d[|d| - 1] == c[|c| - 1];
    w' := w[l := d];
    hide Linked, AllApart, AllNodes, InsertAt, ListOk;
    Link(before, elem, c, k);
    IsList(l, d);
  }

  lemma IsList(l: List, d: seq<Entry>)
    requires Linked(d) && d[0] == l.header && d[|d| - 1] == l.tailer
    ensures ListOk(l, d)
  {
  }

  /** Memory for a link. */
  method NewEntry() returns (e: Entry)
    ensures fresh(e)
  {
    e := new Entry;
  }

  /** list_init, on two nodes that are on no list. */
  method Init(l: List, ghost w: World) returns (ghost w': World)
    requires Separate(w) && l !in w
    requires l.header != l.tailer && l.header !in AllNodes(w) && l.tailer !in AllNodes(w)
    modifies l.header, l.tailer
    ensures w' == w[l := [l.header, l.tailer]] && Elems(w'[l]) == []
    ensures Separate(w')
  {
    l.header.prev := null;
    l.header.next := l.tailer;
    l.tailer.prev := l.header;
    l.tailer.next := null;
    w' := w[l := [l.header, l.tailer]];
    forall m | m in w ensures l.header !in w[m] && l.tailer !in w[m] && Linked(w[m]) {
      forall e | e in w[m] ensures e in AllNodes(w) {}
    }
  }

  /** list_push */
  method Push(l: List, elem: Entry, ghost w: World) returns (ghost w': World)
    requires Separate(w) && l in w && elem !in AllNodes(w)
    modifies w[l], elem
    ensures l in w' && w' == w[l := w'[l]] && |w'[l]| >= 2
    ensures Elems(w'[l]) == [elem] + Elems(w[l])
    ensures Separate(w')
  {
    assert w[l][0] == l.header && w[l][1] == l.header.next;
    ElemsOfInsert(w[l], 1, elem);
    assert InsertAt(Elems(w[l]), 0, elem) == [elem] + Elems(w[l]);
    hide Linked, AllApart, AllNodes, Separate, InsertAt, Elems;
    w' := InsertBefore(l.header.next, elem, w, l, 1);
  }

  /** list_append */
  method Append(l: List, elem: Entry, ghost w: World) returns (ghost w': World)
    requires Separate(w) && l in w && elem !in AllNodes(w)
    modifies w[l], elem
    ensures l in w' && w' == w[l := w'[l]] && |w'[l]| >= 2
    ensures Elems(w'[l]) == Elems(w[l]) + [elem]
    ensures Separate(w')
  {
    ElemsOfInsert(w[l], |w[l]| - 1, elem);
    assert InsertAt(Elems(w[l]), |w[l]| - 2, elem) == Elems(w[l]) + [elem];
    hide Linked, AllApart, AllNodes, InsertAt, Elems;
    w' := InsertBefore(l.tailer, elem, w, l, |w[l]| - 1);
  }

  lemma ElemsOfInsert(c: seq<Entry>, k: nat, x: Entry)
    requires 0 < k < |c|
    ensures Elems(InsertAt(c, k, x)) == InsertAt(Elems(c), k - 1, x)
  {
    var d, e := Elems(InsertAt(c, k, x)), InsertAt(Elems(c), k - 1, x);
    assert forall i :: 0 <= i < |d| ==> d[i] == e[i];
  }

  lemma ElemsOfRemove(c: seq<Entry>, k: nat)
    requires 0 < k < |c| - 1
    ensures Elems(RemoveAt(c, k)) == RemoveAt(Elems(c), k - 1)
  {
    var d, e := Elems(RemoveAt(c, k)), RemoveAt(Elems(c), k - 1);
    assert forall i :: 0 <= i < |d| ==> d[i] == e[i];
  }

  lemma RemovedIsGone(c: seq<Entry>, k: nat)
    requires k < |c|
    requires forall i, j :: 0 <= i < j < |c| ==> c[i] != c[j]
    ensures c[k] !in RemoveAt(c, k)
    ensures forall e :: e in RemoveAt(c, k) ==> e in c
  {
  }

  lemma RemovedNowhere(w: World, l: List, k: nat)
    requires AllApart(w) && l in w && k < |w[l]|
    requires forall i, j :: 0 <= i < j < |w[l]| ==> w[l][i] != w[l][j]
    ensures w[l][k] !in AllNodes(w[l := RemoveAt(w[l], k)])
  {
    var elem := w[l][k];
    RemovedIsGone(w[l], k);
    forall m | m in w && m != l ensures elem !in w[m] {
      assert Apart(w[l], w[m]);
    }
  }

  /** list_remove on a node of the chain `w[l]`. */
  method RemoveNode(elem: Entry, ghost w: World, ghost l: List, ghost k: nat) returns (ghost w': World)
    requires Separate(w) && l in w
    requires 0 < k < |w[l]| - 1 && w[l][k] == elem
    modifies w[l][k - 1], w[l][k + 1]
    ensures w' == w[l := RemoveAt(w[l], k)]
    ensures Separate(w')
  {
    ghost var c := w[l];
    RemovedIsGone(c, k);
    ReplaceChain(w, l, RemoveAt(c, k));
    assert AllApart(w);
    assert forall m :: m in w && m != l ==> Apart(w[m], c);
    ghost var d := RemoveAt(c, k);
    assert d[0] == c[0] && d[|d| - 1] == c[|c| - 1];
    w' := w[l := d];
    hide Linked, AllApart, AllNodes, RemoveAt, ListOk;
    Unlink(elem, c, k);
    IsList(l, d);
  }

  /** list_remove: no list is passed, the links of `elem` are enough. Afterwards `elem` is on no list. */
  method Remove(elem: Entry, ghost w: World, ghost l: List, ghost k: nat) returns (ghost w': World)
    requires Separate(w) && l in w
    requires k < |w[l]| - 2 && Elems(w[l])[k] == elem
    modifies w[l][k], w[l][k + 2]
    ensures l in w' && w' == w[l := w'[l]] && |w'[l]| >= 2
    ensures Elems(w'[l]) == RemoveAt(Elems(w[l]), k)
    ensures elem !in AllNodes(w')
    ensures Separate(w')
  {
    RemovedNowhere(w, l, k + 1);
    hide Linked, AllApart, AllNodes;
    w' := RemoveNode(elem, w, l, k + 1);
    ElemsOfRemove(w[l], k + 1);
  }

  /** list_pop; popping an empty list would follow the null `next` of the tailer. */
  method Pop(l: List, ghost w: World) returns (elem: Entry, ghost w': World)
    requires Separate(w) && l in w && Elems(w[l]) != []
    modifies w[l]
    ensures l in w' && w' == w[l := w'[l]] && |w'[l]| >= 2
    ensures Elems(w[l]) == [elem] + Elems(w'[l])
    ensures elem !in AllNodes(w')
    ensures Separate(w')
  {
    elem := l.header.next;
    assert elem == Elems(w[l])[0];
    hide Linked, AllApart, AllNodes, Separate;
    w' := Remove(elem, w, l, 0);
  }

  /** list_find */
  method Find(l: List, target: Entry, ghost w: World) returns (found: bool)
    requires Separate(w) && l in w
    ensures Separate(w) && (found <==> target in Elems(w[l]))
  {
    ghost var c, k := w[l], 1;
    var elem := l.header.next;
    while elem != l.tailer
      invariant 0 < k < |c| && elem == c[k]
      invariant target !in c[1..k]
      decreases |c| - k
    {
      if elem == target {
        assert Elems(c)[k - 1] == target;
        return true;
      }
      elem := elem.next;
      k := k + 1;
    }
    assert Elems(c) == c[1..k];
    return false;
  }

  /** list_len */
  method Len(l: List, ghost w: World) returns (counter: nat)
    requires Separate(w) && l in w
    ensures Separate(w) && (counter == |Elems(w[l])|)
  {
    ghost var c := w[l];
    var first := l.header.next;
    counter := 0;
    while first != l.tailer
      invariant counter + 1 < |c| && first == c[counter + 1]
      decreases |c| - counter
    {
      counter := counter + 1;
      first := first.next;
    }
  }

  /** list_empty */
  method Empty(l: List, ghost w: World) returns (empty: bool)
    requires Separate(w) && l in w
    ensures Separate(w) && (empty <==> Elems(w[l]) == [])
  {
    empty := l.header.next == l.tailer;
  }
}
