/** The lists of os/kernel/thread.c and os/kernel/sync.c in memory: every thread has one link, its general_tag, with
    which it is on the ready list or on the waiter list of a semaphore. */
module ThreadLists {
  import opened Lists
  import opened TaggedLists
  import opened Scheduler

  /** struct semaphore in memory; the numbers are its history. */
  datatype SemaRec = SemaRec(value: nat, waiters: List, init: nat, ups: nat, downs: nat)

  /** The lists that are alive, with their nodes; `tag` is the address of a thread's general_tag, and `owner` is
      to_struct, which gets from the tag back to the thread. */
  datatype Links = Links(w: World, ready: List, semas: map<nat, SemaRec>, tag: map<Tid, Entry>,
                         owner: map<Entry, Tid>)

  ghost function WaiterLists(semas: map<nat, SemaRec>): set<List> {
    set m | m in semas :: semas[m].waiters
  }

  /** The lists are the ready list and one waiter list for each semaphore. */
  ghost predicate ListsOk(lists: set<List>, ready: List, semas: map<nat, SemaRec>) {
    && lists == {ready} + WaiterLists(semas)
    && (forall m :: m in semas ==> semas[m].waiters != ready)
    && (forall m, n :: m in semas && n in semas && m != n ==> semas[m].waiters != semas[n].waiters)
  }

  ghost predicate Shape(k: Links) {
    TagsOk(k.tag, k.owner) && ChainsOk(k.owner, k.w) && ListsOk(k.w.Keys, k.ready, k.semas)
  }

  ghost function ThreadsOn(k: Links, l: List): seq<Tid>
    requires Shape(k) && l in k.w
  {
    assert ChainOk(k.owner, l, k.w[l]);
    Owners(k.owner, Elems(k.w[l]))
  }

  lemma WaitersInWorld(k: Links, m: nat)
    requires ListsOk(k.w.Keys, k.ready, k.semas)
    ensures k.ready in k.w
    ensures m in k.semas ==> k.semas[m].waiters in k.w && k.semas[m].waiters != k.ready
  {
    if m in k.semas {
      assert k.semas[m].waiters in WaiterLists(k.semas);
    }
  }

  ghost function ReadyOf(k: Links): seq<Tid>
    requires Shape(k)
  {
    WaitersInWorld(k, 0);
    ThreadsOn(k, k.ready)
  }

  ghost function SemaAt(k: Links, m: nat): Sema
    requires Shape(k) && m in k.semas
  {
    WaitersInWorld(k, m);
    var r := k.semas[m];
    Sema(r.value, ThreadsOn(k, r.waiters), r.init, r.ups, r.downs)
  }

  ghost function SemasOf(k: Links): map<nat, Sema>
    requires Shape(k)
  {
    map m | m in k.semas :: SemaAt(k, m)
  }

  /** All links: the tags and the sentinels. */
  ghost function Nodes(owner: map<Entry, Tid>, ready: List, semas: map<nat, SemaRec>): set<Entry> {
    owner.Keys + {ready.header, ready.tailer}
    + (set m | m in semas :: semas[m].waiters.header) + (set m | m in semas :: semas[m].waiters.tailer)
  }

  // ---------------------------------------------------------------- tags and lists

  lemma WorldInNodes(k: Links)
    requires Shape(k)
    ensures AllNodes(k.w) <= Nodes(k.owner, k.ready, k.semas)
    ensures forall l, e :: l in k.w && e in k.w[l] ==> e in Nodes(k.owner, k.ready, k.semas)
  {
    forall l, e | l in k.w && e in k.w[l] ensures e in Nodes(k.owner, k.ready, k.semas) {
      assert ChainOk(k.owner, l, k.w[l]);
      ChainNode(k.owner, l, k.w[l], e);
      if l != k.ready {
        assert l in WaiterLists(k.semas);
        var m :| m in k.semas && k.semas[m].waiters == l;
        assert k.semas[m].waiters.header == l.header && k.semas[m].waiters.tailer == l.tailer;
      }
    }
  }

  /** list_find on the tag tells whether the thread is on the list. */
  lemma TagOnList(k: Links, l: List, t: Tid)
    requires Shape(k) && l in k.w && t in k.tag
    ensures |k.w[l]| >= 2
    ensures k.tag[t] in Elems(k.w[l]) <==> t in ThreadsOn(k, l)
    ensures k.tag[t] in k.w[l] <==> t in ThreadsOn(k, l)
  {
    assert ChainOk(k.owner, l, k.w[l]);
    InChain(k.tag, k.owner, l, k.w[l], t);
  }

  /** The thread is neither ready nor waiting. */
  ghost predicate Off(ready: seq<Tid>, semas: map<nat, Sema>, t: Tid) {
    t !in ready && forall m :: m in semas ==> t !in semas[m].waiters
  }

  ghost predicate OnNoList(k: Links, t: Tid)
    requires Shape(k)
  {
    Off(ReadyOf(k), SemasOf(k), t)
  }

  /** The tag of a thread that is on no list is not linked anywhere. */
  lemma TagUnlinked(k: Links, t: Tid)
    requires Shape(k) && t in k.tag && OnNoList(k, t)
    ensures k.tag[t] !in AllNodes(k.w)
  {
    forall l | l in k.w ensures k.tag[t] !in k.w[l] {
      hide ThreadsOn, Elems, ChainOk;
      if t in ThreadsOn(k, l) {
        OnListOf(k, l, t);
      }
      TagOnList(k, l, t);
    }
  }

  lemma OnListOf(k: Links, l: List, t: Tid)
    requires Shape(k) && l in k.w && t in ThreadsOn(k, l)
    ensures !OnNoList(k, t)
  {
    hide ThreadsOn, TagsOk, ChainsOk;
    if l != k.ready {
      assert l in WaiterLists(k.semas);
      var m :| m in k.semas && k.semas[m].waiters == l;
      assert m in SemasOf(k) && t in SemasOf(k)[m].waiters;
    }
  }

  /** A tag that is not linked is that of a thread on no list. */
  lemma UnlinkedTag(k: Links, t: Tid)
    requires Shape(k) && t in k.tag && k.tag[t] !in AllNodes(k.w)
    ensures OnNoList(k, t)
  {
    hide ThreadsOn, TagsOk, ChainsOk;
    WaitersInWorld(k, 0);
    TagOnList(k, k.ready, t);
    forall m | m in SemasOf(k) ensures t !in SemasOf(k)[m].waiters {
      WaitersInWorld(k, m);
      TagOnList(k, k.semas[m].waiters, t);
    }
  }

  // ---------------------------------------------------------------- one list changes

  lemma ChainChanged(k: Links, k': Links, l: List, c: seq<Entry>)
    requires Shape(k) && l in k.w && ChainOk(k.owner, l, c) && k' == k.(w := k.w[l := c])
    ensures Shape(k') && k'.w.Keys == k.w.Keys
    ensures ThreadsOn(k', l) == Owners(k.owner, Elems(c))
    ensures forall m :: m in k.w && m != l ==> ThreadsOn(k', m) == ThreadsOn(k, m)
  {
    ShapeKept(k, k', l, c);
    assert ChainOk(k'.owner, l, c);
    hide Shape;
    forall m | m in k.w && m != l ensures ThreadsOn(k', m) == ThreadsOn(k, m) {
      SameChain(k, k', m);
    }
  }

  lemma ShapeKept(k: Links, k': Links, l: List, c: seq<Entry>)
    requires Shape(k) && l in k.w && ChainOk(k.owner, l, c) && k' == k.(w := k.w[l := c])
    ensures Shape(k') && k'.w.Keys == k.w.Keys
  {
    hide ChainOk, WaiterLists, TagsOk;
    assert k'.w.Keys == k.w.Keys;
  }

  lemma SameChain(k: Links, k': Links, l: List)
    requires Shape(k) && Shape(k') && l in k.w && l in k'.w && k'.w[l] == k.w[l] && k'.owner == k.owner
    ensures ThreadsOn(k', l) == ThreadsOn(k, l)
  {
    assert ChainOk(k.owner, l, k.w[l]);
  }

  lemma SemasSame(k: Links, k': Links, m: nat, sm: Sema)
    requires Shape(k) && Shape(k') && k'.semas.Keys == k.semas.Keys && m in k.semas
    requires SemaAt(k', m) == sm
    requires forall n :: n in k.semas && n != m ==> SemaAt(k', n) == SemaAt(k, n)
    ensures SemasOf(k') == SemasOf(k)[m := sm]
  {
    hide Shape, SemaAt;
  }

  lemma SemaKept(k: Links, k': Links, m: nat)
    requires Shape(k) && Shape(k') && k'.semas == k.semas && k'.w.Keys == k.w.Keys && m in k.semas
    requires forall l :: l in k.w && l == k.semas[m].waiters ==> ThreadsOn(k', l) == ThreadsOn(k, l)
    ensures SemaAt(k', m) == SemaAt(k, m)
  {
    WaitersInWorld(k, m);
    hide Shape, ThreadsOn;
  }

  lemma ReadyChanged(k: Links, k': Links, c: seq<Entry>)
    requires Shape(k) && ChainOk(k.owner, k.ready, c) && k' == k.(w := k.w[k.ready := c])
    ensures Shape(k') && ReadyOf(k') == Owners(k.owner, Elems(c)) && SemasOf(k') == SemasOf(k)
  {
    forall m ensures k.ready in k.w && (m in k.semas ==> k.semas[m].waiters in k.w && k.semas[m].waiters != k.ready) {
      WaitersInWorld(k, m);
    }
    hide Shape, ChainOk, ThreadsOn, Elems, SemaAt;
    ChainChanged(k, k', k.ready, c);
    forall m | m in k.semas ensures SemaAt(k', m) == SemaAt(k, m) {
      SemaKept(k, k', m);
    }
    SemasEqual(k, k');
  }

  lemma SemasEqual(k: Links, k': Links)
    requires Shape(k) && Shape(k') && k'.semas.Keys == k.semas.Keys
    requires forall m :: m in k.semas ==> SemaAt(k', m) == SemaAt(k, m)
    ensures SemasOf(k') == SemasOf(k)
  {
    hide Shape, SemaAt;
  }

  lemma WaitersChanged(k: Links, k': Links, m: nat, c: seq<Entry>)
    requires Shape(k) && m in k.semas && ChainOk(k.owner, k.semas[m].waiters, c)
    requires k' == k.(w := k.w[k.semas[m].waiters := c])
    ensures Shape(k') && ReadyOf(k') == ReadyOf(k)
    ensures SemasOf(k') == SemasOf(k)[m := SemasOf(k)[m].(waiters := Owners(k.owner, Elems(c)))]
  {
    WaitersInWorld(k, m);
    assert forall n :: n in k.semas && n != m ==> k.semas[n].waiters != k.semas[m].waiters;
    hide ChainsOk, ChainOk, TagsOk, ThreadsOn, Elems, ListsOk;
    ChainChanged(k, k', k.semas[m].waiters, c);
    forall n | n in k.semas && n != m ensures SemaAt(k', n) == SemaAt(k, n) {
      SemaKept(k, k', n);
    }
    SemasSame(k, k', m, SemasOf(k)[m].(waiters := Owners(k.owner, Elems(c))));
  }

  /** The numbers of a semaphore change, its list does not. */
  lemma ValueChanged(k: Links, k': Links, m: nat, r: SemaRec)
    requires Shape(k) && m in k.semas && r.waiters == k.semas[m].waiters && k' == k.(semas := k.semas[m := r])
    ensures Shape(k') && ReadyOf(k') == ReadyOf(k)
    ensures SemasOf(k') == SemasOf(k)[m := Sema(r.value, SemasOf(k)[m].waiters, r.init, r.ups, r.downs)]
  {
    hide Nodes, ThreadsOn, TagsOk, ChainsOk;
    SameLists(k, k');
    SameThreads(k, k');
    SemasSame(k, k', m, Sema(r.value, SemasOf(k)[m].waiters, r.init, r.ups, r.downs));
  }

  lemma SameLists(k: Links, k': Links)
    requires Shape(k) && k' == k.(semas := k'.semas) && k'.semas.Keys == k.semas.Keys
    requires forall n :: n in k.semas ==> k'.semas[n].waiters == k.semas[n].waiters
    ensures Shape(k')
  {
    hide ChainsOk, TagsOk;
    assert WaiterLists(k'.semas) == WaiterLists(k.semas);
  }

  lemma SameThreads(k: Links, k': Links)
    requires Shape(k) && Shape(k') && k' == k.(semas := k'.semas)
    ensures forall l :: l in k.w ==> ThreadsOn(k', l) == ThreadsOn(k, l)
    ensures ReadyOf(k') == ReadyOf(k)
  {
    hide ListsOk, TagsOk, Elems;
    WaitersInWorld(k, 0);
  }

  // ---------------------------------------------------------------- what the list operations mean for threads

  /** What list_push and list_append need of a thread on no list. */
  lemma CanLink(k: Links, t: Tid)
    requires Shape(k) && t in k.tag && OnNoList(k, t)
    ensures k.tag[t] !in AllNodes(k.w) && k.tag[t] in Nodes(k.owner, k.ready, k.semas)
  {
    TagUnlinked(k, t);
  }

  lemma ListInNodes(k: Links, l: List)
    requires Shape(k) && l in k.w
    ensures forall e :: e in k.w[l] ==> e in Nodes(k.owner, k.ready, k.semas)
  {
    WorldInNodes(k);
  }

  /** The ready list has a new chain `c`, with the tags of the threads `ts`. */
  lemma NewReady(k: Links, k': Links, c: seq<Entry>, ts: seq<Tid>)
    requires Shape(k) && k' == k.(w := k.w[k.ready := c]) && |c| >= 2
    requires c[0] == k.ready.header && c[|c| - 1] == k.ready.tailer && Spells(k.owner, Elems(c), ts)
    ensures Shape(k') && ReadyOf(k') == ts && SemasOf(k') == SemasOf(k)
  {
    WaitersInWorld(k, 0);
    assert ChainOk(k.owner, k.ready, k.w[k.ready]);
    ReadyChanged(k, k', c);
  }

  lemma NewWaiters(k: Links, k': Links, m: nat, c: seq<Entry>, ts: seq<Tid>)
    requires Shape(k) && m in k.semas && k' == k.(w := k.w[k.semas[m].waiters := c]) && |c| >= 2
    requires c[0] == k.semas[m].waiters.header && c[|c| - 1] == k.semas[m].waiters.tailer
             && Spells(k.owner, Elems(c), ts)
    ensures Shape(k') && ReadyOf(k') == ReadyOf(k)
    ensures SemasOf(k') == SemasOf(k)[m := SemasOf(k)[m].(waiters := ts)]
  {
    WaitersInWorld(k, m);
    assert ChainOk(k.owner, k.semas[m].waiters, k.w[k.semas[m].waiters]);
    WaitersChanged(k, k', m, c);
  }

  lemma SpellsList(k: Links, l: List)
    requires Shape(k) && l in k.w
    ensures |k.w[l]| >= 2 && Spells(k.owner, Elems(k.w[l]), ThreadsOn(k, l))
  {
    assert ChainOk(k.owner, l, k.w[l]);
  }

  lemma EmptyOnList(k: Links, l: List)
    requires Shape(k) && l in k.w
    ensures |k.w[l]| >= 2 && (Elems(k.w[l]) == [] <==> ThreadsOn(k, l) == [])
  {
    SpellsList(k, l);
  }

  /** The lists after kthread_init has made the ready list: nobody is on it yet. */
  lemma EmptyReady(k: Links)
    requires k.semas == map[] && k.w == map[k.ready := [k.ready.header, k.ready.tailer]]
    requires TagsOk(k.tag, k.owner) && k.ready.header !in k.owner && k.ready.tailer !in k.owner
    ensures Shape(k) && ReadyOf(k) == [] && SemasOf(k) == map[]
    ensures forall t :: OnNoList(k, t)
  {
    assert ChainOk(k.owner, k.ready, k.w[k.ready]);
    assert WaiterLists(k.semas) == {};
  }

  lemma OneTag(t: Tid, e: Entry)
    ensures TagsOk(map[t := e], map[e := t])
  {
  }

  /** A new thread with a new link, which is on no list. */
  lemma NewTag(k: Links, k': Links, t: Tid, e: Entry)
    requires Shape(k) && t !in k.tag && e !in k.owner && e !in AllNodes(k.w)
    requires k' == k.(tag := k.tag[t := e], owner := k.owner[e := t])
    ensures Shape(k') && ReadyOf(k') == ReadyOf(k) && SemasOf(k') == SemasOf(k) && OnNoList(k', t) && t !in ReadyOf(k)
    ensures Nodes(k'.owner, k'.ready, k'.semas) == Nodes(k.owner, k.ready, k.semas) + {e}
  {
    hide Shape, ThreadsOn, SemaAt, OnNoList, Nodes;
    NewTagShape(k, k', t, e);
    ListsAlive(k);
    forall l | l in k.w ensures ThreadsOn(k', l) == ThreadsOn(k, l) {
      SameOwners(k, k', l, e);
    }
    forall m | m in k.semas ensures SemaAt(k', m) == SemaAt(k, m) {
      SemaKept(k, k', m);
    }
    SemasEqual(k, k');
    UnlinkedTag(k', t);
    OffReady(k', t);
  }

  lemma OffReady(k: Links, t: Tid)
    requires Shape(k) && OnNoList(k, t)
    ensures t !in ReadyOf(k)
  {
    hide Shape;
  }

  lemma NewTagShape(k: Links, k': Links, t: Tid, e: Entry)
    requires Shape(k) && t !in k.tag && e !in k.owner && e !in AllNodes(k.w)
    requires k' == k.(tag := k.tag[t := e], owner := k.owner[e := t])
    ensures Shape(k') && Nodes(k'.owner, k'.ready, k'.semas) == Nodes(k.owner, k.ready, k.semas) + {e}
  {
    NewTagChains(k, k', t, e);
    hide ChainsOk, ListsOk;
  }

  lemma NewTagChains(k: Links, k': Links, t: Tid, e: Entry)
    requires Shape(k) && e !in AllNodes(k.w) && k' == k.(tag := k.tag[t := e], owner := k.owner[e := t])
    ensures ChainsOk(k'.owner, k'.w)
  {
    forall l | l in k.w ensures ChainOk(k'.owner, l, k.w[l]) {
      assert ChainOk(k.owner, l, k.w[l]);
      assert k.w[l][0] in k.w[l] && k.w[l][|k.w[l]| - 1] in k.w[l];
    }
  }

  lemma SameOwners(k: Links, k': Links, l: List, e: Entry)
    requires Shape(k) && Shape(k') && l in k.w && k'.w == k.w && e !in k.owner
    requires forall x :: x in k.owner ==> x in k'.owner && k'.owner[x] == k.owner[x]
    ensures ThreadsOn(k', l) == ThreadsOn(k, l)
  {
    assert ChainOk(k.owner, l, k.w[l]);
  }

  /** A new semaphore with an empty waiter list. */
  lemma NewSema(k: Links, k': Links, m: nat, l: List, value: nat)
    requires Shape(k) && m !in k.semas && l !in k.w && l.header !in k.owner && l.tailer !in k.owner
    requires k' == k.(w := k.w[l := [l.header, l.tailer]], semas := k.semas[m := SemaRec(value, l, value, 0, 0)])
    ensures Shape(k') && ReadyOf(k') == ReadyOf(k)
    ensures SemasOf(k') == SemasOf(k)[m := Sema(value, [], value, 0, 0)]
  {
    hide Shape, ThreadsOn, SemaAt;
    NewSemaShape(k, k', m, l, value);
    ListsAlive(k);
    forall c | c in k.w ensures ThreadsOn(k', c) == ThreadsOn(k, c) {
      SameChain(k, k', c);
    }
    forall n | n in k.semas ensures SemaAt(k', n) == SemaAt(k, n) {
      SameSema(k, k', n);
    }
    NobodyWaits(k', m, l);
  }

  lemma ListsAlive(k: Links)
    requires Shape(k)
    ensures k.ready in k.w && forall m :: m in k.semas ==> k.semas[m].waiters in k.w
  {
    forall m ensures k.ready in k.w && (m in k.semas ==> k.semas[m].waiters in k.w) {
      WaitersInWorld(k, m);
    }
  }

  lemma SameSema(k: Links, k': Links, n: nat)
    requires Shape(k) && Shape(k') && n in k.semas && n in k'.semas && k'.semas[n] == k.semas[n]
    requires forall c :: c in k.w ==> c in k'.w && ThreadsOn(k', c) == ThreadsOn(k, c)
    ensures SemaAt(k', n) == SemaAt(k, n)
  {
    hide Shape, ThreadsOn;
    ListsAlive(k);
  }

  lemma NobodyWaits(k: Links, m: nat, l: List)
    requires Shape(k) && m in k.semas && k.semas[m].waiters == l && l in k.w && k.w[l] == [l.header, l.tailer]
    ensures SemaAt(k, m) == Sema(k.semas[m].value, [], k.semas[m].init, k.semas[m].ups, k.semas[m].downs)
  {
    assert ChainOk(k.owner, l, k.w[l]);
    assert Elems(k.w[l]) == [];
  }

  lemma NewSemaShape(k: Links, k': Links, m: nat, l: List, value: nat)
    requires Shape(k) && m !in k.semas && l !in k.w && l.header !in k.owner && l.tailer !in k.owner
    requires k' == k.(w := k.w[l := [l.header, l.tailer]], semas := k.semas[m := SemaRec(value, l, value, 0, 0)])
    ensures Shape(k')
  {
    assert ChainOk(k.owner, l, [l.header, l.tailer]);
    hide TagsOk, ChainOk, ListsOk;
    assert ChainsOk(k'.owner, k'.w);
    hide ChainsOk;
    assert k'.w.Keys == k.w.Keys + {l};
    MoreLists(k.w.Keys, k.ready, k.semas, m, l, value);
  }

  lemma MoreLists(lists: set<List>, ready: List, semas: map<nat, SemaRec>, m: nat, l: List, value: nat)
    requires ListsOk(lists, ready, semas) && m !in semas && l !in lists
    ensures ListsOk(lists + {l}, ready, semas[m := SemaRec(value, l, value, 0, 0)])
  {
    var semas' := semas[m := SemaRec(value, l, value, 0, 0)];
    forall n | n in semas ensures semas[n].waiters != l && semas'[n] == semas[n] {
      assert semas[n].waiters in WaiterLists(semas);
    }
    assert WaiterLists(semas') == WaiterLists(semas) + {l} by {
      forall c | c in WaiterLists(semas) ensures c in WaiterLists(semas') {
        var n :| n in semas && semas[n].waiters == c;
        assert semas'[n].waiters == c;
      }
      assert semas'[m].waiters == l;
    }
  }

  lemma NoLists()
    ensures Separate(map[])
  {
  }

  lemma ReadyList(k: Links)
    requires Shape(k)
    ensures k.ready in k.w && ReadyOf(k) == ThreadsOn(k, k.ready)
  {
    WaitersInWorld(k, 0);
  }

  lemma WaiterList(k: Links, m: nat)
    requires Shape(k) && m in k.semas
    ensures k.semas[m].waiters in k.w && m in SemasOf(k)
    ensures var r := k.semas[m]; SemasOf(k)[m] == Sema(r.value, ThreadsOn(k, r.waiters), r.init, r.ups, r.downs)
  {
    WaitersInWorld(k, m);
  }

  lemma ShapeTags(k: Links)
    requires Shape(k)
    ensures TagsOk(k.tag, k.owner)
  {
  }

  // ---------------------------------------------------------------- list operations on tags

  /** list_append(&thread_ready_list, &t->general_tag) */
  method AppendReady(ready: List, e: Entry, ghost k: Links, ghost t: Tid) returns (ghost w: World)
    requires Shape(k) && Separate(k.w) && OnNoList(k, t) && t in k.tag && e == k.tag[t] && ready == k.ready
    modifies Nodes(k.owner, k.ready, k.semas)
    ensures Separate(w) && Shape(k.(w := w))
    ensures ReadyOf(k.(w := w)) == ReadyOf(k) + [t] && SemasOf(k.(w := w)) == SemasOf(k)
  {
    hide Shape, Separate, OnNoList, ThreadsOn, TagsOk, Spells, Elems, AllNodes, Nodes, SemasOf, ReadyOf;
    ReadyList(k);
    CanLink(k, t);
    ListInNodes(k, ready);
    SpellsList(k, ready);
    ShapeTags(k);
    SpellsOne(k.tag, k.owner, Elems(k.w[ready]), ReadyOf(k), t);
    w := Append(ready, e, k.w);
    Chained(w, ready);
    NewReady(k, k.(w := w), w[ready], ReadyOf(k) + [t]);
  }

  /** list_push */
  method PushReady(ready: List, e: Entry, ghost k: Links, ghost t: Tid) returns (ghost w: World)
    requires Shape(k) && Separate(k.w) && OnNoList(k, t) && t in k.tag && e == k.tag[t] && ready == k.ready
    modifies Nodes(k.owner, k.ready, k.semas)
    ensures Separate(w) && Shape(k.(w := w))
    ensures ReadyOf(k.(w := w)) == [t] + ReadyOf(k) && SemasOf(k.(w := w)) == SemasOf(k)
  {
    hide Shape, Separate, OnNoList, ThreadsOn, TagsOk, Spells, Elems, AllNodes, Nodes, SemasOf, ReadyOf;
    ReadyList(k);
    CanLink(k, t);
    ListInNodes(k, ready);
    SpellsList(k, ready);
    ShapeTags(k);
    SpellsOne(k.tag, k.owner, Elems(k.w[ready]), ReadyOf(k), t);
    w := Push(ready, e, k.w);
    Chained(w, ready);
    NewReady(k, k.(w := w), w[ready], [t] + ReadyOf(k));
  }

  /** list_pop */
  method PopReady(ready: List, ghost k: Links) returns (e: Entry, ghost w: World)
    requires Shape(k) && Separate(k.w) && ready == k.ready && ReadyOf(k) != []
    modifies Nodes(k.owner, k.ready, k.semas)
    ensures Separate(w) && Shape(k.(w := w))
    ensures e in k.owner && k.owner[e] in k.tag && k.owner[e] == ReadyOf(k)[0]
    ensures ReadyOf(k.(w := w)) == ReadyOf(k)[1..] && SemasOf(k.(w := w)) == SemasOf(k)
  {
    hide Shape, Separate, ThreadsOn, TagsOk, Spells, Elems, AllNodes, Nodes, SemasOf, ReadyOf;
    ReadyList(k);
    ListInNodes(k, ready);
    SpellsList(k, ready);
    EmptyOnList(k, ready);
    e, w := Pop(ready, k.w);
    Chained(w, ready);
    ShapeTags(k);
    SpellsRest(k.tag, k.owner, e, Elems(w[ready]), ReadyOf(k));
    NewReady(k, k.(w := w), w[ready], ReadyOf(k)[1..]);
  }

  /** list_append(&sema->waiters, &t->general_tag) */
  method AppendWaiter(l: List, e: Entry, ghost k: Links, ghost m: nat, ghost t: Tid) returns (ghost w: World)
    requires Shape(k) && Separate(k.w) && OnNoList(k, t) && t in k.tag && e == k.tag[t]
    requires m in k.semas && l == k.semas[m].waiters
    modifies Nodes(k.owner, k.ready, k.semas)
    ensures Separate(w) && Shape(k.(w := w))
    ensures ReadyOf(k.(w := w)) == ReadyOf(k)
    ensures SemasOf(k.(w := w)) == SemasOf(k)[m := SemasOf(k)[m].(waiters := SemasOf(k)[m].waiters + [t])]
  {
    hide Shape, Separate, OnNoList, ThreadsOn, TagsOk, Spells, Elems, AllNodes, Nodes, SemasOf, ReadyOf;
    WaiterList(k, m);
    ghost var ts := SemasOf(k)[m].waiters;
    CanLink(k, t);
    ListInNodes(k, l);
    SpellsList(k, l);
    ShapeTags(k);
    SpellsOne(k.tag, k.owner, Elems(k.w[l]), ts, t);
    w := Append(l, e, k.w);
    Chained(w, l);
    NewWaiters(k, k.(w := w), m, w[l], ts + [t]);
  }

  method PopWaiter(l: List, ghost k: Links, ghost m: nat) returns (e: Entry, ghost w: World)
    requires Shape(k) && Separate(k.w) && m in k.semas && l == k.semas[m].waiters && SemasOf(k)[m].waiters != []
    modifies Nodes(k.owner, k.ready, k.semas)
    ensures Separate(w) && Shape(k.(w := w))
    ensures e in k.owner && k.owner[e] in k.tag && k.owner[e] == SemasOf(k)[m].waiters[0]
    ensures ReadyOf(k.(w := w)) == ReadyOf(k) && OnNoList(k.(w := w), k.owner[e])
    ensures SemasOf(k.(w := w)) == SemasOf(k)[m := SemasOf(k)[m].(waiters := SemasOf(k)[m].waiters[1..])]
  {
    hide Shape, Separate, OnNoList, ThreadsOn, TagsOk, Spells, Elems, AllNodes, Nodes, SemasOf, ReadyOf;
    WaiterList(k, m);
    ghost var ts := SemasOf(k)[m].waiters;
    ListInNodes(k, l);
    SpellsList(k, l);
    EmptyOnList(k, l);
    e, w := Pop(l, k.w);
    Chained(w, l);
    ShapeTags(k);
    SpellsRest(k.tag, k.owner, e, Elems(w[l]), ts);
    NewWaiters(k, k.(w := w), m, w[l], ts[1..]);
    UnlinkedTag(k.(w := w), k.owner[e]);
  }

  /** list_find on the tag of thread `t`. */
  method FindTag(l: List, e: Entry, ghost k: Links, ghost t: Tid) returns (found: bool)
    requires Shape(k) && Separate(k.w) && l in k.w && t in k.tag && e == k.tag[t]
    ensures Separate(k.w) && (found <==> t in ThreadsOn(k, l))
  {
    hide Shape, Separate, ThreadsOn, Elems;
    TagOnList(k, l, t);
    found := Find(l, e, k.w);
  }

  method NoThreads(l: List, ghost k: Links) returns (empty: bool)
    requires Shape(k) && Separate(k.w) && l in k.w
    ensures Separate(k.w) && (empty <==> ThreadsOn(k, l) == [])
  {
    hide Shape, Separate, ThreadsOn, Elems;
    EmptyOnList(k, l);
    empty := Empty(l, k.w);
  }
}
