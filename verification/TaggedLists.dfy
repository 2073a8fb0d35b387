/** Lists of structures that are linked through an entry inside of them: what a chain of entries says about the
    structures. */
module TaggedLists {
  import opened Lists

  /** The structures of a chain of entries; `owner` is to_struct, which gets from the entry back to the structure. */
  ghost function Owners<K>(owner: map<Entry, K>, c: seq<Entry>): (r: seq<K>)
    requires forall e :: e in c ==> e in owner
    ensures |r| == |c| && forall i :: 0 <= i < |c| ==> r[i] == owner[c[i]]
  {
    seq(|c|, i requires 0 <= i < |c| => owner[c[i]])
  }

  /** Each structure has its own entry, at `tag`. */
  ghost predicate TagsOk<K>(tag: map<K, Entry>, owner: map<Entry, K>) {
    && (forall t :: t in tag ==> tag[t] in owner && owner[tag[t]] == t)
    && (forall e :: e in owner ==> owner[e] in tag && tag[owner[e]] == e)
  }

  /** A chain of entries between the two sentinels of its list, which belong to no structure. */
  ghost predicate ChainOk<K>(owner: map<Entry, K>, l: List, c: seq<Entry>) {
    && |c| >= 2 && c[0] == l.header && c[|c| - 1] == l.tailer && l.header !in owner && l.tailer !in owner
    && (forall e :: e in Elems(c) ==> e in owner)
  }

  ghost predicate ChainsOk<K>(owner: map<Entry, K>, w: World) {
    forall l :: l in w ==> ChainOk(owner, l, w[l])
  }

  /** The entries `c` are those of the structures `ts`. */
  ghost predicate Spells<K>(owner: map<Entry, K>, c: seq<Entry>, ts: seq<K>) {
    (forall e :: e in c ==> e in owner) && Owners(owner, c) == ts
  }

  lemma ChainNode<K>(owner: map<Entry, K>, l: List, c: seq<Entry>, e: Entry)
    requires ChainOk(owner, l, c) && e in c
    ensures e == l.header || e == l.tailer || (e in Elems(c) && e in owner)
  {
    var i :| 0 <= i < |c| && c[i] == e;
    if 0 < i < |c| - 1 {
      assert Elems(c)[i - 1] == e;
    }
  }

  /** A structure is on the list exactly when its entry is in the chain. */
  lemma InChain<K>(tag: map<K, Entry>, owner: map<Entry, K>, l: List, c: seq<Entry>, t: K)
    requires TagsOk(tag, owner) && ChainOk(owner, l, c) && t in tag
    ensures tag[t] in Elems(c) <==> t in Owners(owner, Elems(c))
    ensures tag[t] in c <==> t in Owners(owner, Elems(c))
  {
    var d := Elems(c);
    if tag[t] in c {
      ChainNode(owner, l, c, tag[t]);
      var i :| 0 <= i < |d| && d[i] == tag[t];
      assert Owners(owner, d)[i] == t;
    }
    if t in Owners(owner, d) {
      var i :| 0 <= i < |d| && Owners(owner, d)[i] == t;
      assert d[i] == tag[t] && c[i + 1] == tag[t];
    }
  }

  lemma SpellsOne<K>(tag: map<K, Entry>, owner: map<Entry, K>, c: seq<Entry>, ts: seq<K>, t: K)
    requires TagsOk(tag, owner) && t in tag && Spells(owner, c, ts)
    ensures Spells(owner, c + [tag[t]], ts + [t]) && Spells(owner, [tag[t]] + c, [t] + ts)
  {
  }

  lemma SpellsRest<K>(tag: map<K, Entry>, owner: map<Entry, K>, e: Entry, c: seq<Entry>, ts: seq<K>)
    requires TagsOk(tag, owner) && Spells(owner, [e] + c, ts)
    ensures ts != [] && e in owner && owner[e] == ts[0] && owner[e] in tag && tag[owner[e]] == e
    ensures Spells(owner, c, ts[1..])
  {
    assert e in [e] + c;
    assert ([e] + c)[0] == e && ([e] + c)[1..] == c;
    assert forall x :: x in c ==> x in [e] + c;
    assert Owners(owner, [e] + c)[1..] == Owners(owner, c);
  }

  lemma Chained(w: World, l: List)
    requires Separate(w) && l in w
    ensures |w[l]| >= 2 && w[l][0] == l.header && w[l][|w[l]| - 1] == l.tailer
  {
    assert ListOk(l, w[l]);
  }
}
