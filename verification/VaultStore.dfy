/**
 The local vault store: two tables (sealed items and tombstones) and the merge of a
 remote document into them. An id is in at most one of the tables.
 */
module VaultStore {

  type ItemId = nat

  /** A sealed item; `id` and `updatedAt` are the readable header of the envelope. */
  datatype Envelope = Envelope(id: ItemId, updatedAt: int, sealed: string)

  datatype Tombstone = Tombstone(id: ItemId, deletedAt: int)

  datatype Document = Document(items: seq<Envelope>, tombstones: seq<Tombstone>)

  /** The contents of both tables. */
  datatype Vault = Vault(items: map<ItemId, Envelope>, tombs: map<ItemId, int>)

  const EMPTY := Vault(map[], map[])

  /** What a vault says about one id. */
  datatype Entry = Absent | Live(env: Envelope) | Tomb(deletedAt: int)

  ghost predicate WellFormed(v: Vault) {
    && v.items.Keys !! v.tombs.Keys
    && forall id :: id in v.items ==> v.items[id].id == id
  }

  function EntryOf(v: Vault, id: ItemId): Entry {
    if id in v.items then Live(v.items[id])
    else if id in v.tombs then Tomb(v.tombs[id])
    else Absent
  }

  function Stamp(e: Entry): int
    requires !e.Absent?
  {
    if e.Live? then e.env.updatedAt else e.deletedAt
  }

  /** `b` is at least as new as `a`: nothing is older than an absent entry. */
  predicate AtLeastAsNew(b: Entry, a: Entry) {
    a.Absent? || (!b.Absent? && Stamp(b) >= Stamp(a))
  }

  // -- Table operations ------------------------------------------------------

  function Upserted(v: Vault, env: Envelope): Vault {
    Vault(v.items[env.id := env], v.tombs - {env.id})
  }

  function Deleted(v: Vault, id: ItemId, deletedAt: int): Vault {
    Vault(v.items - {id}, v.tombs[id := deletedAt])
  }

  function MergeItem(v: Vault, env: Envelope): Vault {
    if env.id !in v.items || env.updatedAt > v.items[env.id].updatedAt then Upserted(v, env) else v
  }

  function MergeItems(v: Vault, items: seq<Envelope>): Vault {
    if items == [] then v
    else MergeItem(MergeItems(v, items[..|items| - 1]), items[|items| - 1])
  }

  function MergeTomb(v: Vault, t: Tombstone): Vault {
    if t.id in v.items && t.deletedAt >= v.items[t.id].updatedAt then Deleted(v, t.id, t.deletedAt) else v
  }

  function MergeTombs(v: Vault, ts: seq<Tombstone>): Vault {
    if ts == [] then v
    else MergeTomb(MergeTombs(v, ts[..|ts| - 1]), ts[|ts| - 1])
  }

  /** The merge as the code runs it: all items in document order, then all tombstones. */
  function Merged(v: Vault, doc: Document): Vault {
    MergeTombs(MergeItems(v, doc.items), doc.tombstones)
  }

  /** How a remote item stands to the row of its id. */
  datatype Kind = Missing | Newer | Older | Same

  function KindOf(table: map<ItemId, Envelope>, env: Envelope): Kind {
    if env.id !in table then Missing
    else if env.updatedAt > table[env.id].updatedAt then Newer
    else if env.updatedAt < table[env.id].updatedAt then Older
    else Same
  }

  datatype Counts = Counts(added: nat, updated: nat, conflicts: nat)

  function Counted(c: Counts, table: map<ItemId, Envelope>, env: Envelope): Counts {
    match KindOf(table, env)
    case Missing => c.(added := c.added + 1)
    case Newer => c.(updated := c.updated + 1)
    case Older => c.(conflicts := c.conflicts + 1)
    case Same => c
  }

  /** How many items of the list, as they are reached, are each of these. */
  function ItemCounts(v: Vault, items: seq<Envelope>): Counts {
    if items == [] then Counts(0, 0, 0)
    else
      var front := items[..|items| - 1];
      Counted(ItemCounts(v, front), MergeItems(v, front).items, items[|items| - 1])
  }

  function TombCount(v: Vault, ts: seq<Tombstone>): nat {
    if ts == [] then 0
    else
      var t, now := ts[|ts| - 1], MergeTombs(v, ts[..|ts| - 1]).items;
      TombCount(v, ts[..|ts| - 1]) + if t.id in now && t.deletedAt >= now[t.id].updatedAt then 1 else 0
  }

  datatype MergeReport = MergeReport(added: nat, updated: nat, deleted: nat, conflicts: nat)

  class LocalVault {
    var items: map<ItemId, Envelope>
    var tombs: map<ItemId, int>

    function Contents(): Vault
      reads this
    {
      Vault(items, tombs)
    }

    constructor ()
      ensures Contents() == EMPTY
    {
      items, tombs := map[], map[];
    }

    method Upsert(env: Envelope)
      modifies this
      ensures Contents() == Upserted(old(Contents()), env)
    {
      items := items[env.id := env];
      tombs := tombs - {env.id};
    }

    method Delete(id: ItemId, deletedAt: int)
      modifies this
      ensures Contents() == Deleted(old(Contents()), id, deletedAt)
    {
      items := items - {id};
      tombs := tombs[id := deletedAt];
    }

    method Merge(remote: Document) returns (r: MergeReport)
      modifies this
      ensures Contents() == Merged(old(Contents()), remote)
      ensures |items| == |old(items)| + r.added - r.deleted
      ensures Counts(r.added, r.updated, r.conflicts) == ItemCounts(old(Contents()), remote.items)
      ensures r.deleted == TombCount(MergeItems(old(Contents()), remote.items), remote.tombstones)
    {
      var c := MergeRemoteItems(remote.items);
      var deleted := MergeRemoteTombstones(remote.tombstones);
      r := MergeReport(c.added, c.updated, deleted, c.conflicts);
    }

    /** One remote item: absent is added, strictly newer replaces, older is a conflict. */
    method MergeRemoteItem(env: Envelope, c: Counts) returns (r: Counts)
      modifies this
      ensures Contents() == MergeItem(old(Contents()), env) && r == Counted(c, old(items), env)
      ensures |items| == |old(items)| + r.added - c.added
    {
      r := c;
      if env.id !in items {
        Upsert(env);
        r := r.(added := r.added + 1);
      } else if env.updatedAt > items[env.id].updatedAt {
        ReplaceKeepsSize(items, env.id, env);
        Upsert(env);
        r := r.(updated := r.updated + 1);
      } else if env.updatedAt < items[env.id].updatedAt {
        r := r.(conflicts := r.conflicts + 1);
      }
    }

    /** The first loop: every remote item. */
    method MergeRemoteItems(envs: seq<Envelope>) returns (c: Counts)
      modifies this
      ensures Contents() == MergeItems(old(Contents()), envs)
      ensures |items| == |old(items)| + c.added && c == ItemCounts(old(Contents()), envs)
    {
      c := Counts(0, 0, 0);
      for i := 0 to |envs|
        invariant Contents() == MergeItems(old(Contents()), envs[..i])
        invariant |items| == |old(items)| + c.added && c == ItemCounts(old(Contents()), envs[..i])
      {
        assert envs[..i + 1][..i] == envs[..i];
        c := MergeRemoteItem(envs[i], c);
      }
      assert envs[..|envs|] == envs;
    }

    /** The second loop: every remote tombstone. */
    method MergeRemoteTombstones(ts: seq<Tombstone>) returns (deleted: nat)
      modifies this
      ensures Contents() == MergeTombs(old(Contents()), ts)
      ensures |items| == |old(items)| - deleted && deleted == TombCount(old(Contents()), ts)
    {
      deleted := 0;
      for i := 0 to |ts|
        invariant Contents() == MergeTombs(old(Contents()), ts[..i])
        invariant |items| == |old(items)| - deleted && deleted == TombCount(old(Contents()), ts[..i])
      {
        assert ts[..i + 1][..i] == ts[..i];
        var t := ts[i];
        if t.id in items && t.deletedAt >= items[t.id].updatedAt {
          RemoveShrinks(items, t.id);
          Delete(t.id, t.deletedAt);
          deleted := deleted + 1;
        }
      }
      assert ts[..|ts|] == ts;
    }

    /** A snapshot of both tables, in some order. */
    method ToDocument() returns (doc: Document)
      requires WellFormed(Contents())
      ensures IsSnapshot(doc, Contents())
    {
      var envs: seq<Envelope>, marks: seq<Tombstone> := [], [];
      var rest := items.Keys;
      ghost var listed: map<ItemId, Envelope> := map[];
      while rest != {}
        invariant rest <= items.Keys && listed.Keys == items.Keys - rest
        invariant forall id :: id in listed ==> listed[id] == items[id]
        invariant ListsItems(envs, listed)
        decreases rest
      {
        var id :| id in rest;
        AppendListed(envs, listed, items[id]);
        envs, rest, listed := envs + [items[id]], rest - {id}, listed[id := items[id]];
      }
      assert listed == items;
      var left := tombs.Keys;
      ghost var marked: map<ItemId, int> := map[];
      while left != {}
        invariant left <= tombs.Keys && marked.Keys == tombs.Keys - left
        invariant forall id :: id in marked ==> marked[id] == tombs[id]
        invariant ListsTombs(marks, marked)
        decreases left
      {
        var id :| id in left;
        AppendListedTomb(marks, marked, Tombstone(id, tombs[id]));
        marks, left, marked := marks + [Tombstone(id, tombs[id])], left - {id}, marked[id := tombs[id]];
      }
      assert marked == tombs;
      doc := Document(envs, marks);
    }
  }

  lemma ReplaceKeepsSize(m: map<ItemId, Envelope>, id: ItemId, env: Envelope)
    requires id in m
    ensures |m[id := env]| == |m|
  {
    assert m[id := env].Keys == m.Keys;
    assert |m[id := env].Keys| == |m[id := env]| && |m.Keys| == |m|;
  }

  lemma RemoveShrinks(m: map<ItemId, Envelope>, id: ItemId)
    requires id in m
    ensures |m - {id}| == |m| - 1
  {
    assert (m - {id}).Keys == m.Keys - {id};
    assert |(m - {id}).Keys| == |m - {id}| && |m.Keys| == |m|;
  }

  // -- Snapshots ---------------------------------------------------------------

  /** The list holds exactly the rows of the table, each once. */
  ghost predicate ListsItems(envs: seq<Envelope>, table: map<ItemId, Envelope>) {
    && (forall i :: 0 <= i < |envs| ==> envs[i].id in table && table[envs[i].id] == envs[i])
    && (forall i, j :: 0 <= i < j < |envs| ==> envs[i].id != envs[j].id)
    && (forall id :: id in table ==> exists i :: 0 <= i < |envs| && envs[i].id == id)
  }

  ghost predicate ListsTombs(marks: seq<Tombstone>, table: map<ItemId, int>) {
    && (forall i :: 0 <= i < |marks| ==> marks[i].id in table && table[marks[i].id] == marks[i].deletedAt)
    && (forall i, j :: 0 <= i < j < |marks| ==> marks[i].id != marks[j].id)
    && (forall id :: id in table ==> exists i :: 0 <= i < |marks| && marks[i].id == id)
  }

  ghost predicate IsSnapshot(doc: Document, v: Vault) {
    ListsItems(doc.items, v.items) && ListsTombs(doc.tombstones, v.tombs)
  }

  lemma AppendListed(envs: seq<Envelope>, table: map<ItemId, Envelope>, env: Envelope)
    requires ListsItems(envs, table) && env.id !in table
    ensures ListsItems(envs + [env], table[env.id := env])
  {
    var es, t := envs + [env], table[env.id := env];
    forall id | id in t ensures exists i :: 0 <= i < |es| && es[i].id == id {
      if id == env.id {
        assert es[|envs|].id == id;
      } else {
        var i :| 0 <= i < |envs| && envs[i].id == id;
        assert es[i].id == id;
      }
    }
  }

  lemma AppendListedTomb(marks: seq<Tombstone>, table: map<ItemId, int>, t: Tombstone)
    requires ListsTombs(marks, table) && t.id !in table
    ensures ListsTombs(marks + [t], table[t.id := t.deletedAt])
  {
    var ms, tb := marks + [t], table[t.id := t.deletedAt];
    forall id | id in tb ensures exists i :: 0 <= i < |ms| && ms[i].id == id {
      if id == t.id {
        assert ms[|marks|].id == id;
      } else {
        var i :| 0 <= i < |marks| && marks[i].id == id;
        assert ms[i].id == id;
      }
    }
  }

  // -- The merge, id by id -------------------------------------------------------

  /** What the whole merge does to one id, independent of document order. */
  function MergeEntry(local: Entry, remote: Entry): Entry {
    match remote
    case Absent => local
    case Live(e) => if local.Live? && local.env.updatedAt >= e.updatedAt then local else remote
    case Tomb(t) => if local.Live? && t >= local.env.updatedAt then remote else local
  }

  lemma {:induction false} MergeItemsEntry(v: Vault, items: seq<Envelope>, id: ItemId)
    requires WellFormed(v)
    requires forall i, j :: 0 <= i < j < |items| ==> items[i].id != items[j].id
    ensures WellFormed(MergeItems(v, items))
    ensures forall i :: 0 <= i < |items| && items[i].id == id ==>
      EntryOf(MergeItems(v, items), id) == MergeEntry(EntryOf(v, id), Live(items[i]))
    ensures (forall i :: 0 <= i < |items| ==> items[i].id != id) ==>
      EntryOf(MergeItems(v, items), id) == EntryOf(v, id)
  {
    if items != [] {
      MergeItemsEntry(v, items[..|items| - 1], id);
      var last := items[|items| - 1];
      if last.id == id {
        var front := items[..|items| - 1];
        assert forall i :: 0 <= i < |front| ==> front[i].id != id;
      }
    }
  }

  lemma {:induction false} MergeTombsEntry(v: Vault, ts: seq<Tombstone>, id: ItemId)
    requires WellFormed(v)
    requires forall i, j :: 0 <= i < j < |ts| ==> ts[i].id != ts[j].id
    ensures WellFormed(MergeTombs(v, ts))
    ensures forall i :: 0 <= i < |ts| && ts[i].id == id ==>
      EntryOf(MergeTombs(v, ts), id) == MergeEntry(EntryOf(v, id), Tomb(ts[i].deletedAt))
    ensures (forall i :: 0 <= i < |ts| ==> ts[i].id != id) ==>
      EntryOf(MergeTombs(v, ts), id) == EntryOf(v, id)
  {
    if ts != [] {
      MergeTombsEntry(v, ts[..|ts| - 1], id);
      var last := ts[|ts| - 1];
      if last.id == id {
        var front := ts[..|ts| - 1];
        assert forall i :: 0 <= i < |front| ==> front[i].id != id;
      }
    }
  }

  /** The ids of a list of items that were missing, behind or ahead on this side. */
  ghost function IdsOfKind(v: Vault, items: seq<Envelope>, k: Kind): set<ItemId> {
    if items == [] then {}
    else
      var last := items[|items| - 1];
      IdsOfKind(v, items[..|items| - 1], k) + if KindOf(v.items, last) == k then {last.id} else {}
  }

  lemma {:induction false} IdsOfKindMeaning(v: Vault, items: seq<Envelope>, k: Kind, id: ItemId)
    ensures id in IdsOfKind(v, items, k) <==>
      exists i :: 0 <= i < |items| && items[i].id == id && KindOf(v.items, items[i]) == k
  {
    if items != [] {
      var front, last := items[..|items| - 1], items[|items| - 1];
      IdsOfKindMeaning(v, front, k, id);
      if id in IdsOfKind(v, front, k) {
        var i :| 0 <= i < |front| && front[i].id == id && KindOf(v.items, front[i]) == k;
        assert items[i] == front[i];
      }
      if exists i :: 0 <= i < |items| && items[i].id == id && KindOf(v.items, items[i]) == k {
        var i :| 0 <= i < |items| && items[i].id == id && KindOf(v.items, items[i]) == k;
        assert i < |front| ==> front[i] == items[i];
      }
    }
  }

  lemma LastId(v: Vault, items: seq<Envelope>, k: Kind)
    requires items != [] && Distinct(items)
    ensures
      var front, last := items[..|items| - 1], items[|items| - 1];
      |IdsOfKind(v, items, k)| == |IdsOfKind(v, front, k)| + if KindOf(v.items, last) == k then 1 else 0
  {
    var front, last := items[..|items| - 1], items[|items| - 1];
    IdsOfKindMeaning(v, front, k, last.id);
    assert forall i :: 0 <= i < |front| ==> front[i].id != last.id;
  }

  ghost function CountsOf(v: Vault, items: seq<Envelope>): Counts {
    Counts(|IdsOfKind(v, items, Missing)|, |IdsOfKind(v, items, Newer)|, |IdsOfKind(v, items, Older)|)
  }

  ghost predicate Distinct(items: seq<Envelope>) {
    forall i, j :: 0 <= i < j < |items| ==> items[i].id != items[j].id
  }

  lemma OneMoreId(v: Vault, items: seq<Envelope>)
    requires items != [] && Distinct(items)
    ensures CountsOf(v, items) == Counted(CountsOf(v, items[..|items| - 1]), v.items, items[|items| - 1])
  {
    LastId(v, items, Missing);
    LastId(v, items, Newer);
    LastId(v, items, Older);
  }

  lemma SameCount(c: Counts, v: Vault, w: Vault, env: Envelope)
    requires EntryOf(v, env.id) == EntryOf(w, env.id)
    ensures Counted(c, v.items, env) == Counted(c, w.items, env)
  {
  }

  /** Over a snapshot the report counts exactly the ids that were missing, older and newer on this side
      before the merge. */
  lemma {:induction false} ReportCountsIds(v: Vault, items: seq<Envelope>)
    requires WellFormed(v) && Distinct(items)
    ensures ItemCounts(v, items) == CountsOf(v, items)
  {
    if items != [] {
      var front, last := items[..|items| - 1], items[|items| - 1];
      ReportCountsIds(v, front);
      MergeItemsEntry(v, front, last.id);
      assert forall i :: 0 <= i < |front| ==> front[i].id != last.id;
      SameCount(ItemCounts(v, front), MergeItems(v, front), v, last);
      OneMoreId(v, items);
    }
  }

  /** Merging any snapshot of `w` acts on every id by `MergeEntry`, whatever its order. */
  lemma MergeSnapshot(v: Vault, w: Vault, doc: Document)
    requires WellFormed(v) && WellFormed(w) && IsSnapshot(doc, w)
    ensures WellFormed(Merged(v, doc))
    ensures forall id :: EntryOf(Merged(v, doc), id) == MergeEntry(EntryOf(v, id), EntryOf(w, id))
  {
    var mid := MergeItems(v, doc.items);
    MergeItemsEntry(v, doc.items, 0);
    MergeTombsEntry(mid, doc.tombstones, 0);
    forall id ensures EntryOf(Merged(v, doc), id) == MergeEntry(EntryOf(v, id), EntryOf(w, id)) {
      MergeItemsEntry(v, doc.items, id);
      MergeTombsEntry(mid, doc.tombstones, id);
      match EntryOf(w, id)
      case Live(e) =>
        var i :| 0 <= i < |doc.items| && doc.items[i].id == id;
        assert doc.items[i] == e;
      case Tomb(t) =>
        var i :| 0 <= i < |doc.tombstones| && doc.tombstones[i].id == id;
        assert doc.tombstones[i].deletedAt == t;
      case Absent =>
    }
  }

  lemma SameEntries(a: Vault, b: Vault)
    requires WellFormed(a) && WellFormed(b)
    requires forall id :: EntryOf(a, id) == EntryOf(b, id)
    ensures a == b
  {
    forall id ensures id in a.items <==> id in b.items {
      assert EntryOf(a, id) == EntryOf(b, id);
    }
    forall id ensures id in a.tombs <==> id in b.tombs {
      assert EntryOf(a, id) == EntryOf(b, id);
    }
    assert a.items == b.items by {
      forall id | id in a.items ensures a.items[id] == b.items[id] {
        assert EntryOf(a, id) == EntryOf(b, id);
      }
    }
    assert a.tombs == b.tombs by {
      forall id | id in a.tombs ensures a.tombs[id] == b.tombs[id] {
        assert EntryOf(a, id) == EntryOf(b, id);
      }
    }
  }

  /** The merge of two whole vaults, as one value. */
  function Joined(v: Vault, w: Vault): Vault {
    var ids := v.items.Keys + v.tombs.Keys + w.items.Keys + w.tombs.Keys;
    Vault(
      map id | id in ids && MergeEntry(EntryOf(v, id), EntryOf(w, id)).Live? ::
        MergeEntry(EntryOf(v, id), EntryOf(w, id)).env,
      map id | id in ids && MergeEntry(EntryOf(v, id), EntryOf(w, id)).Tomb? ::
        MergeEntry(EntryOf(v, id), EntryOf(w, id)).deletedAt)
  }

  lemma JoinedEntries(v: Vault, w: Vault)
    requires WellFormed(v) && WellFormed(w)
    ensures WellFormed(Joined(v, w))
    ensures forall id :: EntryOf(Joined(v, w), id) == MergeEntry(EntryOf(v, id), EntryOf(w, id))
  {
    var j := Joined(v, w);
    forall id | id in j.items ensures j.items[id].id == id {
      assert MergeEntry(EntryOf(v, id), EntryOf(w, id)).Live?;
    }
  }

  /** The streaming merge of any snapshot of `w` computes that value. */
  lemma MergedIsJoined(v: Vault, w: Vault, doc: Document)
    requires WellFormed(v) && WellFormed(w) && IsSnapshot(doc, w)
    ensures Merged(v, doc) == Joined(v, w)
  {
    MergeSnapshot(v, w, doc);
    JoinedEntries(v, w);
    SameEntries(Merged(v, doc), Joined(v, w));
  }

  /** The order in which the rows were listed never matters. */
  lemma MergeIgnoresOrder(v: Vault, w: Vault, d1: Document, d2: Document)
    requires WellFormed(v) && WellFormed(w) && IsSnapshot(d1, w) && IsSnapshot(d2, w)
    ensures Merged(v, d1) == Merged(v, d2)
  {
    MergedIsJoined(v, w, d1);
    MergedIsJoined(v, w, d2);
  }

  // -- How far the merge is a newest-wins join --------------------------------------

  /** Merging the same remote twice is merging it once. */
  lemma MergeIdempotent(l: Entry, r: Entry)
    ensures MergeEntry(MergeEntry(l, r), r) == MergeEntry(l, r)
  {
  }

  /** The result is never older than the remote entry, except that a remote tombstone is
      forgotten by a device that has no row for the id, or keeps an older tombstone of its own. */
  lemma MergeKeepsRemoteIff(l: Entry, r: Entry)
    ensures AtLeastAsNew(MergeEntry(l, r), r) <==>
      !(r.Tomb? && (l.Absent? || (l.Tomb? && l.deletedAt < r.deletedAt)))
  {
  }

  /** The result is never older than the local entry, except that a local deletion is undone
      by any older live copy on the remote side. */
  lemma MergeKeepsLocalIff(l: Entry, r: Entry)
    ensures AtLeastAsNew(MergeEntry(l, r), l) <==> !(l.Tomb? && r.Live? && r.env.updatedAt < l.deletedAt)
  {
  }

  /** Exactly when two devices that merge each other's entry end up equal. */
  lemma MergeCommutesIff(a: Entry, b: Entry)
    ensures MergeEntry(a, b) == MergeEntry(b, a) <==>
      && (a.Live? && b.Live? ==> a == b || Stamp(a) != Stamp(b))
      && (a.Live? && b.Tomb? ==> Stamp(b) < Stamp(a))
      && (a.Tomb? && b.Live? ==> Stamp(a) < Stamp(b))
      && (a.Tomb? || b.Tomb? ==> a == b || a.Live? || b.Live?)
  {
  }
}
