/** The table of parking spots and its reconciliation with a list sent by the manager (ParkingSpotManager.cpp). */
module SpotManager {
  import opened Wrappers
  import opened Debounce
  import opened ParkingSpots

  /** The size of the arrays po_id and tlimit, which are subscripted by spot id without a check. */
  const TABLE_SIZE := 1000

  /** po_id and tlimit, as last read from the database. */
  datatype Tables = Tables(policies: seq<int>, limits: seq<int>)

  predicate Complete(t: Tables) { |t.policies| == TABLE_SIZE && |t.limits| == TABLE_SIZE }

  /** One well-formed entry of the received list. */
  datatype Entry = Entry(id: int, name: string, roi: Roi)

  predicate InRange(e: Entry) { 0 <= e.id < TABLE_SIZE }

  function Given(t: Tables, e: Entry): Attributes
    requires Complete(t) && InRange(e)
  {
    Attributes(e.name, t.limits[e.id], e.roi, t.policies[e.id])
  }

  // ------------------------------------------------------------------ the table as a value

  type Table = map<int, Spot>

  /** Add an unknown spot, or update a known one, which a running timer refuses. */
  function Upsert(table: Table, t: Tables, e: Entry): Table
    requires Complete(t) && InRange(e)
  {
    if e.id in table then table[e.id := UpdateAttributes(table[e.id], Given(t, e))]
    else table[e.id := NewSpot(e.id, Given(t, e))]
  }

  lemma UpsertOne(table: Table, t: Tables, e: Entry)
    requires Complete(t) && InRange(e)
    ensures e.id !in table ==> Upsert(table, t, e) == table[e.id := NewSpot(e.id, Given(t, e))]
    ensures e.id in table ==> Upsert(table, t, e) == table[e.id := UpdateAttributes(table[e.id], Given(t, e))]
  {
  }

  function UpsertAll(table: Table, t: Tables, entries: seq<Entry>): Table
    requires Complete(t) && forall e :: e in entries ==> InRange(e)
    decreases |entries|
  {
    if entries == [] then table
    else Upsert(UpsertAll(table, t, entries[..|entries| - 1]), t, entries[|entries| - 1])
  }

  lemma UpsertNone(table: Table, t: Tables)
    requires Complete(t)
    ensures UpsertAll(table, t, []) == table
  {
  }

  lemma UpsertNext(table: Table, t: Tables, entries: seq<Entry>, i: nat)
    requires Complete(t) && (forall e :: e in entries ==> InRange(e)) && i < |entries|
    ensures UpsertAll(table, t, entries[..i + 1]) == Upsert(UpsertAll(table, t, entries[..i]), t, entries[i])
  {
    hide Upsert;
    assert entries[..i + 1][..i] == entries[..i] && entries[..i + 1][i] == entries[i];
  }

  function Ids(entries: seq<Entry>): set<int> { set e | e in entries :: e.id }

  function Reconcile(table: Table, t: Tables, entries: seq<Entry>): Table
    requires Complete(t) && forall e :: e in entries ==> InRange(e)
  {
    var all := UpsertAll(table, t, entries);
    map id | id in all && id in Ids(entries) :: all[id]
  }

  // ------------------------------------------------------------------ what reconciliation does

  /** The last entry for an id. */
  function Last(entries: seq<Entry>, id: int): Option<Entry> {
    if entries == [] then None
    else if entries[|entries| - 1].id == id then Some(entries[|entries| - 1])
    else Last(entries[..|entries| - 1], id)
  }

  lemma {:induction false} LastSpec(entries: seq<Entry>, id: int)
    ensures Last(entries, id).Some? <==> id in Ids(entries)
    ensures Last(entries, id).Some? ==> Last(entries, id).value in entries && Last(entries, id).value.id == id
    ensures Last(entries, id).Some? ==>
              exists i :: 0 <= i < |entries| && entries[i] == Last(entries, id).value && NoLater(entries, i, id)
  {
    if entries != [] {
      var n := |entries| - 1;
      LastSpec(entries[..n], id);
      assert entries == entries[..n] + [entries[n]];
      if entries[n].id == id {
        assert NoLater(entries, n, id);
      } else if Last(entries, id).Some? {
        var i :| 0 <= i < n && entries[..n][i] == Last(entries, id).value && NoLater(entries[..n], i, id);
        assert forall j :: i < j < n ==> entries[j] == entries[..n][j];
        assert NoLater(entries, i, id);
      }
    }
  }

  /** No entry after position i names the id. */
  predicate NoLater(entries: seq<Entry>, i: int, id: int)
    requires 0 <= i < |entries|
  {
    forall j :: i < j < |entries| ==> entries[j].id != id
  }

  /** A timer is running on the spot. */
  predicate Protected(s: Spot) { s.counter.occupied && !s.overstayed }

  /** The spot that a list of entries leaves behind for an id it names. */
  function Outcome(table: Table, t: Tables, e: Entry): Spot
    requires Complete(t) && InRange(e)
  {
    if e.id !in table then NewSpot(e.id, Given(t, e))
    else if Protected(table[e.id]) then table[e.id]
    else table[e.id].(attributes := Given(t, e))
  }

  lemma {:induction false} UpsertAllSpec(table: Table, t: Tables, entries: seq<Entry>, id: int)
    requires Complete(t) && forall e :: e in entries ==> InRange(e)
    ensures Last(entries, id).None? ==>
              (id in UpsertAll(table, t, entries) <==> id in table)
              && (id in table ==> UpsertAll(table, t, entries)[id] == table[id])
    ensures Last(entries, id).Some? ==>
              && InRange(Last(entries, id).value) && Last(entries, id).value.id == id
              && id in UpsertAll(table, t, entries)
              && UpsertAll(table, t, entries)[id] == Outcome(table, t, Last(entries, id).value)
    decreases |entries|
  {
    if entries != [] {
      UpsertAllSpec(table, t, entries[..|entries| - 1], id);
    }
  }

  /**
   * Reconciliation leaves exactly the listed ids. A spot with a running timer keeps everything; every
   * other listed spot takes the attributes of its last entry, with policy and limit from the tables,
   * and keeps its status, counter, timer and messages; an unknown one starts vacant.
   */
  lemma ReconcileSpec(table: Table, t: Tables, entries: seq<Entry>, id: int)
    requires Complete(t) && forall e :: e in entries ==> InRange(e)
    ensures id in Reconcile(table, t, entries) <==> exists e :: e in entries && e.id == id
    ensures id in Reconcile(table, t, entries) ==>
              && Last(entries, id).Some? && Last(entries, id).value in entries && Last(entries, id).value.id == id
              && Reconcile(table, t, entries)[id] == Outcome(table, t, Last(entries, id).value)
  {
    LastSpec(entries, id);
    UpsertAllSpec(table, t, entries, id);
  }

  /**
   * The same field by field, for the last entry that names an id: name and region from the entry,
   * limit and policy from the tables, unless the spot's timer runs; everything else is as before.
   */
  lemma ReconciledFields(table: Table, t: Tables, entries: seq<Entry>, i: nat)
    requires Complete(t) && forall e :: e in entries ==> InRange(e)
    requires i < |entries| && NoLater(entries, i, entries[i].id)
    ensures var e := entries[i];
            && InRange(e) && e.id in Reconcile(table, t, entries)
            && var s := Reconcile(table, t, entries)[e.id];
               && ((e.id !in table || !(table[e.id].counter.occupied && !table[e.id].overstayed)) ==>
                     && s.attributes.timeLimit == t.limits[e.id] && s.attributes.policy == t.policies[e.id]
                     && s.attributes.name == e.name && s.attributes.roi == e.roi)
               && (e.id in table && table[e.id].counter.occupied && !table[e.id].overstayed ==> s == table[e.id])
               && (e.id in table ==> SameButAttributes(s, table[e.id]))
               && (e.id !in table ==>
                     && s.id == e.id && !s.counter.occupied && s.counter.count == 0 && !s.overstayed
                     && !s.timer.armed && s.timer.ready == 0 && s.sent == [])
  {
    var e := entries[i];
    assert e in entries;
    LastIs(entries, i);
    ReconcileSpec(table, t, entries, e.id);
    hide Reconcile;
  }

  /** s and u agree in all but the attributes. */
  predicate SameButAttributes(s: Spot, u: Spot) {
    && s.id == u.id && s.counter == u.counter && s.overstayed == u.overstayed && s.updateEnabled == u.updateEnabled
    && s.timer == u.timer && s.entryTime == u.entryTime && s.plate == u.plate && s.sent == u.sent
  }

  lemma {:induction false} LastIs(entries: seq<Entry>, i: nat)
    requires i < |entries| && NoLater(entries, i, entries[i].id)
    ensures Last(entries, entries[i].id) == Some(entries[i])
  {
    var n := |entries| - 1;
    if i < n {
      assert forall j :: i < j < n ==> entries[..n][j] == entries[j];
      LastIs(entries[..n], i);
    }
  }

  /** A list applied twice changes nothing the second time. */
  lemma ReconcileIdempotent(table: Table, t: Tables, entries: seq<Entry>)
    requires Complete(t) && forall e :: e in entries ==> InRange(e)
    ensures Reconcile(Reconcile(table, t, entries), t, entries) == Reconcile(table, t, entries)
  {
    hide Reconcile;
    var once := Reconcile(table, t, entries);
    var twice := Reconcile(once, t, entries);
    forall id ensures (id in twice <==> id in once) && (id in once ==> twice[id] == once[id]) {
      ReconcileSpec(table, t, entries, id);
      ReconcileSpec(once, t, entries, id);
    }
  }

  /** `entries` lists the table, in any order: what toPTree writes. */
  ghost predicate Lists(entries: seq<Entry>, table: Table) {
    && (forall id :: id in table <==> exists e :: e in entries && e.id == id)
    && (forall e :: e in entries ==> e.id in table && e == EntryOf(e.id, table[e.id]))
  }

  function EntryOf(id: int, s: Spot): Entry { Entry(id, s.attributes.name, s.attributes.roi) }

  /** s and u agree in all but policy and time limit. */
  predicate SameButPolicy(s: Spot, u: Spot) {
    var a, b := s.attributes, u.attributes;
    s == u.(attributes := b.(policy := a.policy, timeLimit := a.timeLimit))
  }

  /** Sending a table back to itself keeps all ids, names, regions, and everything but policy and limit. */
  lemma OwnListIsHarmless(table: Table, t: Tables, entries: seq<Entry>)
    requires Complete(t) && Lists(entries, table) && forall e :: e in entries ==> InRange(e)
    ensures Reconcile(table, t, entries).Keys == table.Keys
    ensures forall id :: id in table ==>
              && id in Reconcile(table, t, entries)
              && SameButPolicy(Reconcile(table, t, entries)[id], table[id])
  {
    hide Reconcile;
    var after := Reconcile(table, t, entries);
    forall id
      ensures id in after <==> id in table
      ensures id in table ==> SameButPolicy(after[id], table[id])
    {
      ReconcileSpec(table, t, entries, id);
    }
  }

  // ------------------------------------------------------------------ the manager

  lemma NoEntries(table: Table, t: Tables)
    requires Complete(t)
    ensures Reconcile(table, t, []) == map[]
  {
    assert Ids([]) == {};
  }

  class ParkingSpotManager {
    var spots: map<int, ParkingSpot>

    /** Every spot is stored under its own id; so no object is stored twice. */
    ghost predicate Valid()
      reads this, spots.Values
    {
      forall id :: id in spots ==> spots[id].id == id
    }

    ghost function View(): Table
      reads this, spots.Values
    {
      map id | id in spots :: spots[id].View()
    }

    /** A change to the spot of one id is a change to one entry of the table. */
    twostate lemma OneEntryChanged(id: int)
      requires old(Valid()) && Valid() && spots == old(spots) && id in spots
      requires forall k :: k in spots && spots[k] != spots[id] ==> spots[k].View() == old(spots[k].View())
      ensures View() == old(View())[id := spots[id].View()]
    {
      hide ParkingSpot.View;
      var before, after := old(View()), View();
      forall k ensures (k in after <==> k in before) && (k in after && k != id ==> after[k] == before[k]) {
        if k in spots && k != id { assert spots[k].id != spots[id].id; }
      }
      assert id in after && after[id] == spots[id].View();
      assert after == before[id := spots[id].View()];
    }

    constructor ()
      ensures Valid() && View() == map[]
    {
      spots := map[];
    }

    method Add(id: int, attributes: Attributes) returns (added: bool)
      requires Valid()
      modifies this
      ensures Valid() && (added <==> id !in old(spots))
      ensures View() == if added then old(View())[id := NewSpot(id, attributes)] else old(View())
      ensures if added then id in spots && fresh(spots[id]) && spots == old(spots)[id := spots[id]]
              else spots == old(spots)
      ensures fresh(spots.Values - old(spots.Values))
    {
      if id in spots {
        return false;
      }
      var spot := new ParkingSpot(id, attributes);
      spots := spots[id := spot];
      added := true;
    }

    method Update(id: int, attributes: Attributes) returns (updated: bool)
      requires Valid()
      modifies spots.Values
      ensures Valid() && spots == old(spots)
      ensures updated <==> id in spots && !Protected(old(View())[id])
      ensures View() == if id !in spots then old(View())
                        else old(View())[id := UpdateAttributes(old(View())[id], attributes)]
    {
      hide UpdateAttributes;
      if id !in spots {
        return false;
      }
      assert spots[id] in spots.Values;
      updated := spots[id].Update(attributes);
      OneEntryChanged(id);
    }

    method Erase(id: int) returns (erased: bool)
      requires Valid()
      modifies this, spots.Values
      ensures Valid() && (erased <==> id in old(spots))
      ensures View() == old(View()) - {id}
      ensures fresh(spots.Values - old(spots.Values))
      ensures erased ==> old(spots)[id].View() == ResetSpot(old(View())[id])
    {
      hide ResetSpot, ParkingSpot.View;
      if id !in spots {
        return false;
      }
      assert spots[id] in spots.Values;
      spots[id].Reset();
      OneEntryChanged(id);
      ghost var table := View();
      spots := spots - {id};
      assert View() == table - {id};
      erased := true;
    }

    /** Reset every spot, in the unspecified order of the hash table. */
    method Reset()
      requires Valid()
      modifies spots.Values
      ensures Valid() && spots == old(spots)
      ensures View() == map id | id in old(View()) :: ResetSpot(old(View())[id])
    {
      hide ResetSpot, ParkingSpot.View;
      ghost var table := View();
      var pending := spots.Keys;
      while pending != {}
        invariant Valid() && spots == old(spots) && pending <= spots.Keys
        invariant View() == map id | id in table :: if id in pending then table[id] else ResetSpot(table[id])
        decreases |pending|
      {
        ghost var some := Member(pending);
        var id :| id in pending;
        assert spots[id] in spots.Values;
        label before:
        spots[id].Reset();
        OneEntryChanged@before(id);
        pending := pending - {id};
      }
    }

    /** The spots are reset before they leave, so that no timer of theirs goes on. */
    method Clear()
      requires Valid()
      modifies this, spots.Values
      ensures Valid() && View() == map[] && spots == map[]
      ensures forall id :: id in old(spots) ==> old(spots)[id].View() == ResetSpot(old(View())[id])
    {
      Reset();
      assert forall id :: id in spots ==> View()[id] == ResetSpot(old(View())[id]);
      spots := map[];
    }

    /** Add or update the spot of one entry. */
    method UpsertSpot(t: Tables, e: Entry)
      requires Valid() && Complete(t) && InRange(e)
      modifies this, spots.Values
      ensures Valid() && View() == Upsert(old(View()), t, e)
      ensures fresh(spots.Values - old(spots.Values))
      ensures forall id :: id in old(spots) ==> id in spots && spots[id] == old(spots)[id]
      ensures forall id :: id in old(spots) && id != e.id ==> spots[id].View() == old(View())[id]
    {
      hide Upsert, UpdateAttributes, NewSpot, Given, ParkingSpot.View;
      ghost var table := View();
      UpsertOne(table, t, e);
      if e.id !in spots {
        var _ := Add(e.id, Given(t, e));
      } else {
        var _ := Update(e.id, Given(t, e));
      }
      assert forall id :: id in old(spots) && id != e.id ==> View()[id] == table[id];
    }

    /** The upsert loop. */
    method UpsertSpots(t: Tables, entries: seq<Entry>) returns (updated: set<int>)
      requires Valid() && Complete(t) && forall e :: e in entries ==> InRange(e)
      modifies this, spots.Values
      ensures Valid() && View() == UpsertAll(old(View()), t, entries) && updated == Ids(entries)
      ensures fresh(spots.Values - old(spots.Values))
      ensures forall id :: id in old(spots) ==> id in spots && spots[id] == old(spots)[id]
      ensures forall id :: id in old(spots) && id !in updated ==> spots[id].View() == old(View())[id]
    {
      hide Upsert, UpsertAll, ParkingSpot.View;
      UpsertNone(View(), t);
      ghost var table := View();
      updated := {};
      for i := 0 to |entries|
        invariant Valid() && fresh(spots.Values - old(spots.Values))
        invariant View() == UpsertAll(table, t, entries[..i])
        invariant updated == Ids(entries[..i])
        invariant forall id :: id in old(spots) ==> id in spots && spots[id] == old(spots)[id]
        invariant forall id :: id in old(spots) && id !in updated ==> View()[id] == table[id]
      {
        var e := entries[i];
        UpsertNext(table, t, entries, i);
        UpsertSpot(t, e);
        updated := updated + {e.id};
        assert entries[..i + 1] == entries[..i] + [e];
      }
      assert entries[..|entries|] == entries;
      assert forall id :: id in old(spots) && id !in updated ==> spots[id].View() == View()[id];
    }

    /**
     * The upsert loop, then the loop that erases every spot the list does not name. Retained spots stay
     * the objects they were; erased ones are not reset, and keep all they had.
     */
    method UpdateParkingSpots(t: Tables, entries: seq<Entry>)
      requires Valid() && Complete(t) && forall e :: e in entries ==> InRange(e)
      modifies this, spots.Values
      ensures Valid() && View() == Reconcile(old(View()), t, entries)
      ensures fresh(spots.Values - old(spots.Values))
      ensures forall id :: id in old(spots) && id in spots ==> spots[id] == old(spots)[id]
      ensures forall id :: id in old(spots) && id !in spots ==> old(spots)[id].View() == old(View())[id]
    {
      hide Upsert, UpsertAll, ParkingSpot.View;
      var updated := UpsertSpots(t, entries);
      EraseOthers(updated);
    }

    /** Erase every spot that is not in `updated`. Unlike Erase, this does not reset it first. */
    method EraseOthers(updated: set<int>)
      requires Valid()
      modifies this
      ensures Valid() && View() == map id | id in old(View()) && id in updated :: old(View())[id]
      ensures spots.Values <= old(spots.Values)
      ensures forall id :: id in spots <==> id in old(spots) && id in updated
      ensures forall id :: id in spots ==> spots[id] == old(spots)[id]
    {
      var pending := spots.Keys;
      while pending != {}
        invariant Valid() && pending <= spots.Keys
        invariant spots == map id | id in old(spots) && (id in pending || id in updated) :: old(spots)[id]
        decreases |pending|
      {
        ghost var some := Member(pending);
        var id :| id in pending;
        if id !in updated {
          spots := spots - {id};
        }
        pending := pending - {id};
      }
      assert forall id :: id in spots ==> id !in pending;
      assert spots == map id | id in old(spots) && id in updated :: old(spots)[id];
    }

    /** One entry per spot, in the unspecified order of the hash table. */
    method ToPTree() returns (entries: seq<Entry>)
      requires Valid()
      ensures Lists(entries, View()) && |entries| == |spots|
    {
      entries := [];
      var pending := spots.Keys;
      ghost var table := View();
      while pending != {}
        invariant pending <= spots.Keys
        invariant forall id :: id in spots && id !in pending ==> exists e :: e in entries && e.id == id
        invariant forall e :: e in entries ==> e.id in spots && e.id !in pending && e == EntryOf(e.id, table[e.id])
        invariant |entries| + |pending| == |spots|
        decreases |pending|
      {
        ghost var some := Member(pending);
        var id :| id in pending;
        var spot := spots[id];
        var entry := Entry(spot.id, spot.attributes.name, spot.attributes.roi);
        ghost var before := entries;
        entries := entries + [entry];
        assert entry in entries && forall e :: e in before ==> e in entries;
        pending := pending - {id};
      }
    }

    /**
     * What an update request does: the thresholds are those of the message, the exit count negated,
     * and the table is reconciled with its list; an empty list clears it.
     */
    method ServeUpdate(enterCount: int, exitCount: int, t: Tables, rois: seq<Entry>) returns (th: Thresholds)
      requires Valid() && Complete(t) && forall e :: e in rois ==> InRange(e)
      modifies this, spots.Values
      ensures th.pos == enterCount && th.neg == -exitCount
      ensures Valid() && View() == Reconcile(old(View()), t, rois)
    {
      th := Thresholds(enterCount, -exitCount);
      if rois == [] {
        NoEntries(View(), t);
        Clear();
      } else {
        UpdateParkingSpots(t, rois);
      }
    }
  }
}
