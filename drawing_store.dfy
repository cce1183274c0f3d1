/**
 * The list computations of the drawing store: the records kept in memory and
 * mirrored into browser storage.  Each function here is one expression of the
 * component (`filter`, `find`, `map`, spread-append), modelled on values.
 */
module DrawingStore {
  import opened Wrappers

  /** A saved drawing.  The encoded images are opaque strings; ids and times are integers. */
  datatype Drawing = Drawing(id: int, data: string, thumbnail: string, updatedAt: int)

  predicate HasId(ds: seq<Drawing>, id: int) {
    exists i :: 0 <= i < |ds| && ds[i].id == id
  }

  /** At most one record per id. */
  predicate UniqueIds(ds: seq<Drawing>) {
    forall i, j :: 0 <= i < j < |ds| ==> ds[i].id != ds[j].id
  }

  /** JavaScript truthiness of the active drawing id: `null` and `0` are falsy. */
  predicate Truthy(current: Option<int>) {
    current.Some? && current.value != 0
  }

  /**
   * The record built when the canvas is saved: the same snapshot as image and
   * thumbnail, stamped with the save time, keyed by the active id or, when that
   * is falsy, by the save time.
   */
  function NewRecord(current: Option<int>, snapshot: string, timestamp: int): Drawing {
    Drawing(if Truthy(current) then current.value else timestamp, snapshot, snapshot, timestamp)
  }

  lemma NewRecordFields(current: Option<int>, snapshot: string, timestamp: int)
    ensures NewRecord(current, snapshot, timestamp).data == snapshot
    ensures NewRecord(current, snapshot, timestamp).thumbnail == NewRecord(current, snapshot, timestamp).data
    ensures NewRecord(current, snapshot, timestamp).updatedAt == timestamp
    ensures Truthy(current) ==> NewRecord(current, snapshot, timestamp).id == current.value
    ensures !Truthy(current) ==> NewRecord(current, snapshot, timestamp).id == timestamp
  {
  }

  // ---------------------------------------------------------------- delete

  /** `drawings.filter(d => d.id !== id)`. */
  function RemoveId(ds: seq<Drawing>, id: int): (r: seq<Drawing>)
    ensures forall d :: d in r <==> d in ds && d.id != id
    ensures |r| <= |ds|
  {
    if ds == [] then []
    else if ds[0].id != id then [ds[0]] + RemoveId(ds[1..], id)
    else RemoveId(ds[1..], id)
  }

  /** Filtering distributes over concatenation, so the kept records keep their order. */
  lemma {:induction false} RemoveIdConcat(a: seq<Drawing>, b: seq<Drawing>, id: int)
    ensures RemoveId(a + b, id) == RemoveId(a, id) + RemoveId(b, id)
  {
    if a == [] {
      assert a + b == b;
    } else {
      assert (a + b)[1..] == a[1..] + b;
      RemoveIdConcat(a[1..], b, id);
    }
  }

  /** Deleting an id that no record has leaves the list as it was. */
  lemma {:induction false} RemoveIdAbsent(ds: seq<Drawing>, id: int)
    requires !HasId(ds, id)
    ensures RemoveId(ds, id) == ds
  {
    if ds != [] {
      assert !HasId(ds[1..], id) by {
        forall i | 0 <= i < |ds[1..]| ensures ds[1..][i].id != id {
          assert ds[1..][i] == ds[i + 1];
        }
      }
      RemoveIdAbsent(ds[1..], id);
      assert ds == [ds[0]] + ds[1..];
    }
  }

  /**
   * With unique ids, deleting the id of record `k` removes exactly that record:
   * the list loses one element and the rest stay in order.
   */
  lemma RemoveIdUnique(ds: seq<Drawing>, id: int, k: nat)
    requires UniqueIds(ds) && k < |ds| && ds[k].id == id
    ensures RemoveId(ds, id) == ds[..k] + ds[k + 1..]
    ensures |RemoveId(ds, id)| == |ds| - 1
  {
    var a, b := ds[..k], ds[k + 1..];
    assert ds == a + [ds[k]] + b;
    OnlyAtK(ds, k);
    calc {
      RemoveId(ds, id);
    ==  { RemoveIdConcat(a + [ds[k]], b, id); }
      RemoveId(a + [ds[k]], id) + RemoveId(b, id);
    ==  { RemoveIdConcat(a, [ds[k]], id); }
      RemoveId(a, id) + RemoveId([ds[k]], id) + RemoveId(b, id);
    ==  { RemoveIdAbsent(a, id); RemoveIdAbsent(b, id); }
      a + RemoveId([ds[k]], id) + b;
    ==  { assert RemoveId([ds[k]], id) == []; }
      a + b;
    }
  }

  /** With unique ids, no record before or after position k carries its id. */
  lemma OnlyAtK(ds: seq<Drawing>, k: nat)
    requires UniqueIds(ds) && k < |ds|
    ensures !HasId(ds[..k], ds[k].id) && !HasId(ds[k + 1..], ds[k].id)
  {
    forall i | 0 <= i < k ensures ds[..k][i].id != ds[k].id {
      assert ds[..k][i] == ds[i];
    }
    var after := ds[k + 1..];
    forall i | 0 <= i < |after| ensures after[i].id != ds[k].id {
      assert after[i] == ds[k + 1 + i];
    }
  }

  /** Deleting never creates a duplicate id. */
  lemma {:induction false} RemoveIdKeepsUnique(ds: seq<Drawing>, id: int)
    requires UniqueIds(ds)
    ensures UniqueIds(RemoveId(ds, id))
  {
    if ds != [] {
      var t := ds[1..];
      assert UniqueIds(t) by {
        forall i, j | 0 <= i < j < |t| ensures t[i].id != t[j].id {
          assert t[i] == ds[i + 1] && t[j] == ds[j + 1];
        }
      }
      RemoveIdKeepsUnique(t, id);
      if ds[0].id != id {
        forall d | d in t ensures d.id != ds[0].id {
          var j :| 0 <= j < |t| && t[j] == d;
          assert d == ds[j + 1];
        }
        ConsUnique(ds[0], RemoveId(t, id));
      }
    }
  }

  lemma ConsUnique(d: Drawing, t: seq<Drawing>)
    requires UniqueIds(t)
    requires forall e :: e in t ==> e.id != d.id
    ensures UniqueIds([d] + t)
  {
    var s := [d] + t;
    forall i, j | 0 <= i < j < |s| ensures s[i].id != s[j].id {
      assert s[j] == t[j - 1];
      if i > 0 {
        assert s[i] == t[i - 1];
      }
    }
  }

  // ---------------------------------------------------------------- find

  /** `drawings.find(d => d.id === id)`: the first record with that id. */
  function FindById(ds: seq<Drawing>, id: int): (r: Option<Drawing>)
    ensures r.Some? ==> r.value in ds && r.value.id == id
    ensures r.None? ==> !HasId(ds, id)
  {
    if ds == [] then None
    else if ds[0].id == id then Some(ds[0])
    else
      var r := FindById(ds[1..], id);
      assert r.None? ==> !HasId(ds, id) by {
        if r.None? {
          forall i | 0 <= i < |ds| ensures ds[i].id != id {
            if i > 0 {
              assert ds[i] == ds[1..][i - 1];
            }
          }
        }
      }
      r
  }

  /** `find` returns the record at the first index carrying the id. */
  lemma {:induction false} FindByIdFirst(ds: seq<Drawing>, id: int, k: nat)
    requires k < |ds| && ds[k].id == id
    requires forall j :: 0 <= j < k ==> ds[j].id != id
    ensures FindById(ds, id) == Some(ds[k])
  {
    if k > 0 {
      FindByIdFirst(ds[1..], id, k - 1);
    }
  }

  // ---------------------------------------------------------------- replace

  /** `drawings.map(d => d.id === id ? nd : d)`. */
  function ReplaceById(ds: seq<Drawing>, id: int, nd: Drawing): (r: seq<Drawing>)
    ensures |r| == |ds|
    ensures forall i :: 0 <= i < |ds| ==> r[i] == if ds[i].id == id then nd else ds[i]
  {
    if ds == [] then []
    else [if ds[0].id == id then nd else ds[0]] + ReplaceById(ds[1..], id, nd)
  }

  /** With unique ids, the record carrying the id is replaced in place and no other moves. */
  lemma ReplaceByIdUnique(ds: seq<Drawing>, k: nat, nd: Drawing)
    requires UniqueIds(ds) && k < |ds| && ds[k].id == nd.id
    ensures ReplaceById(ds, nd.id, nd) == ds[k := nd]
  {
    var r := ReplaceById(ds, nd.id, nd);
    forall i | 0 <= i < |ds| ensures r[i] == ds[k := nd][i] {
      if i != k {
        assert ds[i].id != nd.id;
      }
    }
  }

  /** Replacing with a record of the same id keeps every id where it was. */
  lemma ReplaceByIdKeepsUnique(ds: seq<Drawing>, nd: Drawing)
    requires UniqueIds(ds)
    ensures UniqueIds(ReplaceById(ds, nd.id, nd))
  {
    var r := ReplaceById(ds, nd.id, nd);
    forall i | 0 <= i < |ds| ensures r[i].id == ds[i].id {
    }
  }

  /** After the replacement, looking the id up yields the new record. */
  lemma {:induction false} FindAfterReplace(ds: seq<Drawing>, nd: Drawing)
    requires HasId(ds, nd.id)
    ensures FindById(ReplaceById(ds, nd.id, nd), nd.id) == Some(nd)
  {
    var k :| 0 <= k < |ds| && ds[k].id == nd.id;
    if ds[0].id != nd.id {
      assert ds[1..][k - 1] == ds[k];
      FindAfterReplace(ds[1..], nd);
      assert ReplaceById(ds, nd.id, nd) == [ds[0]] + ReplaceById(ds[1..], nd.id, nd);
    }
  }

  // ---------------------------------------------------------------- upsert

  /**
   * The update made when returning to the menu: replace the record whose id is
   * `nd.id` when `find` sees one, otherwise append `nd`.
   */
  function Upsert(ds: seq<Drawing>, nd: Drawing): (r: seq<Drawing>)
    ensures HasId(ds, nd.id) ==> |r| == |ds|
    ensures HasId(ds, nd.id) ==>
      forall i :: 0 <= i < |ds| ==> r[i] == if ds[i].id == nd.id then nd else ds[i]
    ensures !HasId(ds, nd.id) ==> r == ds + [nd]
  {
    if FindById(ds, nd.id).Some? then ReplaceById(ds, nd.id, nd) else ds + [nd]
  }

  /**
   * Whether or not ids are unique, the upsert holds the new record and exactly
   * the old records with other ids.
   */
  lemma UpsertMembers(ds: seq<Drawing>, nd: Drawing)
    ensures forall d :: d in Upsert(ds, nd) <==> d == nd || (d in ds && d.id != nd.id)
  {
    var r := Upsert(ds, nd);
    if FindById(ds, nd.id).Some? {
      var k :| 0 <= k < |ds| && ds[k].id == nd.id;
      assert r[k] == nd;
      forall d | d in ds && d.id != nd.id ensures d in r {
        var j :| 0 <= j < |ds| && ds[j] == d;
        assert r[j] == d;
      }
    }
  }

  /** A present record is replaced at its own position; every other record is untouched. */
  lemma UpsertPresent(ds: seq<Drawing>, nd: Drawing, k: nat)
    requires UniqueIds(ds) && k < |ds| && ds[k].id == nd.id
    ensures Upsert(ds, nd) == ds[k := nd]
  {
    ReplaceByIdUnique(ds, k, nd);
  }

  /** Upserting keeps ids unique. */
  lemma UpsertKeepsUnique(ds: seq<Drawing>, nd: Drawing)
    requires UniqueIds(ds)
    ensures UniqueIds(Upsert(ds, nd))
  {
    if FindById(ds, nd.id).Some? {
      ReplaceByIdKeepsUnique(ds, nd);
    } else {
      var r := ds + [nd];
      forall i, j | 0 <= i < j < |r| ensures r[i].id != r[j].id {
        assert r[i] == ds[i];
        if j < |ds| {
          assert r[j] == ds[j];
        }
      }
    }
  }

  /** Save then load: after the upsert, looking up the id finds exactly the saved record. */
  lemma UpsertThenFind(ds: seq<Drawing>, nd: Drawing)
    ensures FindById(Upsert(ds, nd), nd.id) == Some(nd)
  {
    if FindById(ds, nd.id).Some? {
      FindAfterReplace(ds, nd);
    } else {
      FindByIdFirst(ds + [nd], nd.id, |ds|);
    }
  }

  // ---------------------------------------------------------------- saveDrawing

  /**
   * The update made by the explicit save: with a truthy active id it only maps
   * the matching records, otherwise it appends the record.
   */
  function SaveUpdate(ds: seq<Drawing>, current: Option<int>, nd: Drawing): (r: seq<Drawing>)
    ensures Truthy(current) ==> |r| == |ds|
    ensures Truthy(current) ==>
      forall i :: 0 <= i < |ds| ==> r[i] == if ds[i].id == current.value then nd else ds[i]
    ensures Truthy(current) && !HasId(ds, current.value) ==> r == ds
    ensures !Truthy(current) ==> r == ds + [nd]
  {
    if Truthy(current) then ReplaceById(ds, current.value, nd) else ds + [nd]
  }

  /**
   * Saving under an active id that a record carries replaces that record in
   * place, and reopening the id finds the new record.
   */
  lemma SaveUpdatePresent(ds: seq<Drawing>, current: Option<int>, nd: Drawing, k: nat)
    requires Truthy(current) && nd.id == current.value
    requires UniqueIds(ds) && k < |ds| && ds[k].id == current.value
    ensures SaveUpdate(ds, current, nd) == ds[k := nd]
    ensures FindById(SaveUpdate(ds, current, nd), current.value) == Some(nd)
  {
    ReplaceByIdUnique(ds, k, nd);
    FindAfterReplace(ds, nd);
  }

  /**
   * A fresh active id that no record carries yet is not inserted by the explicit
   * save: the list comes back unchanged and the snapshot is not in it.
   */
  lemma SaveUpdateDropsFreshId(ds: seq<Drawing>, id: int, snapshot: string, timestamp: int)
    requires id != 0 && !HasId(ds, id)
    ensures SaveUpdate(ds, Some(id), NewRecord(Some(id), snapshot, timestamp)) == ds
    ensures FindById(SaveUpdate(ds, Some(id), NewRecord(Some(id), snapshot, timestamp)), id).None?
  {
  }
}
