/**
 * The item endpoints (api/app/routers/items.py) over the item table. The
 * table is an `ItemStore`: the stored rows by id, and the ids in table
 * order (the order a query without ORDER BY returns them in). The id and
 * the creation time of a new row are inputs, as the database assigns them.
 */
module ItemsRouter {
  import opened Wrappers
  import opened Strings
  import opened ItemSchema

  datatype HttpError = HttpError(status: int, detail: string)

  const HTTP_404_NOT_FOUND: int := 404
  const DEFAULT_SKIP: int := 0
  const DEFAULT_LIMIT: int := 100

  /** The 404 for a missing id, naming the id in decimal. */
  function NotFound(id: int): HttpError {
    HttpError(HTTP_404_NOT_FOUND, "Item with id " + IntToString(id) + " not found")
  }

  lemma NatToStringInjective(a: nat, b: nat)
    requires NatToString(a) == NatToString(b)
    ensures a == b
  {
    NatToStringRoundTrip(a);
    NatToStringRoundTrip(b);
  }

  /** The decimal rendering of an integer determines the integer. */
  lemma IntToStringInjective(a: int, b: int)
    requires IntToString(a) == IntToString(b)
    ensures a == b
  {
    var s := IntToString(a);
    if a < 0 && b < 0 {
      assert NatToString(-a) == s[1..] == NatToString(-b);
      NatToStringInjective(-a, -b);
    } else if a >= 0 && b >= 0 {
      NatToStringInjective(a, b);
    }
  }

  /** Distinct ids get distinct 404 details, so the detail names the id. */
  lemma NotFoundNamesId(a: int, b: int)
    requires NotFound(a) == NotFound(b)
    ensures a == b
  {
    var prefix := "Item with id ";
    var suffix := " not found";
    var da := NotFound(a).detail;
    assert |IntToString(a)| == |IntToString(b)|;
    assert IntToString(a) == da[|prefix|..|da| - |suffix|];
    assert IntToString(b) == NotFound(b).detail[|prefix|..|da| - |suffix|];
    IntToStringInjective(a, b);
  }

  /** Where a query's OFFSET starts, as SQLite reads it: a negative offset is zero. */
  function PageStart(count: nat, skip: int): (start: nat)
    ensures start <= count
  {
    if skip <= 0 then 0 else if skip >= count then count else skip
  }

  /**
   * OFFSET `skip` LIMIT `limit` on the rows in table order, as SQLite
   * applies them: the rows from position `skip` on, at most `limit` of them,
   * and all of them when the limit is negative.
   */
  function Page<T>(xs: seq<T>, skip: int, limit: int): (r: seq<T>)
    ensures PageStart(|xs|, skip) + |r| <= |xs|
    ensures forall k :: 0 <= k < |r| ==> r[k] == xs[PageStart(|xs|, skip) + k]
    ensures limit >= 0 ==> |r| == if |xs| - PageStart(|xs|, skip) < limit then |xs| - PageStart(|xs|, skip) else limit
    ensures limit < 0 ==> |r| == |xs| - PageStart(|xs|, skip)
  {
    var start := PageStart(|xs|, skip);
    var end := if limit < 0 || |xs| - start < limit then |xs| else start + limit;
    xs[start..end]
  }

  /** Two consecutive pages make up the page that spans both. */
  lemma PagesConcatenate<T>(xs: seq<T>, skip: nat, first: nat, second: nat)
    ensures Page(xs, skip, first) + Page(xs, skip + first, second) == Page(xs, skip, first + second)
  {
    var a := Page(xs, skip, first);
    var b := Page(xs, skip + first, second);
    var c := Page(xs, skip, first + second);
    assert |a + b| == |c|;
    forall k | 0 <= k < |c| ensures (a + b)[k] == c[k] {
      if k >= |a| {
        assert PageStart(|xs|, skip + first) == PageStart(|xs|, skip) + |a|;
      }
    }
  }

  /** With the default skip and limit, a table of at most a hundred rows is listed whole. */
  lemma DefaultPageIsWhole<T>(xs: seq<T>)
    requires |xs| <= DEFAULT_LIMIT
    ensures Page(xs, DEFAULT_SKIP, DEFAULT_LIMIT) == xs
  {
  }

  predicate Distinct(ids: seq<int>) {
    forall i, j :: 0 <= i < j < |ids| ==> ids[i] != ids[j]
  }

  /** The ids without `id`, in their order. */
  function Without(ids: seq<int>, id: int): (r: seq<int>)
    ensures forall x :: x in r <==> x in ids && x != id
    ensures Distinct(ids) ==> Distinct(r)
    ensures id !in ids ==> r == ids
  {
    if ids == [] then []
    else
      var rest := Without(ids[1..], id);
      var r := (if ids[0] == id then [] else [ids[0]]) + rest;
      assert Distinct(ids) ==> ids[0] !in ids[1..];
      assert Distinct(ids) ==> Distinct(ids[1..]);
      assert ids == [ids[0]] + ids[1..];
      r
  }

  /** Removing an id from two lists joined removes it from each, keeping them in that order. */
  lemma {:induction false} WithoutAppend(a: seq<int>, b: seq<int>, id: int)
    ensures Without(a + b, id) == Without(a, id) + Without(b, id)
    decreases |a|
  {
    if a == [] {
      assert a + b == b;
    } else {
      var ab := a + b;
      assert ab[0] == a[0];
      assert ab[1..] == a[1..] + b;
      WithoutAppend(a[1..], b, id);
      var head := if a[0] == id then [] else [a[0]];
      assert Without(ab, id) == head + Without(a[1..] + b, id);
      assert Without(a, id) == head + Without(a[1..], id);
      AppendAssociates(head, Without(a[1..], id), Without(b, id));
    }
  }

  /**
   * In a list without repeats, removing the id at position `k` leaves the
   * ids before it and the ids after it, each in their order.
   */
  lemma WithoutAt(ids: seq<int>, k: nat)
    requires Distinct(ids) && k < |ids|
    ensures Without(ids, ids[k]) == ids[..k] + ids[k + 1..]
  {
    var id := ids[k];
    var before := ids[..k];
    var after := ids[k + 1..];
    var rest := [id] + after;
    SplitAround(ids, k);
    DistinctAround(ids, k);
    WithoutAppend(before, rest, id);
    WithoutAppend([id], after, id);
    assert Without([id], id) == [] by {
      assert [id][1..] == [];
    }
    assert Without(before, id) == before;
    assert Without(after, id) == after;
    assert Without(rest, id) == after;
    calc {
      Without(ids, id);
      Without(before + rest, id);
      Without(before, id) + Without(rest, id);
      before + after;
    }
  }

  lemma SplitAround<T>(s: seq<T>, k: nat)
    requires k < |s|
    ensures s == s[..k] + ([s[k]] + s[k + 1..])
  {
  }

  /** In a list without repeats, the id at `k` occurs neither before nor after `k`. */
  lemma DistinctAround(ids: seq<int>, k: nat)
    requires Distinct(ids) && k < |ids|
    ensures ids[k] !in ids[..k] && ids[k] !in ids[k + 1..]
  {
    var before := ids[..k];
    var after := ids[k + 1..];
    forall j | 0 <= j < |before| ensures before[j] != ids[k] {
      assert before[j] == ids[j];
    }
    forall j | 0 <= j < |after| ensures after[j] != ids[k] {
      assert after[j] == ids[k + 1 + j];
    }
  }

  /** The rows after `update_item` on an existing id: that row's fields patched, nothing else changed. */
  function UpdatedRows(rows: map<int, Item>, id: int, u: ItemUpdate): (r: map<int, Item>)
    requires id in rows
    ensures r.Keys == rows.Keys
    ensures forall other :: other in rows && other != id ==> r[other] == rows[other]
    ensures r[id].id == rows[id].id && r[id].createdAt == rows[id].createdAt && r[id].updatedAt == rows[id].updatedAt
    ensures r[id].fields == Patched(rows[id].fields, u)
  {
    rows[id := rows[id].(fields := Patched(rows[id].fields, u))]
  }

  /** Sending the same update twice leaves the table as sending it once. */
  lemma UpdateTwiceIsOnce(rows: map<int, Item>, id: int, u: ItemUpdate)
    requires id in rows
    ensures UpdatedRows(UpdatedRows(rows, id, u), id, u) == UpdatedRows(rows, id, u)
  {
    PatchedIdempotent(rows[id].fields, u);
  }

  /**
   * An update that passes validation, on a table of valid rows, leaves every
   * row valid exactly when it sends no null for name, price or availability.
   */
  lemma UpdateKeepsRowsValid(rows: map<int, Item>, id: int, u: ItemUpdate)
    requires id in rows && ValidUpdate(u)
    requires forall k :: k in rows ==> ValidFields(rows[k].fields)
    ensures (forall k :: k in UpdatedRows(rows, id, u) ==> ValidFields(UpdatedRows(rows, id, u)[k].fields))
      <==> !ClearsRequired(u)
  {
    PatchedKeepsValid(rows[id].fields, u);
    assert id in UpdatedRows(rows, id, u);
  }

  /** The item table. */
  class ItemStore {
    var rows: map<int, Item>
    var order: seq<int>

    /** Every stored id appears once in the table order, and each row carries its own id. */
    ghost predicate Valid()
      reads this
    {
      (forall k :: 0 <= k < |order| ==> order[k] in rows)
      && (forall id :: id in rows ==> id in order)
      && Distinct(order)
      && (forall id :: id in rows ==> rows[id].id == id)
    }

    constructor ()
      ensures Valid() && rows == map[] && order == []
    {
      rows := map[];
      order := [];
    }

    /** The rows in table order. */
    function Listing(): (items: seq<Item>)
      reads this
      requires Valid()
      ensures |items| == |order|
      ensures forall k :: 0 <= k < |items| ==> items[k] == rows[order[k]]
    {
      seq(|order|, k requires 0 <= k < |order| && Valid() reads this => rows[order[k]])
    }

    /** `get_items`: the page of the table at `skip`, at most `limit` long. */
    method GetItems(skip: int, limit: int) returns (items: seq<Item>)
      requires Valid()
      ensures items == Page(Listing(), skip, limit)
      ensures limit >= 0 ==> |items| <= limit
      ensures forall k :: 0 <= k < |items| ==> items[k].id in rows && rows[items[k].id] == items[k]
    {
      items := Page(Listing(), skip, limit);
      forall k | 0 <= k < |items| ensures items[k].id in rows && rows[items[k].id] == items[k] {
        var j := PageStart(|order|, skip) + k;
        assert items[k] == Listing()[j] == rows[order[j]];
        assert order[j] in rows;
        assert rows[order[j]].id == order[j];
      }
    }

    /** `get_item`: the row with that id, or the 404 naming it. */
    method GetItem(id: int) returns (r: Result<Item, HttpError>)
      requires Valid()
      ensures r.Ok? <==> id in rows
      ensures r.Ok? ==> r.value == rows[id] && r.value.id == id
      ensures r.Err? ==> r.error == NotFound(id)
    {
      if id in rows {
        r := Ok(rows[id]);
      } else {
        r := Err(NotFound(id));
      }
    }

    /**
     * `create_item`: adds one row, with the sent fields and the id and
     * creation time the database gives it, after the existing rows. The new
     * id exceeds every stored one, as a fresh rowid does, so appending it
     * keeps the table in rowid order.
     */
    method CreateItem(fields: ItemFields, id: int, now: Timestamp) returns (item: Item)
      requires Valid() && forall k :: k in rows ==> k < id
      modifies this
      ensures Valid()
      ensures item == Item(id, fields, now, None)
      ensures rows == old(rows)[id := item] && order == old(order) + [id]
      ensures Listing() == old(Listing()) + [item]
    {
      item := Item(id, fields, now, None);
      rows := rows[id := item];
      order := order + [id];
    }

    /**
     * `update_item`: for an existing id, assigns each field the client sent,
     * one after the other, and returns the row; for a missing id, the 404
     * and no change.
     */
    method UpdateItem(id: int, u: ItemUpdate) returns (r: Result<Item, HttpError>)
      requires Valid()
      modifies this
      ensures Valid() && order == old(order)
      ensures id !in old(rows) ==> r == Err(NotFound(id)) && rows == old(rows)
      ensures id in old(rows) ==> rows == UpdatedRows(old(rows), id, u) && r == Ok(rows[id])
    {
      if id !in rows {
        return Err(NotFound(id));
      }
      var row := rows[id];
      var assignments := SentFields(u);
      var fields := row.fields;
      for i := 0 to |assignments|
        invariant rows == old(rows) && order == old(order)
        invariant fields == AssignAll(row.fields, assignments[..i])
      {
        AssignAllAppend(row.fields, assignments[..i], [assignments[i]]);
        assert assignments[..i + 1] == assignments[..i] + [assignments[i]];
        fields := Assign(fields, assignments[i]);
      }
      assert assignments[..|assignments|] == assignments;
      AssignSentFields(row.fields, u);
      rows := rows[id := row.(fields := fields)];
      r := Ok(rows[id]);
    }

    /** `delete_item`: removes the row with that id and nothing else; a missing id is the 404. */
    method DeleteItem(id: int) returns (r: Result<(), HttpError>)
      requires Valid()
      modifies this
      ensures Valid()
      ensures id !in old(rows) ==> r == Err(NotFound(id)) && rows == old(rows) && order == old(order)
      ensures id in old(rows) ==> r == Ok(()) && rows == old(rows) - {id} && order == Without(old(order), id)
      ensures id in old(rows) ==>
        (exists k :: 0 <= k < |old(order)| && old(order)[k] == id && order == old(order)[..k] + old(order)[k + 1..])
    {
      if id !in rows {
        return Err(NotFound(id));
      }
      var at :| 0 <= at < |order| && order[at] == id;
      WithoutAt(order, at);
      var ids := Without(order, id);
      forall k | 0 <= k < |ids| ensures ids[k] in rows - {id} {
        assert ids[k] in ids;
      }
      rows := rows - {id};
      order := ids;
      r := Ok(());
    }
  }
}
