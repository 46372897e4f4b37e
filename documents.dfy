/** A document collection as the relation controllers see it through
    Mongoose: rows in natural (insertion) order, each with a store-assigned
    `_id` and named fields; `findOne`/`find` use MongoDB equality matching. */
module Documents {
  import opened Common

  type Field = string

  /** A stored document: its `_id` and its fields. */
  datatype Doc = Doc(id: nat, fields: map<Field, string>)

  /** A query object of equality conditions, `{ field: value, ... }`. */
  type Filter = map<Field, string>

  /** Equality matching on a field map: every queried field is present with
      the queried value; a document lacking a queried field does not match. */
  predicate Satisfies(fields: map<Field, string>, q: Filter)
  {
    forall k :: k in q ==> k in fields && fields[k] == q[k]
  }

  predicate Matches(d: Doc, q: Filter)
  {
    Satisfies(d.fields, q)
  }

  /** `findOne(q)`: the position of the first matching row. */
  function FindFirst(rows: seq<Doc>, q: Filter): (r: Option<nat>)
    ensures r.Some? ==> r.value < |rows| && Matches(rows[r.value], q)
    ensures r.Some? ==> forall j :: 0 <= j < r.value ==> !Matches(rows[j], q)
    ensures r.None? <==> forall j :: 0 <= j < |rows| ==> !Matches(rows[j], q)
  {
    if rows == [] then None
    else if Matches(rows[0], q) then Some(0)
    else match FindFirst(rows[1..], q)
      case None => None
      case Some(i) => Some(i + 1)
  }

  /** `countDocuments(q)`: how many rows match. */
  function Count(rows: seq<Doc>, q: Filter): (n: nat)
    ensures n <= |rows|
    ensures n == 0 <==> forall j :: 0 <= j < |rows| ==> !Matches(rows[j], q)
  {
    if rows == [] then 0
    else (if Matches(rows[0], q) then 1 else 0) + Count(rows[1..], q)
  }

  /** `find(q)`: the matching rows. */
  function FindAll(rows: seq<Doc>, q: Filter): (r: seq<Doc>)
    ensures |r| == Count(rows, q)
    ensures forall d :: d in r <==> d in rows && Matches(d, q)
  {
    if rows == [] then []
    else (if Matches(rows[0], q) then [rows[0]] else []) + FindAll(rows[1..], q)
  }

  function RemoveAt(rows: seq<Doc>, i: nat): (r: seq<Doc>)
    requires i < |rows|
  {
    rows[..i] + rows[i + 1..]
  }

  /** `findByIdAndDelete(id)`: removes the first row carrying that `_id`. */
  function DeleteById(rows: seq<Doc>, id: nat): (r: seq<Doc>)
  {
    if rows == [] then []
    else if rows[0].id == id then rows[1..]
    else [rows[0]] + DeleteById(rows[1..], id)
  }

  predicate UniqueIds(rows: seq<Doc>)
  {
    forall i, j :: 0 <= i < j < |rows| ==> rows[i].id != rows[j].id
  }

  /** A collection's rows together with the next `_id` the store hands out. */
  datatype Table = Table(rows: seq<Doc>, nextId: nat)

  /** Ids are unique and every id was handed out before. */
  predicate WellFormed(t: Table)
  {
    UniqueIds(t.rows) && forall d :: d in t.rows ==> d.id < t.nextId
  }

  /** Which way a toggle went, with the row it deleted or created. */
  datatype Toggled = Deleted(doc: Doc) | Created(doc: Doc)

  /** The read-check-write toggle: `findOne(lookup)`; a row found is deleted
      by its `_id`, otherwise a row with the fields `insert` is created. */
  function Toggle(t: Table, lookup: Filter, insert: map<Field, string>): (r: (Toggled, Table))
    ensures r.0.Deleted? <==> Count(t.rows, lookup) > 0
    ensures r.0.Deleted? ==> exists i :: 0 <= i < |t.rows| && FindFirst(t.rows, lookup) == Some(i)
                                         && Matches(t.rows[i], lookup) && r.0.doc == t.rows[i] && r.1 == Table(RemoveAt(t.rows, i), t.nextId)
    ensures r.0.Created? ==> r.0.doc == Doc(t.nextId, insert)
                             && r.1 == Table(t.rows + [r.0.doc], t.nextId + 1)
  {
    match FindFirst(t.rows, lookup)
    case Some(i) =>
      (Deleted(t.rows[i]), Table(RemoveAt(t.rows, i), t.nextId))
    case None =>
      var d := Doc(t.nextId, insert);
      (Created(d), Table(t.rows + [d], t.nextId + 1))
  }

  /** Removing a row keeps ids unique and only drops that row. */
  lemma RemoveAtSubset(rows: seq<Doc>, i: nat)
    requires i < |rows|
    ensures forall d :: d in RemoveAt(rows, i) ==> d in rows
    ensures UniqueIds(rows) ==> UniqueIds(RemoveAt(rows, i))
  {
    var r := RemoveAt(rows, i);
    assert forall k :: 0 <= k < |r| ==> r[k] == rows[if k < i then k else k + 1];
  }

  /** A toggle keeps ids unique and below the next id. */
  lemma ToggleWellFormed(t: Table, lookup: Filter, insert: map<Field, string>)
    requires WellFormed(t)
    ensures WellFormed(Toggle(t, lookup, insert).1)
  {
    match FindFirst(t.rows, lookup)
    case Some(i) =>
      RemoveAtSubset(t.rows, i);
    case None =>
  }

  /** The Mongoose model of one relation collection. */
  class Collection {
    var rows: seq<Doc>
    var nextId: nat

    function State(): Table
      reads this
    {
      Table(rows, nextId)
    }

    ghost predicate Valid()
      reads this
    {
      WellFormed(State())
    }

    constructor ()
      ensures Valid() && rows == [] && nextId == 0
    {
      rows := [];
      nextId := 0;
    }
  }

  /** Runs the toggle against the collection: `findOne`, then
      `findByIdAndDelete(found._id)` or `create(insert)`. */
  method ToggleRow(c: Collection, lookup: Filter, insert: map<Field, string>) returns (o: Toggled)
    requires c.Valid()
    modifies c
    ensures c.Valid()
    ensures (o, Table(c.rows, c.nextId)) == Toggle(Table(old(c.rows), old(c.nextId)), lookup, insert)
  {
    ghost var t := Table(c.rows, c.nextId);
    ToggleWellFormed(t, lookup, insert);
    var found := FindFirst(c.rows, lookup);
    if found.Some? {
      var existing := c.rows[found.value];
      var remaining := DeleteById(c.rows, existing.id);
      DeleteByIdRemovesAt(t.rows, found.value);
      assert Toggle(t, lookup, insert) == (Deleted(existing), Table(remaining, t.nextId));
      c.rows := remaining;
      o := Deleted(existing);
    } else {
      var created := Doc(c.nextId, insert);
      assert Toggle(t, lookup, insert) == (Created(created), Table(t.rows + [created], t.nextId + 1));
      c.rows := c.rows + [created];
      c.nextId := c.nextId + 1;
      o := Created(created);
    }
  }

  /** With unique ids, deleting by the id of row `i` removes exactly row `i`. */
  lemma {:induction false} DeleteByIdRemovesAt(rows: seq<Doc>, i: nat)
    requires UniqueIds(rows) && i < |rows|
    ensures DeleteById(rows, rows[i].id) == RemoveAt(rows, i)
  {
    if i == 0 {
      assert RemoveAt(rows, 0) == rows[1..];
    } else {
      assert rows[0].id != rows[i].id;
      assert UniqueIds(rows[1..]) by {
        forall a, b | 0 <= a < b < |rows[1..]| ensures rows[1..][a].id != rows[1..][b].id {
          assert rows[1..][a] == rows[a + 1] && rows[1..][b] == rows[b + 1];
        }
      }
      DeleteByIdRemovesAt(rows[1..], i - 1);
      assert rows[1..][i - 1] == rows[i];
      assert [rows[0]] + RemoveAt(rows[1..], i - 1) == RemoveAt(rows, i);
    }
  }

  lemma {:induction false} CountConcat(a: seq<Doc>, b: seq<Doc>, q: Filter)
    ensures Count(a + b, q) == Count(a, q) + Count(b, q)
  {
    if a != [] {
      assert a + b != [];
      assert (a + b)[0] == a[0];
      assert (a + b)[1..] == a[1..] + b;
      CountConcat(a[1..], b, q);
    } else {
      assert a + b == b;
    }
  }

  lemma CountSingle(d: Doc, q: Filter)
    ensures Count([d], q) == if Matches(d, q) then 1 else 0
  {
    assert [d][1..] == [];
  }

  /** Removing row `i` lowers every count by exactly what row `i` contributed. */
  lemma CountRemoveAt(rows: seq<Doc>, i: nat, q: Filter)
    requires i < |rows|
    ensures Count(RemoveAt(rows, i), q) + (if Matches(rows[i], q) then 1 else 0) == Count(rows, q)
  {
    assert rows == rows[..i] + [rows[i]] + rows[i + 1..];
    CountConcat(rows[..i] + [rows[i]], rows[i + 1..], q);
    CountConcat(rows[..i], [rows[i]], q);
    CountConcat(rows[..i], rows[i + 1..], q);
    CountSingle(rows[i], q);
  }

  /** How any equality query's count moves under a toggle: only the row
      deleted or created can make a difference. */
  lemma ToggleCount(t: Table, lookup: Filter, insert: map<Field, string>, q: Filter)
    ensures var (o, t') := Toggle(t, lookup, insert);
            Count(t'.rows, q) + (if o.Deleted? && Matches(o.doc, q) then 1 else 0)
            == Count(t.rows, q) + (if o.Created? && Matches(o.doc, q) then 1 else 0)
  {
    match FindFirst(t.rows, lookup)
    case Some(i) =>
      CountRemoveAt(t.rows, i, q);
    case None =>
      CountConcat(t.rows, [Doc(t.nextId, insert)], q);
      CountSingle(Doc(t.nextId, insert), q);
  }

  /** With unique ids, row `i` is the only row removal loses. */
  lemma RemoveAtMembers(rows: seq<Doc>, i: nat)
    requires UniqueIds(rows) && i < |rows|
    ensures forall d :: d in RemoveAt(rows, i) <==> d in rows && d != rows[i]
  {
    var r := RemoveAt(rows, i);
    assert forall k :: 0 <= k < |r| ==> r[k] == rows[if k < i then k else k + 1];
    forall d | d in rows && d != rows[i] ensures d in r {
      var k :| 0 <= k < |rows| && rows[k] == d;
      assert r[if k < i then k else k - 1] == d;
    }
  }

  /** Nothing else changes: every row other than the one toggled is present
      afterwards exactly when it was present before. */
  lemma ToggleKeepsOtherRows(t: Table, lookup: Filter, insert: map<Field, string>)
    requires WellFormed(t)
    ensures var (o, t') := Toggle(t, lookup, insert);
            && (o.Deleted? ==> o.doc in t.rows && o.doc !in t'.rows)
            && (o.Created? ==> o.doc !in t.rows && o.doc in t'.rows)
            && forall d :: d != o.doc ==> (d in t'.rows <==> d in t.rows)
  {
    match FindFirst(t.rows, lookup)
    case Some(i) =>
      RemoveAtMembers(t.rows, i);
    case None =>
  }

  /** A toggle never makes a second row match `q` when the row it would
      create matches `q` only if `q` is the lookup itself: either the
      created row is invisible to `q`, or the lookup found no row, so none
      matched `q` before. */
  lemma ToggleNeverDuplicates(t: Table, lookup: Filter, insert: map<Field, string>, q: Filter)
    requires Count(t.rows, q) <= 1
    requires Satisfies(insert, q) ==> q == lookup
    ensures Count(Toggle(t, lookup, insert).1.rows, q) <= 1
  {
    ToggleCount(t, lookup, insert, q);
  }

  /** A row holding exactly the queried fields and matching the query is the
      query. */
  lemma SameKeysMatchIsExact(d: Doc, q: Filter)
    requires d.fields.Keys == q.Keys && Matches(d, q)
    ensures d.fields == q
  {
  }

  /** When the created row satisfies the lookup, the count under any
      sub-filter of the lookup moves by exactly one: up on create, down on
      delete. */
  lemma ToggleSubFilterCount(t: Table, lookup: Filter, insert: map<Field, string>, q: Filter)
    requires Satisfies(insert, lookup)
    requires forall k :: k in q ==> k in lookup && lookup[k] == q[k]
    ensures var (o, t') := Toggle(t, lookup, insert);
            && (o.Created? ==> Count(t'.rows, q) == Count(t.rows, q) + 1)
            && (o.Deleted? ==> Count(t'.rows, q) + 1 == Count(t.rows, q))
  {
    ToggleCount(t, lookup, insert, q);
  }

  /** Two toggles with the same key cancel out: every equality query counts
      the same rows as before, and when no row matched at first the rows come
      back exactly. The two calls report opposite outcomes. */
  lemma ToggleTwice(t: Table, lookup: Filter, insert: map<Field, string>)
    requires WellFormed(t)
    requires Satisfies(insert, lookup)
    requires Count(t.rows, lookup) <= 1
    requires forall d :: d in t.rows && Matches(d, lookup) ==> d.fields == insert
    ensures var (o1, t1) := Toggle(t, lookup, insert);
            var (o2, t2) := Toggle(t1, lookup, insert);
            && o1.Created? == o2.Deleted?
            && (forall q :: Count(t2.rows, q) == Count(t.rows, q))
            && (Count(t.rows, lookup) == 0 ==> t2.rows == t.rows)
  {
    var (o1, t1) := Toggle(t, lookup, insert);
    var (o2, t2) := Toggle(t1, lookup, insert);
    ToggleCount(t, lookup, insert, lookup);
    forall q ensures Count(t2.rows, q) == Count(t.rows, q) {
      ToggleCount(t, lookup, insert, q);
      ToggleCount(t1, lookup, insert, q);
    }
    if o1.Created? {
      assert t1.rows == t.rows + [o1.doc];
      var i := FindFirst(t1.rows, lookup).value;
      assert i == |t.rows|;
      assert RemoveAt(t1.rows, i) == t.rows;
    }
  }
}
