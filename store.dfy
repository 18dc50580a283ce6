/**
 * The record store: two SQLite tables of `(id, date, image)` rows,
 * `template_screenshots` (the capture history) and `events_images`
 * (the pending-notification mirror). Rows are kept in insertion order;
 * SQL without `ORDER BY` promises no order, so nothing below relies on
 * an order other than the one the rows were inserted in.
 */
module Store {

  /** One row of either table. */
  datatype Row = Row(id: int, date: string, image: string)

  datatype TableName = TemplateScreenshots | EventsImages

  function Other(t: TableName): TableName
  {
    if t == TemplateScreenshots then EventsImages else TemplateScreenshots
  }

  /**
   * `get_id`: the largest id of the table, or 0 when the table is empty
   * (`max` of an empty list raises and the handler returns 0).
   */
  function GetId(rows: seq<Row>): (r: int)
    ensures rows == [] ==> r == 0
  {
    if rows == [] then 0
    else if |rows| == 1 then rows[0].id
    else
      var rest := GetId(rows[1..]);
      if rows[0].id >= rest then rows[0].id else rest
  }

  /** `get_id` is 0 on an empty table, and otherwise the maximum of the stored ids. */
  lemma {:induction false} GetIdIsMax(rows: seq<Row>)
    ensures rows == [] ==> GetId(rows) == 0
    ensures rows != [] ==> exists i :: 0 <= i < |rows| && rows[i].id == GetId(rows)
    ensures forall i :: 0 <= i < |rows| ==> rows[i].id <= GetId(rows)
  {
    if |rows| == 1 {
      assert rows[0].id == GetId(rows);
    } else if |rows| > 1 {
      GetIdIsMax(rows[1..]);
      assert forall i :: 0 < i < |rows| ==> rows[i] == rows[1..][i - 1];
      if rows[0].id < GetId(rows[1..]) {
        var j :| 0 <= j < |rows[1..]| && rows[1..][j].id == GetId(rows[1..]);
        assert rows[j + 1].id == GetId(rows);
      } else {
        assert rows[0].id == GetId(rows);
      }
    }
  }

  /** The id a capture allocates is larger than every id already stored. */
  lemma NextIdIsFresh(rows: seq<Row>)
    ensures forall i :: 0 <= i < |rows| ==> rows[i].id < GetId(rows) + 1
  {
    GetIdIsMax(rows);
  }

  /**
   * Storing a row under the freshly allocated id makes that id the new
   * maximum, so the following allocation yields the next integer.
   */
  lemma GetIdAfterAllocation(rows: seq<Row>, date: string, image: string)
    ensures GetId(rows + [Row(GetId(rows) + 1, date, image)]) == GetId(rows) + 1
  {
    var rows' := rows + [Row(GetId(rows) + 1, date, image)];
    GetIdIsMax(rows);
    GetIdIsMax(rows');
    assert rows'[|rows|].id == GetId(rows) + 1;
  }

  /**
   * `select`: the image path of every `template_screenshots` row whose
   * date equals the argument, one entry per row.
   */
  function Select(rows: seq<Row>, date: string): (r: seq<string>)
    ensures |r| <= |rows|
    ensures forall p :: p in r <==> exists i :: 0 <= i < |rows| && rows[i].date == date && rows[i].image == p
  {
    if rows == [] then []
    else
      var rest := Select(rows[1..], date);
      assert forall i :: 0 < i < |rows| ==> rows[i] == rows[1..][i - 1];
      if rows[0].date == date then [rows[0].image] + rest else rest
  }

  /** An inserted row contributes its path to `select` exactly when its date matches. */
  lemma {:induction false} SelectAppend(rows: seq<Row>, row: Row, date: string)
    ensures Select(rows + [row], date)
         == Select(rows, date) + (if row.date == date then [row.image] else [])
  {
    if rows == [] {
      assert [row][1..] == [];
    } else {
      assert (rows + [row])[1..] == rows[1..] + [row];
      SelectAppend(rows[1..], row, date);
    }
  }

  /** `select` is empty exactly when no row carries the date. */
  lemma SelectEmpty(rows: seq<Row>, date: string)
    ensures Select(rows, date) == [] <==> forall i :: 0 <= i < |rows| ==> rows[i].date != date
  {
    if Select(rows, date) != [] {
      assert Select(rows, date)[0] in Select(rows, date);
    }
  }

  /** `select_all`: the `(date, image)` pair of every row, one per row, in row order. */
  function SelectAll(rows: seq<Row>): (r: seq<(string, string)>)
    ensures |r| == |rows|
    ensures forall i :: 0 <= i < |rows| ==> r[i] == (rows[i].date, rows[i].image)
  {
    if rows == [] then []
    else [(rows[0].date, rows[0].image)] + SelectAll(rows[1..])
  }

  /**
   * The two tables. `insert` appends one row to the named table; `delete`
   * clears `events_images`. Reads are the functions above applied to
   * `Rows(t)`.
   */
  class RecordStore {
    var templates: seq<Row>
    var events: seq<Row>

    constructor (templates: seq<Row>, events: seq<Row>)
      ensures this.templates == templates && this.events == events
    {
      this.templates := templates;
      this.events := events;
    }

    function Rows(t: TableName): seq<Row>
      reads this
    {
      if t == TemplateScreenshots then templates else events
    }

    /** `insert`: appends exactly the row `(id, date, path)` to table `t`; the other table is untouched. */
    method Insert(t: TableName, date: string, path: string, id: int)
      modifies this
      ensures Rows(t) == old(Rows(t)) + [Row(id, date, path)]
      ensures Rows(Other(t)) == old(Rows(Other(t)))
    {
      if t == TemplateScreenshots {
        templates := templates + [Row(id, date, path)];
      } else {
        events := events + [Row(id, date, path)];
      }
    }

    /** `delete`: empties `events_images` and leaves `template_screenshots` as it was. */
    method Delete()
      modifies this
      ensures events == [] && templates == old(templates)
    {
      events := [];
    }
  }
}
