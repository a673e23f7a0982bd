/** Workspace snapshots: a list that may name one id several times keeps the first row of each. */
module SnapshotRows {
  import opened Wrappers
  import opened Seqs
  import opened Json

  const MAX_ROWS: nat := 10000
  const MAX_TEXT: nat := 2048

  datatype Row = Row(id: string, caption: string, timestamp: nat, turnId: Option<string>)

  function ReadRow(value: Json): Option<Row> {
    match value
    case Obj(f) =>
      var id, caption, timestamp, turn :=
        ShortText(Get(f, "id"), MAX_TEXT), Text(Get(f, "label")), Count(Get(f, "timestamp_unix")),
        ShortText(Get(f, "turn_id"), MAX_TEXT);
      if id.None? || caption.None? || timestamp.None? || ("turn_id" in f && turn.None?) then None
      else Some(Row(id.value, Cut(caption.value), timestamp.value, turn))
    case _ => None
  }

  predicate Readable(items: seq<Json>) {
    |items| <= MAX_ROWS && forall i :: 0 <= i < |items| ==> ReadRow(items[i]).Some?
  }

  function ReadRows(items: seq<Json>): (rows: seq<Row>)
    requires forall i :: 0 <= i < |items| ==> ReadRow(items[i]).Some?
    ensures |rows| == |items| && forall i :: 0 <= i < |rows| ==> rows[i] == ReadRow(items[i]).value
  {
    seq(|items|, i requires 0 <= i < |items| => ReadRow(items[i]).value)
  }

  // ---------------------------------------------------------------- the first row of each id

  predicate IsFirst(rows: seq<Row>, i: nat)
    requires i < |rows|
  {
    forall j :: 0 <= j < i ==> rows[j].id != rows[i].id
  }

  /** The positions of first rows among the first `n`, in order. */
  function FirstPositions(rows: seq<Row>, n: nat): (ps: seq<nat>)
    requires n <= |rows|
    ensures forall a :: 0 <= a < |ps| ==> ps[a] < n && IsFirst(rows, ps[a])
    ensures forall p: nat :: p < n && IsFirst(rows, p) ==> p in ps
    ensures forall a, b :: 0 <= a < b < |ps| ==> ps[a] < ps[b]
  {
    if n == 0 then []
    else
      var front := FirstPositions(rows, n - 1);
      if IsFirst(rows, n - 1) then front + [n - 1] else front
  }

  function RowsAt(rows: seq<Row>, ps: seq<nat>): (r: seq<Row>)
    requires forall a :: 0 <= a < |ps| ==> ps[a] < |rows|
    ensures |r| == |ps| && forall a :: 0 <= a < |ps| ==> r[a] == rows[ps[a]]
  {
    seq(|ps|, a requires 0 <= a < |ps| => rows[ps[a]])
  }

  /** The output: the input's first rows, in input order. */
  function FirstRows(rows: seq<Row>): seq<Row> {
    RowsAt(rows, FirstPositions(rows, |rows|))
  }

  lemma {:induction false} PositionsOfExtension(rows: seq<Row>, row: Row, n: nat)
    requires n <= |rows|
    ensures FirstPositions(rows + [row], n) == FirstPositions(rows, n)
  {
    if n > 0 {
      PositionsOfExtension(rows, row, n - 1);
      var longer := rows + [row];
      assert longer[n - 1] == rows[n - 1] && forall j :: 0 <= j < n - 1 ==> longer[j] == rows[j];
    }
  }

  lemma LastIsFirstWhenNew(rows: seq<Row>, row: Row)
    ensures IsFirst(rows + [row], |rows|) <==> row.id !in Elems(Ids(rows))
  {
    var longer := rows + [row];
    assert longer[|rows|] == row;
    assert forall j :: 0 <= j < |rows| ==> longer[j] == rows[j] && Ids(rows)[j] == longer[j].id;
  }

  lemma FirstRowsExtended(rows: seq<Row>, row: Row)
    ensures FirstRows(rows + [row]) == FirstRows(rows) + if row.id in Elems(Ids(rows)) then [] else [row]
  {
    LastIsFirstWhenNew(rows, row);
    PositionsOfExtension(rows, row, |rows|);
    hide IsFirst, Elems, Ids;
    var longer, ps := rows + [row], FirstPositions(rows, |rows|);
    assert RowsAt(longer, ps) == RowsAt(rows, ps);
    assert longer[|rows|] == row;
  }

  function Ids(rows: seq<Row>): (ids: seq<string>)
    ensures |ids| == |rows| && forall i :: 0 <= i < |rows| ==> ids[i] == rows[i].id
  {
    seq(|rows|, i requires 0 <= i < |rows| => rows[i].id)
  }

  lemma IdsExtended(rows: seq<Row>, row: Row)
    ensures Elems(Ids(rows + [row])) == Elems(Ids(rows)) + {row.id}
  {
    assert Ids(rows + [row]) == Ids(rows) + [row.id];
  }

  /** `read` holds the rows of the first items. */
  ghost predicate AreRead(items: seq<Json>, read: seq<Row>) {
    |read| <= |items| && forall k :: 0 <= k < |read| ==> ReadRow(items[k]) == Some(read[k])
  }

  lemma ReadOneMore(items: seq<Json>, read: seq<Row>, row: Row)
    requires AreRead(items, read) && |read| < |items| && ReadRow(items[|read|]) == Some(row)
    ensures AreRead(items, read + [row])
  {
    hide ReadRow;
  }

  lemma AllAreRead(items: seq<Json>, read: seq<Row>)
    requires AreRead(items, read) && |read| == |items| <= MAX_ROWS
    ensures Readable(items) && read == ReadRows(items)
  {
    hide ReadRow;
  }

  /** `snapshotRows`: one pass with a growing id set. */
  method ParseSnapshotRows(value: Json) returns (r: Option<seq<Row>>)
    ensures r == if value.Arr? && Readable(value.items) then Some(FirstRows(ReadRows(value.items))) else None
  {
    if !value.Arr? || |value.items| > MAX_ROWS {
      return None;
    }
    hide ReadRow, FirstRows, Elems, Ids, AreRead;
    var items := value.items;
    var ids: set<string> := {};
    var rows: seq<Row> := [];
    ghost var read: seq<Row> := [];
    NoRows();
    var i := 0;
    assert AreRead(items, read) by { NoneRead(items); }
    while i < |items|
      invariant 0 <= i <= |items| && |read| == i && AreRead(items, read)
      invariant ids == Elems(Ids(read)) && rows == FirstRows(read)
    {
      var row := ReadRow(items[i]);
      if row.None? {
        return None;
      }
      FirstRowsExtended(read, row.value);
      IdsExtended(read, row.value);
      ReadOneMore(items, read, row.value);
      read := read + [row.value];
      i := i + 1;
      if row.value.id in ids {
        continue;
      }
      ids := ids + {row.value.id};
      rows := rows + [row.value];
    }
    AllAreRead(items, read);
    r := Some(rows);
  }

  lemma NoneRead(items: seq<Json>)
    ensures AreRead(items, [])
  {
  }

  lemma NoRows()
    ensures FirstRows([]) == [] && Elems(Ids([])) == {}
  {
  }

  // ---------------------------------------------------------------- theorems

  /** The position of an id's first row. */
  lemma {:induction false} FirstRowOf(rows: seq<Row>, i: nat) returns (p: nat)
    requires i < |rows|
    ensures p <= i && IsFirst(rows, p) && rows[p].id == rows[i].id
    decreases i
  {
    if IsFirst(rows, i) {
      p := i;
    } else {
      var j :| 0 <= j < i && rows[j].id == rows[i].id;
      p := FirstRowOf(rows, j);
    }
  }

  lemma OutputIdsAreDistinct(rows: seq<Row>)
    ensures Distinct(Ids(FirstRows(rows)))
  {
    var ps, out := FirstPositions(rows, |rows|), FirstRows(rows);
    forall a, b | 0 <= a < b < |out|
      ensures out[a].id != out[b].id
    {
      assert ps[a] < ps[b] && IsFirst(rows, ps[b]);
    }
  }

  lemma EveryIdIsKept(rows: seq<Row>, i: nat) returns (a: nat)
    requires i < |rows|
    ensures a < |FirstRows(rows)| && FirstRows(rows)[a].id == rows[i].id
  {
    var ps := FirstPositions(rows, |rows|);
    var p := FirstRowOf(rows, i);
    assert p in ps;
    a :| 0 <= a < |ps| && ps[a] == p;
  }

  /** No id appears twice in the output, and exactly the input's ids appear. */
  lemma EachIdOnce(rows: seq<Row>)
    ensures Distinct(Ids(FirstRows(rows)))
    ensures Elems(Ids(FirstRows(rows))) == Elems(Ids(rows))
  {
    OutputIdsAreDistinct(rows);
    var ps, out := FirstPositions(rows, |rows|), FirstRows(rows);
    forall a | 0 <= a < |out|
      ensures Ids(out)[a] in Elems(Ids(rows))
    {
      assert Ids(rows)[ps[a]] == Ids(out)[a];
    }
    hide FirstRows, IsFirst;
    forall i | 0 <= i < |rows|
      ensures Ids(rows)[i] in Elems(Ids(out))
    {
      var a := EveryIdIsKept(rows, i);
      assert Ids(out)[a] == rows[i].id;
    }
  }

  /** Nothing is dropped from a list without repetitions. */
  lemma {:induction false} DistinctRowsAreKept(rows: seq<Row>)
    requires Distinct(Ids(rows))
    ensures FirstRows(rows) == rows
  {
    if rows == [] {
      NoRows();
    } else {
      hide FirstRows;
      var front, last := rows[..|rows| - 1], rows[|rows| - 1];
      assert rows == front + [last] && Ids(rows) == Ids(front) + [last.id];
      assert forall i :: 0 <= i < |front| ==> Ids(front)[i] == Ids(rows)[i];
      DistinctRowsAreKept(front);
      FirstRowsExtended(front, last);
    }
  }

  function EncodeRow(row: Row): Json {
    var fields := map["id" := Str(row.id), "label" := Str(row.caption), "timestamp_unix" := Integer(row.timestamp)];
    Obj(if row.turnId.Some? then fields["turn_id" := Str(row.turnId.value)] else fields)
  }

  function EncodeRows(rows: seq<Row>): (items: seq<Json>)
    ensures |items| == |rows| && forall i :: 0 <= i < |rows| ==> items[i] == EncodeRow(rows[i])
  {
    seq(|rows|, i requires 0 <= i < |rows| => EncodeRow(rows[i]))
  }

  predicate IsRow(row: Row) {
    && IsShortText(row.id, MAX_TEXT) && |row.caption| <= MAX_LABEL && row.timestamp <= MAX_SAFE_INTEGER
    && (row.turnId.Some? ==> IsShortText(row.turnId.value, MAX_TEXT))
  }

  /** The rows the parser can return are those within the limits, and each of them reads back the same. */
  lemma RowRoundTrip(row: Row, value: Json)
    ensures IsRow(row) ==> ReadRow(EncodeRow(row)) == Some(row)
    ensures ReadRow(value).Some? ==> IsRow(ReadRow(value).value)
  {
  }

  /** Every field of the row is the item's own; only the caption is cut, to the longest prefix within the limit. */
  ghost predicate IsTheItems(row: Row, item: Json) {
    && item.Obj?
    && Get(item.fields, "id") == Some(Str(row.id)) && Count(Get(item.fields, "timestamp_unix")) == Some(row.timestamp)
    && Get(item.fields, "turn_id") == FieldOfText(row.turnId)
    && Text(Get(item.fields, "label")).Some?
    && var written := Text(Get(item.fields, "label")).value;
    row.caption <= written && (row.caption == written || |row.caption| == MAX_LABEL)
  }

  lemma ReadRowIsTheItems(item: Json)
    requires ReadRow(item).Some?
    ensures IsTheItems(ReadRow(item).value, item)
  {
  }

  /** The rows stand for distinct items in input order, each the first item with its id. */
  lemma RowsStandForFirstItems(items: seq<Json>) returns (ps: seq<nat>)
    requires Readable(items)
    ensures var out := FirstRows(ReadRows(items));
            && |ps| == |out|
            && (forall a, b :: 0 <= a < b < |ps| ==> ps[a] < ps[b])
            && (forall a :: 0 <= a < |ps| ==>
                  && ps[a] < |items| && IsTheItems(out[a], items[ps[a]])
                  && forall j :: 0 <= j < ps[a] ==> Get(items[j].fields, "id") != Some(Str(out[a].id)))
  {
    var rows := ReadRows(items);
    ps := FirstPositions(rows, |rows|);
    var out := FirstRows(rows);
    hide ReadRow, IsTheItems;
    forall i | 0 <= i < |items|
      ensures IsTheItems(rows[i], items[i]) && items[i].Obj? && Get(items[i].fields, "id") == Some(Str(rows[i].id))
    {
      ReadRowIsTheItems(items[i]);
      ItemNamesItsRow(rows[i], items[i]);
    }
    forall a, j | 0 <= a < |ps| && 0 <= j < ps[a]
      ensures Get(items[j].fields, "id") != Some(Str(out[a].id))
    {
      assert IsFirst(rows, ps[a]);
    }
  }

  lemma ItemNamesItsRow(row: Row, item: Json)
    requires IsTheItems(row, item)
    ensures item.Obj? && Get(item.fields, "id") == Some(Str(row.id))
  {
  }

  /** Running the parser again on its own output, written back as rows, changes nothing. */
  lemma ParsingAgainChangesNothing(items: seq<Json>)
    requires Readable(items)
    ensures var out := FirstRows(ReadRows(items));
            Readable(EncodeRows(out)) && FirstRows(ReadRows(EncodeRows(out))) == out
  {
    var rows := ReadRows(items);
    var out, ps := FirstRows(rows), FirstPositions(rows, |rows|);
    forall a | 0 <= a < |out|
      ensures ReadRow(EncodeRow(out[a])) == Some(out[a])
    {
      RowRoundTrip(out[a], items[ps[a]]);
    }
    PositionsAreFew(rows, |rows|);
    assert ReadRows(EncodeRows(out)) == out;
    EachIdOnce(rows);
    DistinctRowsAreKept(out);
  }

  lemma {:induction false} PositionsAreFew(rows: seq<Row>, n: nat)
    requires n <= |rows|
    ensures |FirstPositions(rows, n)| <= n
  {
    if n > 0 {
      PositionsAreFew(rows, n - 1);
    }
  }

  predicate SaysRow(f: map<string, Json>, row: Row) {
    && SaysShortText(Get(f, "id"), 2048, row.id)
    && SaysCut(Get(f, "label"), row.caption)
    && SaysCount(Get(f, "timestamp_unix"), row.timestamp)
    && if row.turnId.Some? then SaysShortText(Get(f, "turn_id"), 2048, row.turnId.value) else "turn_id" !in f
  }

  /** A row is read if and only if the item is one; a long label is cut, not refused. */
  lemma RowReadExactly(value: Json, row: Row)
    ensures ReadRow(value) == Some(row) <==> value.Obj? && SaysRow(value.fields, row)
  {
  }

  ghost predicate IsRowItem(item: Json) { exists row :: item.Obj? && SaysRow(item.fields, row) }

  lemma ItemReadExactly(item: Json)
    ensures ReadRow(item).Some? <==> IsRowItem(item)
  {
    hide ReadRow, SaysRow;
    if ReadRow(item).Some? {
      RowReadExactly(item, ReadRow(item).value);
    }
    if IsRowItem(item) {
      var row :| item.Obj? && SaysRow(item.fields, row);
      RowReadExactly(item, row);
    }
  }

  /** A list is accepted if and only if it has at most 10000 items and each of them is a row. */
  lemma ListReadExactly(items: seq<Json>)
    ensures Readable(items) <==> |items| <= 10000 && forall i :: 0 <= i < |items| ==> IsRowItem(items[i])
  {
    hide ReadRow, IsRowItem;
    forall i | 0 <= i < |items|
      ensures ReadRow(items[i]).Some? <==> IsRowItem(items[i])
    {
      ItemReadExactly(items[i]);
    }
  }
}
