/** The human-error record exporter (src/human_error/3_refine_data.py): each record of the
    extracted knowledge graph becomes one CSV row of eleven fields under a fixed header; the
    list attributes are joined with ", " and the metadata fields copied as they are. */
module RefineData {
  import opened Text

  /** A JSON value of the metadata: a string or an object. */
  datatype Value = Str(s: string) | Obj(fields: map<string, Value>)

  /** One record of the input: its file name, its list attributes and its metadata. */
  datatype Record = Record(filename: string, attributes: map<string, seq<string>>, metadata: map<string, Value>)

  const Header: seq<string> := ["Filename", "Task", "Event", "Cause", "Influence", "Corrective Actions",
                                "Facility", "Unit", "Event Date", "Title", "Clause"]

  /** The attribute keys, in column order. */
  const AttributeKeys: seq<string> := ["Task", "Event", "Cause", "Influence", "Corrective Actions"]

  /** The metadata paths, in column order. */
  const MetadataPaths: seq<seq<string>> := [["facility", "name"], ["facility", "unit"], ["event_date"], ["title"], ["clause"]]

  /** `", ".join(attributes.get(key, []))`. */
  function Joined(attributes: map<string, seq<string>>, key: string): string
  {
    Join(", ", if key in attributes then attributes[key] else [])
  }

  /** `metadata[k1][k2]...`: `None` where a key is missing (`KeyError`) or the value is not
      an object or, at the end, not a string. */
  function Lookup(v: Value, path: seq<string>): Option<string>
    decreases |path|
  {
    if path == [] then (if v.Str? then Some(v.s) else None)
    else if v.Obj? && path[0] in v.fields then Lookup(v.fields[path[0]], path[1..])
    else None
  }

  /** The row of one record, or `None` when a metadata field is missing: eleven fields
      aligned with the header, the file name, the five joined attributes and the five
      metadata strings. */
  function RowOf(r: Record): (row: Option<seq<string>>)
    ensures row.None? <==> exists k | 0 <= k < 5 :: Lookup(Obj(r.metadata), MetadataPaths[k]).None?
    ensures row.Some? ==>
      |row.value| == |Header| && row.value[0] == r.filename
      && (forall k | 0 <= k < 5 :: row.value[1 + k] == Joined(r.attributes, AttributeKeys[k]))
      && (forall k | 0 <= k < 5 :: Some(row.value[6 + k]) == Lookup(Obj(r.metadata), MetadataPaths[k]))
  {
    var meta := Obj(r.metadata);
    if forall k | 0 <= k < 5 :: Lookup(meta, MetadataPaths[k]).Some? then
      Some([r.filename] + seq(5, k requires 0 <= k < 5 => Joined(r.attributes, AttributeKeys[k]))
           + seq(5, k requires 0 <= k < 5 => Lookup(meta, MetadataPaths[k]).value))
    else None
  }

  /** The rows of the records `data`, `None` for a record that raises. */
  function Rows(data: seq<Record>): (rows: seq<Option<seq<string>>>)
    ensures |rows| == |data| && forall i | 0 <= i < |data| :: rows[i] == RowOf(data[i])
  {
    seq(|data|, i requires 0 <= i < |data| => RowOf(data[i]))
  }

  /** The lines the writer has written after the rows `rows`, and whether a record raised;
      once one raises, nothing more is written. */
  function Written(rows: seq<Option<seq<string>>>): (seq<seq<string>>, bool)
    decreases |rows|
  {
    if rows == [] then ([Header], false)
    else
      var (lines, failed) := Written(rows[..|rows| - 1]);
      if failed then (lines, true)
      else match rows[|rows| - 1]
        case None => (lines, true)
        case Some(row) => (lines + [row], false)
  }

  /** What the script writes for the records `data`, and whether it stopped at a record
      that raised. */
  function Export(data: seq<Record>): (seq<seq<string>>, bool)
  {
    Written(Rows(data))
  }

  /** The loop of the script over the records `data`: the lines of the CSV file, and whether
      it stopped at a record that raised `KeyError`. */
  method WriteRows(data: seq<Record>) returns (lines: seq<seq<string>>, failed: bool)
    ensures (lines, failed) == Export(data)
  {
    ghost var rows := Rows(data);
    lines := [Header];
    assert rows[..0] == [];
    for i := 0 to |data|
      invariant Written(rows[..i]) == (lines, false)
    {
      assert rows[..i + 1][..i] == rows[..i];
      var row := RowOf(data[i]);
      assert row == rows[i];
      if row.None? {
        WrittenStops(rows, i + 1);
        return lines, true;
      }
      lines := lines + [row.value];
    }
    assert rows[..|data|] == rows;
    failed := false;
  }

  /** Once a record raises, the run has failed whatever follows. */
  lemma {:induction false} WrittenStops(rows: seq<Option<seq<string>>>, i: nat)
    requires i <= |rows| && Written(rows[..i]).1
    ensures Written(rows).1 && Written(rows).0 == Written(rows[..i]).0
    decreases |rows|
  {
    if i < |rows| {
      var init := rows[..|rows| - 1];
      assert init[..i] == rows[..i];
      WrittenStops(init, i);
    } else {
      assert rows[..i] == rows;
    }
  }

  /** The file starts with the header and then holds the rows in order; a run that does not
      fail writes every row. */
  lemma {:induction false} WrittenRows(rows: seq<Option<seq<string>>>)
    ensures var (lines, failed) := Written(rows);
      |lines| >= 1 && lines[0] == Header && |lines| <= |rows| + 1
      && (!failed ==> |lines| == |rows| + 1)
      && forall i | 0 <= i < |lines| - 1 :: rows[i] == Some(lines[i + 1])
    decreases |rows|
  {
    if rows != [] {
      var n := |rows| - 1;
      var init := rows[..n];
      WrittenRows(init);
      var (l0, f0) := Written(init);
      var lines := Written(rows).0;
      if !f0 && rows[n].Some? {
        assert lines == l0 + [rows[n].value];
        forall i | 0 <= i < |lines| - 1 ensures rows[i] == Some(lines[i + 1]) {
          if i < n {
            assert init[i] == rows[i];
          }
        }
      } else {
        assert lines == l0;
        forall i | 0 <= i < |lines| - 1 ensures rows[i] == Some(lines[i + 1]) {
          assert init[i] == rows[i];
        }
      }
    }
  }

  /** The run succeeds exactly when every row is present; when one is missing, the rows
      before it are all that follows the header. */
  lemma {:induction false} WrittenOutcome(rows: seq<Option<seq<string>>>)
    ensures !Written(rows).1 <==> forall i | 0 <= i < |rows| :: rows[i].Some?
    ensures Written(rows).1 ==> 1 <= |Written(rows).0| <= |rows| && rows[|Written(rows).0| - 1].None?
    decreases |rows|
  {
    if rows != [] {
      var n := |rows| - 1;
      var init := rows[..n];
      WrittenOutcome(init);
      WrittenRows(init);
      assert forall i | 0 <= i < n :: init[i] == rows[i];
    }
  }

  /** The file starts with the header and then holds one row per record, in order, each
      aligned with the header; the run succeeds exactly when every record has all its
      metadata, and when a record raises, the rows of the records before it are all that
      follows the header. */
  lemma ExportSpec(data: seq<Record>)
    ensures var (lines, failed) := Export(data);
      |lines| >= 1 && lines[0] == Header
      && (!failed <==> forall i | 0 <= i < |data| :: RowOf(data[i]).Some?)
      && (!failed ==> |lines| == |data| + 1)
      && (failed ==> |lines| <= |data| && RowOf(data[|lines| - 1]).None?)
      && (forall i | 0 <= i < |lines| - 1 :: RowOf(data[i]) == Some(lines[i + 1]))
  {
    WrittenRows(Rows(data));
    WrittenOutcome(Rows(data));
  }
}
