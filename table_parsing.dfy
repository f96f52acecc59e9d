/** The record extractor of internal/parser/table_parser.go. A table is its
    rows, a row its cells, a cell its paragraphs, and a paragraph its text. */
module TableParsing {
  import opened Text
  import opened Entity
  import opened NameParsing

  type Cell = seq<string>
  type Row = seq<Cell>
  type Table = seq<Row>

  /** The items of a document body; only tables matter here. */
  datatype BodyItem = TableItem(table: Table) | ParagraphItem(text: string) | OtherItem

  /** The comment paragraph that means "nothing found" and is never kept. */
  const Sentinel: string := "ОПДК не виявлено"

  // ---- specification -------------------------------------------------------

  /** What the source indexes without checking: cell 5 paragraph 0 of every
      row after the header, and, on a row whose end time is read, cell 6
      paragraph 0 and cell 8. */
  predicate RowShaped(row: Row)
  {
    && |row| > 5 && |row[5]| > 0
    && (TwoDigitPrefix(row[5][0]).Some? ==> |row| > 8 && |row[6]| > 0)
  }

  predicate TableShaped(table: Table)
  {
    |table| >= 1 && forall i :: 1 <= i < |table| ==> RowShaped(table[i])
  }

  /** A comment paragraph is kept, with its whitespace collapsed, unless that
      leaves it empty or equal to the sentinel. */
  predicate KeptLine(line: string)
  {
    line != "" && line != Sentinel
  }

  /** The kept comment lines of a cell, in paragraph order. */
  function CommentLines(paragraphs: seq<string>): seq<string>
  {
    if paragraphs == [] then []
    else
      var line := NormalizeSpace(paragraphs[|paragraphs| - 1]);
      CommentLines(paragraphs[..|paragraphs| - 1]) + (if KeptLine(line) then [line] else [])
  }

  /** The record a row yields, or None when its end time does not start with
      two decimal digits. */
  function RowRecord(row: Row): Option<Record>
    requires RowShaped(row)
  {
    match TwoDigitPrefix(row[5][0])
    case None => None
    case Some(end) =>
      var hint := if |row[6]| > 1 then row[6][1] else "";
      Some(Record(ID(ParseNameFrom(row[6][0], 0), hint), end, Join(CommentLines(row[8]), "\n")))
  }

  /** The records of a run of rows, in row order. */
  function ParseRows(rows: seq<Row>): seq<Record>
    requires forall i :: 0 <= i < |rows| ==> RowShaped(rows[i])
  {
    if rows == [] then []
    else
      var last := rows[|rows| - 1];
      ParseRows(rows[..|rows| - 1]) + (match RowRecord(last) case Some(r) => [r] case None => [])
  }

  // ---- properties ----------------------------------------------------------

  /** Kept lines of two runs of paragraphs are the kept lines of each, in order. */
  lemma {:induction false} CommentLinesAppend(ps: seq<string>, qs: seq<string>)
    ensures CommentLines(ps + qs) == CommentLines(ps) + CommentLines(qs)
    decreases |qs|
  {
    if qs != [] {
      var init := qs[..|qs| - 1];
      assert (ps + qs)[..|ps + qs| - 1] == ps + init;
      assert (ps + qs)[|ps + qs| - 1] == qs[|qs| - 1];
      CommentLinesAppend(ps, init);
    } else {
      assert ps + qs == ps;
    }
  }

  /** Every kept line is the collapsed form of one of the paragraphs, is not
      empty, is not the sentinel and holds no line break. */
  lemma {:induction false} CommentLinesKept(paragraphs: seq<string>)
    ensures forall line :: line in CommentLines(paragraphs) ==>
      && KeptLine(line)
      && '\n' !in line
      && exists p :: p in paragraphs && line == NormalizeSpace(p)
  {
    if paragraphs != [] {
      var init := paragraphs[..|paragraphs| - 1];
      var p := paragraphs[|paragraphs| - 1];
      CommentLinesKept(init);
      NormalizeSpaceShape(p);
      assert IsSpace('\n');
      forall line | line in CommentLines(paragraphs)
        ensures exists q :: q in paragraphs && line == NormalizeSpace(q)
      {
        if line in CommentLines(init) {
          var q :| q in init && line == NormalizeSpace(q);
          assert q in paragraphs;
        } else {
          assert line == NormalizeSpace(p);
        }
      }
    }
  }

  /** A paragraph whose collapsed form is kept does appear among the lines. */
  lemma KeptParagraphAppears(ps: seq<string>, p: string, qs: seq<string>)
    requires KeptLine(NormalizeSpace(p))
    ensures NormalizeSpace(p) in CommentLines(ps + [p] + qs)
  {
    CommentLinesAppend(ps + [p], qs);
    CommentLinesAppend(ps, [p]);
    assert CommentLines([p]) == [NormalizeSpace(p)] by {
      assert [p][..0] == [];
    }
  }

  /** Splitting a record's comment at line breaks gives back its kept lines;
      with no kept line the comment is empty. */
  lemma CommentSplitsIntoLines(paragraphs: seq<string>)
    ensures CommentLines(paragraphs) == [] ==> Join(CommentLines(paragraphs), "\n") == ""
    ensures CommentLines(paragraphs) != [] ==> Split(Join(CommentLines(paragraphs), "\n"), '\n') == CommentLines(paragraphs)
  {
    var lines := CommentLines(paragraphs);
    if lines != [] {
      CommentLinesKept(paragraphs);
      forall i | 0 <= i < |lines| ensures '\n' !in lines[i] {
        assert lines[i] in lines;
      }
      SplitJoin(lines, '\n');
    }
  }

  /** A row yields a record exactly when its end time starts with two ASCII
      digits; the record takes the name from cell 6 paragraph 0, the hint
      from cell 6 paragraph 1 (or none), the end hour from the two digits
      and the comment from cell 8. */
  lemma RowRecordFields(row: Row)
    requires RowShaped(row)
    ensures RowRecord(row).Some? <==> |row[5][0]| >= 2 && IsDigit(row[5][0][0]) && IsDigit(row[5][0][1])
    ensures RowRecord(row).Some? ==>
      var r := RowRecord(row).value;
      && r.id.qualifiedName == ParseNameFrom(row[6][0], 0)
      && (|row[6]| == 1 ==> r.id.hint == "")
      && (|row[6]| > 1 ==> r.id.hint == row[6][1])
      && r.endHour < 100 && r.endHour == DecimalValue(row[5][0][..2])
      && r.comment == Join(CommentLines(row[8]), "\n")
  {
  }

  /** Rows yield records independently and in order. */
  lemma {:induction false} ParseRowsAppend(rs: seq<Row>, ts: seq<Row>)
    requires forall i :: 0 <= i < |rs| ==> RowShaped(rs[i])
    requires forall i :: 0 <= i < |ts| ==> RowShaped(ts[i])
    ensures forall i :: 0 <= i < |rs + ts| ==> RowShaped((rs + ts)[i])
    ensures ParseRows(rs + ts) == ParseRows(rs) + ParseRows(ts)
    decreases |ts|
  {
    assert forall i :: 0 <= i < |rs + ts| ==> (rs + ts)[i] == if i < |rs| then rs[i] else ts[i - |rs|];
    if ts != [] {
      var init := ts[..|ts| - 1];
      var last := ts[|ts| - 1];
      assert forall i :: 0 <= i < |init| ==> init[i] == ts[i];
      assert (rs + ts)[..|rs + ts| - 1] == rs + init;
      assert (rs + ts)[|rs + ts| - 1] == last;
      ParseRowsAppend(rs, init);
      var tail := match RowRecord(last) case Some(r) => [r] case None => [];
      assert ParseRows(rs + ts) == ParseRows(rs + init) + tail;
      assert ParseRows(ts) == ParseRows(init) + tail;
    } else {
      assert rs + ts == rs;
    }
  }

  /** At most one record per row, every one with an end hour below 100. */
  lemma {:induction false} ParseRowsBounds(rows: seq<Row>)
    requires forall i :: 0 <= i < |rows| ==> RowShaped(rows[i])
    ensures |ParseRows(rows)| <= |rows|
    ensures forall r :: r in ParseRows(rows) ==> r.endHour < 100
  {
    if rows != [] {
      ParseRowsBounds(rows[..|rows| - 1]);
    }
  }

  /** Every record comes from some row of the run. */
  lemma {:induction false} ParseRowsFromRows(rows: seq<Row>)
    requires forall i :: 0 <= i < |rows| ==> RowShaped(rows[i])
    ensures forall r :: r in ParseRows(rows) ==> exists i :: 0 <= i < |rows| && RowRecord(rows[i]) == Some(r)
  {
    if rows != [] {
      var init := rows[..|rows| - 1];
      ParseRowsFromRows(init);
      forall r | r in ParseRows(rows) ensures exists i :: 0 <= i < |rows| && RowRecord(rows[i]) == Some(r) {
        if r in ParseRows(init) {
          var i :| 0 <= i < |init| && RowRecord(init[i]) == Some(r);
          assert rows[i] == init[i];
        } else {
          assert RowRecord(rows[|rows| - 1]) == Some(r);
        }
      }
    }
  }

  /** The records of a table: those of every row but the header. */
  function TableRecords(table: Table): (out: seq<Record>)
    requires TableShaped(table)
    ensures |out| <= |table| - 1
    ensures forall r :: r in out ==> r.endHour < 100
  {
    ParseRowsBounds(table[1..]);
    ParseRows(table[1..])
  }

  /** The header row never yields a record, whatever it holds. */
  lemma HeaderIgnored(t1: Table, t2: Table)
    requires TableShaped(t1) && TableShaped(t2) && t1[1..] == t2[1..]
    ensures TableRecords(t1) == TableRecords(t2)
  {
  }

  // ---- the extractor -------------------------------------------------------

  /** The kept comment lines of cell 8, collected as the source does. */
  method CollectComments(paragraphs: seq<string>) returns (kept: seq<string>)
    ensures kept == CommentLines(paragraphs)
  {
    kept := [];
    for k := 0 to |paragraphs|
      invariant kept == CommentLines(paragraphs[..k])
    {
      var p := NormalizeSpace(paragraphs[k]);
      assert paragraphs[..k + 1][..k] == paragraphs[..k];
      if p == Sentinel {
        continue;
      }
      if |p| > 0 {
        kept := kept + [p];
      }
    }
    assert paragraphs[..|paragraphs|] == paragraphs;
  }

  /** One record per row after the header whose end time starts with two
      digits, in row order. */
  method ParseTable(table: Table) returns (out: seq<Record>)
    requires TableShaped(table)
    ensures out == TableRecords(table)
  {
    var rows := table[1..];
    out := [];
    for k := 0 to |rows|
      invariant out == ParseRows(rows[..k])
    {
      var row := rows[k];
      assert rows[..k + 1][..k] == rows[..k];
      var endTime := row[5][0];
      if |endTime| < 2 {
        continue;
      }
      var end := TwoDigitPrefix(endTime);
      if end.None? {
        continue;
      }
      var item := row[6][0];
      var hint := "";
      if |row[6]| > 1 {
        hint := row[6][1];
      }
      var p := new NameParser(item);
      var q := p.ParseName();
      var paragraphs := CollectComments(row[8]);
      var record := Record(ID(q, hint), end.value, Join(paragraphs, "\n"));
      out := out + [record];
    }
    assert rows[..|rows|] == rows;
  }

  /** The first table of the body, or None when the body holds no table. */
  method FindFirstTable(items: seq<BodyItem>) returns (t: Option<Table>)
    ensures t.None? <==> forall i :: 0 <= i < |items| ==> !items[i].TableItem?
    ensures t.Some? ==> exists i ::
              && 0 <= i < |items| && items[i] == TableItem(t.value)
              && forall j :: 0 <= j < i ==> !items[j].TableItem?
  {
    for i := 0 to |items|
      invariant forall j :: 0 <= j < i ==> !items[j].TableItem?
    {
      match items[i]
      case TableItem(table) =>
        return Some(table);
      case _ =>
    }
    return None;
  }
}
