/** save_category_to_csv_append of annotator.py: the CSV output file as a
    sequence of rows that is only ever appended to. */
module CsvSink {

  datatype Row = Header | Data(pdfName: string, category: string)

  /** One (file name, category) pair of the run, in processing order. */
  datatype Entry = Entry(name: string, category: string)

  /** The rows one save appends: the header when it is asked for or the file
      does not exist yet (`present` is os.path.exists), then the data row. */
  function SavedRows(e: Entry, writeHeader: bool, present: bool): (rows: seq<Row>)
    ensures |rows| == if writeHeader || !present then 2 else 1
    ensures |rows| == 2 ==> rows[0] == Header
    ensures rows[|rows| - 1] == Data(e.name, e.category)
  {
    (if writeHeader || !present then [Header] else []) + [Data(e.name, e.category)]
  }

  /** The rows a run appends for its entries, given whether the header was
      already written in this run and whether the file exists: after the
      first save both hold. */
  function RunRows(entries: seq<Entry>, headerWritten: bool, present: bool): seq<Row>
  {
    if entries == [] then []
    else SavedRows(entries[0], !headerWritten, present) + RunRows(entries[1..], true, true)
  }

  lemma RunRowsCons(e: Entry, es: seq<Entry>, headerWritten: bool, present: bool)
    ensures RunRows([e] + es, headerWritten, present) == SavedRows(e, !headerWritten, present) + RunRows(es, true, true)
  {
    assert ([e] + es)[1..] == es;
  }

  function CountHeaders(rows: seq<Row>): nat {
    if rows == [] then 0 else (if rows[0] == Header then 1 else 0) + CountHeaders(rows[1..])
  }

  /** The data rows of `rows`, as entries. */
  function DataRows(rows: seq<Row>): seq<Entry> {
    if rows == [] then []
    else (if rows[0].Data? then [Entry(rows[0].pdfName, rows[0].category)] else []) + DataRows(rows[1..])
  }

  lemma {:induction false} CountHeadersAppend(a: seq<Row>, b: seq<Row>)
    ensures CountHeaders(a + b) == CountHeaders(a) + CountHeaders(b)
  {
    if a == [] {
      assert a + b == b;
    } else {
      var head := if a[0] == Header then 1 else 0;
      assert (a + b)[0] == a[0] && (a + b)[1..] == a[1..] + b;
      assert CountHeaders(a + b) == head + CountHeaders(a[1..] + b);
      CountHeadersAppend(a[1..], b);
    }
  }

  lemma {:induction false} DataRowsAppend(a: seq<Row>, b: seq<Row>)
    ensures DataRows(a + b) == DataRows(a) + DataRows(b)
  {
    if a == [] {
      assert a + b == b;
    } else {
      var head := if a[0].Data? then [Entry(a[0].pdfName, a[0].category)] else [];
      assert (a + b)[0] == a[0] && (a + b)[1..] == a[1..] + b;
      assert DataRows(a + b) == head + DataRows(a[1..] + b);
      DataRowsAppend(a[1..], b);
      assert head + (DataRows(a[1..]) + DataRows(b)) == head + DataRows(a[1..]) + DataRows(b);
    }
  }

  /** Once the header has been written and the file exists, no save writes
      another header. */
  lemma {:induction false} NoHeaderAfterFirst(entries: seq<Entry>)
    ensures CountHeaders(RunRows(entries, true, true)) == 0
  {
    if entries != [] {
      NoHeaderAfterFirst(entries[1..]);
      CountHeadersAppend(SavedRows(entries[0], false, true), RunRows(entries[1..], true, true));
    }
  }

  /** A run writes the header exactly once, as its first row, when it saves
      at least one entry and the header was not yet written in this run or
      the file did not exist; otherwise never. In particular a fresh run
      writes one header even into a file that already exists. */
  lemma HeaderOncePerRun(entries: seq<Entry>, headerWritten: bool, present: bool)
    ensures var rows := RunRows(entries, headerWritten, present);
      && CountHeaders(rows) == (if entries != [] && (!headerWritten || !present) then 1 else 0)
      && (CountHeaders(rows) == 1 ==> rows[0] == Header)
  {
    if entries != [] {
      NoHeaderAfterFirst(entries[1..]);
      CountHeadersAppend(SavedRows(entries[0], !headerWritten, present), RunRows(entries[1..], true, true));
    }
  }

  /** A run writes exactly one data row per entry, in order. */
  lemma {:induction false} OneDataRowPerEntry(entries: seq<Entry>, headerWritten: bool, present: bool)
    ensures DataRows(RunRows(entries, headerWritten, present)) == entries
  {
    if entries != [] {
      OneDataRowPerEntry(entries[1..], true, true);
      var saved := SavedRows(entries[0], !headerWritten, present);
      DataRowsAppend(saved, RunRows(entries[1..], true, true));
      assert DataRows(saved) == [entries[0]];
    }
  }

  /** The output file: whether it exists and its rows. */
  class CsvFile {
    var present: bool
    var rows: seq<Row>

    constructor (present: bool, rows: seq<Row>)
      requires !present ==> rows == []
      ensures this.present == present && this.rows == rows
    {
      this.present := present;
      this.rows := rows;
    }

    /** save_category_to_csv_append(name, category, write_header): opens the
        file for appending, which creates it. */
    method Save(e: Entry, writeHeader: bool)
      modifies this
      ensures present
      ensures rows == old(rows) + SavedRows(e, writeHeader, old(present))
    {
      var filePresent := present;
      if writeHeader || !filePresent {
        rows := rows + [Header];
      }
      rows := rows + [Data(e.name, e.category)];
      present := true;
    }
  }
}
