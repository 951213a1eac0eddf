/** The dated CSV output (`file_prepare`, main.c:157-206, and the row append at
    main.c:327-370) over an abstract file system: a map from path to contents, and
    the set of paths the process may not open. */
module FileStore {
  import opened Wrappers
  import opened Decimal
  import opened Csv
  import opened Timestamp

  datatype Store = Store(files: map<string, string>, denied: set<string>)

  /** `does_file_exist`: opening the path for reading succeeds. A denied path cannot be
      opened in any mode. */
  predicate Exists(st: Store, path: string) {
    path in st.files && path !in st.denied
  }

  /** `"%i Hz"`, the column name of bin `i`. */
  function HzLabel(i: int): string {
    FormatInt(i, 1) + " Hz"
  }

  /** Column names of the bins `1 .. maxfreq-1`. */
  function FreqLabels(maxfreq: int): (labels: seq<string>)
    ensures |labels| == if maxfreq >= 1 then maxfreq - 1 else 0
  {
    var n := if maxfreq >= 1 then maxfreq - 1 else 0;
    seq(n, i requires 0 <= i < n => HzLabel(i + 1))
  }

  /** `"," + x` for every `x`, run together: what a loop of `fprintf(ofp, ",...", x)` writes. */
  function Prefixed(xs: seq<string>): string {
    if |xs| == 0 then "" else "," + xs[0] + Prefixed(xs[1..])
  }

  /** The header line `file_prepare` writes into a new file. */
  function CsvHeader(maxfreq: int): string {
    "timestamp" + Prefixed(FreqLabels(maxfreq)) + "\n"
  }

  /** One data row: the timestamp and then `,value` per bin. */
  function CsvRow(dt: DateTime, cells: seq<string>): string {
    FormatTimestamp(dt) + Prefixed(cells) + "\n"
  }

  lemma {:induction false} PrefixedIsJoin(first: string, xs: seq<string>)
    ensures first + Prefixed(xs) == Join([first] + xs)
    decreases |xs|
  {
    if |xs| == 0 {
      assert first + "" == first;
    } else {
      PrefixedIsJoin(xs[0], xs[1..]);
      assert ([first] + xs)[1..] == [xs[0]] + xs[1..] == xs;
    }
  }

  /** The header is the CSV line `timestamp,1 Hz,...,(maxfreq-1) Hz`: one name column and
      `max(0, maxfreq-1)` frequency columns. */
  lemma HeaderFields(maxfreq: int)
    ensures CsvHeader(maxfreq) == Join(["timestamp"] + FreqLabels(maxfreq)) + "\n"
  {
    PrefixedIsJoin("timestamp", FreqLabels(maxfreq));
  }

  /** A data row is the CSV line of the timestamp followed by the cells. */
  lemma RowFields(dt: DateTime, cells: seq<string>)
    ensures CsvRow(dt, cells) == Join([FormatTimestamp(dt)] + cells) + "\n"
  {
    PrefixedIsJoin(FormatTimestamp(dt), cells);
  }

  /** `file_prepare`: an existing file is opened in append mode and closed untouched; a
      missing one is created with the header line. `None` is its FALSE when the open
      fails. */
  function FilePrepare(st: Store, path: string, maxfreq: int): (r: Option<Store>)
    ensures r.None? <==> path in st.denied
    ensures Exists(st, path) ==> r == Some(st)
    ensures r.Some? ==> r.value.denied == st.denied && path in r.value.files
    ensures r.Some? ==> forall p :: p != path ==> (p in st.files <==> p in r.value.files)
  {
    if path in st.denied then None
    else if Exists(st, path) then Some(st)
    else Some(st.(files := st.files[path := CsvHeader(maxfreq)]))
  }

  /** `fopen(name, "a")` and the writes into it. */
  function AppendText(st: Store, path: string, text: string): (r: Option<Store>)
    ensures r.None? <==> path in st.denied
    ensures r.Some? ==> r.value.denied == st.denied
  {
    if path in st.denied then None
    else Some(st.(files := st.files[path := (if path in st.files then st.files[path] else "") + text]))
  }

  /** One emission into the CSV file at `path` (main.c:332-370): prepare it, reopen it
      for appending, write the row. */
  function WriteRow(st: Store, path: string, maxfreq: int, row: string): Option<Store> {
    var prepared :- FilePrepare(st, path, maxfreq);
    AppendText(prepared, path, row)
  }

  /** Several emissions into the same file; stops at the first failure. */
  function WriteRows(st: Store, path: string, maxfreq: int, rows: seq<string>): Option<Store>
    decreases |rows|
  {
    if |rows| == 0 then Some(st)
    else
      var st1 :- WriteRow(st, path, maxfreq, rows[0]);
      WriteRows(st1, path, maxfreq, rows[1..])
  }

  function Concat(rows: seq<string>): string {
    if |rows| == 0 then "" else rows[0] + Concat(rows[1..])
  }

  /** One emission into an openable file appends the row after the header (when the
      file was new) or after what it held. */
  lemma WriteRowAppends(st: Store, path: string, maxfreq: int, row: string)
    requires path !in st.denied
    ensures var before := if path in st.files then st.files[path] else CsvHeader(maxfreq);
      WriteRow(st, path, maxfreq, row) == Some(st.(files := st.files[path := before + row]))
  {
    var before := if path in st.files then st.files[path] else CsvHeader(maxfreq);
    var prepared := FilePrepare(st, path, maxfreq).value;
    assert prepared.files == st.files[path := before];
    assert prepared.files[path := before + row] == st.files[path := before + row];
    assert prepared.(files := prepared.files[path := before + row]) == st.(files := st.files[path := before + row]);
    assert AppendText(prepared, path, row) == Some(prepared.(files := prepared.files[path := before + row]));
  }

  /** The header is written once, when the file is new: after one or more emissions
      into an openable file its contents are the header (or the contents it already
      had) followed by the rows in order, and no other file changes. A denied path
      fails at the first emission and changes nothing. */
  lemma {:induction false} HeaderOnce(st: Store, path: string, maxfreq: int, rows: seq<string>)
    requires |rows| > 0
    ensures path in st.denied ==> WriteRows(st, path, maxfreq, rows).None?
    ensures path !in st.denied ==>
      var before := if path in st.files then st.files[path] else CsvHeader(maxfreq);
      WriteRows(st, path, maxfreq, rows) == Some(st.(files := st.files[path := before + Concat(rows)]))
    decreases |rows|
  {
    if path !in st.denied {
      var before := if path in st.files then st.files[path] else CsvHeader(maxfreq);
      var st1 := st.(files := st.files[path := before + rows[0]]);
      WriteRowAppends(st, path, maxfreq, rows[0]);
      if |rows| == 1 {
        assert Concat(rows) == rows[0] + Concat([]);
        assert rows[0] + "" == rows[0];
      } else {
        HeaderOnce(st1, path, maxfreq, rows[1..]);
        assert WriteRows(st, path, maxfreq, rows) == WriteRows(st1, path, maxfreq, rows[1..]);
        assert before + rows[0] + Concat(rows[1..]) == before + Concat(rows);
        assert st1.files[path := before + rows[0] + Concat(rows[1..])] == st.files[path := before + Concat(rows)];
      }
    }
  }
}
