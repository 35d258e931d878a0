/** The extractor: which files of the input directory are picked up, in which
    order, and how the table a reader returns is shaped into the one the
    transformer receives. The readers themselves (`pandas.read_csv`,
    `pandas.read_excel`) are inputs: their results are parameters. */
module Extractors {
  import opened Wrappers
  import opened Text
  import opened Frames

  /** `SUPPORTED`: the extensions searched for, in search order. */
  const SUPPORTED: seq<string> := [".csv", ".xls", ".xlsx"]

  /** The column a workbook row's sheet name is written to. */
  const SHEET: string := "__sheet"

  predicate Distinct<T(==)>(s: seq<T>) {
    forall i, j | 0 <= i < j < |s| :: s[i] != s[j]
  }

  // ---------------------------------------------------------------------
  // Discovery

  /** `input_dir.glob('*' + ext)` over the directory listing `names`: the
      names ending in `ext`, in listing order. */
  function Glob(names: seq<string>, ext: string): seq<string> {
    if names == [] then []
    else (if EndsWith(names[0], ext) then [names[0]] else []) + Glob(names[1..], ext)
  }

  lemma {:induction false} GlobMembers(names: seq<string>, ext: string, x: string)
    ensures x in Glob(names, ext) <==> x in names && EndsWith(x, ext)
  {
    if names != [] {
      GlobMembers(names[1..], ext, x);
      assert x in names <==> x == names[0] || x in names[1..];
    }
  }

  lemma {:induction false} GlobDistinct(names: seq<string>, ext: string)
    requires Distinct(names)
    ensures Distinct(Glob(names, ext))
  {
    if names != [] {
      GlobDistinct(names[1..], ext);
      GlobMembers(names[1..], ext, names[0]);
      assert names[0] !in names[1..];
      DistinctConcat(if EndsWith(names[0], ext) then [names[0]] else [], Glob(names[1..], ext));
    }
  }

  lemma DistinctConcat<T>(a: seq<T>, b: seq<T>)
    requires Distinct(a) && Distinct(b) && forall x | x in a :: x !in b
    ensures Distinct(a + b)
  {
    forall i, j | 0 <= i < j < |a + b| ensures (a + b)[i] != (a + b)[j] {
      if i < |a| && j >= |a| {
        assert (a + b)[i] in a && (a + b)[j] == b[j - |a|];
      }
    }
  }

  /** The matches of each extension of `exts`, one extension after the other. */
  function Globs(names: seq<string>, exts: seq<string>): seq<string> {
    if exts == [] then [] else Globs(names, exts[..|exts| - 1]) + Glob(names, exts[|exts| - 1])
  }

  /** `list_files`: the `*.csv` matches, then the `*.xls` ones, then the
      `*.xlsx` ones. */
  method ListFiles(names: seq<string>) returns (files: seq<string>)
    ensures files == Glob(names, ".csv") + Glob(names, ".xls") + Glob(names, ".xlsx")
  {
    files := [];
    for k := 0 to |SUPPORTED|
      invariant files == Globs(names, SUPPORTED[..k])
    {
      assert SUPPORTED[..k + 1][..k] == SUPPORTED[..k];
      files := files + Glob(names, SUPPORTED[k]);
    }
    assert SUPPORTED[..|SUPPORTED|] == SUPPORTED;
    assert SUPPORTED[..2] == [".csv", ".xls"] && SUPPORTED[..2][..1] == [".csv"] && [".csv"][..0] == [];
    assert Globs(names, [".csv"]) == Glob(names, ".csv");
  }

  predicate SupportedName(x: string) {
    EndsWith(x, ".csv") || EndsWith(x, ".xls") || EndsWith(x, ".xlsx")
  }

  /** A name is picked up exactly when it is in the directory and ends in a
      supported extension. */
  lemma ListedIff(names: seq<string>, x: string)
    ensures x in Glob(names, ".csv") + Glob(names, ".xls") + Glob(names, ".xlsx")
            <==> x in names && SupportedName(x)
  {
    GlobMembers(names, ".csv", x);
    GlobMembers(names, ".xls", x);
    GlobMembers(names, ".xlsx", x);
  }

  /** No name ends in two of the extensions. */
  lemma ExtensionsExclusive(x: string)
    ensures !(EndsWith(x, ".csv") && EndsWith(x, ".xls"))
    ensures !(EndsWith(x, ".csv") && EndsWith(x, ".xlsx"))
    ensures !(EndsWith(x, ".xls") && EndsWith(x, ".xlsx"))
  {
    if |x| > 0 {
      assert EndsWith(x, ".csv") ==> x[|x| - 1] == 'v';
      assert EndsWith(x, ".xls") ==> x[|x| - 1] == 's';
      assert EndsWith(x, ".xlsx") ==> x[|x| - 1] == 'x';
    }
  }

  /** So every file of the directory is picked up at most once. */
  lemma ListedDistinct(names: seq<string>)
    requires Distinct(names)
    ensures Distinct(Glob(names, ".csv") + Glob(names, ".xls") + Glob(names, ".xlsx"))
  {
    var a, b, c := Glob(names, ".csv"), Glob(names, ".xls"), Glob(names, ".xlsx");
    GlobDistinct(names, ".csv");
    GlobDistinct(names, ".xls");
    GlobDistinct(names, ".xlsx");
    forall x | x in a ensures x !in b && x !in c {
      GlobMembers(names, ".csv", x);
      GlobMembers(names, ".xls", x);
      GlobMembers(names, ".xlsx", x);
      ExtensionsExclusive(x);
    }
    DistinctConcat(a, b);
    forall x | x in a + b ensures x !in c {
      GlobMembers(names, ".csv", x);
      GlobMembers(names, ".xls", x);
      GlobMembers(names, ".xlsx", x);
      ExtensionsExclusive(x);
    }
    DistinctConcat(a + b, c);
  }

  // ---------------------------------------------------------------------
  // Reader choice

  /** `str.rfind('.')`. */
  function LastDot(s: string): (r: Option<nat>)
    ensures r.Some? ==> r.value < |s| && s[r.value] == '.'
  {
    if s == [] then None
    else if s[|s| - 1] == '.' then Some(|s| - 1)
    else LastDot(s[..|s| - 1])
  }

  /** `Path.suffix`: from the last dot on, provided that dot is neither the
      first nor the last character of the name; otherwise empty. */
  function Suffix(name: string): (r: string)
    ensures r == [] || (r[0] == '.' && EndsWith(name, r) && |r| < |name|)
  {
    var i := LastDot(name);
    if i.Some? && 0 < i.value < |name| - 1 then name[i.value..] else ""
  }

  /** `Path.stem`: the name without its suffix. */
  function Stem(name: string): (r: string)
    ensures r + Suffix(name) == name
  {
    name[..|name| - |Suffix(name)|]
  }

  /** A name with something before a dot-free extension has that extension
      as its suffix and the rest as its stem. */
  lemma StemOf(base: string, ext: string)
    requires base != [] && 2 <= |ext| && ext[0] == '.' && forall i | 1 <= i < |ext| :: ext[i] != '.'
    ensures Suffix(base + ext) == ext && Stem(base + ext) == base
  {
    var name := base + ext;
    assert forall i | |base| <= i < |name| :: name[i] == ext[i - |base|];
    LastDotOfExtension(name, |ext|);
    assert name[|base|..] == ext;
  }

  /** The file is read as delimited text. */
  predicate IsCsv(name: string) {
    ToLower(Suffix(name)) == ".csv"
  }

  /** Of the files `list_files` returns, exactly those ending in `.csv` with
      something before the extension are read as delimited text; a file
      named just `.csv` has no suffix and, like every `.xls` and `.xlsx`
      file, goes to the workbook reader. */
  lemma ReaderOfListed(name: string)
    requires SupportedName(name)
    ensures IsCsv(name) <==> EndsWith(name, ".csv") && |name| > 4
  {
    ExtensionsExclusive(name);
    if EndsWith(name, ".csv") {
      CsvSuffix(name);
    } else if EndsWith(name, ".xls") {
      WorkbookSuffix(name, ".xls");
    } else {
      WorkbookSuffix(name, ".xlsx");
    }
  }

  lemma CsvSuffix(name: string)
    requires EndsWith(name, ".csv")
    ensures IsCsv(name) <==> |name| > 4
  {
    var n := |name|;
    assert name[n - 3..] == "csv" && name[n - 4] == '.';
    LastDotOfExtension(name, 4);
    if n > 4 {
      assert Suffix(name) == ".csv";
      LowerOfLower(".csv");
    }
  }

  /** An extension starting `.x` with no further dot (`.xls`, `.xlsx`) never
      lower-cases to `.csv`. */
  lemma WorkbookSuffix(name: string, ext: string)
    requires 2 <= |ext| && ext[0] == '.' && ext[1] == 'x' && forall i | 1 <= i < |ext| :: ext[i] != '.'
    requires EndsWith(name, ext)
    ensures !IsCsv(name)
  {
    var n := |name|;
    assert forall i | n - |ext| <= i < n :: name[i] == ext[i - (n - |ext|)];
    LastDotOfExtension(name, |ext|);
    if Suffix(name) != [] {
      assert Suffix(name) == ext;
      ToLowerAt(ext, 1);
    }
  }

  /** A name ending in a dot followed by `k - 1` dot-free characters has its
      last dot `k` from the end. */
  lemma {:induction false} LastDotOfExtension(name: string, k: nat)
    requires 0 < k <= |name| && name[|name| - k] == '.'
    requires forall i | |name| - k < i < |name| :: name[i] != '.'
    ensures LastDot(name) == Some(|name| - k)
  {
    if k > 1 {
      var t := name[..|name| - 1];
      LastDotOfExtension(t, k - 1);
    }
  }

  // ---------------------------------------------------------------------
  // Workbooks

  /** One sheet of a workbook, as `read_excel(sheet_name=None)` returns it. */
  datatype Sheet = Sheet(name: string, table: Table)

  /** The first position of a label. */
  function FirstIndex(cols: seq<string>, c: string): (i: nat)
    requires c in cols
    ensures i < |cols| && cols[i] == c && c !in cols[..i]
  {
    if cols[0] == c then 0 else 1 + FirstIndex(cols[1..], c)
  }

  /** One row after `sheet_df['__sheet'] = name`. */
  function TagRow(cols: seq<string>, row: seq<Cell>, name: string): seq<Cell> {
    if SHEET in cols then seq(|row|, j requires 0 <= j < |row| => if j < |cols| && cols[j] == SHEET then Str(name) else row[j])
    else row + [Str(name)]
  }

  /** `sheet_df['__sheet'] = name`: the column is overwritten when the sheet
      has one and appended otherwise. */
  function Tag(t: Table, name: string): Table {
    Table(if SHEET in t.columns then t.columns else t.columns + [SHEET],
          seq(|t.rows|, i requires 0 <= i < |t.rows| => TagRow(t.columns, t.rows[i], name)))
  }

  /** Every tagged row holds the sheet name under `__sheet`, no other cell
      changes, and the sheet keeps its rows and their order. */
  lemma TagShape(t: Table, name: string)
    requires WellFormed(t)
    ensures var u := Tag(t, name);
            && SHEET in u.columns && WellFormed(u) && |u.rows| == |t.rows|
            && forall i | 0 <= i < |u.rows| :: u.rows[i][FirstIndex(u.columns, SHEET)] == Str(name)
    ensures var u := Tag(t, name);
            forall i, j | 0 <= i < |t.rows| && 0 <= j < |t.columns| && t.columns[j] != SHEET :: u.rows[i][j] == t.rows[i][j]
  {
    var u := Tag(t, name);
    if SHEET !in t.columns {
      assert FirstIndex(u.columns, SHEET) == |t.columns| by {
        assert u.columns == t.columns + [SHEET];
        assert u.columns[..|t.columns|] == t.columns;
      }
    }
  }

  /** The frames the loop collects: every sheet tagged with its own name,
      in sheet order. */
  function Tagged(book: seq<Sheet>): (frames: seq<Table>)
    ensures |frames| == |book|
  {
    seq(|book|, k requires 0 <= k < |book| => Tag(book[k].table, book[k].name))
  }

  /** The `for sheet_name, sheet_df in xls.items()` loop. */
  method TagSheets(book: seq<Sheet>) returns (frames: seq<Table>)
    ensures frames == Tagged(book)
  {
    frames := [];
    for k := 0 to |book|
      invariant frames == Tagged(book[..k])
    {
      assert Tagged(book[..k + 1]) == Tagged(book[..k]) + [Tag(book[k].table, book[k].name)];
      frames := frames + [Tag(book[k].table, book[k].name)];
    }
    assert book[..|book|] == book;
  }

  function SheetNames(book: seq<Sheet>): (names: seq<string>)
    ensures |names| == |book| && forall k | 0 <= k < |book| :: names[k] == book[k].name
  {
    seq(|book|, k requires 0 <= k < |book| => book[k].name)
  }

  // ---------------------------------------------------------------------
  // Concatenation

  /** `cols` appended to `acc`, each label not seen before. */
  function AddLabels(acc: seq<string>, cols: seq<string>): seq<string>
    decreases |cols|
  {
    if cols == [] then acc else AddLabels(if cols[0] in acc then acc else acc + [cols[0]], cols[1..])
  }

  /** The columns of `pd.concat(frames)`: every label of every frame, in order
      of first appearance. */
  function Union(frames: seq<Table>): seq<string> {
    if frames == [] then [] else AddLabels(Union(frames[..|frames| - 1]), frames[|frames| - 1].columns)
  }

  lemma {:induction false} AddLabelsMembers(acc: seq<string>, cols: seq<string>, c: string)
    decreases |cols|
    ensures c in AddLabels(acc, cols) <==> c in acc || c in cols
  {
    if cols != [] {
      AddLabelsMembers(if cols[0] in acc then acc else acc + [cols[0]], cols[1..], c);
    }
  }

  lemma {:induction false} UnionMembers(frames: seq<Table>, c: string)
    ensures c in Union(frames) <==> exists k | 0 <= k < |frames| :: c in frames[k].columns
  {
    if frames != [] {
      var init := frames[..|frames| - 1];
      UnionMembers(init, c);
      AddLabelsMembers(Union(init), frames[|frames| - 1].columns, c);
      if exists k | 0 <= k < |frames| :: c in frames[k].columns {
        var k :| 0 <= k < |frames| && c in frames[k].columns;
        if k < |frames| - 1 {
          assert frames[k] == init[k];
        }
      }
    }
  }

  /** The cell a frame contributes under label `c`: its own, or NaN when the
      frame has no such column. */
  function Lookup(t: Table, row: seq<Cell>, c: string): Cell {
    if c in t.columns && FirstIndex(t.columns, c) < |row| then row[FirstIndex(t.columns, c)] else Missing
  }

  function RowsOf(t: Table, cols: seq<string>): (rows: seq<seq<Cell>>)
    ensures |rows| == |t.rows| && forall i | 0 <= i < |rows| :: |rows[i]| == |cols|
  {
    seq(|t.rows|, i requires 0 <= i < |t.rows| => seq(|cols|, j requires 0 <= j < |cols| => Lookup(t, t.rows[i], cols[j])))
  }

  function ConcatRows(frames: seq<Table>, cols: seq<string>): seq<seq<Cell>> {
    if frames == [] then [] else RowsOf(frames[0], cols) + ConcatRows(frames[1..], cols)
  }

  /** `pd.concat(frames, ignore_index=True)`: the rows of every frame in frame
      order, laid out on the union of the columns; no frames at all is an
      error. */
  function Concat(frames: seq<Table>): Result<Table, string> {
    if frames == [] then Err("No objects to concatenate")
    else Ok(Table(Union(frames), ConcatRows(frames, Union(frames))))
  }

  function SumRows(frames: seq<Table>): nat {
    if frames == [] then 0 else |frames[0].rows| + SumRows(frames[1..])
  }

  lemma {:induction false} ConcatRowsShape(frames: seq<Table>, cols: seq<string>)
    ensures |ConcatRows(frames, cols)| == SumRows(frames)
    ensures WellFormed(Table(cols, ConcatRows(frames, cols)))
  {
    if frames != [] {
      ConcatRowsShape(frames[1..], cols);
    }
  }

  /** A frame whose every row holds a present cell under `c` still has one
      in every row of the concatenation. */
  lemma {:induction false} ConcatRowsMarked(frames: seq<Table>, cols: seq<string>, c: string)
    requires c in cols
    requires forall k | 0 <= k < |frames| :: c in frames[k].columns && WellFormed(frames[k])
                && forall i | 0 <= i < |frames[k].rows| :: !IsNA(frames[k].rows[i][FirstIndex(frames[k].columns, c)])
    ensures forall i | 0 <= i < |ConcatRows(frames, cols)| :: !Blank(ConcatRows(frames, cols)[i])
  {
    if frames != [] {
      ConcatRowsMarked(frames[1..], cols, c);
      var head := RowsOf(frames[0], cols);
      var p := FirstIndex(cols, c);
      forall i | 0 <= i < |head| ensures !Blank(head[i]) {
        assert head[i][p] == Lookup(frames[0], frames[0].rows[i], c);
      }
      var all := ConcatRows(frames, cols);
      forall i | 0 <= i < |all| ensures !Blank(all[i]) {
        if i >= |head| {
          assert all[i] == ConcatRows(frames[1..], cols)[i - |head|];
        }
      }
    }
  }

  // ---------------------------------------------------------------------
  // Header strip and blank-row drop

  /** `df.columns = [str(c).strip() for c in df.columns]`. */
  function StripHeaders(cols: seq<string>): (r: seq<string>)
    ensures |r| == |cols| && forall i | 0 <= i < |cols| :: r[i] == Strip(cols[i])
  {
    seq(|cols|, i requires 0 <= i < |cols| => Strip(cols[i]))
  }

  /** Every cell of the row is missing. */
  predicate Blank(row: seq<Cell>) {
    forall j | 0 <= j < |row| :: IsNA(row[j])
  }

  /** `df.dropna(how='all')`: the rows with at least one present cell. */
  function DropBlank(rows: seq<seq<Cell>>): (r: seq<seq<Cell>>)
    ensures |r| <= |rows|
  {
    if rows == [] then [] else (if Blank(rows[0]) then [] else [rows[0]]) + DropBlank(rows[1..])
  }

  /** Exactly the rows with a present cell are kept. */
  lemma {:induction false} DropBlankMembers(rows: seq<seq<Cell>>, x: seq<Cell>)
    ensures x in DropBlank(rows) <==> x in rows && !Blank(x)
  {
    if rows != [] {
      DropBlankMembers(rows[1..], x);
      assert x in rows <==> x == rows[0] || x in rows[1..];
    }
  }

  /** The kept rows keep their order: dropping distributes over `+`. */
  lemma {:induction false} DropBlankConcat(a: seq<seq<Cell>>, b: seq<seq<Cell>>)
    ensures DropBlank(a + b) == DropBlank(a) + DropBlank(b)
  {
    if a != [] {
      assert (a + b)[0] == a[0] && (a + b)[1..] == a[1..] + b;
      DropBlankConcat(a[1..], b);
    } else {
      assert a + b == b;
    }
  }

  /** Nothing is dropped from a table without blank rows. */
  lemma {:induction false} DropBlankNone(rows: seq<seq<Cell>>)
    requires forall i | 0 <= i < |rows| :: !Blank(rows[i])
    ensures DropBlank(rows) == rows
  {
    if rows != [] {
      DropBlankNone(rows[1..]);
    }
  }

  lemma {:induction false} DropBlankWellFormed(cols: seq<string>, rows: seq<seq<Cell>>)
    requires WellFormed(Table(cols, rows))
    ensures WellFormed(Table(cols, DropBlank(rows)))
  {
    if rows != [] {
      DropBlankWellFormed(cols, rows[1..]);
    }
  }

  /** The header strip and the blank-row drop. */
  function Shape(t: Table): Table {
    Table(StripHeaders(t.columns), DropBlank(t.rows))
  }

  // ---------------------------------------------------------------------
  // extract

  /** `meta`: the file name, and for a workbook the sheet names. */
  datatype Meta = Meta(source: string, sheets: Option<seq<string>>)

  datatype Extraction = Extraction(table: Table, meta: Meta)

  /** What `extract` returns, given the results `read_csv` and `read_excel`
      would give for the file; a reader's failure propagates. */
  function Extracted(name: string, csv: Result<Table, string>, book: Result<seq<Sheet>, string>): Result<Extraction, string> {
    if IsCsv(name) then
      if csv.Err? then Err(csv.error) else Ok(Extraction(Shape(csv.value), Meta(name, None)))
    else if book.Err? then Err(book.error)
    else match Concat(Tagged(book.value))
      case Err(e) => Err(e)
      case Ok(t) => Ok(Extraction(Shape(t), Meta(name, Some(SheetNames(book.value)))))
  }

  /** `extract`. */
  method Extract(name: string, csv: Result<Table, string>, book: Result<seq<Sheet>, string>) returns (r: Result<Extraction, string>)
    ensures r == Extracted(name, csv, book)
  {
    var meta := Meta(name, None);
    var df: Table;
    if ToLower(Suffix(name)) == ".csv" {
      if csv.Err? {
        return Err(csv.error);
      }
      df := csv.value;
    } else {
      if book.Err? {
        return Err(book.error);
      }
      var frames := TagSheets(book.value);
      var all := Concat(frames);
      if all.Err? {
        return Err(all.error);
      }
      df := all.value;
      meta := Meta(name, Some(SheetNames(book.value)));
    }
    var columns := StripHeaders(df.columns);
    var rows := DropBlank(df.rows);
    return Ok(Extraction(Table(columns, rows), meta));
  }

  /** `meta['source']` is always the file name; `meta['sheets']` is present
      exactly for a workbook and lists its sheets in order; every header is
      stripped. */
  lemma ExtractMeta(name: string, csv: Result<Table, string>, book: Result<seq<Sheet>, string>)
    requires Extracted(name, csv, book).Ok?
    ensures var x := Extracted(name, csv, book).value;
            && x.meta.source == name
            && (x.meta.sheets.Some? <==> !IsCsv(name))
            && (x.meta.sheets.Some? ==> x.meta.sheets.value == SheetNames(book.value))
    ensures var x := Extracted(name, csv, book).value;
            forall i | 0 <= i < |x.table.columns| :: Stripped(x.table.columns[i])
  {
    var x := Extracted(name, csv, book).value;
    forall i | 0 <= i < |x.table.columns| ensures Stripped(x.table.columns[i]) {
      var t := if IsCsv(name) then csv.value else Concat(Tagged(book.value)).value;
      StripShape(t.columns[i]);
    }
  }

  /** Only a reader's own error fails `extract`, or a workbook without
      sheets: no extension is rejected. */
  lemma ExtractFails(name: string, csv: Result<Table, string>, book: Result<seq<Sheet>, string>)
    ensures IsCsv(name) ==> (Extracted(name, csv, book).Ok? <==> csv.Ok?)
    ensures !IsCsv(name) ==> (Extracted(name, csv, book).Ok? <==> book.Ok? && book.value != [])
  {
  }

  /** A delimited file keeps its rows, in order, except the blank ones. */
  lemma ExtractCsv(name: string, t: Table, book: Result<seq<Sheet>, string>, x: seq<Cell>)
    requires IsCsv(name)
    ensures var r := Extracted(name, Ok(t), book).value.table;
            && r.rows == DropBlank(t.rows)
            && (x in r.rows <==> x in t.rows && !Blank(x))
  {
    DropBlankMembers(t.rows, x);
  }

  /** A workbook loses no row: each holds its sheet name, so none is blank,
      and the table has as many rows as all the sheets together. */
  lemma ExtractWorkbook(name: string, csv: Result<Table, string>, book: seq<Sheet>)
    requires !IsCsv(name) && book != []
    requires forall k | 0 <= k < |book| :: WellFormed(book[k].table)
    ensures Extracted(name, csv, Ok(book)).Ok?
    ensures |Extracted(name, csv, Ok(book)).value.table.rows| == SumRows(seq(|book|, k requires 0 <= k < |book| => book[k].table))
  {
    ExtractWorkbookUndropped(book);
    ConcatRowsShape(Tagged(book), Union(Tagged(book)));
    TaggedSumRows(book);
  }

  lemma {:induction false} TaggedSumRows(book: seq<Sheet>)
    ensures SumRows(Tagged(book)) == SumRows(seq(|book|, k requires 0 <= k < |book| => book[k].table))
  {
    if book != [] {
      TaggedSumRows(book[1..]);
      assert Tagged(book)[1..] == Tagged(book[1..]);
      assert seq(|book|, k requires 0 <= k < |book| => book[k].table)[1..]
          == seq(|book[1..]|, k requires 0 <= k < |book[1..]| => book[1..][k].table);
    }
  }

  /** Row `i` of frame `k` sits at position `SumRows(frames[..k]) + i` of
      the concatenation, laid out on the union columns. */
  lemma {:induction false} ConcatRowsAt(frames: seq<Table>, cols: seq<string>, k: nat, i: nat)
    requires k < |frames| && i < |frames[k].rows|
    ensures SumRows(frames[..k]) + i < |ConcatRows(frames, cols)|
    ensures ConcatRows(frames, cols)[SumRows(frames[..k]) + i] == RowsOf(frames[k], cols)[i]
  {
    if k == 0 {
      assert frames[..0] == [];
    } else {
      ConcatRowsAt(frames[1..], cols, k - 1, i);
      assert frames[..k][1..] == frames[1..][..k - 1];
    }
  }

  lemma FirstIndexPrefix(a: seq<string>, b: seq<string>, c: string)
    requires c in a
    ensures c in a + b && FirstIndex(a + b, c) == FirstIndex(a, c)
  {
    if a[0] != c {
      assert (a + b)[1..] == a[1..] + b;
      FirstIndexPrefix(a[1..], b, c);
    }
  }

  /** The cell sheet `s` gives row `i` under label `c` once tagged: its name
      under `__sheet`, its own cell under its other labels, NaN elsewhere. */
  function SheetCell(s: Sheet, i: nat, c: string): Cell
    requires WellFormed(s.table) && i < |s.table.rows|
  {
    if c == SHEET then Str(s.name)
    else if c in s.table.columns then s.table.rows[i][FirstIndex(s.table.columns, c)]
    else Missing
  }

  lemma TagLookup(s: Sheet, i: nat, c: string)
    requires WellFormed(s.table) && i < |s.table.rows|
    ensures var u := Tag(s.table, s.name); i < |u.rows| && Lookup(u, u.rows[i], c) == SheetCell(s, i, c)
  {
    var t, u := s.table, Tag(s.table, s.name);
    TagShape(t, s.name);
    if c != SHEET && c in t.columns {
      if SHEET !in t.columns {
        FirstIndexPrefix(t.columns, [SHEET], c);
      }
    }
  }

  /** Row `i` of sheet `k` of a workbook sits at position
      `SumRows(Tagged(book)[..k]) + i` of the table `extract` returns, and
      holds, under every column, the sheet's name for `__sheet`, the sheet's
      own cell for its other labels, and NaN for labels only other sheets
      have; the `__sheet` header survives the strip. */
  lemma ExtractWorkbookRows(name: string, csv: Result<Table, string>, book: seq<Sheet>, k: nat, i: nat)
    requires !IsCsv(name) && k < |book|
    requires forall k | 0 <= k < |book| :: WellFormed(book[k].table)
    requires i < |book[k].table.rows|
    ensures var cols, p := Union(Tagged(book)), SumRows(Tagged(book)[..k]) + i;
            var x := Extracted(name, csv, Ok(book));
            && x.Ok? && x.value.table.columns == StripHeaders(cols) && p < |x.value.table.rows|
            && |x.value.table.rows[p]| == |cols|
            && (forall j | 0 <= j < |cols| :: x.value.table.rows[p][j] == SheetCell(book[k], i, cols[j]))
            && SHEET in cols && x.value.table.columns[FirstIndex(cols, SHEET)] == SHEET
  {
    var frames := Tagged(book);
    var cols := Union(frames);
    var rows := ConcatRows(frames, cols);
    WorkbookConcatRows(book, k, i);
    ExtractWorkbook(name, csv, book);
    assert Extracted(name, csv, Ok(book)).value.table == Table(StripHeaders(cols), DropBlank(rows));
    ExtractWorkbookUndropped(book);
    StripOfStripped(SHEET);
  }

  /** The concatenated rows of a workbook, with row `i` of sheet `k` at its
      place. */
  lemma WorkbookConcatRows(book: seq<Sheet>, k: nat, i: nat)
    requires k < |book|
    requires forall k | 0 <= k < |book| :: WellFormed(book[k].table)
    requires i < |book[k].table.rows|
    ensures var cols, p := Union(Tagged(book)), SumRows(Tagged(book)[..k]) + i;
            var rows := ConcatRows(Tagged(book), cols);
            && p < |rows| && |rows[p]| == |cols|
            && (forall j | 0 <= j < |cols| :: rows[p][j] == SheetCell(book[k], i, cols[j]))
            && SHEET in cols
  {
    var frames := Tagged(book);
    var cols := Union(frames);
    var rows := ConcatRows(frames, cols);
    ConcatRowsAt(frames, cols, k, i);
    var p := SumRows(frames[..k]) + i;
    forall j | 0 <= j < |cols| ensures rows[p][j] == SheetCell(book[k], i, cols[j]) {
      TagLookup(book[k], i, cols[j]);
    }
    TagShape(book[k].table, book[k].name);
    UnionMembers(frames, SHEET);
  }

  /** No concatenated row of a workbook is blank, so the drop keeps them all. */
  lemma ExtractWorkbookUndropped(book: seq<Sheet>)
    requires forall k | 0 <= k < |book| :: WellFormed(book[k].table)
    requires book != []
    ensures DropBlank(ConcatRows(Tagged(book), Union(Tagged(book)))) == ConcatRows(Tagged(book), Union(Tagged(book)))
  {
    var frames := Tagged(book);
    var cols := Union(frames);
    forall k | 0 <= k < |frames|
      ensures SHEET in frames[k].columns && WellFormed(frames[k])
      ensures forall i | 0 <= i < |frames[k].rows| :: !IsNA(frames[k].rows[i][FirstIndex(frames[k].columns, SHEET)])
    {
      TagShape(book[k].table, book[k].name);
    }
    UnionMembers(frames, SHEET);
    assert SHEET in frames[0].columns;
    ConcatRowsMarked(frames, cols, SHEET);
    DropBlankNone(ConcatRows(frames, cols));
  }

  /** The table `extract` returns has one cell per column in every row. */
  lemma ExtractWellFormed(name: string, csv: Result<Table, string>, book: Result<seq<Sheet>, string>)
    requires csv.Ok? ==> WellFormed(csv.value)
    requires Extracted(name, csv, book).Ok?
    ensures WellFormed(Extracted(name, csv, book).value.table)
  {
    if IsCsv(name) {
      DropBlankWellFormed(csv.value.columns, csv.value.rows);
    } else {
      var frames := Tagged(book.value);
      ConcatRowsShape(frames, Union(frames));
      DropBlankWellFormed(Union(frames), ConcatRows(frames, Union(frames)));
    }
  }
}
