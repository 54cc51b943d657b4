/** `process_single_pdf`, `process_folder` and `process_folder_multiprocessing`
    (factory_to_sheet_mc.py): one dictionary per PDF of a folder, then the table that is
    written to Excel, with the 編號 column taken from each file name. The folder listing
    and each PDF's text are inputs. */
module Folder {
  import opened Wrappers
  import opened Chars
  import opened Strings
  import opened Sequences
  import opened Records
  import opened Paths
  import opened Extraction
  import Splitting

  const NameKey: string := "檔名"
  const NumberKey: string := "編號"

  // ---------------------------------------------------------------------------
  // One PDF

  /** `process_single_pdf`: the extracted fields, then the file's base name. */
  function ProcessSinglePdf(path: string, text: string, exclude: Option<string>): (d: Dict)
    ensures Valid(d)
  {
    Put(ExtractPdfData(text, exclude), NameKey, Text(BaseName(path)))
  }

  /** The column names differ from one another. */
  lemma KeysDistinct()
    ensures DispatchKey != FactoryKey && DispatchKey != NameKey && FactoryKey != NameKey
    ensures NumberKey != NameKey && NumberKey != DispatchKey && NumberKey != FactoryKey
  {
    assert DispatchKey[0] != FactoryKey[0];
    assert NumberKey[0] != NameKey[0];
  }

  /** The record of one PDF has exactly the keys 發文字號, 工廠編號 and 檔名, in that
      order; 檔名 is the base name and the two extracted fields are unchanged. */
  lemma SinglePdfRecord(path: string, text: string, exclude: Option<string>)
    ensures var d := ProcessSinglePdf(path, text, exclude);
            && d.keys == [DispatchKey, FactoryKey, NameKey]
            && d.values[NameKey] == Text(BaseName(path))
            && d.values[DispatchKey] == Text(DispatchField(text))
            && d.values[FactoryKey] == ExtractPdfData(text, exclude).values[FactoryKey]
  {
    KeysDistinct();
  }

  // ---------------------------------------------------------------------------
  // The folder

  /** `[os.path.join(folder, f) for f in listing if f.endswith(".pdf")]` */
  function PdfFiles(folder: string, listing: seq<string>): (ps: seq<string>)
    ensures |ps| <= |listing|
  {
    if listing == [] then []
    else
      var init := PdfFiles(folder, listing[..|listing| - 1]);
      var f := Last(listing);
      if EndsWith(f, ".pdf") then init + [PathJoin(folder, f)] else init
  }

  /** The PDF paths are the folder joined with exactly the listed names ending in `.pdf`. */
  lemma {:induction false} PdfFilesMeaning(folder: string, listing: seq<string>)
    ensures forall p :: p in PdfFiles(folder, listing) <==>
              exists f :: f in listing && EndsWith(f, ".pdf") && p == PathJoin(folder, f)
  {
    if listing != [] {
      var init := listing[..|listing| - 1];
      PdfFilesMeaning(folder, init);
      assert listing == init + [Last(listing)];
    }
  }

  /** `extracted_data`: one record per PDF, in listing order. */
  function ExtractedRows(pdfs: seq<string>, textOf: string -> string, exclude: Option<string>): seq<Dict> {
    MapSeq(p => ProcessSinglePdf(p, textOf(p), exclude), pdfs)
  }

  /** Row `i` of the extracted records is the record of the `i`-th PDF. */
  lemma ExtractedRowsIndexed(pdfs: seq<string>, textOf: string -> string, exclude: Option<string>)
    ensures |ExtractedRows(pdfs, textOf, exclude)| == |pdfs|
    ensures forall i :: 0 <= i < |pdfs| ==>
              ExtractedRows(pdfs, textOf, exclude)[i] == ProcessSinglePdf(pdfs[i], textOf(pdfs[i]), exclude)
  {
    MapSeqIndexed(p => ProcessSinglePdf(p, textOf(p), exclude), pdfs);
  }

  // ---------------------------------------------------------------------------
  // The table

  /** A spreadsheet: its column names in order and one row per record. */
  datatype Table = Table(columns: seq<string>, rows: seq<map<string, Cell>>)

  datatype FolderError =
    | FolderNotFound        // the folder does not exist (os.listdir / FileNotFoundError)
    | MissingColumn         // df["檔名"] on a frame without that column (KeyError)
    | NameNotText           // re.search on a missing or non-text 檔名 cell (TypeError)

  /** `keys` not yet in `cols`, appended in their order. */
  function AddNew(cols: seq<string>, keys: seq<string>): (r: seq<string>)
    ensures forall k :: k in r <==> k in cols || k in keys
    ensures |r| >= |cols| && r[..|cols|] == cols
  {
    if keys == [] then cols
    else
      var init := AddNew(cols, keys[..|keys| - 1]);
      assert keys == keys[..|keys| - 1] + [Last(keys)];
      if Last(keys) in init then init else init + [Last(keys)]
  }

  /** `pd.DataFrame(records).columns`: every key, in order of first appearance. */
  function ColumnsOf(rows: seq<Dict>): seq<string> {
    if rows == [] then []
    else AddNew(ColumnsOf(rows[..|rows| - 1]), Last(rows).keys)
  }

  /** `re.search(r'\d+', name)`, converted with `int`: the value of the first run of digits
      (any decimal digits), or nothing when the name has no digit. */
  function FileNumber(name: string): Option<nat> {
    var i := FirstDigit(name, 0);
    if i == |name| then None
    else
      var n := RunLength(name, i);
      assert AllDigits(name[i..i + n]) by {
        var run := name[i..i + n];
        forall k | 0 <= k < |run| ensures IsDigit(run[k]) { assert run[k] == name[i + k]; }
      }
      Some(DigitsValue(name[i..i + n]))
  }

  /** A file name has no number exactly when it holds no digit. */
  lemma FileNumberNone(name: string)
    ensures FileNumber(name).None? <==> forall k :: 0 <= k < |name| ==> !IsDigit(name[k])
  {
  }

  lemma FirstDigitAfterPrefix(pre: string, digits: string, post: string)
    requires forall k :: 0 <= k < |pre| ==> !IsDigit(pre[k])
    requires |digits| > 0 && AllDigits(digits)
    ensures FirstDigit(pre + digits + post, 0) == |pre|
  {
    var name := pre + digits + post;
    forall k | 0 <= k < |pre| ensures !IsDigit(name[k]) { assert name[k] == pre[k]; }
    assert name[|pre|] == digits[0];
  }

  lemma RunLengthOfRun(pre: string, digits: string, post: string)
    requires AllDigits(digits)
    requires post == [] || !IsDigit(post[0])
    ensures RunLength(pre + digits + post, |pre|) == |digits|
  {
    var name := pre + digits + post;
    var i := |pre|;
    assert DigitsAt(name, i, |digits|) by {
      forall k | i <= k < i + |digits| ensures IsDigit(name[k]) { assert name[k] == digits[k - i]; }
    }
    assert NoDigitAt(name, i + |digits|) by {
      if post != [] { assert name[i + |digits|] == post[0]; }
    }
    RunLengthUnique(name, i, |digits|);
  }

  /** A name made of digit-free text, a run of digits, and text not starting with a digit
      reads as the value of that run. */
  lemma FileNumberOfRun(pre: string, digits: string, post: string)
    requires forall k :: 0 <= k < |pre| ==> !IsDigit(pre[k])
    requires |digits| > 0 && AllDigits(digits)
    requires post == [] || !IsDigit(post[0])
    ensures FileNumber(pre + digits + post) == Some(DigitsValue(digits))
  {
    var name := pre + digits + post;
    FirstDigitAfterPrefix(pre, digits, post);
    RunLengthOfRun(pre, digits, post);
    assert name[|pre|..|pre| + |digits|] == digits;
  }

  lemma SplitPrefixNoDigit()
    ensures forall k :: 0 <= k < |"split_"| ==> !IsDigit("split_"[k])
    ensures !IsDigit(".pdf"[0])
  {
    forall k | 0 <= k < |"split_"| ensures !IsDigit("split_"[k]) {
      NonDigitBelowArabicIndic("split_"[k]);
    }
    NonDigitBelowArabicIndic('.');
  }

  /** The output file `split_{n}.pdf` of the splitting stage reads back as number `n`. */
  lemma FileNumberOfSplitName(r: Splitting.OutputRange)
    ensures FileNumber(Splitting.OutputName(r)) == Some(r.number)
  {
    DigitsValueOfNatToString(r.number);
    SplitPrefixNoDigit();
    FileNumberOfRun("split_", NatToString(r.number), ".pdf");
  }

  /** The 編號 cell of a record. */
  function NumberCell(name: string): Cell {
    match FileNumber(name)
    case Some(n) => Number(n)
    case None => Missing
  }

  /** `["編號", "檔名"] + [col for col in df.columns if col not in ["檔名", "編號"]]` */
  function ColumnsOrder(cols: seq<string>): (r: seq<string>)
  {
    [NumberKey, NameKey] + OtherColumns(cols)
  }

  function OtherColumns(cols: seq<string>): (r: seq<string>)
    ensures forall c :: c in r <==> c in cols && c != NameKey && c != NumberKey
  {
    if cols == [] then []
    else
      var init := OtherColumns(cols[..|cols| - 1]);
      assert cols == cols[..|cols| - 1] + [Last(cols)];
      var c := Last(cols);
      if c == NameKey || c == NumberKey then init else init + [c]
  }

  /** The comprehension keeps the surviving columns in their original order: filtering a
      concatenation filters each part, and a single column survives exactly when it is
      neither 檔名 nor 編號. */
  lemma {:induction false} OtherColumnsConcat(a: seq<string>, b: seq<string>)
    ensures OtherColumns(a + b) == OtherColumns(a) + OtherColumns(b)
    ensures |b| == 1 ==> OtherColumns(b) == (if b[0] == NameKey || b[0] == NumberKey then [] else b)
    decreases |b|
  {
    if b != [] {
      var init := b[..|b| - 1];
      OtherColumnsConcat(a, init);
      assert (a + b)[..|a + b| - 1] == a + init;
      assert b[..|b| - 1] == init;
      if |b| == 1 {
        assert init == [];
      }
    } else {
      assert a + b == a;
    }
  }

  /** Every record has a text 檔名. */
  predicate NamesAreText(rows: seq<Dict>) {
    forall i :: 0 <= i < |rows| ==> NameKey in rows[i].values && rows[i].values[NameKey].Text?
  }

  /** A record with its 編號 cell added. */
  function NumberedRow(d: Dict): map<string, Cell>
    requires NameKey in d.values && d.values[NameKey].Text?
  {
    d.values[NumberKey := NumberCell(d.values[NameKey].text)]
  }

  /** The DataFrame steps of `process_folder`: add 編號 from 檔名, then reorder columns. */
  function BuildTable(rows: seq<Dict>): Result<Table, FolderError> {
    var cols := ColumnsOf(rows);
    if NameKey !in cols then Err(MissingColumn)
    else if !NamesAreText(rows) then Err(NameNotText)
    else
      var numbered := seq(|rows|, i requires 0 <= i < |rows| && NamesAreText(rows) => NumberedRow(rows[i]));
      Ok(Table(ColumnsOrder(AddNew(cols, [NumberKey])), numbered))
  }

  /** `process_folder`: lists the folder, extracts every PDF in listing order, and builds
      the table. `listing` is `None` when the folder does not exist. */
  method ProcessFolder(folder: string, listing: Option<seq<string>>, textOf: string -> string, exclude: Option<string>)
    returns (r: Result<Table, FolderError>)
    ensures listing.None? ==> r == Err(FolderNotFound)
    ensures listing.Some? ==> r == BuildTable(ExtractedRows(PdfFiles(folder, listing.value), textOf, exclude))
  {
    if listing.None? {
      return Err(FolderNotFound);
    }
    var pdfs := PdfFiles(folder, listing.value);
    var extracted: seq<Dict> := [];
    var i := 0;
    while i < |pdfs|
      invariant 0 <= i <= |pdfs|
      invariant extracted == ExtractedRows(pdfs[..i], textOf, exclude)
    {
      assert pdfs[..i + 1][..i] == pdfs[..i];
      extracted := extracted + [ProcessSinglePdf(pdfs[i], textOf(pdfs[i]), exclude)];
      i := i + 1;
    }
    assert pdfs[..i] == pdfs;
    r := BuildTable(extracted);
  }

  /** Every record of a folder has the same three keys, so the frame's columns are
      those keys in order. */
  lemma {:induction false} ColumnsOfExtracted(pdfs: seq<string>, textOf: string -> string, exclude: Option<string>)
    requires pdfs != []
    ensures ColumnsOf(ExtractedRows(pdfs, textOf, exclude)) == [DispatchKey, FactoryKey, NameKey]
  {
    var rows := ExtractedRows(pdfs, textOf, exclude);
    SinglePdfRecord(Last(pdfs), textOf(Last(pdfs)), exclude);
    var init := rows[..|rows| - 1];
    var keys := [DispatchKey, FactoryKey, NameKey];
    KeysDistinct();
    if init == [] {
      AddNewFresh([], keys);
    } else {
      var pinit := pdfs[..|pdfs| - 1];
      assert ExtractedRows(pinit, textOf, exclude) == init;
      ColumnsOfExtracted(pinit, textOf, exclude);
      AddNewPresent([DispatchKey, FactoryKey, NameKey], keys);
    }
  }

  lemma {:induction false} AddNewFresh(cols: seq<string>, keys: seq<string>)
    requires Distinct(keys)
    requires forall k :: k in keys ==> k !in cols
    ensures AddNew(cols, keys) == cols + keys
  {
    if keys != [] {
      var init := keys[..|keys| - 1];
      AddNewFresh(cols, init);
      assert keys == init + [Last(keys)];
      assert Last(keys) !in init by {
        forall i | 0 <= i < |init| ensures init[i] != Last(keys) { assert keys[i] != keys[|keys| - 1]; }
      }
    }
  }

  lemma {:induction false} AddNewPresent(cols: seq<string>, keys: seq<string>)
    requires forall k :: k in keys ==> k in cols
    ensures AddNew(cols, keys) == cols
  {
    if keys != [] {
      AddNewPresent(cols, keys[..|keys| - 1]);
    }
  }

  /** The table of a folder. Without any PDF there is no 檔名 column and pandas raises
      KeyError. Otherwise the columns are 編號, 檔名, 發文字號, 工廠編號, with one row
      per PDF. */
  lemma FolderTableShape(folder: string, listing: seq<string>, textOf: string -> string, exclude: Option<string>)
    ensures var pdfs := PdfFiles(folder, listing);
            var r := BuildTable(ExtractedRows(pdfs, textOf, exclude));
            && (r.Err? <==> pdfs == [])
            && (r.Err? ==> r.error == MissingColumn)
            && (r.Ok? ==> r.value.columns == [NumberKey, NameKey, DispatchKey, FactoryKey])
            && (r.Ok? ==> |r.value.rows| == |pdfs|)
  {
    var pdfs := PdfFiles(folder, listing);
    var rows := ExtractedRows(pdfs, textOf, exclude);
    ExtractedRowsIndexed(pdfs, textOf, exclude);
    if pdfs != [] {
      ColumnsOfExtracted(pdfs, textOf, exclude);
      NamesOfExtracted(pdfs, textOf, exclude);
      TableOfRecords(rows);
    }
  }

  /** The column order of the written table, for records with the three extracted keys. */
  lemma RecordColumnsOrder()
    ensures ColumnsOrder(AddNew([DispatchKey, FactoryKey, NameKey], [NumberKey])) == [NumberKey, NameKey, DispatchKey, FactoryKey]
  {
    var cols := [DispatchKey, FactoryKey, NameKey];
    KeysDistinct();
    AddNewFresh(cols, [NumberKey]);
    var all := cols + [NumberKey];
    var two := [DispatchKey, FactoryKey];
    assert OtherColumns([DispatchKey]) == [DispatchKey] by { assert [DispatchKey][..0] == []; }
    assert OtherColumns(two) == two by { assert two[..1] == [DispatchKey]; }
    assert OtherColumns(cols) == two by { assert cols[..2] == two; }
    assert OtherColumns(all) == two by { assert all[..3] == cols; }
  }

  lemma TableOfRecords(rows: seq<Dict>)
    requires ColumnsOf(rows) == [DispatchKey, FactoryKey, NameKey] && NamesAreText(rows)
    ensures BuildTable(rows).Ok?
    ensures BuildTable(rows).value.columns == [NumberKey, NameKey, DispatchKey, FactoryKey]
    ensures |BuildTable(rows).value.rows| == |rows|
  {
    RecordColumnsOrder();
  }

  /** Every record of a folder carries its file's base name as text. */
  lemma NamesOfExtracted(pdfs: seq<string>, textOf: string -> string, exclude: Option<string>)
    ensures var rows := ExtractedRows(pdfs, textOf, exclude);
            |rows| == |pdfs| && NamesAreText(rows)
            && forall i :: 0 <= i < |pdfs| ==> rows[i].values[NameKey] == Text(BaseName(pdfs[i]))
  {
    var rows := ExtractedRows(pdfs, textOf, exclude);
    ExtractedRowsIndexed(pdfs, textOf, exclude);
    forall i | 0 <= i < |pdfs| ensures NameKey in rows[i].values && rows[i].values[NameKey] == Text(BaseName(pdfs[i])) {
      SinglePdfRecord(pdfs[i], textOf(pdfs[i]), exclude);
    }
  }

  /** Row `i` of the table is record `i` with its 編號 cell added. */
  lemma TableRow(rows: seq<Dict>, i: nat)
    requires ColumnsOf(rows) == [DispatchKey, FactoryKey, NameKey] && NamesAreText(rows) && i < |rows|
    ensures BuildTable(rows).Ok? && i < |BuildTable(rows).value.rows|
    ensures BuildTable(rows).value.rows[i] == NumberedRow(rows[i])
  {
    TableOfRecords(rows);
  }

  /** The row of one PDF: its base name, the number read from that name, and its two
      extracted fields. */
  lemma NumberedRecord(path: string, text: string, exclude: Option<string>)
    ensures var d := ProcessSinglePdf(path, text, exclude);
            NameKey in d.values && d.values[NameKey].Text?
    ensures var m := NumberedRow(ProcessSinglePdf(path, text, exclude));
            && NameKey in m && NumberKey in m && DispatchKey in m && FactoryKey in m
            && m[NameKey] == Text(BaseName(path))
            && m[NumberKey] == NumberCell(BaseName(path))
            && m[DispatchKey] == Text(DispatchField(text))
            && m[FactoryKey] == ExtractPdfData(text, exclude).values[FactoryKey]
  {
    SinglePdfRecord(path, text, exclude);
    KeysDistinct();
  }

  /** Row `i` of a folder's table holds the base name of PDF `i`, the number read from
      that name, and the PDF's two extracted fields. */
  lemma FolderTableRows(folder: string, listing: seq<string>, textOf: string -> string, exclude: Option<string>, i: nat)
    requires i < |PdfFiles(folder, listing)|
    ensures var pdfs := PdfFiles(folder, listing);
            var r := BuildTable(ExtractedRows(pdfs, textOf, exclude));
            && r.Ok? && i < |r.value.rows|
            && var m := r.value.rows[i];
               && NameKey in m && NumberKey in m && DispatchKey in m && FactoryKey in m
               && m[NameKey] == Text(BaseName(pdfs[i]))
               && m[NumberKey] == NumberCell(BaseName(pdfs[i]))
               && m[DispatchKey] == Text(DispatchField(textOf(pdfs[i])))
               && m[FactoryKey] == ExtractPdfData(textOf(pdfs[i]), exclude).values[FactoryKey]
  {
    var pdfs := PdfFiles(folder, listing);
    var rows := ExtractedRows(pdfs, textOf, exclude);
    ColumnsOfExtracted(pdfs, textOf, exclude);
    NamesOfExtracted(pdfs, textOf, exclude);
    ExtractedRowsIndexed(pdfs, textOf, exclude);
    TableRow(rows, i);
    var d := ProcessSinglePdf(pdfs[i], textOf(pdfs[i]), exclude);
    assert rows[i] == d;
    NumberedRecord(pdfs[i], textOf(pdfs[i]), exclude);
  }
}
