/**
 * The character node of character_node.py: a workbook of sheets, each read into
 * an ordered label-to-tag dictionary; a choice schema built from a freshly
 * loaded node; and the resolution of the chosen labels into a comma-separated
 * tag string.
 *
 * The workbook file is an input: `Workbook` is what parsing `character.xlsx`
 * gives at the moment of a call, with every cell already turned into text.
 */
module Character {
  import opened Wrappers
  import opened OrderedDict

  /** One sheet's choices: display label (first column) to tag (second column). */
  type Dict = seq<(string, string)>

  /** A parsed sheet: its name, its column headers and its data rows. */
  datatype Sheet = Sheet(name: string, columns: seq<string>, rows: seq<seq<string>>)

  /** What opening the workbook gives: no file, a file the parser rejects, or its sheets in order. */
  datatype Workbook = Missing | Unreadable | Parsed(sheets: seq<Sheet>)

  /**
   * A data row without a second cell: reading `row.iloc[1]` raises. In a
   * parsed sheet that happens exactly when the sheet has data rows and fewer
   * than two columns (LoadableIffTwoColumns).
   */
  datatype LoadError = RowTooShort

  /** One input of the node's schema: the forced text input, or a choice list with its default. */
  datatype InputSpec = ForcedString | Choice(options: seq<string>, default: string)

  /** The name of the free-text input that the tags are appended to. */
  const TextInput: string := "输入文本"

  /** What `", ".join` puts between the parts of the output. */
  const Separator: string := ", "

  // ---------------------------------------------------------------------------
  // Reading one sheet
  // ---------------------------------------------------------------------------

  /** The pseudo-entry made of the two column headers, when there are at least two columns. */
  function Header(s: Sheet): Dict
  {
    if |s.columns| >= 2 then [(s.columns[0], s.columns[1])] else []
  }

  predicate RowsReadable(rows: seq<seq<string>>)
  {
    forall i :: 0 <= i < |rows| ==> |rows[i]| >= 2
  }

  /** Each data row as the assignment `sheet_dict[row[0]] = row[1]`. */
  function RowEntries(rows: seq<seq<string>>): (r: Dict)
    requires RowsReadable(rows)
    ensures |r| == |rows|
    ensures forall i :: 0 <= i < |rows| ==> r[i] == (rows[i][0], rows[i][1])
  {
    seq(|rows|, i requires 0 <= i < |rows| => (rows[i][0], rows[i][1]))
  }

  /** Reading the sheet raises nothing. */
  predicate Loadable(s: Sheet)
  {
    RowsReadable(s.rows)
  }

  /** The dictionary of a sheet: the header pair, then every data row, last write winning. */
  function SheetDict(s: Sheet): (r: Result<Dict, LoadError>)
    ensures r.Success? <==> Loadable(s)
    ensures r.Success? ==> DistinctKeys(r.value)
  {
    if Loadable(s) then Success(PutAll(Header(s), RowEntries(s.rows)))
    else Failure(RowTooShort)
  }

  // ---------------------------------------------------------------------------
  // Reloading the workbook into the stored sheets
  // ---------------------------------------------------------------------------

  /** How many sheets, from the first, are read before one raises. */
  function LoadablePrefix(sheets: seq<Sheet>): (n: nat)
    ensures n <= |sheets|
    ensures forall j :: 0 <= j < n ==> Loadable(sheets[j])
    ensures n < |sheets| ==> !Loadable(sheets[n])
  {
    if sheets == [] then 0
    else if !Loadable(sheets[0]) then 0
    else 1 + LoadablePrefix(sheets[1..])
  }

  predicate AllLoadable(sheets: seq<Sheet>)
  {
    forall j :: 0 <= j < |sheets| ==> Loadable(sheets[j])
  }

  /** The assignments `sheet_data[name] = sheet_dict` made for readable sheets. */
  function Stored(sheets: seq<Sheet>): (r: seq<(string, Dict)>)
    requires AllLoadable(sheets)
    ensures |r| == |sheets|
    ensures forall j :: 0 <= j < |sheets| ==> r[j] == (sheets[j].name, SheetDict(sheets[j]).value)
  {
    seq(|sheets|, j requires 0 <= j < |sheets| => (sheets[j].name, SheetDict(sheets[j]).value))
  }

  /** The sheets that reading `wb` stores, in workbook order. */
  function LoadedSheets(wb: Workbook): (r: seq<(string, Dict)>)
    ensures !wb.Parsed? ==> r == []
    ensures wb.Parsed? ==> |r| <= |wb.sheets| && forall j :: 0 <= j < |r| ==> r[j].0 == wb.sheets[j].name
  {
    match wb
    case Missing => []
    case Unreadable => []
    case Parsed(sheets) =>
      var n := LoadablePrefix(sheets);
      assert AllLoadable(sheets[..n]);
      Stored(sheets[..n])
  }

  /** The stored sheets after `load_excel_data` ran on `data` with the workbook `wb`. */
  function Reload(data: seq<(string, Dict)>, wb: Workbook): (r: seq<(string, Dict)>)
    ensures !wb.Parsed? ==> r == data
    ensures DistinctKeys(data) ==> DistinctKeys(r)
  {
    PutAll(data, LoadedSheets(wb))
  }

  /** Stored sheets whose names are distinct and whose dictionaries have distinct keys. */
  ghost predicate ValidSheets(data: seq<(string, Dict)>)
  {
    DistinctKeys(data) && forall p :: p in data ==> DistinctKeys(p.1)
  }

  // ---------------------------------------------------------------------------
  // The choice schema
  // ---------------------------------------------------------------------------

  /** The choice input of a non-empty sheet: its labels in order, the first as default. */
  function ChoiceInput(options: seq<string>): InputSpec
  {
    Choice(options, if |options| > 0 then options[0] else "")
  }

  /** The schema starts with the forced text input. */
  function BaseSchema(): seq<(string, InputSpec)>
  {
    [(TextInput, ForcedString)]
  }

  /** The assignments `input_types["required"][name] = ...`, one per non-empty sheet. */
  function Choices(data: seq<(string, Dict)>): (r: seq<(string, InputSpec)>)
    ensures forall i :: 0 <= i < |r| ==> r[i].0 in Keys(data)
  {
    if data == [] then []
    else
      var n := |data| - 1;
      var tail := if data[n].1 != [] then [(data[n].0, ChoiceInput(Keys(data[n].1)))] else [];
      KeysAppend(data[..n], [data[n]]);
      assert data == data[..n] + [data[n]];
      Choices(data[..n]) + tail
  }

  /** The schema of a node whose stored sheets are `data`. */
  function SchemaOf(data: seq<(string, Dict)>): (r: seq<(string, InputSpec)>)
    ensures DistinctKeys(r)
  {
    PutAll(BaseSchema(), Choices(data))
  }

  // ---------------------------------------------------------------------------
  // Resolution
  // ---------------------------------------------------------------------------

  /** `sep.join(parts)`. */
  function Join(sep: string, parts: seq<string>): (r: string)
    ensures parts == [] ==> r == ""
    ensures parts != [] ==> parts[0] <= r
  {
    if |parts| == 0 then ""
    else if |parts| == 1 then parts[0]
    else
      var init := Join(sep, parts[..|parts| - 1]);
      assert parts[..|parts| - 1][0] == parts[0];
      var r := init + sep + parts[|parts| - 1];
      assert r == init + (sep + parts[|parts| - 1]);
      r
  }

  /** A stored sheet has a selection that is one of its labels. */
  predicate Applies(entry: (string, Dict), kwargs: map<string, string>)
  {
    entry.0 in kwargs && Lookup(entry.1, kwargs[entry.0]).Some?
  }

  /** The tag a stored sheet contributes: the value of its selected label, if any. */
  function Contribution(entry: (string, Dict), kwargs: map<string, string>): seq<string>
  {
    if Applies(entry, kwargs) then [Lookup(entry.1, kwargs[entry.0]).value] else []
  }

  /** The tags of all sheets with an applicable selection, in stored-sheet order. */
  function Selected(data: seq<(string, Dict)>, kwargs: map<string, string>): (r: seq<string>)
    ensures |r| <= |data|
  {
    if data == [] then []
    else Selected(data[..|data| - 1], kwargs) + Contribution(data[|data| - 1], kwargs)
  }

  /** The output of `process` once the sheets are `data`. */
  function Resolve(text: string, data: seq<(string, Dict)>, kwargs: map<string, string>): (r: string)
    ensures text <= r
  {
    Join(Separator, [text] + Selected(data, kwargs))
  }

  // ---------------------------------------------------------------------------
  // The node
  // ---------------------------------------------------------------------------

  class CharacterNode {
    /** Sheet name to sheet dictionary; filled by every load and never cleared. */
    var sheetData: seq<(string, Dict)>

    ghost predicate Valid()
      reads this
    {
      ValidSheets(sheetData)
    }

    /** `__init__`: start with no sheets, then load the workbook. */
    constructor (wb: Workbook)
      ensures Valid()
      ensures sheetData == Reload([], wb)
    {
      sheetData := [];
      new;
      LoadExcelData(wb);
    }

    /** The body of the per-sheet loop of `load_excel_data`: build one sheet's dictionary. */
    static method ReadSheet(s: Sheet) returns (r: Result<Dict, LoadError>)
      ensures r == SheetDict(s)
    {
      var d: Dict := [];
      if |s.columns| >= 2 {
        d := Put(d, s.columns[0], s.columns[1]);
      }
      assert d == PutAll(Header(s), RowEntries(s.rows[..0])) by {
        assert s.rows[..0] == [];
      }
      var i := 0;
      while i < |s.rows|
        invariant 0 <= i <= |s.rows|
        invariant RowsReadable(s.rows[..i])
        invariant d == PutAll(Header(s), RowEntries(s.rows[..i]))
      {
        var row := s.rows[i];
        if |row| < 2 {
          return Failure(RowTooShort);
        }
        ReadSheetStep(s, i);
        d := Put(d, row[0], row[1]);
        i := i + 1;
      }
      assert s.rows[..i] == s.rows;
      return Success(d);
    }

    /** `load_excel_data`: store every sheet read before the first one that raises. */
    method LoadExcelData(wb: Workbook)
      requires Valid()
      modifies this
      ensures Valid()
      ensures sheetData == Reload(old(sheetData), wb)
    {
      if !wb.Parsed? {
        return;
      }
      var sheets := wb.sheets;
      var i := 0;
      while i < |sheets|
        invariant 0 <= i <= |sheets|
        invariant AllLoadable(sheets[..i])
        invariant sheetData == PutAll(old(sheetData), Stored(sheets[..i]))
        invariant Valid()
      {
        var r := ReadSheet(sheets[i]);
        if r.Failure? {
          LoadablePrefixIs(sheets, i);
          return;
        }
        StoredSnoc(sheets, i);
        PutAllSnoc(old(sheetData), Stored(sheets[..i]), sheets[i].name, r.value);
        ghost var before := sheetData;
        sheetData := Put(sheetData, sheets[i].name, r.value);
        forall p | p in sheetData
          ensures DistinctKeys(p.1)
        {
          PutEntries(before, sheets[i].name, r.value, p);
        }
        i := i + 1;
      }
      LoadablePrefixIs(sheets, i);
      assert sheets[..i] == sheets;
    }

    /** `INPUT_TYPES`: the schema of a freshly constructed node. */
    static method InputTypes(wb: Workbook) returns (schema: seq<(string, InputSpec)>)
      ensures schema == SchemaOf(Reload([], wb))
    {
      var temp := new CharacterNode(wb);
      schema := [(TextInput, ForcedString)];
      var data := temp.sheetData;
      assert PutAll(BaseSchema(), Choices(data[..0])) == schema by {
        assert data[..0] == [];
      }
      var i := 0;
      while i < |data|
        invariant 0 <= i <= |data|
        invariant schema == PutAll(BaseSchema(), Choices(data[..i]))
      {
        var (name, d) := data[i];
        SchemaSnoc(data, i);
        if d != [] {
          var options := Keys(d);
          schema := Put(schema, name, Choice(options, if |options| > 0 then options[0] else ""));
        }
        i := i + 1;
      }
      assert data[..i] == data;
    }

    /** `process`: reload, then join the text with the tag of every applicable selection. */
    method Process(text: string, kwargs: map<string, string>, wb: Workbook) returns (output: string)
      requires Valid()
      requires TextInput !in kwargs
      modifies this
      ensures Valid()
      ensures sheetData == Reload(old(sheetData), wb)
      ensures output == Resolve(text, sheetData, kwargs)
    {
      LoadExcelData(wb);
      output := JoinSelections(text, sheetData, kwargs);
    }

    /** The loop of `process` over the stored sheets, and the final join. */
    static method JoinSelections(text: string, data: seq<(string, Dict)>, kwargs: map<string, string>)
      returns (output: string)
      ensures output == Resolve(text, data, kwargs)
    {
      var parts := [text];
      assert parts == [text] + Selected(data[..0], kwargs) by {
        assert data[..0] == [];
      }
      var i := 0;
      while i < |data|
        invariant 0 <= i <= |data|
        invariant parts == [text] + Selected(data[..i], kwargs)
      {
        var (name, d) := data[i];
        ghost var before := parts;
        if name in kwargs {
          var selected := kwargs[name];
          var value := Lookup(d, selected);
          if value.Some? {
            parts := parts + [value.value];
          }
        }
        calc {
          parts;
          before + Contribution(data[i], kwargs);
          [text] + (Selected(data[..i], kwargs) + Contribution(data[i], kwargs));
          { SelectedSnoc(data, kwargs, i); }
          [text] + Selected(data[..i + 1], kwargs);
        }
        i := i + 1;
      }
      assert parts == [text] + Selected(data, kwargs) by {
        assert data[..i] == data;
      }
      output := Join(Separator, parts);
    }
  }

  // ---------------------------------------------------------------------------
  // Properties of reading one sheet
  // ---------------------------------------------------------------------------

  lemma RowEntriesSnoc(rows: seq<seq<string>>, i: nat)
    requires i < |rows|
    requires RowsReadable(rows[..i]) && |rows[i]| >= 2
    ensures RowsReadable(rows[..i + 1])
    ensures RowEntries(rows[..i + 1]) == RowEntries(rows[..i]) + [(rows[i][0], rows[i][1])]
  {
    assert rows[..i + 1] == rows[..i] + [rows[i]];
  }

  /** The sheets read before the first one that raises are exactly the first `i`. */
  lemma {:induction false} LoadablePrefixIs(sheets: seq<Sheet>, i: nat)
    requires i <= |sheets| && AllLoadable(sheets[..i])
    requires i < |sheets| ==> !Loadable(sheets[i])
    ensures LoadablePrefix(sheets) == i
  {
  }

  lemma SelectedSnoc(data: seq<(string, Dict)>, kwargs: map<string, string>, i: nat)
    requires i < |data|
    ensures Selected(data[..i + 1], kwargs) == Selected(data[..i], kwargs) + Contribution(data[i], kwargs)
  {
    assert data[..i + 1][..i] == data[..i];
  }

  lemma SchemaSnoc(data: seq<(string, Dict)>, i: nat)
    requires i < |data|
    ensures PutAll(BaseSchema(), Choices(data[..i + 1])) ==
            if data[i].1 != [] then Put(PutAll(BaseSchema(), Choices(data[..i])), data[i].0, ChoiceInput(Keys(data[i].1)))
            else PutAll(BaseSchema(), Choices(data[..i]))
  {
    ChoicesSnoc(data, i);
    if data[i].1 != [] {
      PutAllSnoc(BaseSchema(), Choices(data[..i]), data[i].0, ChoiceInput(Keys(data[i].1)));
    } else {
      assert Choices(data[..i + 1]) == Choices(data[..i]);
    }
  }

  lemma ChoicesSnoc(data: seq<(string, Dict)>, i: nat)
    requires i < |data|
    ensures Choices(data[..i + 1]) ==
            Choices(data[..i]) + if data[i].1 != [] then [(data[i].0, ChoiceInput(Keys(data[i].1)))] else []
  {
    var prefix := data[..i + 1];
    assert prefix[..i] == data[..i] && prefix[i] == data[i];
  }

  /** One row of the row loop: assigning the row extends the assignments by that row. */
  lemma ReadSheetStep(s: Sheet, i: nat)
    requires i < |s.rows| && RowsReadable(s.rows[..i]) && |s.rows[i]| >= 2
    ensures RowsReadable(s.rows[..i + 1])
    ensures Put(PutAll(Header(s), RowEntries(s.rows[..i])), s.rows[i][0], s.rows[i][1]) ==
            PutAll(Header(s), RowEntries(s.rows[..i + 1]))
  {
    RowEntriesSnoc(s.rows, i);
    PutAllSnoc(Header(s), RowEntries(s.rows[..i]), s.rows[i][0], s.rows[i][1]);
  }

  lemma StoredSnoc(sheets: seq<Sheet>, i: nat)
    requires i < |sheets|
    requires AllLoadable(sheets[..i]) && Loadable(sheets[i])
    ensures AllLoadable(sheets[..i + 1])
    ensures Stored(sheets[..i + 1]) == Stored(sheets[..i]) + [(sheets[i].name, SheetDict(sheets[i]).value)]
  {
    assert sheets[..i + 1] == sheets[..i] + [sheets[i]];
  }

  /** The header pair comes first; a data row with the header's label overrides its value, not its place. */
  lemma HeaderFirst(s: Sheet)
    requires |s.columns| >= 2 && Loadable(s)
    ensures var d := SheetDict(s).value;
            var rowValue := Lookup(RowEntries(s.rows), s.columns[0]);
            |d| > 0 && d[0] == (s.columns[0], if rowValue.Some? then rowValue.value else s.columns[1])
  {
    var d := SheetDict(s).value;
    var entries := RowEntries(s.rows);
    PutAllKeys(Header(s), entries);
    DedupHead(Keys(Header(s)) + Keys(entries));
    assert (Keys(Header(s)) + Keys(entries))[0] == s.columns[0];
    assert Keys(d)[0] == d[0].0;
    LookupAt(d, 0);
    PutAllLookup(Header(s), entries, s.columns[0]);
  }

  /** Last row wins: a row whose label no later row repeats gives that label its tag. */
  lemma LastRowWins(s: Sheet, i: nat)
    requires Loadable(s) && i < |s.rows|
    requires forall j :: i < j < |s.rows| ==> s.rows[j][0] != s.rows[i][0]
    ensures Lookup(SheetDict(s).value, s.rows[i][0]) == Some(s.rows[i][1])
  {
    var entries := RowEntries(s.rows);
    LookupLastAt(entries, i);
    PutAllLookup(Header(s), entries, s.rows[i][0]);
  }

  /** A label that no data row has resolves as the header pair alone says. */
  lemma LabelOnlyFromHeader(s: Sheet, k: string)
    requires Loadable(s)
    requires forall j :: 0 <= j < |s.rows| ==> s.rows[j][0] != k
    ensures Lookup(SheetDict(s).value, k) ==
            if |s.columns| >= 2 && s.columns[0] == k then Some(s.columns[1]) else None
  {
    var entries := RowEntries(s.rows);
    assert k !in Keys(entries) by {
      forall j | 0 <= j < |entries|
        ensures Keys(entries)[j] != k
      {
        assert entries[j].0 == s.rows[j][0];
      }
    }
    PutAllLookup(Header(s), entries, k);
  }

  /** The labels keep the order of their first insertion: header label first, then new row labels. */
  lemma LabelOrder(s: Sheet)
    requires Loadable(s)
    ensures Keys(SheetDict(s).value) == Dedup(Keys(Header(s)) + Keys(RowEntries(s.rows)))
  {
    PutAllKeys(Header(s), RowEntries(s.rows));
  }

  /**
   * In a parsed sheet every row has one cell per column, so a sheet fails to
   * read exactly when it has data rows but fewer than two columns.
   */
  lemma LoadableIffTwoColumns(s: Sheet)
    requires forall i :: 0 <= i < |s.rows| ==> |s.rows[i]| == |s.columns|
    ensures Loadable(s) <==> |s.columns| >= 2 || s.rows == []
  {
    if !(|s.columns| >= 2 || s.rows == []) {
      assert |s.rows[0]| < 2;
    }
  }

  // ---------------------------------------------------------------------------
  // Properties of reloading
  // ---------------------------------------------------------------------------

  /** The names of the sheets a workbook holds. */
  predicate InWorkbook(wb: Workbook, name: string)
  {
    wb.Parsed? && exists j :: 0 <= j < |wb.sheets| && wb.sheets[j].name == name
  }

  lemma {:induction false} LoadedNamesInWorkbook(wb: Workbook, name: string)
    requires name in Keys(LoadedSheets(wb))
    ensures InWorkbook(wb, name)
  {
    var loaded := LoadedSheets(wb);
    var j :| 0 <= j < |loaded| && Keys(loaded)[j] == name;
    assert loaded[j].0 == name;
    var n := LoadablePrefix(wb.sheets);
    assert wb.sheets[..n][j].name == name;
  }

  /**
   * Reloading never clears: every stored sheet keeps its place, and a sheet
   * the workbook does not hold (now missing, unreadable, or renamed) keeps its
   * old dictionary.
   */
  lemma ReloadKeepsStoredSheets(data: seq<(string, Dict)>, wb: Workbook, name: string)
    requires DistinctKeys(data)
    requires !InWorkbook(wb, name)
    ensures Keys(data) <= Keys(Reload(data, wb))
    ensures Lookup(Reload(data, wb), name) == Lookup(data, name)
  {
    ReloadKeepsOrder(data, wb);
    PutAllLookup(data, LoadedSheets(wb), name);
    if name in Keys(LoadedSheets(wb)) {
      LoadedNamesInWorkbook(wb, name);
    }
  }

  /** Reloading keeps every stored sheet name, in its old place; new names come after. */
  lemma ReloadKeepsOrder(data: seq<(string, Dict)>, wb: Workbook)
    requires DistinctKeys(data)
    ensures Keys(data) <= Keys(Reload(data, wb))
  {
    PutAllKeys(data, LoadedSheets(wb));
    DedupPrefix(Keys(data), Keys(LoadedSheets(wb)));
  }

  /** A sheet read before any failure replaces its stored dictionary wholesale. */
  lemma ReloadStoresFreshSheet(data: seq<(string, Dict)>, sheets: seq<Sheet>, j: nat)
    requires j < LoadablePrefix(sheets)
    requires forall k :: j < k < |sheets| ==> sheets[k].name != sheets[j].name
    ensures Lookup(Reload(data, Parsed(sheets)), sheets[j].name) == Some(SheetDict(sheets[j]).value)
  {
    var loaded := LoadedSheets(Parsed(sheets));
    var n := LoadablePrefix(sheets);
    forall k | j < k < |loaded|
      ensures loaded[k].0 != loaded[j].0
    {
      assert loaded[k].0 == sheets[k].name;
    }
    LookupLastAt(loaded, j);
    PutAllLookup(data, loaded, sheets[j].name);
  }

  /**
   * When a sheet raises, the sheets before it stay stored and neither it nor
   * any later sheet is read: the result is that of reading the prefix alone.
   */
  lemma ReloadStopsAtFailure(data: seq<(string, Dict)>, sheets: seq<Sheet>, j: nat)
    requires j < |sheets| && AllLoadable(sheets[..j]) && !Loadable(sheets[j])
    ensures Reload(data, Parsed(sheets)) == Reload(data, Parsed(sheets[..j]))
  {
    LoadablePrefixIs(sheets, j);
    assert sheets[..j][..j] == sheets[..j];
    LoadablePrefixIs(sheets[..j], j);
  }

  /** A sheet after the failing one, and not stored before, is not stored. */
  lemma ReloadSkipsLaterSheets(data: seq<(string, Dict)>, sheets: seq<Sheet>, j: nat, k: nat)
    requires DistinctKeys(data)
    requires j <= k < |sheets| && AllLoadable(sheets[..j]) && !Loadable(sheets[j])
    requires sheets[k].name !in Keys(data)
    requires forall i :: 0 <= i < j ==> sheets[i].name != sheets[k].name
    ensures sheets[k].name !in Keys(Reload(data, Parsed(sheets)))
  {
    var name := sheets[k].name;
    var prefix := Parsed(sheets[..j]);
    assert !InWorkbook(prefix, name) by {
      forall i | 0 <= i < j
        ensures sheets[..j][i].name != name
      {
      }
    }
    assert Lookup(Reload(data, prefix), name).None? by {
      ReloadKeepsStoredSheets(data, prefix, name);
    }
    assert Reload(data, Parsed(sheets)) == Reload(data, prefix) by {
      ReloadStopsAtFailure(data, sheets, j);
    }
  }

  /** Loading the same workbook twice stores what loading it once does. */
  lemma ReloadIdempotent(data: seq<(string, Dict)>, wb: Workbook)
    requires DistinctKeys(data)
    ensures Reload(Reload(data, wb), wb) == Reload(data, wb)
  {
    PutAllIdempotent(data, LoadedSheets(wb));
  }

  // ---------------------------------------------------------------------------
  // Properties of the schema
  // ---------------------------------------------------------------------------

  lemma {:induction false} ChoicesLookup(data: seq<(string, Dict)>, name: string)
    requires DistinctKeys(data)
    ensures Lookup(Choices(data), name) ==
            match Lookup(data, name)
            case None => None
            case Some(d) => if d == [] then None else Some(ChoiceInput(Keys(d)))
  {
    if data != [] {
      var n := |data| - 1;
      var init := data[..n];
      assert data == init + [data[n]];
      DistinctKeysInit(data);
      LookupAppend(init, [data[n]], name);
      var tail := if data[n].1 != [] then [(data[n].0, ChoiceInput(Keys(data[n].1)))] else [];
      LookupAppend(Choices(init), tail, name);
      if data[n].0 == name {
        ChoicesKeys(init, name);
      } else {
        ChoicesLookup(init, name);
      }
    }
  }

  lemma ChoicesKeys(data: seq<(string, Dict)>, name: string)
    requires name !in Keys(data)
    ensures Lookup(Choices(data), name).None?
  {
    var choices := Choices(data);
    forall i | 0 <= i < |choices|
      ensures Keys(choices)[i] != name
    {
      assert choices[i].0 in Keys(data);
    }
  }

  /** The schema always begins with the forced text input, kept unless a sheet takes its name. */
  lemma SchemaStartsWithText(data: seq<(string, Dict)>)
    ensures |SchemaOf(data)| > 0 && SchemaOf(data)[0].0 == TextInput
    ensures TextInput !in Keys(data) ==> SchemaOf(data)[0].1 == ForcedString
  {
    var schema := SchemaOf(data);
    var choices := Choices(data);
    PutAllKeys(BaseSchema(), choices);
    DedupHead(Keys(BaseSchema()) + Keys(choices));
    assert (Keys(BaseSchema()) + Keys(choices))[0] == TextInput;
    assert Keys(schema)[0] == schema[0].0;
    LookupAt(schema, 0);
    PutAllLookup(BaseSchema(), choices, TextInput);
    if TextInput !in Keys(data) {
      assert TextInput !in Keys(choices) by {
        forall i | 0 <= i < |choices|
          ensures Keys(choices)[i] != TextInput
        {
          assert choices[i].0 in Keys(data);
        }
      }
    }
  }

  /**
   * Each stored sheet with a non-empty dictionary is a choice input whose
   * options are its labels in insertion order and whose default is the first;
   * an empty or unknown sheet has no input.
   */
  lemma SchemaChoiceOfSheet(data: seq<(string, Dict)>, name: string)
    requires DistinctKeys(data) && name != TextInput
    ensures Lookup(SchemaOf(data), name) ==
            match Lookup(data, name)
            case None => None
            case Some(d) => if d == [] then None else Some(Choice(Keys(d), Keys(d)[0]))
  {
    assert Lookup(SchemaOf(data), name) == Lookup(Choices(data), name) by {
      PutAllLookup(BaseSchema(), Choices(data), name);
      assert Lookup(BaseSchema(), name) == None;
    }
    ChoicesLookup(data, name);
    match Lookup(data, name)
    case None =>
    case Some(d) =>
      assert |Keys(d)| == |d|;
  }

  /** The schema comes from a fresh node: a sheet the workbook does not hold has no input. */
  lemma SchemaOnlyFromWorkbook(wb: Workbook, name: string)
    requires name != TextInput && !InWorkbook(wb, name)
    ensures name !in Keys(SchemaOf(Reload([], wb)))
  {
    ReloadKeepsStoredSheets([], wb, name);
    SchemaChoiceOfSheet(Reload([], wb), name);
  }

  // ---------------------------------------------------------------------------
  // Properties of resolution
  // ---------------------------------------------------------------------------

  /** Joining a first part with a non-empty rest puts one separator after the first part. */
  lemma {:induction false} JoinCons(sep: string, first: string, rest: seq<string>)
    requires rest != []
    ensures Join(sep, [first] + rest) == first + sep + Join(sep, rest)
  {
    var n := |rest| - 1;
    var parts := [first] + rest;
    assert parts[..|parts| - 1] == [first] + rest[..n];
    if n == 0 {
      assert parts == [first, rest[0]];
    } else {
      calc {
        Join(sep, parts);
        Join(sep, [first] + rest[..n]) + sep + rest[n];
        { JoinCons(sep, first, rest[..n]); }
        first + sep + Join(sep, rest[..n]) + sep + rest[n];
        first + sep + (Join(sep, rest[..n]) + sep + rest[n]);
        first + sep + Join(sep, rest);
      }
    }
  }

  /** The joined string ends with the last part. */
  lemma JoinEndsWithLast(sep: string, parts: seq<string>)
    requires parts != []
    ensures var last := parts[|parts| - 1];
            var r := Join(sep, parts);
            |last| <= |r| && r[|r| - |last|..] == last
  {
    if |parts| > 1 {
      var init := Join(sep, parts[..|parts| - 1]);
      var last := parts[|parts| - 1];
      assert Join(sep, parts) == (init + sep) + last;
    }
  }

  /** The output is the input text alone, or the text, a separator and the joined tags. */
  lemma ResolveShape(text: string, data: seq<(string, Dict)>, kwargs: map<string, string>)
    ensures var tags := Selected(data, kwargs);
            Resolve(text, data, kwargs) ==
            if tags == [] then text else text + Separator + Join(Separator, tags)
  {
    var tags := Selected(data, kwargs);
    if tags == [] {
      assert [text] + tags == [text];
    } else {
      JoinCons(Separator, text, tags);
    }
  }

  /** The output is exactly the input text when no selection applies, and longer otherwise. */
  lemma ResolveIsTextIff(text: string, data: seq<(string, Dict)>, kwargs: map<string, string>)
    ensures Resolve(text, data, kwargs) == text <==> Selected(data, kwargs) == []
  {
    ResolveShape(text, data, kwargs);
    var tags := Selected(data, kwargs);
    if tags != [] {
      assert |text + Separator + Join(Separator, tags)| > |text|;
    }
  }

  /** An empty input text still takes the first place: the output opens with a separator. */
  lemma ResolveEmptyText(data: seq<(string, Dict)>, kwargs: map<string, string>)
    requires Selected(data, kwargs) != []
    ensures Resolve("", data, kwargs) == ", " + Join(", ", Selected(data, kwargs))
  {
    ResolveShape("", data, kwargs);
  }

  /** No tag is selected exactly when no stored sheet has an applicable selection. */
  lemma {:induction false} SelectedEmptyIff(data: seq<(string, Dict)>, kwargs: map<string, string>)
    ensures Selected(data, kwargs) == [] <==> forall i :: 0 <= i < |data| ==> !Applies(data[i], kwargs)
  {
    if data != [] {
      var n := |data| - 1;
      SelectedEmptyIff(data[..n], kwargs);
      assert forall i :: 0 <= i < n ==> data[..n][i] == data[i];
    }
  }

  /** With no selections at all the output is the input text. */
  lemma ResolveWithoutSelections(text: string, data: seq<(string, Dict)>)
    ensures Resolve(text, data, map[]) == text
  {
    SelectedEmptyIff(data, map[]);
    ResolveShape(text, data, map[]);
  }

  /**
   * A selection that is no label of its sheet, or that names no stored sheet,
   * contributes nothing: dropping it leaves the output as it was.
   */
  lemma {:induction false} InapplicableSelectionIgnored(text: string, data: seq<(string, Dict)>,
                                                         kwargs: map<string, string>, name: string)
    requires name in kwargs
    requires forall i :: 0 <= i < |data| && data[i].0 == name ==> Lookup(data[i].1, kwargs[name]).None?
    ensures Selected(data, kwargs) == Selected(data, kwargs - {name})
    ensures Resolve(text, data, kwargs) == Resolve(text, data, kwargs - {name})
  {
    if data != [] {
      var n := |data| - 1;
      assert forall i :: 0 <= i < n ==> data[..n][i] == data[i];
      InapplicableSelectionIgnored(text, data[..n], kwargs, name);
      assert Contribution(data[n], kwargs) == Contribution(data[n], kwargs - {name});
    }
  }

  /** Tags follow the order of the stored sheets, whatever the order of the selections. */
  lemma {:induction false} SelectedInSheetOrder(a: seq<(string, Dict)>, b: seq<(string, Dict)>,
                                                kwargs: map<string, string>)
    ensures Selected(a + b, kwargs) == Selected(a, kwargs) + Selected(b, kwargs)
  {
    if b == [] {
      assert a + b == a;
    } else {
      var n := |b| - 1;
      assert Selected(a + b[..n], kwargs) == Selected(a, kwargs) + Selected(b[..n], kwargs) by {
        SelectedInSheetOrder(a, b[..n], kwargs);
      }
      SelectedAppendSnoc(a, b, kwargs);
    }
  }

  lemma SelectedAppendSnoc(a: seq<(string, Dict)>, b: seq<(string, Dict)>, kwargs: map<string, string>)
    requires b != []
    ensures Selected(a + b, kwargs) == Selected(a + b[..|b| - 1], kwargs) + Contribution(b[|b| - 1], kwargs)
  {
    var ab := a + b;
    assert ab[..|ab| - 1] == a + b[..|b| - 1];
    assert ab[|ab| - 1] == b[|b| - 1];
  }

  /** Every stored sheet with an applicable selection contributes its tag. */
  lemma SelectedContains(data: seq<(string, Dict)>, kwargs: map<string, string>, i: nat)
    requires i < |data| && Applies(data[i], kwargs)
    ensures Lookup(data[i].1, kwargs[data[i].0]).value in Selected(data, kwargs)
  {
    var v := Lookup(data[i].1, kwargs[data[i].0]).value;
    assert v in Selected(data[..i + 1], kwargs) by {
      SelectedSnoc(data, kwargs, i);
      assert Contribution(data[i], kwargs) == [v];
    }
    SelectedSplit(data, kwargs, i + 1);
  }

  lemma SelectedSplit(data: seq<(string, Dict)>, kwargs: map<string, string>, k: nat)
    requires k <= |data|
    ensures Selected(data, kwargs) == Selected(data[..k], kwargs) + Selected(data[k..], kwargs)
  {
    SelectedInSheetOrder(data[..k], data[k..], kwargs);
    assert data[..k] + data[k..] == data;
  }

  /**
   * Stale state: a sheet stored by an earlier load but no longer in the
   * workbook resolves in `process`, although the schema no longer offers it.
   */
  lemma StaleSheetStillResolves(data: seq<(string, Dict)>, wb: Workbook, kwargs: map<string, string>,
                                name: string, d: Dict)
    requires DistinctKeys(data) && !InWorkbook(wb, name)
    requires Lookup(data, name) == Some(d)
    requires name in kwargs && Lookup(d, kwargs[name]).Some?
    ensures Lookup(d, kwargs[name]).value in Selected(Reload(data, wb), kwargs)
  {
    var now := Reload(data, wb);
    ReloadKeepsStoredSheets(data, wb, name);
    assert name in Keys(now);
    var i :| 0 <= i < |now| && Keys(now)[i] == name;
    LookupAt(now, i);
    SelectedContains(now, kwargs, i);
  }
}
