# Character tag node — Dafny model

This project models the core of a ComfyUI custom node package.

`CharacterNode` reads an Excel workbook `character.xlsx`. Each sheet becomes an ordered dictionary from display labels (first column) to tags (second column). The header pair comes first when the sheet has at least two columns.

The node has three operations:

- `INPUT_TYPES` builds the node's input schema from a freshly loaded node. It has a forced text input `输入文本` and one choice list per non-empty sheet. The choices are the sheet's labels in insertion order, and the default is the first label.
- `load_excel_data` stores the sheets in the node's `sheet_data`. A sheet loaded again replaces its old entry. Nothing is ever cleared, and an exception keeps the sheets already stored.
- `process` reloads the workbook and starts from the input text. For each stored sheet, in storage order, it appends the tag of the label selected for that sheet, if the label exists. It joins the parts with `", "`.

The tag lookup script's `find_all_matches` filters the first column of a CSV table. It keeps, in row order and with duplicates, every value that contains the keyword without regard to case. Null cells never match. Any failure gives the empty list.

Files:

- `Wrappers.dfy` — `Option` and `Result`.
- `OrderedDict.dfy` — Python's insertion-ordered `dict` as a sequence of pairs. Assignment replaces a value in place or appends a new key. It has lemmas on lookup, key order and repeated assignment.
- `CharacterNode.dfy` — the node. It holds:
  - the `CharacterNode` class, whose `sheetData` field is updated in place;
  - its loops, proved against the functions `SheetDict`, `Reload`, `SchemaOf` and `Resolve`;
  - lemmas about those functions.
- `ReadTag.dfy` — `find_all_matches`, proved equal to a row-by-row filter and characterised by the indices of the matching rows.

Things the model takes as parameters:

- The workbook's contents are the `Workbook` parameter: missing, unreadable, or its sheets in order. Every cell has already been turned into text.
- The CSV table is the `Table` parameter: a read failure, or its first column. A NaN or non-string cell is `None`.

## Model

| member | source | states |
|---|---|---|
| Character.CharacterNode.constructor | character_node.py:9-14 | A new node starts with no sheets and then loads the workbook. Its state is the workbook's loaded sheets, and it is valid (distinct sheet names; distinct labels per sheet). |
| Character.CharacterNode.ReadSheet | character_node.py:27-40 | Reading one sheet with its loop gives exactly `SheetDict`. The header pair is assigned first when there are ≥2 columns. Each row then assigns `row[0] → row[1]`. A row without a second cell fails with `RowTooShort`. |
| Character.CharacterNode.LoadExcelData | character_node.py:16-44 | The new `sheetData` is `Reload(old sheetData, workbook)`, and validity is kept. A missing or unreadable file leaves the state as it was. Sheets before a failing sheet are stored. The failing sheet and every later sheet are not read by this load. A copy stored by an earlier load stays as it was. |
| Character.CharacterNode.InputTypes | character_node.py:46-67 | The schema is built on a fresh node with its loop. It equals `SchemaOf(Reload([], workbook))`: base text input, then one choice per non-empty sheet in storage order. |
| Character.CharacterNode.Process | character_node.py:74-94 | The node reloads first: `sheetData == Reload(old sheetData, workbook)`. The output is `Resolve(text, sheetData, kwargs)`: the text, then the applicable tags in sheet order, joined by ", ". |
| Character.CharacterNode.JoinSelections | character_node.py:80-92 | The loop over the stored sheets and the join compute `Resolve(text, data, kwargs)`: the input text, then for each sheet in order whose selection is one of its labels, that label's tag, joined by ", ". |
| Character.SheetDict | character_node.py:27-40 | A sheet yields a dictionary exactly when every data row has a second cell, and its labels are distinct. Its key order and values are fixed by HeaderFirst, LastRowWins, LabelOnlyFromHeader and LabelOrder. |
| Character.LoadedSheets | character_node.py:22-43 | A missing or unreadable file stores nothing. Otherwise the stored sheets are at most the workbook's sheets, named as those sheets in workbook order; ReloadStopsAtFailure fixes where they stop. |
| Character.Reload | character_node.py:16-44 | A missing or unreadable file leaves the stored sheets as they were, and distinct sheet names stay distinct. ReloadKeepsStoredSheets, ReloadStoresFreshSheet, ReloadStopsAtFailure, ReloadSkipsLaterSheets and ReloadIdempotent state the rest. |
| Character.SchemaOf | character_node.py:51-65 | The schema never repeats an input name. SchemaStartsWithText and SchemaChoiceOfSheet give its first input and the input of every sheet. |
| Character.Join | character_node.py:92 | Joining nothing gives "". Otherwise the result starts with the first part; JoinEndsWithLast and JoinCons give the end and the separator placement. |
| Character.JoinEndsWithLast | character_node.py:92 | A non-empty join ends with the last part. |
| Character.Selected | character_node.py:83-89 | There is at most one tag per stored sheet. SelectedEmptyIff, SelectedContains, SelectedInSheetOrder and InapplicableSelectionIgnored state which tags and in what order. |
| Character.Resolve | character_node.py:80-92 | The output starts with the input text. ResolveShape and ResolveIsTextIff give the rest of its shape. |
| Character.LoadablePrefix | character_node.py:22-43 | The number of sheets read before the first one that raises. Every earlier sheet is readable, and the one at that position is not. |
| Character.Choices | character_node.py:60-65 | Every choice entry is named after a stored sheet. |
| Character.LoadableIffTwoColumns | character_node.py:30-39 | When every row has one cell per column, as in a parsed sheet, the sheet fails to read exactly when it has data rows but fewer than two columns. |
| Character.HeaderFirst | character_node.py:30-40 | With ≥2 columns, the first entry of a sheet's dictionary is the first header. Its value is the second header, unless a data row with that label overrides it; the position stays first either way. |
| Character.LastRowWins | character_node.py:36-40 | The tag of a label is the value of the last row with that label. |
| Character.LabelOnlyFromHeader | character_node.py:30-40 | A label that no row has resolves to the second header exactly when it is the first header, and is absent otherwise. |
| Character.LabelOrder | character_node.py:27-40 | The label order is the header label, then the row labels, each at its first occurrence. |
| Character.ReloadKeepsOrder | character_node.py:16-44 | Reloading never removes or reorders stored sheets. Newly read sheet names come after them. |
| Character.ReloadKeepsStoredSheets | character_node.py:16-44 | Reloading never removes or reorders stored sheets. A sheet the workbook no longer holds keeps its old dictionary. |
| Character.ReloadStoresFreshSheet | character_node.py:24-42 | For a sheet read before any failure, with no later sheet of the same name, the stored dictionary is that sheet's new dictionary. |
| Character.ReloadStopsAtFailure | character_node.py:22-44 | Loading a workbook whose sheet `j` raises stores exactly what loading its first `j` sheets stores. |
| Character.ReloadSkipsLaterSheets | character_node.py:22-44 | A sheet at or after the failing one whose name was not stored before stays absent. |
| Character.ReloadIdempotent | character_node.py:16-44 | Loading the same workbook twice stores what loading it once stores. |
| Character.ChoicesLookup | character_node.py:60-65 | A sheet has a choice exactly when it is stored and non-empty. Its options are its labels in order, and its default is the first label. |
| Character.SchemaStartsWithText | character_node.py:51-57 | The schema's first input is `输入文本`. It remains the forced string input unless a sheet has that name. |
| Character.SchemaChoiceOfSheet | character_node.py:51-65 | In the schema, a sheet name other than `输入文本` maps to `Choice(labels, labels[0])` for a non-empty stored sheet, and to nothing otherwise. |
| Character.SchemaOnlyFromWorkbook | character_node.py:47-49 | A sheet the workbook does not hold has no schema input, because the schema comes from a fresh node. |
| Character.JoinCons | character_node.py:92 | Joining a first part with a non-empty rest puts one separator after the first part. |
| Character.ResolveShape | character_node.py:80-92 | The output is the text alone when no tag is selected, and otherwise text + ", " + the joined tags. |
| Character.ResolveIsTextIff | character_node.py:80-92 | The output equals the input text exactly when no tag is selected. |
| Character.ResolveEmptyText | character_node.py:80-92 | When at least one tag is selected, an empty input text still takes the first place, so the output starts with ", ". |
| Character.SelectedEmptyIff | character_node.py:83-89 | No tag is selected exactly when no stored sheet has a selection that is one of its labels. |
| Character.ResolveWithoutSelections | character_node.py:80-94 | Without any selections the output is the input text. |
| Character.InapplicableSelectionIgnored | character_node.py:84-89 | A selection that is no label of its sheet, or names no stored sheet, can be dropped without changing the output. |
| Character.SelectedInSheetOrder | character_node.py:83-89 | The tags follow the storage order of the sheets, split at any point. |
| Character.SelectedContains | character_node.py:83-89 | Every stored sheet with an applicable selection contributes its tag. |
| Character.SelectedSplit | character_node.py:83-89 | The tags of the stored sheets are the tags of any prefix followed by the tags of the rest. |
| Character.StaleSheetStillResolves | character_node.py:16-44 | A sheet stored earlier but no longer in the workbook still contributes its tag in `process`. |
| OrderedDict.Lookup | character_node.py:87-88 | A key is missing exactly when it is none of the dictionary's keys. |
| OrderedDict.Put | character_node.py:40 | Assigning a key keeps the key order when the key exists, and appends the key otherwise. Distinct keys stay distinct. |
| OrderedDict.PutAll | character_node.py:36-40 | A run of assignments keeps keys distinct. |
| OrderedDict.Dedup | character_node.py:62 | Defined as the first occurrences of each element. Its result is distinct, has exactly the elements of the input, and is the input itself when the input is distinct. |
| OrderedDict.LookupFindsLast | character_node.py:40 | A present key looks up to the value of its last entry. |
| OrderedDict.LookupLastAt | character_node.py:40 | An entry whose key does not occur later is what that key looks up. |
| OrderedDict.LookupAt | character_node.py:87-88 | With distinct keys, the entry at each position is what its key looks up. |
| OrderedDict.LookupAppend | character_node.py:40 | In a concatenation, the later part's value wins. |
| OrderedDict.PutLookup | character_node.py:40 | After assigning `k := v`, `k` looks up `v`, and every other key is unchanged. |
| OrderedDict.PutAllLookup | character_node.py:36-40 | After a run of assignments, a key looks up its last assigned value if it was assigned, and its old value otherwise. |
| OrderedDict.PutEntries | character_node.py:40 | After an assignment, each entry is either the new pair or an old entry. |
| OrderedDict.PutAllEntries | character_node.py:36-40 | After a run of assignments, each entry is an assigned pair or an old entry. |
| OrderedDict.PutAllKeys | character_node.py:36-40 | The resulting key order is the old keys followed by the new keys, each kept at its first occurrence. |
| OrderedDict.DedupPrefix | character_node.py:42 | Adding keys later never changes the order of the earlier keys. |
| OrderedDict.DedupHead | character_node.py:62-64 | The first key stays first. |
| OrderedDict.PutAllExistingKeys | character_node.py:42 | Reassigning existing keys keeps the key order. |
| OrderedDict.Extensionality | character_node.py:27-42 | Representing a dict as a sequence of pairs loses nothing: two such sequences with distinct keys, the same key order and the same lookups are equal. |
| OrderedDict.PutAllIdempotent | character_node.py:36-42 | Repeating the same assignments changes nothing. |
| ReadTag.FindAllMatches | test_tag/readTag.py:11-41 | A read failure gives []. Otherwise the result has at most as many values as the table has rows. |
| ReadTag.Mask | test_tag/readTag.py:30 | A row's mask entry is true exactly when its cell is a string containing the keyword case-insensitively; a null cell is false. |
| ReadTag.Pick | test_tag/readTag.py:34 | Selecting by a mask yields at most as many values as rows. |
| ReadTag.LowerChar | test_tag/readTag.py:30 | An upper-case ASCII letter becomes its lower-case letter (code point plus 32). Every other character is left unchanged. The result is never an upper-case ASCII letter. |
| ReadTag.Lower | test_tag/readTag.py:30 | Lower-casing keeps the length. It lower-cases each character in place and leaves no upper-case ASCII letter. |
| ReadTag.IsInfix | test_tag/readTag.py:30 | A prefix is always found, and a found keyword is no longer than the string; IsInfixIff gives the exact meaning. |
| ReadTag.ContainsIgnoreCase | test_tag/readTag.py:30 | The empty keyword is in every string, and a found keyword is no longer than the string; MatchIgnoresCase shows that case is ignored. |
| ReadTag.MatchIgnoresCase | test_tag/readTag.py:30 | Changing the case of any ASCII letters in the string or in the keyword does not change whether the keyword is found. |
| ReadTag.LowerUpToCase | test_tag/readTag.py:30 | Two strings that differ only in the case of ASCII letters lower-case to the same string. |
| ReadTag.IsInfixIff | test_tag/readTag.py:30 | The substring scan succeeds exactly when the keyword occurs at some position. |
| ReadTag.InfixChars | test_tag/readTag.py:30 | Every character of a found keyword occurs in the searched string. |
| ReadTag.PickIsMatching | test_tag/readTag.py:30-34 | Mask-then-select equals the row-by-row filter. |
| ReadTag.FindAllMatchesIsMatching | test_tag/readTag.py:30-37 | With the `mask.any()` branch included, the result is the row-by-row filter. |
| ReadTag.MatchingEmptyIff | test_tag/readTag.py:33-37 | The filter is empty exactly when no row matches. |
| ReadTag.NoMatchIffEmpty | test_tag/readTag.py:33-37 | `find_all_matches` returns [] exactly when no row matches. |
| ReadTag.MatchingAppend | test_tag/readTag.py:34 | Row order is kept: filtering a split table filters each part in order. |
| ReadTag.MatchingRows | test_tag/readTag.py:30-35 | The result is exactly the values of the matching rows, in order and with duplicates. A row is among them exactly when it matches. |
| ReadTag.ResultsAreCells | test_tag/readTag.py:34 | Every returned value is a non-null first-column cell containing the keyword. |
| ReadTag.MatchingEmptyKeyword | test_tag/readTag.py:30 | The filter with the empty keyword is the list of all non-null values. |
| ReadTag.EmptyKeywordKeepsValues | test_tag/readTag.py:30-35 | The empty keyword returns every non-null value in row order. |
| ReadTag.AppleCells | test_tag/readTag.py:30 | "Apple" and "APPLE PIE" contain "apple" ignoring case; "banana" does not. |
| ReadTag.AppleExample | test_tag/readTag.py:30-35 | For the cells Apple, banana, null, APPLE PIE, Apple, the result is Apple, APPLE PIE, Apple. |

## Left out

- Opening files and locating them with `os.path` are not modelled. The workbook and the CSV table are parameters, and whether the file exists is a case of that parameter.
- Parsing by pandas is outside the model: `ExcelFile`, `read_excel` and `read_csv`, the conversion of cells with `str()`, and how NaN becomes `"nan"`.
- Character.SheetDict: a sheet's dictionary is keyed by the header text. The source stores the raw column labels, which need not be strings (for example, numeric headers). Two effects of this are not modelled. First, a numeric header label `1` and a row label `"1"` are two keys in the source but one key here. Second, selecting a label whose header value is not a string makes `", ".join` raise `TypeError` inside `process`. Nothing catches this error, while the model always returns a string.
- Character.SheetDict: the only failure while reading a sheet in the model is a row without a second cell. Other exceptions from `read_excel` are not distinguished. They end the load the same way.
- `print` of warnings and errors is left out, because it has no effect on state or results.
- The class attributes `RETURN_TYPES`, `RETURN_NAMES`, `FUNCTION` and `CATEGORY`, and the registration maps `NODE_CLASS_MAPPINGS` and `NODE_DISPLAY_NAME_MAPPINGS`, are host configuration with no behaviour.
- Character.CharacterNode.Process returns the output string itself, not a one-element tuple. It requires that `kwargs` has no key `输入文本`: in Python that name binds to the text parameter and can never reach `**kwargs`, so a sheet named `输入文本` never contributes a tag.
- ReadTag.Mask: `str.contains` treats the keyword as a regular expression. The model matches it as a literal substring, so regex metacharacters and an invalid pattern (which the source catches and turns into []) are not modelled.
- ReadTag.Mask: case folding is for ASCII letters only. Python's case-insensitive matching also folds other Unicode letters.
- `save_results_to_txt` and `main` in the tag lookup script are file writing and console interaction, so they are left out.
- js/multiselect.js (browser widget), my_node.py (an unrelated sample node) and test_tag/翻译转化.py are not part of this model.
