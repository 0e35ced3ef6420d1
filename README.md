# AiiDA calculation inputs and CIF data, modelled in Dafny

This project models three pieces of AiiDA, the workflow engine for
computational materials science.

The first is a calculation job plugin, `ArithmeticAddCalculation`. The
model covers three things it does:

- it checks the raw input nodes it is given against the inputs it declares;
- it writes the input file `aiida.in`;
- it builds the `CalcInfo` submission record, with the files that are
  copied before the run and retrieved after it.

The second is the CIF data node, `CifData`, with the module-level helpers
it relies on:

- serialising a symmetry operation;
- parsing a Hill formula;
- turning atoms into datablocks;
- laying datablocks out as a CIF file;
- the node's queries (formulae, space-group numbers, attached hydrogens,
  atomic sites, unknown species) and its scan-type and parse-policy
  settings.

The third is the `Data` base class that every data node shares:

- the checked `source` description;
- the rule that at most one calculation creates a data node;
- handlers found by method-name prefix;
- the lookup of a handler by format, with its error message;
- `export`'s inference of the format from a file extension, and the list of
  files it returns.

The model also covers `BaseType`, the node that stores one `int`, `str` or
`bool` and normalises every value it is given.

Objects whose fields the source updates become classes with `modifies`
clauses. Examples are the raw input dictionary that validation pops, the
temporary folder, the data node's attributes and input links, and a
`CifData` node's settings. Loops become methods proved against
specification functions, and pure code becomes functions. Python's
exceptions are `Err` values of a `Result`.

Files:

- `wrappers.dfy`: Option and Result.
- `text.dfy`: digits, `str`/`int` conversions, Python's string order, sorting a set of strings, split and join.
- `arithmetic_add.dfy`: `ArithmeticAddCalculation`.
- `cif_symop.dfy`: `symop_string_from_symop_matrix_tr`.
- `cif_formula.dfy`: `parse_formula`.
- `cif_layout.dfy`: `pycifrw_from_cif`.
- `cif_ase.dfy`: `cif_from_ase`.
- `cif_node.dfy`: the `CifData` queries and settings.
- `data_node.dfy`: `Data`.
- `base_type.dfy`: `BaseType`.

Calls into code outside the model become parameters:

- `get_linkname` is a total function from key to link name. Injectivity is
  assumed only where a lemma needs it.
- Calling a node class stands for constructing a default node.
- `str()` of a float is a rendering function.
- What `os.path.exists` reports is a set of existing paths.
- An exporter's output is given as data rather than computed.
- The known chemical elements are a set.
- A class's `dir()` and `getattr` are a map from attribute name to what
  `getattr` returns.

Handlers are discovered by method-name prefix, as the code does it, rather
than registered in a table. The attribute map is that discovery's input.

## Model

| member | source | states |
|---|---|---|
| ArithmeticAdd.UseMethods | aiida/calculations/plugins/arithmetic/add.py:44-65 | the inherited use-method table gains entries `x` and `y`, each accepting Int or Float; every other entry is kept |
| ArithmeticAdd.GetInputValidTypes | aiida/calculations/plugins/arithmetic/add.py:67-69 | the declared valid types of a key, or a KeyError exactly when the key has no use method |
| ArithmeticAdd.GetInputValidType | aiida/calculations/plugins/arithmetic/add.py:71-78 | the first class of a tuple, or the single class itself, or the KeyError of a missing key |
| ArithmeticAdd.TakeRequired | aiida/calculations/plugins/arithmetic/add.py:160-167 | the required loop. On success the validated dictionary gains exactly the required keys' link names; on failure the error names a required key; only keys of the raw dictionary are removed |
| ArithmeticAdd.TakeOptional | aiida/calculations/plugins/arithmetic/add.py:170-178 | the optional loop. On success the dictionary gains exactly the optional link names; a failure comes from looking up the valid type of an optional key |
| ArithmeticAdd.Validate | aiida/calculations/plugins/arithmetic/add.py:150-185 | success yields exactly the required and optional link names and leaves the raw dictionary empty; the unrecognised-inputs error lists exactly the leftover keys |
| ArithmeticAdd.TakeRequiredStopsAt | aiida/calculations/plugins/arithmetic/add.py:160-165 | the required loop stops at the first missing (or repeated) key and reports that key |
| ArithmeticAdd.FirstMissingRequiredReported | aiida/calculations/plugins/arithmetic/add.py:159-165 | the whole validation reports the first missing required key in declared order |
| ArithmeticAdd.TakeRequiredOk | aiida/calculations/plugins/arithmetic/add.py:160-167 | with every required key present once, the loop succeeds and pops exactly those keys |
| ArithmeticAdd.TakeRequiredValues | aiida/calculations/plugins/arithmetic/add.py:160-167 | each required node is stored unchanged under its link name, and earlier entries under other links stay |
| ArithmeticAdd.TakeRequiredKeeps | aiida/calculations/plugins/arithmetic/add.py:160-167 | with every required key present once, an earlier entry under a link that no required key has is kept |
| ArithmeticAdd.TakeRequiredStores | aiida/calculations/plugins/arithmetic/add.py:160-167 | with every required key present once and link names not colliding, each required node is stored unchanged under its link name |
| ArithmeticAdd.TakeOptionalOk | aiida/calculations/plugins/arithmetic/add.py:170-178 | with distinct optional keys, each missing one having a valid class, the loop succeeds and pops exactly the optional keys |
| ArithmeticAdd.TakeOptionalValues | aiida/calculations/plugins/arithmetic/add.py:170-178 | a present optional node is stored unchanged; a missing one becomes a default instance of its first valid class |
| ArithmeticAdd.ValidationOutcome | aiida/calculations/plugins/arithmetic/add.py:180-185 | validation succeeds and empties the raw dictionary exactly when every key is declared; otherwise every leftover key is reported together and stays in the raw dictionary |
| ArithmeticAdd.ValidatedValues | aiida/calculations/plugins/arithmetic/add.py:150-185 | when link names do not collide, every given node is stored unchanged under its link name, and every missing optional key gets a default instance |
| ArithmeticAdd.AddInputsValidation | aiida/calculations/plugins/arithmetic/add.py:38-39 | with inputs code, x and y, validation succeeds iff the raw dictionary holds exactly those three keys; a dictionary with only code and x is refused naming y |
| ArithmeticAdd.AddInputsMissing | aiida/calculations/plugins/arithmetic/add.py:160-165 | the first of code, x and y that the raw dictionary lacks is the key reported |
| ArithmeticAdd.AddInputsPresent | aiida/calculations/plugins/arithmetic/add.py:180-185 | with code, x and y present, validation succeeds iff no other key is given |
| ArithmeticAdd.InputFileContent | aiida/calculations/plugins/arithmetic/add.py:199 | `aiida.in` is x, one space, y, a newline |
| ArithmeticAdd.InputFileRoundTrip | aiida/calculations/plugins/arithmetic/add.py:199 | the file ends in a newline, splits on the space into the two operands, and integer operands parse back to themselves |
| ArithmeticAdd.GetLocalCopyList | aiida/calculations/plugins/arithmetic/add.py:131-138 | nothing is copied from the local machine |
| ArithmeticAdd.GetRemoteCopyList | aiida/calculations/plugins/arithmetic/add.py:140-148 | nothing is copied on the remote machine |
| ArithmeticAdd.GetRetrieveList | aiida/calculations/plugins/arithmetic/add.py:117-129 | only `aiida.out` is retrieved |
| ArithmeticAdd.InputNodesRaw.Pop | aiida/calculations/plugins/arithmetic/add.py:163 | `dict.pop`: returns the node of a present key and removes it; a missing key gives None and changes nothing |
| ArithmeticAdd.Folder.WriteFile | aiida/calculations/plugins/arithmetic/add.py:196-199 | the folder maps the file name to the new content, and other files are unchanged |
| ArithmeticAdd.ArithmeticAddCalculation.ValidateInputNodes | aiida/calculations/plugins/arithmetic/add.py:150-185 | returns what `Validate` computes from the old raw dictionary, and leaves behind exactly its leftover keys |
| ArithmeticAdd.ArithmeticAddCalculation.WriteInputFiles | aiida/calculations/plugins/arithmetic/add.py:187-199 | `aiida.in` holds "x y\n"; when an operand has no value, the file is left created but empty and the call fails |
| ArithmeticAdd.ArithmeticAddCalculation.PrepareForSubmission | aiida/calculations/plugins/arithmetic/add.py:80-115 | validation errors are passed on with the folder untouched; otherwise `aiida.in` is written and the CalcInfo has one CodeInfo running the code with `-in aiida.in` and stdout in `aiida.out`, retrieves `aiida.out`, and copies nothing |
| CifSymop.SymopStringFromMatrixTr | aiida/orm/data/cif.py:79-108 | the loop builds exactly the three comma-joined parts: signed axis terms, then the signed translation, each without a leading '+' |
| CifSymop.RowPart | aiida/orm/data/cif.py:94-107 | one pass of the outer loop builds its row's part: the signed axis terms, then the signed translation, without a leading '+' |
| CifSymop.TermsUpToAll | aiida/orm/data/cif.py:94-101 | the inner loop over the three axes builds the row's axis terms |
| CifSymop.DecodePartOfPart | aiida/orm/data/cif.py:93-107 | reading a part back recovers the sign of each matrix entry (after `eps`) and the sign and text of the translation |
| CifSymop.NoLeadingPlus | aiida/orm/data/cif.py:107 | no part starts with '+' |
| CifSymop.NoCommaInPart | aiida/orm/data/cif.py:101-106 | no part contains a comma when the rendered translation has none |
| CifSymop.ThreeParts | aiida/orm/data/cif.py:108 | the string splits on commas into exactly the three parts, none starting with '+' |
| CifSymop.IdentityIsXyz | aiida/orm/data/cif.py:79-108 | the identity with no translation is "x,y,z" for any eps in [0, 1) |
| CifFormula.SplitWhitespace | aiida/orm/data/cif.py:404 | `re.split(r'\s+')`: at least one piece, and none contains whitespace |
| CifFormula.ConcatSplitWhitespace | aiida/orm/data/cif.py:404 | splitting loses exactly the whitespace: the pieces concatenate to the formula's non-space characters |
| CifFormula.SplitWhitespaceJoin | aiida/orm/data/cif.py:404 | terms joined by single spaces split back into those terms |
| CifFormula.ParseTerm | aiida/orm/data/cif.py:405-418 | a term is skipped exactly when it is empty or starts with a digit; otherwise the species is the run of non-digits and the quantity is a count (1 when absent) or a decimal text |
| CifFormula.ParseTermCount | aiida/orm/data/cif.py:410-416 | a species with no digits counts once; a species followed by digits counts their value |
| CifFormula.ParseTermOfRendered | aiida/orm/data/cif.py:410-416 | a species followed by a rendered count parses back to that count |
| CifFormula.ParseFormula | aiida/orm/data/cif.py:397-420 | the loop computes the formula's contents |
| CifFormula.AddTermsKeys | aiida/orm/data/cif.py:419 | a species is in the result exactly when it was there before or some term names it |
| CifFormula.AddTermsLastWins | aiida/orm/data/cif.py:419 | the quantity kept for a species is that of the last term naming it |
| CifFormula.AddTermsUntouched | aiida/orm/data/cif.py:419 | terms that do not name a species leave its entry alone |
| CifFormula.FormulaOfTerms | aiida/orm/data/cif.py:397-420 | for space-separated terms, each species maps to the quantity of its last term |
| CifLayout.PresentTags | aiida/orm/data/cif.py:307-308 | the loop's tags present in the datablock, in declared order |
| CifLayout.PresentTagsExactly | aiida/orm/data/cif.py:307-308 | a tag is present exactly when it is declared in the loop and in the datablock |
| CifLayout.FirstMismatch | aiida/orm/data/cif.py:312-318 | the first present tag whose row count differs from the first present tag's |
| CifLayout.LoopItems | aiida/orm/data/cif.py:319-323 | the items added for a loop: each present tag with its rows, unless the row count is 0 |
| CifLayout.ScanWithRowSize | aiida/orm/data/cif.py:307-323 | once the row size is fixed, the scan agrees with the declarative loop outcome |
| CifLayout.ScanLoopTagsOutcome | aiida/orm/data/cif.py:305-325 | scanning a loop's tags gives `LoopOutcome`: the items, the popped values and the new loop, or the first mismatch |
| CifLayout.ScanLoop | aiida/orm/data/cif.py:305-325 | the method over one loop computes `LoopOutcome` |
| CifLayout.ScanAllLoops | aiida/orm/data/cif.py:303-325 | the method over all declared loops computes `ScanLoops` |
| CifLayout.AddRemainingTags | aiida/orm/data/cif.py:326-331 | the method computes `AddRemaining` over the sorted remaining tags |
| CifLayout.PycifrwFromCif | aiida/orm/data/cif.py:268-332 | the method computes `LayOutFile`: the name check, then each datablock's layout in order |
| CifLayout.LoopOutcomeValues | aiida/orm/data/cif.py:309 | a successful loop pops exactly the loop's tags from the datablock |
| CifLayout.LoopOutcomeError | aiida/orm/data/cif.py:314-318 | a loop fails iff two present tags have different row counts, and the error names a declared, present tag |
| CifLayout.LoopOutcomeKeeps | aiida/orm/data/cif.py:319-325 | a loop keeps the block coherent: distinct item tags, all popped from the datablock |
| CifLayout.ScanLoopsKeeps | aiida/orm/data/cif.py:304-325 | after all loops, the block is coherent and the leftover datablock is the input minus every declared loop tag |
| CifLayout.ScanLoopsError | aiida/orm/data/cif.py:314-318 | a failure over the loops names a tag that is declared in a loop and present in the datablock |
| CifLayout.AddRemainingAppends | aiida/orm/data/cif.py:326-331 | the remaining tags append their items and automatic loops to the block |
| CifLayout.RemainingItemsInOrder | aiida/orm/data/cif.py:326-328 | the remaining items are the sorted tags not in loops, with their values |
| CifLayout.LoopCreated | aiida/orm/data/cif.py:304-325 | a declared loop, once scanned, adds one loop over its present tags in declared order when its row count is positive, and none otherwise |
| CifLayout.AutoLoopsExactly | aiida/orm/data/cif.py:329-331 | an automatic loop exists exactly for each list- or tuple-valued remaining tag that is not a loop name |
| CifLayout.LayOutBlockShape | aiida/orm/data/cif.py:301-331 | a laid-out block has distinct item tags, all from the datablock; it ends with the sorted leftover tags; the leftover is the datablock minus every loop tag |
| CifLayout.BlockItems | aiida/orm/data/cif.py:319-331 | a block's items are the loop items followed by the leftover tags in sorted order |
| CifLayout.LayOutBlockError | aiida/orm/data/cif.py:314-318 | a block fails only with a row-count mismatch on a declared, present tag |
| CifLayout.LayOutBlocksSucceed | aiida/orm/data/cif.py:297-331 | laying out the blocks succeeds iff every block succeeds |
| CifLayout.LayOutBlocksOk | aiida/orm/data/cif.py:297-302 | block k is named `names[k]`, or `str(k)` without names, and holds datablock k's layout |
| CifLayout.LayOutBlocksFirstError | aiida/orm/data/cif.py:297-318 | a failure is that of the first failing block |
| CifLayout.LayOutFileErrors | aiida/orm/data/cif.py:293-318 | NotEnoughNames iff names are given and fewer than the datablocks; any other error is a row-count mismatch on a tag declared in a loop and present in some datablock |
| CifLayout.LayOutFileOk | aiida/orm/data/cif.py:293-332 | as many blocks as datablocks, each named and laid out as its datablock |
| CifLayout.LayOutFileSucceeds | aiida/orm/data/cif.py:293-332 | the file is laid out iff the names suffice and every datablock's loops agree on their row counts |
| CifAse.ImagesOf | aiida/orm/data/cif.py:204-205 | one Atoms object is treated as a list of one image |
| CifAse.AtomSiteColumns | aiida/orm/data/cif.py:243-261 | the per-atom loop computes the label, coordinate, symbol and optional columns |
| CifAse.CountMapCounts | aiida/orm/data/cif.py:244-250 | the per-symbol counter holds exactly the symbols seen so far, each with its number of occurrences |
| CifAse.CounterStep | aiida/orm/data/cif.py:246-251 | counting atom i gives it the label made of its symbol and its rank among the atoms of that symbol |
| CifAse.DatablockFromAtoms | aiida/orm/data/cif.py:207-263 | one image's datablock is `AseDatablock` |
| CifAse.CifFromAse | aiida/orm/data/cif.py:190-264 | one datablock per image, in image order |
| CifAse.LabelParts | aiida/orm/data/cif.py:244-251 | a label is the atom's symbol followed by the atom's 1-based rank among atoms of that symbol |
| CifAse.OccurrencesGrow | aiida/orm/data/cif.py:247-250 | a later atom of the same symbol has a higher count |
| CifAse.LabelsDistinct | aiida/orm/data/cif.py:244-251 | with digit-free symbols, any two atoms get different labels |
| CifAse.AtomSiteRows | aiida/orm/data/cif.py:251-261 | every per-atom tag is a list with one row per atom |
| CifAse.AseDatablockKeys | aiida/orm/data/cif.py:207-241 | the datablock holds exactly the cell tags, the P1 symmetry tags for a fully periodic cell, and the per-atom tags that apply |
| CifAse.AtomSiteLoopLaysOut | aiida/orm/data/cif.py:251-261 | a loop whose tags present in a structure's datablock are all per-atom tags lays out without a row-count mismatch |
| CifAse.AseLoopTagsNotCell | aiida/orm/data/cif.py:33-48 | none of the tags of `ase_loops` is a cell or symmetry tag |
| CifAse.AseLoopTagsPerAtom | aiida/orm/data/cif.py:33-48 | the tags of `ase_loops` that a structure's datablock holds are per-atom tags |
| CifAse.AseDatablockLaysOut | aiida/orm/data/cif.py:560 | a structure's datablock laid out with `ase_loops`, as `set_ase` does, never fails |
| CifAse.AseDatablockNoSpaceGroupTag | aiida/orm/data/cif.py:207-241 | the datablock has no `_space_group` tag |
| CifNode.CifData.SetScanType | aiida/orm/data/cif.py:665-678 | a known scan type is stored; anything else is a ValueError naming it, with nothing changed |
| CifNode.CifData.SetParsePolicy | aiida/orm/data/cif.py:680-690 | a known parse policy is stored; anything else is a ValueError naming it, with nothing changed |
| CifNode.Elements | aiida/orm/data/cif.py:766-768 | iterating a value: the items of a list or tuple, the one-character texts of a string |
| CifNode.GetFormulae | aiida/orm/data/cif.py:692-709 | one entry per block: the formula value when the block has the tag, None otherwise |
| CifNode.FirstPresent | aiida/orm/data/cif.py:717-722 | the first of the space-group tags the block has, if any |
| CifNode.GetSpacegroupNumbers | aiida/orm/data/cif.py:711-729 | succeeds iff every block's number can be read, and then gives each block's number or None |
| CifNode.SpacegroupNumber | aiida/orm/data/cif.py:717-726 | a datablock with none of the space-group tags has no number; otherwise the first present tag in priority order decides, its text read by `int()` (None, as `except ValueError: pass`, when it is not an integer) |
| CifNode.SpacegroupNumberOfWritten | aiida/orm/data/cif.py:721-726 | a number written under the first present space-group tag reads back as that number, whatever the later tags hold |
| CifNode.AseSpacegroup | aiida/orm/data/cif.py:207-241 | a datablock made from atoms reads as space group 1 for a fully periodic cell, and as None otherwise |
| CifNode.AnyNamesHydrogens | aiida/orm/data/cif.py:768-770 | some entry of the tag's value names attached hydrogens |
| CifNode.HasAttachedHydrogens | aiida/orm/data/cif.py:757-772 | true iff some block's attached-hydrogens tag has an entry other than '.', '?' and '0' |
| CifNode.HasAtomicSitesExactly | aiida/orm/data/cif.py:774-795 | true iff some block has some fractional coordinate other than '?' |
| CifNode.HasUnknownSpeciesAnswers | aiida/orm/data/cif.py:797-821 | over the datablocks: False iff every block has a sum formula naming only known species; None only when some block has no sum formula |
| CifNode.UnknownSpeciesAnswers | aiida/orm/data/cif.py:797-821 | False iff every block has a formula and all its species are known; None only when some formula is missing; True only when some species is unknown |
| DataNode.CheckSource | aiida/orm/data/__init__.py:128-132 | accepted iff a dictionary whose keys are among the nine source fields; otherwise a ValueError for a non-dictionary, or a KeyError naming exactly the unknown keys |
| DataNode.SourceExamples | aiida/orm/data/__init__.py:53 | a partial description is accepted, a misspelt field is refused with that field named, and a list is refused |
| DataNode.CreateInputs | aiida/orm/data/__init__.py:154-155 | the CREATE links, and only those |
| DataNode.CreateInputsConcat | aiida/orm/data/__init__.py:154-155 | the CREATE links of two runs of links are those of the first followed by those of the second, so the links keep their order |
| DataNode.CheckLink | aiida/orm/data/__init__.py:154-159 | a link is accepted iff it comes from a calculation and is not a second CREATE link; the CREATE check comes first |
| DataNode.Data.SetSource | aiida/orm/data/__init__.py:120-134 | an accepted description is stored and read back by `source`; a refused one changes nothing |
| DataNode.Data.AddLinkFrom | aiida/orm/data/__init__.py:150-161 | an accepted link is appended and a CREATE link becomes `created_by`; a refused one changes nothing; at most one CREATE link ever enters |
| DataNode.PrefixedFormatsExactly | aiida/orm/data/__init__.py:288-291 | a format is found iff the prefix followed by it is an attribute name |
| DataNode.GetExportFormats | aiida/orm/data/__init__.py:281-292 | lists exactly the formats whose `_prepare_` method exists |
| DataNode.ExportFormatsSorted | aiida/orm/data/__init__.py:292 | the formats are strictly sorted, so each appears once |
| DataNode.Handlers | aiida/orm/data/__init__.py:268-279 | the table holds exactly the prefixed formats, each mapped to what `getattr` gives for the prefixed name |
| DataNode.ExportersListed | aiida/orm/data/__init__.py:276-279 | the exporters table is keyed by exactly the export formats |
| DataNode.TwoFormats | aiida/orm/data/__init__.py:288-292 | with exactly two prefixed methods, the formats are their two suffixes in order |
| DataNode.CifExportFormats | aiida/orm/data/cif.py:866-883 | `CifData` exports as ["cif", "tcod"] |
| DataNode.LookUp | aiida/orm/data/__init__.py:197-208 | a known format gives its handler; an unknown one is a ValueError listing the implemented formats in sorted order, or saying that none are |
| Text.ParseIntOfIntToString | aiida/orm/data/cif.py:724 | `int()` reads back any integer written by `str()` |
| Text.ParseIntOfDigits | aiida/orm/data/cif.py:724 | `int()` of a run of decimal digits is their value |
| DataNode.ListedFormatsRecoverable | aiida/orm/data/__init__.py:202-205 | when no format contains a comma, splitting the listed formats on commas gives back exactly the implemented formats |
| DataNode.ExportContent | aiida/orm/data/__init__.py:176-210 | found iff the `_prepare_` method for the format exists, and then it is that method |
| DataNode.ImportString | aiida/orm/data/__init__.py:294-315 | found iff the `_parse_` method for the format exists, and then it is that method |
| DataNode.Convert | aiida/orm/data/__init__.py:345-369 | None and a non-string format are refused before any lookup; otherwise found iff the `_get_object_` method exists |
| DataNode.ConvertUnknown | aiida/orm/data/__init__.py:357-367 | a format with no `_get_object_` method is a ValueError naming the format and the class and listing the implemented conversions in sorted order |
| DataNode.CifConvertFormats | aiida/orm/data/cif.py:890-898 | `CifData`'s conversions are exactly "ase" and "pycifrw" |
| DataNode.CifConvertMessage | aiida/orm/data/cif.py:890-898 | asking `CifData` for an unknown conversion lists "ase,pycifrw" |
| DataNode.RFind | aiida/orm/data/__init__.py:234 | the index of the last occurrence of a character, or -1 |
| DataNode.SplitExt | aiida/orm/data/__init__.py:234 | `os.path.splitext`: the two halves make the path; the extension is empty or a '.' followed by neither '.' nor '/' |
| DataNode.SplitExtOfExtension | aiida/orm/data/__init__.py:234 | a path `stem.ext`, with no '.' or '/' in `ext` and a character other than '.' in the stem's last component, splits into `stem` and `.ext` |
| DataNode.ExportFormat | aiida/orm/data/__init__.py:233-243 | an explicit format is used as given |
| DataNode.ExportFormatOfExtension | aiida/orm/data/__init__.py:233-243 | without a format, `stem.ext` exports as `ext`, or as its replacement, when the stem's last component has a character other than '.' |
| DataNode.ExportFormatWithoutExtension | aiida/orm/data/__init__.py:237-238 | a last component with no '.' after its first character, including a hidden file, gives a ValueError |
| DataNode.ExportFormatTrailingDot | aiida/orm/data/__init__.py:234-238 | a name ending in '.', whose stem's last component has a character other than '.', has an empty extension and gives a ValueError |
| DataNode.ExportFormatExamples | aiida/orm/data/__init__.py:233-243 | "abc", "dir/notes" and the hidden ".cif" give a ValueError; "data.cif" exports as "cif" |
| DataNode.LastPieceAfterLastDot | aiida/orm/data/__init__.py:326 | the last piece of a split on '.' is the text after the last '.' |
| DataNode.ImportFormat | aiida/orm/data/__init__.py:325-326 | `importfile`'s format is the one given, or else a suffix of the name with no '.' in it |
| DataNode.ImportFormatDefault | aiida/orm/data/__init__.py:325-326 | `importfile` defaults to the text after the last '.' anywhere in the name, and to the whole name when there is none |
| DataNode.FileNames | aiida/orm/data/__init__.py:258-259 | the names of the additional files, in order |
| DataNode.CheckNoneExists | aiida/orm/data/__init__.py:250-253 | succeeds iff none of the additional files exists; otherwise the OSError names the first one that does |
| DataNode.WrittenFiles | aiida/orm/data/__init__.py:258-264 | the returned list is the additional files' names in order, then the main path |
| DataNode.Export | aiida/orm/data/__init__.py:212-266 | the errors in the source's order: a ValueError for an empty path, an OSError for an existing path, the format inference's error, the missing exporter's error, and an OSError naming the first additional file that exists; otherwise succeeds iff the format can be inferred, has an exporter, and, unless overwriting, no additional file exists; returns the additional files in order, then the path |
| BaseTypes.Default | aiida/orm/data/__init__.py:432 | `_type()` has the node's type and is falsy |
| BaseTypes.DefaultOnlyFalsy | aiida/orm/data/__init__.py:429-432 | the default is the only falsy value of its type |
| BaseTypes.Apply | aiida/orm/data/__init__.py:440 | `_type(v)` has the type and keeps a value already of it; it fails only for `int` on None or a non-numeric string |
| BaseTypes.IntStrRoundTrip | aiida/orm/data/__init__.py:440 | an integer survives `str` and then `int` |
| BaseTypes.ApplyTruthiness | aiida/orm/data/__init__.py:440 | `bool`, and `int` on non-strings, keep truthiness |
| BaseTypes.TypevalueStored | aiida/orm/data/__init__.py:426-432 | a falsy value is stored as `_type()`, a truthy one as `_type(value)` |
| BaseTypes.FalsyBranchAgrees | aiida/orm/data/__init__.py:426-440 | for `int` and `bool`, the falsy branch stores what the setter would; for `str`, None gives "" rather than "None" |
| BaseTypes.PyEqEquivalence | aiida/orm/data/__init__.py:448-452 | Python equality on these values, with True == 1, is an equivalence |
| BaseTypes.CreateInitArgs | aiida/orm/data/__init__.py:463-484 | the assertion failures in the source's order; one positional value becomes a normalised typevalue; on the keyword path a missing typevalue becomes exactly (type, None), a given (type, None) is kept, a given (type, v) becomes (type, the converted v) or the conversion's error, and a typevalue of another type is an AssertionFailed; the other keywords are kept; a dbnode must come alone and is passed through |
| BaseTypes.InitStoresConverted | aiida/orm/data/__init__.py:463-469 | a node built from one positional value stores that value passed through its type, truthy or not |
| BaseTypes.BaseTypeNode.SetValue | aiida/orm/data/__init__.py:438-440 | stores `_type(value)`; when that raises, nothing changes |
| BaseTypes.BaseTypeNode.SetTypevalue | aiida/orm/data/__init__.py:426-432 | the type is replaced, then the value is set as `TypevalueStored` says; on a failed conversion the old value stays |
| BaseTypes.EqualsCompareValues | aiida/orm/data/__init__.py:448-458 | a node equals another node iff it equals that node's value; `!=` negates `==` |

## Left out

- Floating point is not modelled. A float quantity in `parse_formula` stays as its decimal text. `str()` of a float, used for symmetry translations and coordinates, is a rendering parameter. `cif_from_ase` takes the cell and scaled positions already rendered as text, because the numpy cell maths is left out.
- `\s` and `\d` in the regular expressions are read as ASCII whitespace and ASCII digits. `int()` does not accept underscores between digits.
- CifLayout.PycifrwFromCif: it works on values. The source pops loop tags from the caller's own dictionaries. The model returns what is left of each datablock, which is the new state of those dictionaries, but not the aliasing itself.
- CifLayout.PycifrwFromCif: `loops` is a sequence in the dictionary's key order. Blocks are a sequence of (name, block) pairs, so two blocks with the same name are both kept, where `cif[name]` keeps the last.
- The PyCifRW library (CifFile, CifBlock) is not part of this model. `AddItem` and `CreateLoop` are modelled as appending to the block. Neither is modelled as checking or formatting.
- `cif_from_ase` and the `ase`/`pymatgen`/`spglib` conversions call libraries outside the model. Only the datablock layout and the labels are modelled.
- `has_partial_occupancies` is left out, because it parses floats.
- The file reading and md5 handling of `CifData` (`_prepare_cif`, `_prepare_tcod`, the parsing policies' effects) are left out; only their names matter, for export discovery.
- CifNode.UnknownSpeciesAnswers: the table of known elements is a parameter, and a list-valued formula is a `NotText` error.
- DataNode.Export: the files are not written. `os.path.exists` is one snapshot of existing paths. So the second check of the main path (line 255) would always agree with the first, and the model omits it.
- DataNode.Data.AddLinkFrom: the checks of the general node class that `super().add_link_from` performs are not part of this model. A link that passes the data node's own checks is appended.
- `_linking_as_output`, `clone`, `__copy__` and `__deepcopy__` are left out: they concern node copying and outgoing links, which depend on the database layer.
- `to_aiida_type`, `set_source`, `BaseType.new`, `__str__` and `__repr__` are left out. They are one-line delegations or Python dispatch.
- BaseTypes.CreateInitArgs: the check in `__init__` that a subclass defines `_type` is not modelled. Constructors here always have a type. Only `int`, `str` and `bool` are modelled as types, over None, booleans, integers and strings.
- ArithmeticAdd.ArithmeticAddCalculation.ValidateInputNodes: the InputValidationError for unrecognised inputs carries the set of their keys. The source prints `input_nodes_raw.keys()` in dictionary order, which the model does not keep.
- The KeyError message of the `source` setter joins the unknown keys in Python set order. The model carries the set of keys instead.
- Handler tables iterate in insertion order, which is Python 3.7 behaviour. That is why the error message lists formats sorted.
