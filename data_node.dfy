/** The `Data` node base class: the checked `source` description, the rule
    for links entering a data node, the discovery of export, import and
    convert handlers by method-name prefix, the lookup of a handler by
    format with its error message, and `export`'s format inference and
    list of written files. */
module DataNode {
  import opened Wrappers
  import opened Text

  // ---------------------------------------------------------------------
  // Values and errors

  /** The Python values a caller can hand to the `source` setter or to
      `convert`. */
  datatype PyValue =
    | PNone
    | PBool(b: bool)
    | PInt(i: int)
    | PStr(s: string)
    | PList(items: seq<PyValue>)
    | PDict(entries: map<string, PyValue>)

  /** The exceptions these operations raise.  A KeyError from the `source`
      setter carries the set of unknown keys: the message joins them in the
      order of a Python set, which is not modelled. */
  datatype DataError =
    | ValueError(message: string)
    | UnknownSourceParameters(unknown: set<string>)
    | OSError(message: string)

  // ---------------------------------------------------------------------
  // The `source` description

  /** `_source_attributes`: the only keys a source description may have. */
  const SOURCE_ATTRIBUTES: set<string> :=
    {"db_name", "db_uri", "uri", "id", "version", "extras", "source_md5", "description", "license"}

  const SOURCE_NOT_A_DICT := "Source must be supplied as a dictionary"

  /** The checks of the `source` setter: a non-dictionary is a ValueError,
      a dictionary with a key outside the nine allowed names a KeyError
      naming exactly the unknown keys. */
  function CheckSource(source: PyValue): (r: Result<(), DataError>)
    ensures r.Ok? <==> source.PDict? && source.entries.Keys <= SOURCE_ATTRIBUTES
    ensures !source.PDict? ==> r == Err(ValueError(SOURCE_NOT_A_DICT))
    ensures source.PDict? && r.Err? ==>
      r.error.UnknownSourceParameters? && r.error.unknown != {} &&
      forall k :: k in r.error.unknown <==> k in source.entries && k !in SOURCE_ATTRIBUTES
  {
    if !source.PDict? then Err(ValueError(SOURCE_NOT_A_DICT))
    else
      var unknown := source.entries.Keys - SOURCE_ATTRIBUTES;
      if unknown != {} then Err(UnknownSourceParameters(unknown)) else Ok(())
  }

  /** A description naming only a few of the allowed fields is accepted;
      one with a misspelt field is refused with that field named. */
  lemma SourceExamples()
    ensures CheckSource(PDict(map["db_name" := PStr("COD"), "id" := PStr("9008569")])) == Ok(())
    ensures CheckSource(PDict(map["db_name" := PStr("COD"), "url" := PStr("x")]))
            == Err(UnknownSourceParameters({"url"}))
    ensures CheckSource(PList([])) == Err(ValueError(SOURCE_NOT_A_DICT))
  {
    var bad := map["db_name" := PStr("COD"), "url" := PStr("x")];
    assert "url" !in SOURCE_ATTRIBUTES;
    assert bad.Keys - SOURCE_ATTRIBUTES == {"url"};
  }

  // ---------------------------------------------------------------------
  // Links entering a data node

  /** `LinkType`: the kinds of link between nodes. */
  datatype LinkType = Unspecified | Create | Return | InputLink | Call

  /** A node at the other end of a link; only whether it is a
      `Calculation` matters to a data node. */
  datatype NodeRef = NodeRef(id: nat, isCalculation: bool)

  datatype Link = Link(src: NodeRef, linkLabel: Option<string>, linkType: LinkType)

  const SECOND_CREATE := "At most one CREATE node can enter a data node"
  const NOT_FROM_CALCULATION := "Links entering a data object can only be of type calculation"

  /** The links of kind CREATE, in the order they were added (the input
      query `get_inputs(link_type=CREATE)`). */
  function CreateInputs(inputs: seq<Link>): (r: seq<Link>)
    ensures |r| <= |inputs|
    ensures forall l :: l in r <==> l in inputs && l.linkType == Create
    ensures forall k :: 0 <= k < |r| ==> r[k].linkType == Create
  {
    if inputs == [] then []
    else
      var last := inputs[|inputs| - 1];
      CreateInputs(inputs[..|inputs| - 1]) + (if last.linkType == Create then [last] else [])
  }

  /** The CREATE links keep the order of the links: those of earlier links
      come first. */
  lemma {:induction false} CreateInputsConcat(a: seq<Link>, b: seq<Link>)
    ensures CreateInputs(a + b) == CreateInputs(a) + CreateInputs(b)
    decreases |b|
  {
    if b == [] {
      assert a + b == a;
    } else {
      var b0 := b[..|b| - 1];
      assert (a + b)[..|a + b| - 1] == a + b0;
      assert (a + b)[|a + b| - 1] == b[|b| - 1];
      CreateInputsConcat(a, b0);
    }
  }

  /** The checks of `add_link_from`, in the source's order: a second CREATE
      link is refused first, then any source that is not a calculation. */
  function CheckLink(inputs: seq<Link>, src: NodeRef, linkType: LinkType): (r: Result<(), DataError>)
    ensures r.Ok? <==> src.isCalculation && !(linkType == Create && CreateInputs(inputs) != [])
    ensures linkType == Create && CreateInputs(inputs) != [] ==> r == Err(ValueError(SECOND_CREATE))
    ensures r.Err? && !(linkType == Create && CreateInputs(inputs) != []) ==> r == Err(ValueError(NOT_FROM_CALCULATION))
  {
    if linkType == Create && |CreateInputs(inputs)| > 0 then Err(ValueError(SECOND_CREATE))
    else if !src.isCalculation then Err(ValueError(NOT_FROM_CALCULATION))
    else Ok(())
  }

  lemma CreateInputsAppend(inputs: seq<Link>, l: Link)
    ensures CreateInputs(inputs + [l]) == CreateInputs(inputs) + (if l.linkType == Create then [l] else [])
  {
    assert (inputs + [l])[..|inputs|] == inputs;
  }

  /** The state of a data node that its operations here read and change:
      its attributes and the links entering it. */
  class Data {
    var attributes: map<string, PyValue>
    var inputs: seq<Link>

    /** A data node is created by at most one calculation. */
    predicate Valid()
      reads this
    {
      |CreateInputs(inputs)| <= 1
    }

    constructor ()
      ensures attributes == map[] && inputs == []
      ensures Valid()
    {
      attributes := map[];
      inputs := [];
    }

    /** The `source` property: the stored description, or None. */
    function Source(): Option<PyValue>
      reads this
    {
      if "source" in attributes then Some(attributes["source"]) else None
    }

    /** `created_by`: the source of the first CREATE link, or None. */
    function CreatedBy(): Option<NodeRef>
      reads this
    {
      var creates := CreateInputs(inputs);
      if creates != [] then Some(creates[0].src) else None
    }

    /** The `source` setter: a description that passes the checks is
        stored as given; a refused one leaves the node as it was. */
    method SetSource(source: PyValue) returns (r: Result<(), DataError>)
      modifies this
      ensures r == CheckSource(source)
      ensures r.Ok? ==> attributes == old(attributes)["source" := source] && Source() == Some(source)
      ensures r.Err? ==> attributes == old(attributes)
      ensures inputs == old(inputs)
    {
      r := CheckSource(source);
      if r.Ok? {
        attributes := attributes["source" := source];
      }
    }

    /** `add_link_from`: a link that passes the checks is added (the checks
        of the general node class are not part of this model); a refused
        one changes nothing.  At most one CREATE link ever enters. */
    method AddLinkFrom(src: NodeRef, linkLabel: Option<string>, linkType: LinkType) returns (r: Result<(), DataError>)
      modifies this
      ensures r == CheckLink(old(inputs), src, linkType)
      ensures r.Ok? ==> inputs == old(inputs) + [Link(src, linkLabel, linkType)]
      ensures r.Err? ==> inputs == old(inputs)
      ensures r.Ok? && linkType == Create ==> CreatedBy() == Some(src)
      ensures r.Ok? && linkType != Create ==> CreatedBy() == old(CreatedBy())
      ensures attributes == old(attributes)
      ensures old(Valid()) ==> Valid()
    {
      r := CheckLink(inputs, src, linkType);
      if r.Ok? {
        CreateInputsAppend(inputs, Link(src, linkLabel, linkType));
        inputs := inputs + [Link(src, linkLabel, linkType)];
      }
    }
  }

  // ---------------------------------------------------------------------
  // Handlers discovered by method-name prefix

  const EXPORT_PREFIX := "_prepare_"
  const IMPORT_PREFIX := "_parse_"
  const CONVERT_PREFIX := "_get_object_"

  /** The names in `names` that start with `prefix`, with the prefix
      stripped. */
  function PrefixedFormats(names: set<string>, prefix: string): set<string>
  {
    set n | n in names && StartsWith(n, prefix) :: n[|prefix|..]
  }

  lemma {:induction false} PrefixedFormatsExactly(names: set<string>, prefix: string)
    ensures forall f :: f in PrefixedFormats(names, prefix) <==> prefix + f in names
  {
    forall f ensures f in PrefixedFormats(names, prefix) <==> prefix + f in names {
      if prefix + f in names {
        assert StartsWith(prefix + f, prefix);
        assert (prefix + f)[|prefix|..] == f;
      }
      if f in PrefixedFormats(names, prefix) {
        var n :| n in names && StartsWith(n, prefix) && n[|prefix|..] == f;
        assert n == prefix + f;
      }
    }
  }

  /** `get_export_formats`: the names of the class's `_prepare_` methods
      without the prefix, each once and in sorted order (`names` is the
      class's `dir()`). */
  function GetExportFormats(names: set<string>): (r: seq<string>)
    ensures forall f :: f in r <==> EXPORT_PREFIX + f in names
  {
    PrefixedFormatsExactly(names, EXPORT_PREFIX);
    SortedStrings(PrefixedFormats(names, EXPORT_PREFIX))
  }

  lemma ExportFormatsSorted(names: set<string>)
    ensures StrictlySorted(GetExportFormats(names))
  {
    SortedStringsSorted(PrefixedFormats(names, EXPORT_PREFIX));
  }

  /** The handler table `{k: getattr(self, prefix + k)}` for every format
      `k` found by the prefix; `members` maps the object's attribute names
      (its `dir()`) to what `getattr` returns for them. */
  function Handlers<H>(members: map<string, H>, prefix: string): (r: map<string, H>)
    ensures forall f :: f in r <==> prefix + f in members
    ensures forall f :: f in r ==> r[f] == members[prefix + f]
  {
    PrefixedFormatsExactly(members.Keys, prefix);
    map f | f in PrefixedFormats(members.Keys, prefix) :: members[prefix + f]
  }

  /** The export table is keyed by exactly the formats `get_export_formats`
      lists. */
  lemma ExportersListed<H>(members: map<string, H>)
    ensures forall f :: f in Handlers(members, EXPORT_PREFIX) <==> f in GetExportFormats(members.Keys)
  {
  }

  /** The methods of `CifData` whose names start with `_prepare_`. */
  const CIF_EXPORTERS: set<string> := {"_prepare_cif", "_prepare_tcod"}
  /** The methods of `CifData` whose names start with `_get_object_`. */
  const CIF_CONVERTERS: set<string> := {"_get_object_ase", "_get_object_pycifrw"}

  lemma TwoSorted(a: string, b: string)
    requires StrLt(a, b)
    ensures StrictlySorted([a, b])
  {
  }

  /** When exactly two methods carry the prefix, the formats are their two
      suffixes in order. */
  lemma {:induction false} TwoFormats(names: set<string>, prefix: string, a: string, b: string)
    requires StrLt(a, b)
    requires forall n :: n in names && StartsWith(n, prefix) <==> n == prefix + a || n == prefix + b
    ensures SortedStrings(PrefixedFormats(names, prefix)) == [a, b]
  {
    var fs := PrefixedFormats(names, prefix);
    PrefixedFormatsExactly(names, prefix);
    var r := SortedStrings(fs);
    forall f ensures f in r <==> f in [a, b] {
      assert StartsWith(prefix + f, prefix);
      if prefix + f == prefix + a { assert (prefix + f)[|prefix|..] == f && (prefix + a)[|prefix|..] == a; }
      if prefix + f == prefix + b { assert (prefix + f)[|prefix|..] == f && (prefix + b)[|prefix|..] == b; }
    }
    SortedStringsSorted(fs);
    TwoSorted(a, b);
    SortedUnique(r, [a, b]);
  }

  /** For a class whose `_prepare_` methods are `_prepare_cif` and
      `_prepare_tcod`, as `CifData`'s are, the export formats are
      ["cif", "tcod"]. */
  lemma CifExportFormats(names: set<string>)
    requires forall n :: n in names && StartsWith(n, EXPORT_PREFIX) <==> n in CIF_EXPORTERS
    ensures GetExportFormats(names) == ["cif", "tcod"]
  {
    assert EXPORT_PREFIX + "cif" == "_prepare_cif" && EXPORT_PREFIX + "tcod" == "_prepare_tcod";
    TwoFormats(names, EXPORT_PREFIX, "cif", "tcod");
  }

  // ---------------------------------------------------------------------
  // Looking a handler up by format

  const IMPLEMENTED_ARE := ". Currently implemented are: "
  const NONE_IMPLEMENTED := ". No formats are implemented yet."

  /** The ValueError message for a format missing from a handler table;
      `formats` are the table's keys in their iteration order. */
  function NotImplementedMessage(format: string, className: string, formats: seq<string>): string
  {
    "The format " + format + " is not implemented for " + className
    + (if formats != [] then IMPLEMENTED_ARE + Join(",", formats) + "." else NONE_IMPLEMENTED)
  }

  /** The lookup shared by `_exportcontent`, `importstring` and `convert`:
      a known format gives its handler; an unknown one is a ValueError
      whose message lists the implemented formats in sorted order (the
      tables are built from sorted name lists), or says that none are. */
  function LookUp<H>(table: map<string, H>, format: string, className: string): (r: Result<H, DataError>)
    ensures r.Ok? <==> format in table
    ensures r.Ok? ==> r.value == table[format]
    ensures r.Err? ==> r.error == ValueError(NotImplementedMessage(format, className, SortedStrings(table.Keys)))
    ensures r.Err? && table == map[] ==>
      r.error.message == "The format " + format + " is not implemented for " + className + NONE_IMPLEMENTED
  {
    if format in table then Ok(table[format])
    else Err(ValueError(NotImplementedMessage(format, className, SortedStrings(table.Keys))))
  }

  /** The list in the message gives back exactly the implemented formats
      when no format name contains a comma. */
  lemma {:induction false} ListedFormatsRecoverable<H>(table: map<string, H>)
    requires table != map[]
    requires forall f :: f in table ==> ',' !in f
    ensures var listed := SortedStrings(table.Keys);
      listed != [] && SplitOn(Join(",", listed), ',') == listed &&
      (forall f :: f in listed <==> f in table)
  {
    var listed := SortedStrings(table.Keys);
    var f :| f in table;
    assert f in listed;
    forall k | 0 <= k < |listed| ensures ',' !in listed[k] {
      assert listed[k] in table.Keys;
    }
    SplitOnJoin(listed, ',');
  }

  /** `_exportcontent`'s choice of handler: the `_prepare_` method for the
      format. */
  function ExportContent<H>(members: map<string, H>, fileformat: string, className: string): (r: Result<H, DataError>)
    ensures r.Ok? <==> EXPORT_PREFIX + fileformat in members
    ensures r.Ok? ==> r.value == members[EXPORT_PREFIX + fileformat]
  {
    LookUp(Handlers(members, EXPORT_PREFIX), fileformat, className)
  }

  /** `importstring`'s choice of handler: the `_parse_` method for the
      format. */
  function ImportString<H>(members: map<string, H>, fileformat: string, className: string): (r: Result<H, DataError>)
    ensures r.Ok? <==> IMPORT_PREFIX + fileformat in members
    ensures r.Ok? ==> r.value == members[IMPORT_PREFIX + fileformat]
  {
    LookUp(Handlers(members, IMPORT_PREFIX), fileformat, className)
  }

  const FORMAT_MISSING := "object_format must be provided"
  const FORMAT_NOT_A_STRING := "object_format should be a string"

  /** `convert`'s choice of handler: None or a non-string format is
      refused before any lookup, otherwise the `_get_object_` method for
      the format. */
  function Convert<H>(members: map<string, H>, objectFormat: PyValue, className: string): (r: Result<H, DataError>)
    ensures objectFormat == PNone ==> r == Err(ValueError(FORMAT_MISSING))
    ensures objectFormat != PNone && !objectFormat.PStr? ==> r == Err(ValueError(FORMAT_NOT_A_STRING))
    ensures r.Ok? <==> objectFormat.PStr? && CONVERT_PREFIX + objectFormat.s in members
    ensures r.Ok? ==> r.value == members[CONVERT_PREFIX + objectFormat.s]
  {
    if objectFormat == PNone then Err(ValueError(FORMAT_MISSING))
    else if !objectFormat.PStr? then Err(ValueError(FORMAT_NOT_A_STRING))
    else LookUp(Handlers(members, CONVERT_PREFIX), objectFormat.s, className)
  }

  /** For a class whose `_get_object_` methods are `_get_object_ase` and
      `_get_object_pycifrw`, as `CifData`'s are, the conversion formats
      are ["ase", "pycifrw"]. */
  lemma CifConvertFormats(names: set<string>)
    requires forall n :: n in names && StartsWith(n, CONVERT_PREFIX) <==> n in CIF_CONVERTERS
    ensures SortedStrings(PrefixedFormats(names, CONVERT_PREFIX)) == ["ase", "pycifrw"]
  {
    assert CONVERT_PREFIX + "ase" == "_get_object_ase" && CONVERT_PREFIX + "pycifrw" == "_get_object_pycifrw";
    TwoFormats(names, CONVERT_PREFIX, "ase", "pycifrw");
  }

  /** A conversion to a format without a `_get_object_` method is refused
      with the sorted list of the formats that do have one. */
  lemma ConvertUnknown<H>(members: map<string, H>, format: string, className: string)
    requires CONVERT_PREFIX + format !in members
    ensures Convert(members, PStr(format), className)
            == Err(ValueError(NotImplementedMessage(format, className,
                                SortedStrings(PrefixedFormats(members.Keys, CONVERT_PREFIX)))))
  {
    PrefixedFormatsExactly(members.Keys, CONVERT_PREFIX);
    assert Handlers(members, CONVERT_PREFIX).Keys == PrefixedFormats(members.Keys, CONVERT_PREFIX);
  }

  /** Asking a `CifData`-like object for a conversion it lacks names both
      of its converters in the message. */
  lemma CifConvertMessage<H>(members: map<string, H>)
    requires forall n :: n in members && StartsWith(n, CONVERT_PREFIX) <==> n in CIF_CONVERTERS
    ensures Convert(members, PStr("pymatgen"), "CifData")
            == Err(ValueError(NotImplementedMessage("pymatgen", "CifData", ["ase", "pycifrw"])))
  {
    CifConvertFormats(members.Keys);
    assert StartsWith(CONVERT_PREFIX + "pymatgen", CONVERT_PREFIX);
    ConvertUnknown(members, "pymatgen", "CifData");
  }

  // ---------------------------------------------------------------------
  // File names and formats

  /** Index of the last `c` in `s`, or -1 when there is none. */
  function RFind(s: string, c: char): (i: int)
    ensures -1 <= i < |s|
    ensures i >= 0 ==> s[i] == c
    ensures forall k :: i < k < |s| ==> s[k] != c
  {
    if s == [] then -1
    else if s[|s| - 1] == c then |s| - 1
    else RFind(s[..|s| - 1], c)
  }

  /** The last `c` is the one with no `c` after it. */
  lemma RFindAt(s: string, c: char, i: int)
    requires -1 <= i < |s| && (i >= 0 ==> s[i] == c)
    requires forall k :: i < k < |s| ==> s[k] != c
    ensures RFind(s, c) == i
  {
  }

  /** `os.path.splitext` on a POSIX path: the extension runs from the last
      '.' of the last component, unless only dots precede that '.' in the
      component (a hidden file such as ".cif" has no extension). */
  function SplitExt(p: string): (r: (string, string))
    ensures r.0 + r.1 == p
    ensures r.1 == [] || (r.1[0] == '.' && '.' !in r.1[1..] && '/' !in r.1)
  {
    var sep := RFind(p, '/');
    var dot := RFind(p, '.');
    if dot > sep && exists k :: sep + 1 <= k < dot && p[k] != '.' then
      assert forall k :: dot < k < |p| ==> p[k] == p[dot..][k - dot];
      (p[..dot], p[dot..])
    else (p, [])
  }

  const PATH_NOT_RECOGNIZED := "Path not recognized"
  const FORMAT_NOT_RECOGNIZED := "Cannot recognized the fileformat from the extension"

  /** The format `export` uses: the one given, or else the file's
      extension without its dot, mapped through the replacements table;
      a path without an extension is a ValueError. */
  function ExportFormat(path: string, fileformat: Option<string>, replacements: map<string, string>): (r: Result<string, DataError>)
    ensures fileformat.Some? ==> r == Ok(fileformat.value)
  {
    match fileformat
    case Some(f) => Ok(f)
    case None =>
      var extension := SplitExt(path).1;
      var e := if StartsWith(extension, ".") then extension[1..] else extension;
      if e == [] then Err(ValueError(FORMAT_NOT_RECOGNIZED))
      else Ok(if e in replacements then replacements[e] else e)
  }

  /** Appending text without `c` leaves the last `c` where it was. */
  lemma {:induction false} RFindAppendWithout(s: string, t: string, c: char)
    requires c !in t
    ensures RFind(s + t, c) == RFind(s, c)
    decreases |t|
  {
    if t != [] {
      var u := t[..|t| - 1];
      assert (s + t)[|s + t| - 1] == t[|t| - 1];
      assert (s + t)[..|s + t| - 1] == s + u;
      assert c !in u by {
        forall k | 0 <= k < |u| ensures u[k] != c { assert u[k] == t[k]; }
      }
      RFindAppendWithout(s, u, c);
    } else {
      assert s + t == s;
    }
  }

  /** In `stem.ext` with no '.' in `ext`, the last '.' is the one before
      `ext`. */
  lemma LastDotBeforeExtension(stem: string, ext: string)
    requires '.' !in ext
    ensures RFind(stem + "." + ext, '.') == |stem|
  {
    RFindAppendWithout(stem + ".", ext, '.');
  }

  /** In `stem.ext` with no '/' in `ext`, the last '/' is the last '/' of
      `stem`. */
  lemma LastSlashInStem(stem: string, ext: string)
    requires '/' !in ext
    ensures RFind(stem + "." + ext, '/') == RFind(stem, '/')
  {
    assert stem + "." + ext == stem + ("." + ext);
    assert '/' !in "." + ext by {
      forall k | 0 <= k < |"." + ext| ensures ("." + ext)[k] != '/' {
        if k > 0 { assert ("." + ext)[k] == ext[k - 1]; }
      }
    }
    RFindAppendWithout(stem, "." + ext, '/');
  }

  /** `splitext` cuts at the last '.' when a character other than '.'
      lies between the last '/' and that '.'. */
  lemma SplitExtAt(p: string, k: int)
    requires RFind(p, '/') < k < RFind(p, '.') && p[k] != '.'
    ensures SplitExt(p) == (p[..RFind(p, '.')], p[RFind(p, '.')..])
  {
  }

  /** `splitext` cuts `stem.ext` right before `.ext` when the last
      component of `stem` has a character other than '.'. */
  lemma SplitExtOfExtension(stem: string, ext: string)
    requires '.' !in ext && '/' !in ext
    requires exists k :: RFind(stem, '/') < k < |stem| && stem[k] != '.'
    ensures SplitExt(stem + "." + ext) == (stem, "." + ext)
  {
    var p := stem + "." + ext;
    LastDotBeforeExtension(stem, ext);
    LastSlashInStem(stem, ext);
    var k :| RFind(stem, '/') < k < |stem| && stem[k] != '.';
    assert p[k] == stem[k];
    SplitExtAt(p, k);
    assert p[..|stem|] == stem;
    assert p[|stem|..] == "." + ext;
  }

  /** Without an explicit format, `stem.ext` exports as `ext`, or as its
      replacement, whenever the last component of `stem` has a character
      other than '.'. */
  lemma ExportFormatOfExtension(stem: string, ext: string, replacements: map<string, string>)
    requires ext != [] && '.' !in ext && '/' !in ext
    requires exists k :: RFind(stem, '/') < k < |stem| && stem[k] != '.'
    ensures ExportFormat(stem + "." + ext, None, replacements)
            == Ok(if ext in replacements then replacements[ext] else ext)
  {
    SplitExtOfExtension(stem, ext);
    assert ("." + ext)[1..] == ext;
  }

  /** A path whose last component has no '.' after its first character
      (so no '.' at all, or a hidden file's name such as ".cif") gives no
      format. */
  lemma {:induction false} ExportFormatWithoutExtension(path: string, replacements: map<string, string>)
    requires forall k :: RFind(path, '/') + 1 < k < |path| ==> path[k] != '.'
    ensures ExportFormat(path, None, replacements) == Err(ValueError(FORMAT_NOT_RECOGNIZED))
  {
  }

  /** A name ending in '.' has an empty extension after the dot, so it
      gives no format either. */
  lemma ExportFormatTrailingDot(stem: string, replacements: map<string, string>)
    requires exists k :: RFind(stem, '/') < k < |stem| && stem[k] != '.'
    ensures ExportFormat(stem + ".", None, replacements) == Err(ValueError(FORMAT_NOT_RECOGNIZED))
  {
    SplitExtOfExtension(stem, "");
    assert stem + "." + "" == stem + ".";
  }

  /** Concrete names: "abc", "dir/notes" and ".cif" give no format,
      "data.cif" gives "cif". */
  lemma ExportFormatExamples(replacements: map<string, string>)
    requires "cif" !in replacements
    ensures ExportFormat("abc", None, replacements) == Err(ValueError(FORMAT_NOT_RECOGNIZED))
    ensures ExportFormat("dir/notes", None, replacements) == Err(ValueError(FORMAT_NOT_RECOGNIZED))
    ensures ExportFormat(".cif", None, replacements) == Err(ValueError(FORMAT_NOT_RECOGNIZED))
    ensures ExportFormat("data.cif", None, replacements) == Ok("cif")
  {
    RFindAt("abc", '/', -1);
    ExportFormatWithoutExtension("abc", replacements);
    RFindAt("dir/notes", '/', 3);
    ExportFormatWithoutExtension("dir/notes", replacements);
    RFindAt(".cif", '/', -1);
    ExportFormatWithoutExtension(".cif", replacements);
    RFindAt("data", '/', -1);
    assert "data"[0] != '.';
    assert "data" + "." + "cif" == "data.cif";
    ExportFormatOfExtension("data", "cif", replacements);
  }

  /** `importfile`'s format: the one given, or else whatever follows the
      last '.' of the file name (`fname.split('.')[-1]`). */
  function ImportFormat(fname: string, fileformat: Option<string>): (r: string)
    ensures fileformat.Some? ==> r == fileformat.value
    ensures fileformat.None? ==> '.' !in r && |r| <= |fname| && r == fname[|fname| - |r|..]
  {
    if fileformat.Some? then fileformat.value
    else
      LastPieceAfterLastDot(fname);
      LastPiece(fname)
  }

  /** A suffix of a suffix is a suffix. */
  lemma SliceOfSlice(s: string, i: nat, j: nat)
    requires i <= |s| && j <= |s| - i
    ensures s[i..][j..] == s[i + j..]
  {
  }

  /** The last element survives putting one element in front. */
  lemma LastOfCons<T>(x: T, p: seq<T>, q: seq<T>)
    requires |p| > 0 && q == [x] + p
    ensures q[|q| - 1] == p[|p| - 1]
  {
  }

  /** The last piece of `s.split('.')`. */
  function LastPiece(s: string): string {
    var parts := SplitOn(s, '.');
    parts[|parts| - 1]
  }

  /** Splitting at the first '.' keeps the last piece. */
  lemma LastPieceAfterFirstDot(s: string)
    requires '.' in s
    ensures LastPiece(s) == LastPiece(s[IndexOf(s, '.') + 1..])
  {
    var i := IndexOf(s, '.');
    LastOfCons(s[..i], SplitOn(s[i + 1..], '.'), SplitOn(s, '.'));
  }

  /** The last piece of a split on '.' holds no '.'. */
  lemma LastPieceNoDot(s: string)
    ensures '.' !in LastPiece(s)
  {
    var parts := SplitOn(s, '.');
    assert '.' !in parts[|parts| - 1];
  }

  /** The last piece of a split on '.' is a suffix, preceded by a '.'
      unless it is the whole text. */
  lemma {:induction false} LastPieceSuffix(s: string)
    ensures |LastPiece(s)| <= |s| && LastPiece(s) == s[|s| - |LastPiece(s)|..]
    ensures |LastPiece(s)| < |s| ==> s[|s| - |LastPiece(s)| - 1] == '.'
    decreases |s|
  {
    if '.' in s {
      var i := IndexOf(s, '.');
      var t := s[i + 1..];
      LastPieceSuffix(t);
      LastPieceAfterFirstDot(s);
      LastPieceSuffixStep(s, i, t, LastPiece(t), LastPiece(s));
    } else {
      assert SplitOn(s, '.') == [s];
      assert s[0..] == s;
    }
  }

  /** A suffix of the text after a '.' is a suffix of the whole. */
  lemma LastPieceSuffixStep(s: string, i: nat, t: string, y: string, x: string)
    requires i < |s| && s[i] == '.' && t == s[i + 1..]
    requires |y| <= |t| && y == t[|t| - |y|..]
    requires |y| < |t| ==> t[|t| - |y| - 1] == '.'
    requires x == y
    ensures |x| <= |s| && x == s[|s| - |x|..]
    ensures |x| < |s| ==> s[|s| - |x| - 1] == '.'
  {
    assert |s| == i + 1 + |t|;
    var c := |s| - |x|;
    forall k | 0 <= k < |x| ensures s[c..][k] == x[k] {
      assert x[k] == t[|t| - |x| + k] == s[c + k];
    }
    assert s[c..] == x;
    if |x| < |t| {
      assert t[|t| - |x| - 1] == s[c - 1];
    }
  }

  /** The last piece of a split on '.' is the text after the last '.'. */
  lemma {:induction false} LastPieceAfterLastDot(s: string)
    ensures LastPiece(s) == s[RFind(s, '.') + 1..]
  {
    var x := LastPiece(s);
    LastPieceSuffix(s);
    LastPieceNoDot(s);
    var j := |s| - |x| - 1;
    forall k | j < k < |s| ensures s[k] != '.' {
      assert s[k] == x[k - j - 1];
    }
    RFindAt(s, '.', j);
  }

  /** Unlike `export`, `importfile` ignores directories and hidden files:
      its default format is the text after the last '.' anywhere in the
      name, possibly empty, and the whole name when it has no '.'. */
  lemma ImportFormatDefault(fname: string)
    ensures ImportFormat(fname, None) == fname[RFind(fname, '.') + 1..]
    ensures '.' !in fname ==> ImportFormat(fname, None) == fname
  {
    LastPieceAfterLastDot(fname);
    if '.' !in fname { RFindAt(fname, '.', -1); }
  }

  // ---------------------------------------------------------------------
  // export

  /** What an export handler returns: the main file's content and the
      additional files, in the handler's dictionary order. */
  datatype ExportOutput = ExportOutput(filetext: string, extraFiles: seq<(string, string)>)

  function FileNames(files: seq<(string, string)>): (r: seq<string>)
    ensures |r| == |files|
    ensures forall k :: 0 <= k < |files| ==> r[k] == files[k].0
  {
    seq(|files|, k requires 0 <= k < |files| => files[k].0)
  }

  /** The loop of `export` over the additional files: the first one that
      exists stops the export with an OSError naming it. */
  method CheckNoneExists(files: seq<(string, string)>, existing: set<string>) returns (r: Result<(), DataError>)
    ensures r.Ok? <==> forall k :: 0 <= k < |files| ==> files[k].0 !in existing
    ensures forall i :: 0 <= i < |files| && files[i].0 in existing &&
                        (forall k :: 0 <= k < i ==> files[k].0 !in existing) ==>
      r == Err(OSError("The file " + files[i].0 + " already exists, stopping."))
  {
    for i := 0 to |files|
      invariant forall k :: 0 <= k < i ==> files[k].0 !in existing
    {
      if files[i].0 in existing {
        return Err(OSError("The file " + files[i].0 + " already exists, stopping."));
      }
    }
    return Ok(());
  }

  /** `export`: checks the path, infers the format, looks the handler up,
      refuses to overwrite any existing file unless asked to, and returns
      the names of the files it writes: the additional files in the
      handler's order, then the main path.  `existing` stands for the
      files `os.path.exists` reports; the writes themselves are not
      modelled. */
  method Export(path: string, fileformat: Option<string>, overwrite: bool, existing: set<string>,
                replacements: map<string, string>, members: map<string, ExportOutput>, className: string)
    returns (r: Result<seq<string>, DataError>)
    ensures path == [] ==> r == Err(ValueError(PATH_NOT_RECOGNIZED))
    ensures path != [] && path in existing && !overwrite ==>
      r == Err(OSError("A file was already found at " + path))
    ensures path != [] && (overwrite || path !in existing) && ExportFormat(path, fileformat, replacements).Err? ==>
      r == Err(ExportFormat(path, fileformat, replacements).error)
    ensures path != [] && (overwrite || path !in existing) && ExportFormat(path, fileformat, replacements).Ok? ==>
      var c := ExportContent(members, ExportFormat(path, fileformat, replacements).value, className);
      c.Err? ==> r == Err(c.error)
    // Without `overwrite`, the first additional file that exists is the one reported.
    ensures path != [] && !overwrite && path !in existing && ExportFormat(path, fileformat, replacements).Ok? ==>
      var c := ExportContent(members, ExportFormat(path, fileformat, replacements).value, className);
      c.Ok? ==>
        forall i :: 0 <= i < |c.value.extraFiles| && c.value.extraFiles[i].0 in existing &&
                    (forall k :: 0 <= k < i ==> c.value.extraFiles[k].0 !in existing) ==>
          r == Err(OSError("The file " + c.value.extraFiles[i].0 + " already exists, stopping."))
    ensures r.Ok? <==>
      && path != [] && (overwrite || path !in existing)
      && ExportFormat(path, fileformat, replacements).Ok?
      && EXPORT_PREFIX + ExportFormat(path, fileformat, replacements).value in members
      && (overwrite || forall k :: 0 <= k < |members[EXPORT_PREFIX + ExportFormat(path, fileformat, replacements).value].extraFiles| ==>
                         members[EXPORT_PREFIX + ExportFormat(path, fileformat, replacements).value].extraFiles[k].0 !in existing)
    ensures r.Ok? ==>
      r.value == FileNames(members[EXPORT_PREFIX + ExportFormat(path, fileformat, replacements).value].extraFiles) + [path]
  {
    if path == [] {
      return Err(ValueError(PATH_NOT_RECOGNIZED));
    }
    if path in existing && !overwrite {
      return Err(OSError("A file was already found at " + path));
    }
    var format :- ExportFormat(path, fileformat, replacements);
    var output :- ExportContent(members, format, className);
    var extra := output.extraFiles;
    if !overwrite {
      var checked := CheckNoneExists(extra, existing);
      if checked.Err? {
        return Err(checked.error);
      }
    }
    var retlist := WrittenFiles(extra, path);
    return Ok(retlist);
  }

  /** The list `export` returns: the additional files' names in order,
      then the main path. */
  method WrittenFiles(files: seq<(string, string)>, path: string) returns (r: seq<string>)
    ensures r == FileNames(files) + [path]
  {
    r := [];
    for i := 0 to |files|
      invariant r == FileNames(files[..i])
    {
      r := r + [files[i].0];
    }
    assert files[..|files|] == files;
    r := r + [path];
  }
}
