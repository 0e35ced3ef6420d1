/** The CIF data node: its enumerated scan-type and parse-policy settings,
    and the queries it answers from its parsed datablocks (formulae,
    space-group numbers, attached hydrogens, atomic sites, unknown
    species). The parsed datablocks, in file order, are a parameter. */
module CifNode {
  import opened Wrappers
  import opened Text
  import opened CifLayout
  import opened CifFormula
  import CifAse

  const SCAN_TYPES: seq<string> := ["standard", "flex"]
  const PARSE_POLICIES: seq<string> := ["eager", "lazy"]

  /** The node's settings, with the defaults it gets on creation. */
  class CifData {
    var scanType: string
    var parsePolicy: string

    predicate Valid()
      reads this
    {
      scanType in SCAN_TYPES && parsePolicy in PARSE_POLICIES
    }

    constructor ()
      ensures scanType == SCAN_TYPES[0] && parsePolicy == "eager"
      ensures Valid()
    {
      scanType := SCAN_TYPES[0];
      parsePolicy := "eager";
    }

    /** `set_scan_type`: a known scan type is stored, anything else is a
        ValueError and changes nothing. */
    method SetScanType(scanType: string) returns (r: Result<(), string>)
      modifies this
      ensures scanType in SCAN_TYPES ==> r.Ok? && this.scanType == scanType
      ensures scanType !in SCAN_TYPES ==>
        r == Err("Got unknown scan_type " + scanType) && this.scanType == old(this.scanType)
      ensures parsePolicy == old(parsePolicy)
      ensures old(Valid()) ==> Valid()
    {
      if scanType in SCAN_TYPES {
        this.scanType := scanType;
        return Ok(());
      }
      return Err("Got unknown scan_type " + scanType);
    }

    /** `set_parse_policy`: a known policy is stored, anything else is a
        ValueError and changes nothing. */
    method SetParsePolicy(parsePolicy: string) returns (r: Result<(), string>)
      modifies this
      ensures parsePolicy in PARSE_POLICIES ==> r.Ok? && this.parsePolicy == parsePolicy
      ensures parsePolicy !in PARSE_POLICIES ==>
        r == Err("Got unknown parse_policy " + parsePolicy) && this.parsePolicy == old(this.parsePolicy)
      ensures scanType == old(scanType)
      ensures old(Valid()) ==> Valid()
    {
      if parsePolicy in PARSE_POLICIES {
        this.parsePolicy := parsePolicy;
        return Ok(());
      }
      return Err("Got unknown parse_policy " + parsePolicy);
    }
  }

  // -----------------------------------------------------------------------
  // Queries over the parsed datablocks

  /** What a query raises when a value is not the text it expects (Python's
      AttributeError or TypeError on a looped value). */
  datatype QueryError = NotText(tag: Tag)

  /** The elements Python's iteration visits: the items of a list or
      tuple, the one-character strings of a text. */
  function Elements(v: CifValue): (r: seq<CifValue>)
    ensures v.Text? ==> |r| == |v.s| && forall i :: 0 <= i < |v.s| ==> r[i] == Text([v.s[i]])
    ensures !v.Text? ==> r == v.items
  {
    match v
    case Text(s) => seq(|s|, i requires 0 <= i < |s| => Text([s[i]]))
    case List(items) => items
    case Tuple(items) => items
  }

  function FormulaTag(mode: string): Tag {
    "_chemical_formula_" + mode
  }

  /** `get_formulae`: per datablock, the value of the formula tag of the
      mode, or None. */
  function GetFormulae(blocks: seq<map<Tag, CifValue>>, mode: string): (r: seq<Option<CifValue>>)
    ensures |r| == |blocks|
    ensures forall k :: 0 <= k < |blocks| ==>
      (r[k].Some? <==> FormulaTag(mode) in blocks[k])
      && (r[k].Some? ==> r[k].value == blocks[k][FormulaTag(mode)])
    decreases |blocks|
  {
    if blocks == [] then []
    else
      var tag := FormulaTag(mode);
      var formula := if tag in blocks[0] then Some(blocks[0][tag]) else None;
      [formula] + GetFormulae(blocks[1..], mode)
  }

  const SPACEGROUP_TAGS: seq<Tag> := ["_space_group.it_number", "_space_group_it_number",
                                      "_symmetry_int_tables_number"]

  /** The first of `tags` the datablock holds. */
  function FirstPresent(tags: seq<Tag>, block: map<Tag, CifValue>): (r: Option<nat>)
    ensures r.None? <==> forall t :: t in tags ==> t !in block
    ensures r.Some? ==> r.value < |tags| && tags[r.value] in block
                        && forall j :: 0 <= j < r.value ==> tags[j] !in block
    decreases |tags|
  {
    if tags == [] then None
    else if tags[0] in block then Some(0)
    else
      match FirstPresent(tags[1..], block)
      case None => None
      case Some(j) => Some(j + 1)
  }

  /** The space-group number of one datablock: the integer value of the
      first present tag in priority order, None when no tag is present or
      its text is not an integer. */
  function SpacegroupNumber(block: map<Tag, CifValue>): (r: Result<Option<int>, QueryError>)
    ensures (forall t :: t in SPACEGROUP_TAGS ==> t !in block) ==> r == Ok(None)
    ensures forall j :: 0 <= j < |SPACEGROUP_TAGS| && SPACEGROUP_TAGS[j] in block &&
                        (forall i :: 0 <= i < j ==> SPACEGROUP_TAGS[i] !in block) ==>
      r == if block[SPACEGROUP_TAGS[j]].Text? then Ok(ParseInt(block[SPACEGROUP_TAGS[j]].s))
           else Err(NotText(SPACEGROUP_TAGS[j]))
  {
    match FirstPresent(SPACEGROUP_TAGS, block)
    case None => Ok(None)
    case Some(j) =>
      var v := block[SPACEGROUP_TAGS[j]];
      if v.Text? then Ok(ParseInt(v.s)) else Err(NotText(SPACEGROUP_TAGS[j]))
  }

  /** `get_spacegroup_numbers`: one entry per datablock, in order. */
  function GetSpacegroupNumbers(blocks: seq<map<Tag, CifValue>>): (r: Result<seq<Option<int>>, QueryError>)
    ensures r.Ok? <==> forall k :: 0 <= k < |blocks| ==> SpacegroupNumber(blocks[k]).Ok?
    ensures r.Ok? ==> |r.value| == |blocks|
                      && forall k :: 0 <= k < |blocks| ==> r.value[k] == SpacegroupNumber(blocks[k]).value
    decreases |blocks|
  {
    if blocks == [] then Ok([])
    else
      var n :- SpacegroupNumber(blocks[0]);
      var rest :- GetSpacegroupNumbers(blocks[1..]);
      assert forall k :: 1 <= k < |blocks| ==> blocks[k] == blocks[1..][k - 1];
      Ok([n] + rest)
  }

  /** A datablock whose first present space-group tag holds an integer in
      Python's `str()` form gives that integer back, whatever the later
      tags hold. */
  lemma SpacegroupNumberOfWritten(block: map<Tag, CifValue>, j: nat, n: int)
    requires j < |SPACEGROUP_TAGS| && SPACEGROUP_TAGS[j] in block
    requires block[SPACEGROUP_TAGS[j]] == Text(IntToString(n))
    requires forall i :: 0 <= i < j ==> SPACEGROUP_TAGS[i] !in block
    ensures SpacegroupNumber(block) == Ok(Some(n))
  {
    ParseIntOfIntToString(n);
  }

  /** The datablock written for an ASE structure reads back as space group
      1 when the structure is periodic in all directions, and as None
      otherwise. */
  lemma AseSpacegroup(atoms: CifAse.Atoms, fullOccupancies: bool, addFakeBiso: bool)
    ensures SpacegroupNumber(CifAse.AseDatablock(atoms, fullOccupancies, addFakeBiso))
         == Ok(if atoms.pbcAll then Some(1) else None)
  {
    var d := CifAse.AseDatablock(atoms, fullOccupancies, addFakeBiso);
    CifAse.AseDatablockNoSpaceGroupTag(atoms, fullOccupancies, addFakeBiso);
    assert "_space_group.it_number" !in d && "_space_group_it_number" !in d;
    if atoms.pbcAll {
      assert d["_symmetry_int_tables_number"] == Text(IntToString(1));
      SpacegroupNumberOfWritten(d, 2, 1);
    }
  }

  const ATTACHED_HYDROGENS_TAG: Tag := "_atom_site_attached_hydrogens"

  /** An attached-hydrogens entry other than '.', '?' and '0'. */
  predicate NamesHydrogens(v: CifValue) {
    v != Text(".") && v != Text("?") && v != Text("0")
  }

  predicate BlockHasHydrogens(block: map<Tag, CifValue>) {
    ATTACHED_HYDROGENS_TAG in block
    && exists i :: 0 <= i < |Elements(block[ATTACHED_HYDROGENS_TAG])|
                   && NamesHydrogens(Elements(block[ATTACHED_HYDROGENS_TAG])[i])
  }

  function AnyNamesHydrogens(vs: seq<CifValue>): (r: bool)
    ensures r <==> exists i :: 0 <= i < |vs| && NamesHydrogens(vs[i])
    decreases |vs|
  {
    if vs == [] then false
    else NamesHydrogens(vs[0]) || (assert forall i :: 1 <= i < |vs| ==> vs[i] == vs[1..][i - 1];
                                   AnyNamesHydrogens(vs[1..]))
  }

  /** `has_attached_hydrogens`: some datablock lists attached hydrogens. */
  function HasAttachedHydrogens(blocks: seq<map<Tag, CifValue>>): (r: bool)
    ensures r <==> exists k :: 0 <= k < |blocks| && BlockHasHydrogens(blocks[k])
    decreases |blocks|
  {
    if blocks == [] then false
    else
      var here := ATTACHED_HYDROGENS_TAG in blocks[0]
                  && AnyNamesHydrogens(Elements(blocks[0][ATTACHED_HYDROGENS_TAG]));
      here || (assert forall k :: 1 <= k < |blocks| ==> blocks[k] == blocks[1..][k - 1];
               HasAttachedHydrogens(blocks[1..]))
  }

  const FRACT_TAGS: seq<Tag> := ["_atom_site_fract_x", "_atom_site_fract_y", "_atom_site_fract_z"]

  /** The fractional coordinates of a datablock, x then y then z. */
  function BlockCoords(block: map<Tag, CifValue>, tags: seq<Tag>): seq<CifValue>
    decreases |tags|
  {
    if tags == [] then []
    else (if tags[0] in block then Elements(block[tags[0]]) else []) + BlockCoords(block, tags[1..])
  }

  /** All fractional coordinates, datablock by datablock. */
  function Coords(blocks: seq<map<Tag, CifValue>>): seq<CifValue>
    decreases |blocks|
  {
    if blocks == [] then [] else BlockCoords(blocks[0], FRACT_TAGS) + Coords(blocks[1..])
  }

  /** `has_atomic_sites`: not every coordinate is '?'. */
  function HasAtomicSites(blocks: seq<map<Tag, CifValue>>): bool {
    var coords := Coords(blocks);
    !(forall i :: 0 <= i < |coords| ==> coords[i] == Text("?"))
  }

  /** Some element of `s` is not '?'. */
  predicate AnyKnownCoord(s: seq<CifValue>) {
    exists i :: 0 <= i < |s| && s[i] != Text("?")
  }

  lemma AnyKnownCoordConcat(a: seq<CifValue>, b: seq<CifValue>)
    ensures AnyKnownCoord(a + b) <==> AnyKnownCoord(a) || AnyKnownCoord(b)
  {
    if AnyKnownCoord(a + b) {
      var i :| 0 <= i < |a + b| && (a + b)[i] != Text("?");
      if i >= |a| {
        assert b[i - |a|] == (a + b)[i];
      }
    }
    if AnyKnownCoord(a) {
      var i :| 0 <= i < |a| && a[i] != Text("?");
      assert (a + b)[i] == a[i];
    }
    if AnyKnownCoord(b) {
      var i :| 0 <= i < |b| && b[i] != Text("?");
      assert (a + b)[|a| + i] == b[i];
    }
  }

  /** One of `tags` is present in the datablock with a coordinate that is
      not '?'. */
  predicate SiteIn(block: map<Tag, CifValue>, tags: seq<Tag>) {
    exists j :: 0 <= j < |tags| && tags[j] in block && AnyKnownCoord(Elements(block[tags[j]]))
  }

  lemma {:induction false} BlockCoordsKnown(block: map<Tag, CifValue>, tags: seq<Tag>)
    ensures AnyKnownCoord(BlockCoords(block, tags)) <==> SiteIn(block, tags)
    decreases |tags|
  {
    if tags != [] {
      BlockCoordsKnown(block, tags[1..]);
      AnyKnownCoordConcat(if tags[0] in block then Elements(block[tags[0]]) else [], BlockCoords(block, tags[1..]));
      if SiteIn(block, tags[1..]) {
        var j :| 0 <= j < |tags[1..]| && tags[1..][j] in block && AnyKnownCoord(Elements(block[tags[1..][j]]));
        assert tags[j + 1] == tags[1..][j];
      }
      if SiteIn(block, tags) {
        var j :| 0 <= j < |tags| && tags[j] in block && AnyKnownCoord(Elements(block[tags[j]]));
        if j > 0 {
          assert tags[1..][j - 1] == tags[j];
        }
      }
    }
  }

  lemma {:induction false} CoordsKnown(blocks: seq<map<Tag, CifValue>>)
    ensures AnyKnownCoord(Coords(blocks)) <==> exists k :: 0 <= k < |blocks| && SiteIn(blocks[k], FRACT_TAGS)
    decreases |blocks|
  {
    if blocks != [] {
      CoordsKnown(blocks[1..]);
      BlockCoordsKnown(blocks[0], FRACT_TAGS);
      AnyKnownCoordConcat(BlockCoords(blocks[0], FRACT_TAGS), Coords(blocks[1..]));
      if exists k :: 0 <= k < |blocks[1..]| && SiteIn(blocks[1..][k], FRACT_TAGS) {
        var k :| 0 <= k < |blocks[1..]| && SiteIn(blocks[1..][k], FRACT_TAGS);
        assert blocks[k + 1] == blocks[1..][k];
      }
      if exists k :: 0 <= k < |blocks| && SiteIn(blocks[k], FRACT_TAGS) {
        var k :| 0 <= k < |blocks| && SiteIn(blocks[k], FRACT_TAGS);
        if k > 0 {
          assert blocks[1..][k - 1] == blocks[k];
        }
      }
    }
  }

  /** Atomic sites are present exactly when some datablock has a
      fractional coordinate other than '?'. */
  lemma HasAtomicSitesExactly(blocks: seq<map<Tag, CifValue>>)
    ensures HasAtomicSites(blocks) <==> exists k :: 0 <= k < |blocks| && SiteIn(blocks[k], FRACT_TAGS)
  {
    CoordsKnown(blocks);
  }

  /** The species of a formula value, or the error of splitting a value
      that is not text. */
  function FormulaSpecies(v: CifValue, tag: Tag): Result<set<string>, QueryError> {
    if v.Text? then Ok(FormulaContents(v.s).Keys) else Err(NotText(tag))
  }

  /** `has_unknown_species` over the formulae in order: None at the first
      missing formula, True at the first formula with a species outside
      `known`, False when neither happens. */
  function UnknownSpecies(formulae: seq<Option<CifValue>>, known: set<string>, tag: Tag)
    : Result<Option<bool>, QueryError>
    decreases |formulae|
  {
    if formulae == [] then Ok(Some(false))
    else if formulae[0].None? then Ok(None)
    else
      var species :- FormulaSpecies(formulae[0].value, tag);
      if exists sp :: sp in species && sp !in known then Ok(Some(true))
      else UnknownSpecies(formulae[1..], known, tag)
  }

  /** `has_unknown_species`, from the sum formulae of the datablocks. */
  function HasUnknownSpecies(blocks: seq<map<Tag, CifValue>>, known: set<string>): Result<Option<bool>, QueryError> {
    UnknownSpecies(GetFormulae(blocks, "sum"), known, FormulaTag("sum"))
  }

  /** The answer, in terms of the datablocks: False exactly when every
      block has a sum formula naming only known species, None only when
      some block has no sum formula. */
  lemma HasUnknownSpeciesAnswers(blocks: seq<map<Tag, CifValue>>, known: set<string>)
    ensures HasUnknownSpecies(blocks, known) == Ok(Some(false)) <==>
      forall k :: 0 <= k < |blocks| ==>
        FormulaTag("sum") in blocks[k] && blocks[k][FormulaTag("sum")].Text? &&
        FormulaContents(blocks[k][FormulaTag("sum")].s).Keys <= known
    ensures HasUnknownSpecies(blocks, known) == Ok(None) ==>
      exists k :: 0 <= k < |blocks| && FormulaTag("sum") !in blocks[k]
  {
    var f := GetFormulae(blocks, "sum");
    UnknownSpeciesAnswers(f, known, FormulaTag("sum"));
    if HasUnknownSpecies(blocks, known) == Ok(None) {
      var k :| 0 <= k < |f| && f[k].None?;
      assert FormulaTag("sum") !in blocks[k];
    }
  }

  /** Every formula is present text whose species are all known. */
  predicate AllKnown(formulae: seq<Option<CifValue>>, known: set<string>) {
    forall k :: 0 <= k < |formulae| ==>
      formulae[k].Some? && formulae[k].value.Text? && FormulaContents(formulae[k].value.s).Keys <= known
  }

  /** The answer is False exactly when every formula is present and names
      only known species; it is None only when some formula is missing. */
  lemma {:induction false} UnknownSpeciesAnswers(formulae: seq<Option<CifValue>>, known: set<string>, tag: Tag)
    ensures UnknownSpecies(formulae, known, tag) == Ok(Some(false)) <==> AllKnown(formulae, known)
    ensures UnknownSpecies(formulae, known, tag) == Ok(None) ==> exists k :: 0 <= k < |formulae| && formulae[k].None?
    ensures UnknownSpecies(formulae, known, tag) == Ok(Some(true)) ==>
      exists k, sp :: 0 <= k < |formulae| && formulae[k].Some? && formulae[k].value.Text?
                      && sp in FormulaContents(formulae[k].value.s) && sp !in known
    decreases |formulae|
  {
    if formulae != [] {
      UnknownSpeciesAnswers(formulae[1..], known, tag);
      var r := UnknownSpecies(formulae, known, tag);
      if formulae[0].Some? && formulae[0].value.Text? {
        var species := FormulaContents(formulae[0].value.s).Keys;
        if !(exists sp :: sp in species && sp !in known) {
          assert r == UnknownSpecies(formulae[1..], known, tag);
          assert species <= known;
          if AllKnown(formulae[1..], known) {
            forall k | 0 <= k < |formulae|
              ensures formulae[k].Some? && formulae[k].value.Text? && FormulaContents(formulae[k].value.s).Keys <= known
            {
              if k > 0 {
                assert formulae[k] == formulae[1..][k - 1];
              }
            }
          }
          if r == Ok(None) {
            var k :| 0 <= k < |formulae[1..]| && formulae[1..][k].None?;
            assert formulae[k + 1].None?;
          }
          if r == Ok(Some(true)) {
            var k, sp :| 0 <= k < |formulae[1..]| && formulae[1..][k].Some? && formulae[1..][k].value.Text?
                         && sp in FormulaContents(formulae[1..][k].value.s) && sp !in known;
            assert formulae[k + 1] == formulae[1..][k];
          }
        } else {
          var sp :| sp in species && sp !in known;
          assert !AllKnown(formulae, known) by {
            assert !(FormulaContents(formulae[0].value.s).Keys <= known);
          }
        }
      } else {
        assert !AllKnown(formulae, known) by {
          assert !(formulae[0].Some? && formulae[0].value.Text?);
        }
      }
    }
  }
}
