/** The CIF datablock that `cif_from_ase` builds for each ASE structure:
    the cell as text, the P 1 symmetry of a fully periodic structure, and
    one row per atom of the atom-site loop, each atom labelled by its
    symbol and its rank among the atoms of that symbol. */
module CifAse {
  import opened Wrappers
  import opened Text
  import opened CifLayout

  /** The six cell parameters, already rendered by Python's `str()`. */
  datatype CellText = CellText(a: string, b: string, c: string, alpha: string, beta: string, gamma: string)

  /** An atom: its chemical symbol and its fractional coordinates as text. */
  datatype Site = Site(symbol: string, x: string, y: string, z: string)

  /** One ASE structure: the cell, whether it is periodic along all three
      axes, and its atoms in order. */
  datatype Atoms = Atoms(cell: CellText, pbcAll: bool, sites: seq<Site>)

  /** The argument of `cif_from_ase`: one structure or a list of them. */
  datatype AseInput = One(atoms: Atoms) | Images(images: seq<Atoms>)

  const ATOM_SITE_TAGS: seq<Tag> := ["_atom_site_label", "_atom_site_fract_x", "_atom_site_fract_y",
                                     "_atom_site_fract_z", "_atom_site_type_symbol"]
  const OCCUPANCY_TAG: Tag := "_atom_site_occupancy"
  const DISPLACE_TYPE_TAG: Tag := "_atom_site_thermal_displace_type"
  const B_ISO_TAG: Tag := "_atom_site_B_iso_or_equiv"

  /** A lone structure is treated as a list of one. */
  function ImagesOf(input: AseInput): (r: seq<Atoms>)
    ensures input.One? ==> r == [input.atoms]
    ensures input.Images? ==> r == input.images
  {
    match input
    case One(atoms) => [atoms]
    case Images(images) => images
  }

  function Symbols(sites: seq<Site>): (r: seq<string>)
    ensures |r| == |sites| && forall i :: 0 <= i < |sites| ==> r[i] == sites[i].symbol
  {
    seq(|sites|, i requires 0 <= i < |sites| => sites[i].symbol)
  }

  /** How many times `x` occurs in `s`. */
  function Occurrences(s: seq<string>, x: string): nat
    decreases |s|
  {
    if s == [] then 0 else Occurrences(s[..|s| - 1], x) + (if s[|s| - 1] == x then 1 else 0)
  }

  /** The label of atom `i`: its symbol followed by how many atoms of that
      symbol there are up to and including it. */
  function Label(symbols: seq<string>, i: nat): string
    requires i < |symbols|
  {
    symbols[i] + NatToString(Occurrences(symbols[..i + 1], symbols[i]))
  }

  function Texts(s: seq<string>): (r: seq<CifValue>)
    ensures |r| == |s| && forall i :: 0 <= i < |s| ==> r[i] == Text(s[i])
  {
    seq(|s|, i requires 0 <= i < |s| => Text(s[i]))
  }

  /** The columns of the atom-site loop, as text. */
  datatype Columns = Columns(labels: seq<string>, xs: seq<string>, ys: seq<string>, zs: seq<string>,
                             types: seq<string>, occupancies: seq<string>, displaceTypes: seq<string>,
                             bIsos: seq<string>)

  /** The columns a structure's atoms give: row `i` of each column is about
      atom `i`; the optional columns are filled only when asked for. */
  function AtomColumns(sites: seq<Site>, fullOccupancies: bool, addFakeBiso: bool): Columns {
    var n := |sites|;
    Columns(seq(n, i requires 0 <= i < n => Label(Symbols(sites), i)),
            seq(n, i requires 0 <= i < n => sites[i].x),
            seq(n, i requires 0 <= i < n => sites[i].y),
            seq(n, i requires 0 <= i < n => sites[i].z),
            seq(n, i requires 0 <= i < n => sites[i].symbol),
            if fullOccupancies then seq(n, i => "1.0") else [],
            if addFakeBiso then seq(n, i => "Biso") else [],
            if addFakeBiso then seq(n, i => "1.0") else [])
  }

  /** The datablock of one structure. */
  function AseDatablock(atoms: Atoms, fullOccupancies: bool, addFakeBiso: bool): map<Tag, CifValue> {
    AtomSiteLayer(CellAndSymmetry(atoms), AtomColumns(atoms.sites, fullOccupancies, addFakeBiso),
                  fullOccupancies, addFakeBiso)
  }

  /** The cell tags, and the P 1 symmetry of a fully periodic structure. */
  function CellAndSymmetry(atoms: Atoms): map<Tag, CifValue> {
    var cell := map["_cell_length_a" := Text(atoms.cell.a), "_cell_length_b" := Text(atoms.cell.b),
                    "_cell_length_c" := Text(atoms.cell.c), "_cell_angle_alpha" := Text(atoms.cell.alpha),
                    "_cell_angle_beta" := Text(atoms.cell.beta), "_cell_angle_gamma" := Text(atoms.cell.gamma)];
    if atoms.pbcAll then
      cell["_symmetry_space_group_name_H-M" := Text("P 1")]["_symmetry_int_tables_number" := Text("1")]
        ["_symmetry_equiv_pos_as_xyz" := List([Text("x, y, z")])]
    else cell
  }

  /** The per-atom tags, each a list of the column's rows, added to `base`. */
  function AtomSiteLayer(base: map<Tag, CifValue>, c: Columns, fullOccupancies: bool, addFakeBiso: bool)
    : map<Tag, CifValue>
  {
    var sites := base["_atom_site_label" := List(Texts(c.labels))]["_atom_site_fract_x" := List(Texts(c.xs))]
      ["_atom_site_fract_y" := List(Texts(c.ys))]["_atom_site_fract_z" := List(Texts(c.zs))]
      ["_atom_site_type_symbol" := List(Texts(c.types))];
    var occupancy := if fullOccupancies then sites[OCCUPANCY_TAG := List(Texts(c.occupancies))] else sites;
    if addFakeBiso then
      occupancy[DISPLACE_TYPE_TAG := List(Texts(c.displaceTypes))][B_ISO_TAG := List(Texts(c.bIsos))]
    else occupancy
  }

  // -----------------------------------------------------------------------
  // The construction, as the source does it

  function Prefix(s: seq<string>, i: nat): seq<string> {
    if i <= |s| then s[..i] else s
  }

  /** The first `i` rows of the columns. */
  function TakeRows(c: Columns, i: nat): Columns {
    Columns(Prefix(c.labels, i), Prefix(c.xs, i), Prefix(c.ys, i), Prefix(c.zs, i), Prefix(c.types, i),
            Prefix(c.occupancies, i), Prefix(c.displaceTypes, i), Prefix(c.bIsos, i))
  }

  lemma PrefixStep(s: seq<string>, i: nat, n: nat)
    requires i < n && (|s| == n || |s| == 0)
    ensures |s| == n ==> Prefix(s, i + 1) == Prefix(s, i) + [s[i]]
    ensures |s| == 0 ==> Prefix(s, i + 1) == Prefix(s, i) == []
  {
    if |s| == n {
      assert s[..i + 1] == s[..i] + [s[i]];
    }
  }

  /** The atoms' loop: a counter per symbol, and one row per atom appended
      to every column. */
  method AtomSiteColumns(sites: seq<Site>, fullOccupancies: bool, addFakeBiso: bool) returns (c: Columns)
    ensures c == AtomColumns(sites, fullOccupancies, addFakeBiso)
  {
    ghost var symbols := Symbols(sites);
    ghost var all := AtomColumns(sites, fullOccupancies, addFakeBiso);
    var no: map<string, nat> := map[];
    c := Columns([], [], [], [], [], [], [], []);
    TakeAllRows(all, sites, fullOccupancies, addFakeBiso);
    for i := 0 to |sites|
      invariant no == CountMap(symbols[..i])
      invariant c == TakeRows(all, i)
    {
      var symbol := sites[i].symbol;
      no := Bump(no, symbol);
      CounterStep(symbols, i);
      RowStep(all, sites, i, fullOccupancies, addFakeBiso);
      c := AppendRow(c, symbol + NatToString(no[symbol]), sites[i], fullOccupancies, addFakeBiso);
    }
    TakeAllRows(all, sites, fullOccupancies, addFakeBiso);
  }

  /** No rows and all rows of the atoms' columns. */
  lemma TakeAllRows(all: Columns, sites: seq<Site>, fullOccupancies: bool, addFakeBiso: bool)
    requires all == AtomColumns(sites, fullOccupancies, addFakeBiso)
    ensures TakeRows(all, 0) == Columns([], [], [], [], [], [], [], [])
    ensures TakeRows(all, |sites|) == all
  {
    var n := |sites|;
    assert all.labels[..n] == all.labels && all.xs[..n] == all.xs && all.ys[..n] == all.ys;
    assert all.zs[..n] == all.zs && all.types[..n] == all.types;
  }

  /** One row appended to every column: the label, the coordinates and the
      symbol, and the constant entries of the optional columns. */
  function AppendRow(c: Columns, rowLabel: string, site: Site, fullOccupancies: bool, addFakeBiso: bool): Columns {
    var withSite := c.(labels := c.labels + [rowLabel], xs := c.xs + [site.x], ys := c.ys + [site.y],
                       zs := c.zs + [site.z], types := c.types + [site.symbol]);
    var withOccupancy :=
      if fullOccupancies then withSite.(occupancies := withSite.occupancies + ["1.0"]) else withSite;
    if addFakeBiso then
      withOccupancy.(displaceTypes := withOccupancy.displaceTypes + ["Biso"], bIsos := withOccupancy.bIsos + ["1.0"])
    else withOccupancy
  }

  /** Appending the row of atom `i` to the first `i` rows gives the first
      `i + 1` rows. */
  lemma RowStep(all: Columns, sites: seq<Site>, i: nat, fullOccupancies: bool, addFakeBiso: bool)
    requires i < |sites| && all == AtomColumns(sites, fullOccupancies, addFakeBiso)
    ensures AppendRow(TakeRows(all, i), Label(Symbols(sites), i), sites[i], fullOccupancies, addFakeBiso)
            == TakeRows(all, i + 1)
  {
    TakeRowsStep(all, i, |sites|);
  }

  lemma TakeRowsStep(c: Columns, i: nat, n: nat)
    requires i < n
    requires |c.labels| == n && |c.xs| == n && |c.ys| == n && |c.zs| == n && |c.types| == n
    requires |c.occupancies| in {0, n} && |c.displaceTypes| in {0, n} && |c.bIsos| in {0, n}
    ensures var t := TakeRows(c, i);
      TakeRows(c, i + 1) ==
        t.(labels := t.labels + [c.labels[i]], xs := t.xs + [c.xs[i]], ys := t.ys + [c.ys[i]],
           zs := t.zs + [c.zs[i]], types := t.types + [c.types[i]],
           occupancies := if |c.occupancies| == 0 then [] else t.occupancies + [c.occupancies[i]],
           displaceTypes := if |c.displaceTypes| == 0 then [] else t.displaceTypes + [c.displaceTypes[i]],
           bIsos := if |c.bIsos| == 0 then [] else t.bIsos + [c.bIsos[i]])
  {
    PrefixStep(c.labels, i, n);
    PrefixStep(c.xs, i, n);
    PrefixStep(c.ys, i, n);
    PrefixStep(c.zs, i, n);
    PrefixStep(c.types, i, n);
    PrefixStep(c.occupancies, i, n);
    PrefixStep(c.displaceTypes, i, n);
    PrefixStep(c.bIsos, i, n);
  }

  /** Counting one more `x`. */
  function Bump(no: map<string, nat>, x: string): (r: map<string, nat>)
    ensures r.Keys == no.Keys + {x}
    ensures r[x] == (if x in no then no[x] + 1 else 1)
    ensures forall y :: y in no && y != x ==> r[y] == no[y]
  {
    if x in no then no[x := no[x] + 1] else no[x := 1]
  }

  /** The per-symbol counter after seeing `seen`, one symbol at a time. */
  function CountMap(seen: seq<string>): map<string, nat>
    decreases |seen|
  {
    if seen == [] then map[] else Bump(CountMap(seen[..|seen| - 1]), seen[|seen| - 1])
  }

  /** The counter holds exactly the symbols seen, each with how often it
      was seen. */
  lemma {:induction false} CountMapCounts(seen: seq<string>)
    ensures forall x :: x in CountMap(seen) <==> x in seen
    ensures forall x :: x in CountMap(seen) ==> CountMap(seen)[x] == Occurrences(seen, x)
    decreases |seen|
  {
    if seen != [] {
      var init, x := seen[..|seen| - 1], seen[|seen| - 1];
      CountMapCounts(init);
      assert seen == init + [x];
      OccurrencesAbsent(init, x);
    }
  }

  /** Counting atom `i` gives it its label. */
  lemma CounterStep(symbols: seq<string>, i: nat)
    requires i < |symbols|
    ensures CountMap(symbols[..i + 1]) == Bump(CountMap(symbols[..i]), symbols[i])
    ensures symbols[i] in CountMap(symbols[..i + 1])
    ensures symbols[i] + NatToString(CountMap(symbols[..i + 1])[symbols[i]]) == Label(symbols, i)
  {
    assert symbols[..i + 1][..i] == symbols[..i];
    CountMapCounts(symbols[..i + 1]);
  }

  lemma OccurrencesAbsent(s: seq<string>, x: string)
    ensures x !in s ==> Occurrences(s, x) == 0
    decreases |s|
  {
    if s != [] {
      assert x !in s ==> x !in s[..|s| - 1];
      OccurrencesAbsent(s[..|s| - 1], x);
    }
  }

  /** The datablock of one structure. */
  method DatablockFromAtoms(atoms: Atoms, fullOccupancies: bool, addFakeBiso: bool)
    returns (d: map<Tag, CifValue>)
    ensures d == AseDatablock(atoms, fullOccupancies, addFakeBiso)
  {
    var c := AtomSiteColumns(atoms.sites, fullOccupancies, addFakeBiso);
    d := map["_cell_length_a" := Text(atoms.cell.a), "_cell_length_b" := Text(atoms.cell.b),
             "_cell_length_c" := Text(atoms.cell.c), "_cell_angle_alpha" := Text(atoms.cell.alpha),
             "_cell_angle_beta" := Text(atoms.cell.beta), "_cell_angle_gamma" := Text(atoms.cell.gamma)];
    if atoms.pbcAll {
      d := d["_symmetry_space_group_name_H-M" := Text("P 1")];
      d := d["_symmetry_int_tables_number" := Text(NatToString(1))];
      d := d["_symmetry_equiv_pos_as_xyz" := List([Text("x, y, z")])];
    }
    d := d["_atom_site_label" := List(Texts(c.labels))]["_atom_site_fract_x" := List(Texts(c.xs))]
      ["_atom_site_fract_y" := List(Texts(c.ys))]["_atom_site_fract_z" := List(Texts(c.zs))]
      ["_atom_site_type_symbol" := List(Texts(c.types))];
    if fullOccupancies {
      d := d[OCCUPANCY_TAG := List(Texts(c.occupancies))];
    }
    if addFakeBiso {
      d := d[DISPLACE_TYPE_TAG := List(Texts(c.displaceTypes))][B_ISO_TAG := List(Texts(c.bIsos))];
    }
  }

  /** `cif_from_ase`: one datablock per structure. */
  method CifFromAse(input: AseInput, fullOccupancies: bool, addFakeBiso: bool)
    returns (datablocks: seq<map<Tag, CifValue>>)
    ensures |datablocks| == |ImagesOf(input)|
    ensures forall k :: 0 <= k < |datablocks| ==>
      datablocks[k] == AseDatablock(ImagesOf(input)[k], fullOccupancies, addFakeBiso)
  {
    var images := ImagesOf(input);
    datablocks := [];
    for k := 0 to |images|
      invariant |datablocks| == k
      invariant forall j :: 0 <= j < k ==> datablocks[j] == AseDatablock(images[j], fullOccupancies, addFakeBiso)
    {
      var d := DatablockFromAtoms(images[k], fullOccupancies, addFakeBiso);
      datablocks := datablocks + [d];
    }
  }

  // -----------------------------------------------------------------------
  // Properties of the labels and the datablock

  /** The length of the non-digit start of a label. */
  function SymbolLength(l: string): (n: nat)
    ensures n <= |l|
    decreases |l|
  {
    if l == [] || IsDigit(l[0]) then 0 else 1 + SymbolLength(l[1..])
  }

  predicate DigitFree(s: string) {
    forall k :: 0 <= k < |s| ==> !IsDigit(s[k])
  }

  lemma {:induction false} SymbolLengthOf(a: string, d: string)
    requires DigitFree(a) && (d == [] || IsDigit(d[0]))
    ensures SymbolLength(a + d) == |a|
    decreases |a|
  {
    if a != [] {
      assert (a + d)[0] == a[0];
      assert (a + d)[1..] == a[1..] + d;
      SymbolLengthOf(a[1..], d);
    } else {
      assert a + d == d;
    }
  }

  /** The symbol a label starts with. */
  function LabelSymbol(l: string): string {
    l[..SymbolLength(l)]
  }

  /** The rank a label ends with. */
  function LabelRank(l: string): nat
    requires AllDigits(l[SymbolLength(l)..])
  {
    DigitsValue(l[SymbolLength(l)..])
  }

  /** A label of a digit-free symbol gives back the symbol and the atom's
      rank among the atoms of that symbol, counting from one. */
  lemma LabelParts(symbols: seq<string>, i: nat)
    requires i < |symbols| && DigitFree(symbols[i])
    ensures LabelSymbol(Label(symbols, i)) == symbols[i]
    ensures AllDigits(Label(symbols, i)[SymbolLength(Label(symbols, i))..])
    ensures LabelRank(Label(symbols, i)) == Occurrences(symbols[..i + 1], symbols[i]) >= 1
  {
    var n := Occurrences(symbols[..i + 1], symbols[i]);
    var l := Label(symbols, i);
    SymbolLengthOf(symbols[i], NatToString(n));
    assert l[..|symbols[i]|] == symbols[i];
    assert l[|symbols[i]|..] == NatToString(n);
    DigitsOfNatToString(n);
    assert symbols[..i + 1] == symbols[..i] + [symbols[i]];
    assert symbols[..i + 1][..i] == symbols[..i];
  }

  /** Counting over a longer prefix counts at least as many. */
  lemma {:induction false} OccurrencesGrow(s: seq<string>, x: string, a: nat, b: nat)
    requires a <= b <= |s|
    ensures Occurrences(s[..a], x) <= Occurrences(s[..b], x)
    decreases b - a
  {
    if a < b {
      OccurrencesGrow(s, x, a, b - 1);
      assert s[..b][..b - 1] == s[..b - 1];
    }
  }

  /** With digit-free symbols, no two atoms share a label. */
  lemma LabelsDistinct(symbols: seq<string>)
    requires forall i :: 0 <= i < |symbols| ==> DigitFree(symbols[i])
    ensures forall i, j :: 0 <= i < j < |symbols| ==> Label(symbols, i) != Label(symbols, j)
  {
    forall i, j | 0 <= i < j < |symbols| ensures Label(symbols, i) != Label(symbols, j) {
      LabelParts(symbols, i);
      LabelParts(symbols, j);
      if symbols[i] == symbols[j] {
        OccurrencesGrow(symbols, symbols[i], i + 1, j);
        assert symbols[..j + 1][..j] == symbols[..j];
        assert LabelRank(Label(symbols, i)) < LabelRank(Label(symbols, j));
      } else {
        assert LabelSymbol(Label(symbols, i)) != LabelSymbol(Label(symbols, j));
      }
    }
  }

  /** The per-atom tags a datablock gets. */
  function AtomSiteTagsFor(fullOccupancies: bool, addFakeBiso: bool): seq<Tag> {
    ATOM_SITE_TAGS + (if fullOccupancies then [OCCUPANCY_TAG] else [])
      + (if addFakeBiso then [DISPLACE_TYPE_TAG, B_ISO_TAG] else [])
  }

  /** Each per-atom tag of a structure's datablock holds one row per atom. */
  lemma AtomSiteRows(atoms: Atoms, fullOccupancies: bool, addFakeBiso: bool)
    ensures var d := AseDatablock(atoms, fullOccupancies, addFakeBiso);
      forall t :: t in AtomSiteTagsFor(fullOccupancies, addFakeBiso) ==>
        t in d && d[t].List? && |Rows(d[t])| == |atoms.sites|
  {
    AtomSiteLayerRows(CellAndSymmetry(atoms), AtomColumns(atoms.sites, fullOccupancies, addFakeBiso),
                      |atoms.sites|, fullOccupancies, addFakeBiso);
  }

  /** The per-atom tags laid over any dictionary hold the columns' rows. */
  lemma AtomSiteLayerRows(base: map<Tag, CifValue>, c: Columns, n: nat, fullOccupancies: bool, addFakeBiso: bool)
    requires |c.labels| == n && |c.xs| == n && |c.ys| == n && |c.zs| == n && |c.types| == n
    requires fullOccupancies ==> |c.occupancies| == n
    requires addFakeBiso ==> |c.displaceTypes| == n && |c.bIsos| == n
    ensures var d := AtomSiteLayer(base, c, fullOccupancies, addFakeBiso);
      forall t :: t in AtomSiteTagsFor(fullOccupancies, addFakeBiso) ==> t in d && d[t].List? && |Rows(d[t])| == n
  {
  }

  const CELL_TAGS: set<Tag> := {"_cell_length_a", "_cell_length_b", "_cell_length_c",
                                "_cell_angle_alpha", "_cell_angle_beta", "_cell_angle_gamma"}
  const SYMMETRY_TAGS: set<Tag> := {"_symmetry_space_group_name_H-M", "_symmetry_int_tables_number",
                                    "_symmetry_equiv_pos_as_xyz"}

  /** The tags of a structure's datablock: the cell, the symmetry of a fully
      periodic structure, and the per-atom tags. */
  lemma AseDatablockKeys(atoms: Atoms, fullOccupancies: bool, addFakeBiso: bool)
    ensures AseDatablock(atoms, fullOccupancies, addFakeBiso).Keys
         == CELL_TAGS + (if atoms.pbcAll then SYMMETRY_TAGS else {})
            + (set t | t in AtomSiteTagsFor(fullOccupancies, addFakeBiso))
  {
  }

  /** A loop over per-atom tags of such a datablock never fails on row
      counts. */
  lemma AtomSiteLoopLaysOut(atoms: Atoms, fullOccupancies: bool, addFakeBiso: bool, tags: seq<Tag>, s: LoopScan)
    requires s.values == AseDatablock(atoms, fullOccupancies, addFakeBiso)
    requires forall t :: t in tags && t in s.values ==> t in AtomSiteTagsFor(fullOccupancies, addFakeBiso)
    ensures LoopOutcome(tags, s).Ok?
  {
    AtomSiteRows(atoms, fullOccupancies, addFakeBiso);
    LoopOutcomeError(tags, s);
  }

  /** `ase_loops`: the one `_atom_site` loop a structure's datablock is
      laid out with. */
  const ASE_LOOPS: seq<LoopDecl> := [("_atom_site", [
    "_atom_site_label", "_atom_site_occupancy", "_atom_site_fract_x", "_atom_site_fract_y",
    "_atom_site_fract_z", "_atom_site_adp_type", "_atom_site_thermal_displace_type",
    "_atom_site_B_iso_or_equiv", "_atom_site_U_iso_or_equiv", "_atom_site_B_equiv_geom_mean",
    "_atom_site_U_equiv_geom_mean", "_atom_site_type_symbol"])]

  /** A tag of the `_atom_site` category. */
  predicate AtomSitePrefixed(t: Tag) {
    |t| >= 10 && t[..10] == "_atom_site"
  }

  lemma AseLoopTagsPrefixed()
    ensures forall t :: t in ASE_LOOPS[0].1 ==> AtomSitePrefixed(t)
  {
  }

  lemma CellTagsNotPrefixed()
    ensures forall t :: t in CELL_TAGS || t in SYMMETRY_TAGS ==> !AtomSitePrefixed(t)
  {
    forall t | t in CELL_TAGS || t in SYMMETRY_TAGS ensures !AtomSitePrefixed(t) {
      assert t[1] != 'a';
      if |t| >= 10 {
        assert t[..10][1] == t[1];
      }
    }
  }

  /** None of the `_atom_site` loop's tags is a cell or symmetry tag. */
  lemma AseLoopTagsNotCell()
    ensures forall t :: t in ASE_LOOPS[0].1 ==> t !in CELL_TAGS && t !in SYMMETRY_TAGS
  {
    AseLoopTagsPrefixed();
    CellTagsNotPrefixed();
  }

  /** Of the `_atom_site` loop's tags, a structure's datablock holds only
      per-atom tags. */
  lemma AseLoopTagsPerAtom(atoms: Atoms, fullOccupancies: bool, addFakeBiso: bool)
    ensures var d := AseDatablock(atoms, fullOccupancies, addFakeBiso);
      forall t :: t in ASE_LOOPS[0].1 && t in d ==> t in AtomSiteTagsFor(fullOccupancies, addFakeBiso)
  {
    AseDatablockKeys(atoms, fullOccupancies, addFakeBiso);
    AseLoopTagsNotCell();
  }

  /** A datablock whose `_atom_site` loop scans without error lays out with
      `ase_loops`. */
  /** A datablock whose one declared loop scans without error lays out. */
  lemma {:induction false} OneLoopLaysOut(d: map<Tag, CifValue>, name: string, tags: seq<Tag>)
    requires LoopOutcome(tags, LoopScan(d, EMPTY_BLOCK, None, [], [])).Ok?
    ensures LayOutBlock(d, [(name, tags)]).Ok?
  {
    var s := LoopScan(d, EMPTY_BLOCK, None, [], []);
    ScanLoopTagsOutcome(tags, s);
    var v := ScanLoopTags(tags, s).value;
    assert [(name, tags)][1..] == [];
    assert ScanLoops([], v.values, ClosedBlock(v), v.inLoops).Ok?;
    assert ScanLoops([(name, tags)], d, EMPTY_BLOCK, []).Ok?;
  }

  /** A structure's datablock always lays out with `ase_loops`: the layout
      `set_ase` asks for never fails on row counts. */
  lemma {:induction false} AseDatablockLaysOut(atoms: Atoms, fullOccupancies: bool, addFakeBiso: bool)
    ensures LayOutBlock(AseDatablock(atoms, fullOccupancies, addFakeBiso), ASE_LOOPS).Ok?
  {
    var d := AseDatablock(atoms, fullOccupancies, addFakeBiso);
    AseLoopTagsPerAtom(atoms, fullOccupancies, addFakeBiso);
    AtomSiteLoopLaysOut(atoms, fullOccupancies, addFakeBiso, ASE_LOOPS[0].1, LoopScan(d, EMPTY_BLOCK, None, [], []));
    OneLoopLaysOut(d, ASE_LOOPS[0].0, ASE_LOOPS[0].1);
  }

  /** A structure's datablock holds no `_space_group` tag. */
  lemma AseDatablockNoSpaceGroupTag(atoms: Atoms, fullOccupancies: bool, addFakeBiso: bool)
    ensures "_space_group.it_number" !in AseDatablock(atoms, fullOccupancies, addFakeBiso)
    ensures "_space_group_it_number" !in AseDatablock(atoms, fullOccupancies, addFakeBiso)
  {
  }
}
