/** The layout of CIF datablocks (dictionaries from tag to value) into the
    blocks of a CIF file: declared loops are grouped first, with a check
    that their tags have equal numbers of rows, then the remaining tags
    follow in sorted order, each list-valued one in a loop of its own. */
module CifLayout {
  import opened Wrappers
  import opened Text

  type Tag = string

  /** A datablock value: a text, a list, or a tuple. */
  datatype CifValue = Text(s: string) | List(items: seq<CifValue>) | Tuple(items: seq<CifValue>)

  /** A CIF block: its items in the order they were added, and its loops,
      each a sequence of tags. */
  datatype CifBlock = CifBlock(items: seq<(Tag, CifValue)>, loops: seq<seq<Tag>>)

  datatype CifError =
    | NotEnoughNames(names: nat, blocks: nat)  // ValueError: fewer names than datablocks
    | RowCountMismatch(tag: Tag)               // ValueError: a loop tag's value count differs

  /** A declared loop: its name and its tags, in declaration order. */
  type LoopDecl = (string, seq<Tag>)

  /** The file: the named blocks, and what is left of each input datablock
      once its loop tags have been popped. */
  datatype Layout = Layout(blocks: seq<(string, CifBlock)>, leftover: seq<map<Tag, CifValue>>)

  const EMPTY_BLOCK := CifBlock([], [])

  function AddItem(b: CifBlock, tag: Tag, v: CifValue): CifBlock {
    b.(items := b.items + [(tag, v)])
  }

  function CreateLoop(b: CifBlock, tags: seq<Tag>): CifBlock {
    b.(loops := b.loops + [tags])
  }

  /** The values of a tag as loop rows: a list gives its items, anything
      else (a tuple included) is one row. */
  function Rows(v: CifValue): seq<CifValue> {
    if v.List? then v.items else [v]
  }

  function Elems(s: seq<Tag>): set<Tag> {
    set t | t in s
  }

  function LoopNames(loops: seq<LoopDecl>): set<string> {
    set l | l in loops :: l.0
  }

  // -----------------------------------------------------------------------
  // One declared loop

  /** The state of the scan over one loop's tags. */
  datatype LoopScan = LoopScan(values: map<Tag, CifValue>, block: CifBlock, rowSize: Option<nat>,
                               seen: seq<Tag>, inLoops: seq<Tag>)

  /** The scan over a loop's tags, tag by tag: a present tag is popped; the
      first one fixes the row count, a later one with another count is an
      error; with a positive count the tag's rows are added to the block. */
  function ScanLoopTags(tags: seq<Tag>, s: LoopScan): Result<LoopScan, CifError>
    decreases |tags|
  {
    if tags == [] then Ok(s)
    else
      var tag := tags[0];
      if tag !in s.values then ScanLoopTags(tags[1..], s)
      else
        var rows := Rows(s.values[tag]);
        var values := s.values - {tag};
        if s.rowSize.Some? && s.rowSize.value != |rows| then Err(RowCountMismatch(tag))
        else if |rows| == 0 then ScanLoopTags(tags[1..], s.(values := values, rowSize := Some(0)))
        else
          ScanLoopTags(tags[1..], LoopScan(values, AddItem(s.block, tag, List(rows)), Some(|rows|),
                                           s.seen + [tag], s.inLoops + [tag]))
  }

  /** The tags of a loop that the datablock holds, each once, in
      declaration order. */
  function PresentTags(tags: seq<Tag>, values: map<Tag, CifValue>): (p: seq<Tag>)
    ensures forall t :: t in p ==> t in values && t in tags
    decreases |tags|
  {
    if tags == [] then []
    else if tags[0] in values then [tags[0]] + PresentTags(tags[1..], values - {tags[0]})
    else PresentTags(tags[1..], values)
  }

  predicate Distinct(s: seq<Tag>) {
    forall i, j :: 0 <= i < j < |s| ==> s[i] != s[j]
  }

  /** The present tags are exactly the declared tags the datablock holds,
      with no repeats. */
  lemma {:induction false} PresentTagsExactly(tags: seq<Tag>, values: map<Tag, CifValue>)
    ensures forall t :: t in PresentTags(tags, values) <==> t in tags && t in values
    ensures Distinct(PresentTags(tags, values))
    decreases |tags|
  {
    if tags != [] {
      var t0 := tags[0];
      var v' := if t0 in values then values - {t0} else values;
      PresentTagsExactly(tags[1..], v');
      assert tags == [t0] + tags[1..];
      var p := PresentTags(tags, values);
      if t0 in values {
        assert t0 !in PresentTags(tags[1..], v');
        forall i, j | 0 <= i < j < |p| ensures p[i] != p[j] {
          if i > 0 {
            assert p[i] == PresentTags(tags[1..], v')[i - 1];
          }
          assert p[j] == PresentTags(tags[1..], v')[j - 1];
        }
      }
    }
  }

  /** The first present tag whose row count is not `n`. */
  function FirstMismatch(p: seq<Tag>, values: map<Tag, CifValue>, n: nat): (r: Option<Tag>)
    requires forall t :: t in p ==> t in values
    ensures r.None? <==> forall t :: t in p ==> |Rows(values[t])| == n
    ensures r.Some? ==> r.value in p && |Rows(values[r.value])| != n
    decreases |p|
  {
    if p == [] then None
    else if |Rows(values[p[0]])| != n then Some(p[0])
    else FirstMismatch(p[1..], values, n)
  }

  /** The items a loop adds: each tag with its rows as a list. */
  function LoopItems(p: seq<Tag>, values: map<Tag, CifValue>): (r: seq<(Tag, CifValue)>)
    requires forall t :: t in p ==> t in values
    ensures |r| == |p|
    decreases |p|
  {
    if p == [] then [] else [(p[0], List(Rows(values[p[0]])))] + LoopItems(p[1..], values)
  }

  /** What the rest of a loop does once its row count is `n`: a present
      tag with another count is an error naming the first such tag;
      otherwise every declared tag is popped and, with a positive count,
      the present tags and their rows are added and recorded as seen. */
  function OutcomeWithRowSize(tags: seq<Tag>, s: LoopScan, n: nat): Result<LoopScan, CifError> {
    var p := PresentTags(tags, s.values);
    match FirstMismatch(p, s.values, n)
    case Some(t) => Err(RowCountMismatch(t))
    case None =>
      if n == 0 then Ok(s.(values := s.values - Elems(tags)))
      else Ok(LoopScan(s.values - Elems(tags), s.block.(items := s.block.items + LoopItems(p, s.values)),
                       Some(n), s.seen + p, s.inLoops + p))
  }

  /** What one loop does, stated at once: with no present tag nothing
      happens; otherwise the first present tag fixes the row count. */
  function LoopOutcome(tags: seq<Tag>, s: LoopScan): Result<LoopScan, CifError> {
    var p := PresentTags(tags, s.values);
    if p == [] then Ok(s)
    else
      var n := |Rows(s.values[p[0]])|;
      OutcomeWithRowSize(tags, s.(rowSize := Some(n)), n)
  }

  lemma {:induction false} LoopItemsFrame(p: seq<Tag>, v1: map<Tag, CifValue>, v2: map<Tag, CifValue>)
    requires forall t :: t in p ==> t in v1 && t in v2 && v1[t] == v2[t]
    ensures LoopItems(p, v1) == LoopItems(p, v2)
    decreases |p|
  {
    if p != [] {
      assert p[0] in p;
      assert forall t :: t in p[1..] ==> t in p;
      LoopItemsFrame(p[1..], v1, v2);
    }
  }

  lemma {:induction false} FirstMismatchFrame(p: seq<Tag>, v1: map<Tag, CifValue>, v2: map<Tag, CifValue>, n: nat)
    requires forall t :: t in p ==> t in v1 && t in v2 && v1[t] == v2[t]
    ensures FirstMismatch(p, v1, n) == FirstMismatch(p, v2, n)
    decreases |p|
  {
    if p != [] {
      assert p[0] in p;
      assert forall t :: t in p[1..] ==> t in p;
      FirstMismatchFrame(p[1..], v1, v2, n);
    }
  }

  /** A declared tag the datablock does not hold changes nothing. */
  lemma OutcomeSkip(t0: Tag, rest: seq<Tag>, s: LoopScan, n: nat)
    requires t0 !in s.values
    ensures OutcomeWithRowSize([t0] + rest, s, n) == OutcomeWithRowSize(rest, s, n)
  {
    assert ([t0] + rest)[1..] == rest;
    assert Elems([t0] + rest) == {t0} + Elems(rest);
    assert s.values - Elems([t0] + rest) == s.values - Elems(rest);
  }

  /** The state after a present tag whose count is `n`. */
  function AfterTag(t0: Tag, s: LoopScan, n: nat): LoopScan
    requires t0 in s.values
  {
    var values := s.values - {t0};
    if n == 0 then s.(values := values, rowSize := Some(0))
    else LoopScan(values, AddItem(s.block, t0, List(Rows(s.values[t0]))), Some(n), s.seen + [t0], s.inLoops + [t0])
  }

  /** The present tags and the first mismatch, one present tag on. */
  lemma {:induction false} PresentStep(t0: Tag, rest: seq<Tag>, values: map<Tag, CifValue>, n: nat)
    requires t0 in values && |Rows(values[t0])| == n
    ensures PresentTags([t0] + rest, values) == [t0] + PresentTags(rest, values - {t0})
    ensures FirstMismatch(PresentTags([t0] + rest, values), values, n)
         == FirstMismatch(PresentTags(rest, values - {t0}), values - {t0}, n)
    ensures values - {t0} - Elems(rest) == values - Elems([t0] + rest)
  {
    PresentCons(t0, rest, values);
    var p' := PresentTags(rest, values - {t0});
    FirstMismatchFrame(p', values - {t0}, values, n);
    FirstMismatchCons(t0, p', values, n);
    PopMore(t0, rest, values);
  }

  lemma {:induction false} PresentCons(t0: Tag, rest: seq<Tag>, values: map<Tag, CifValue>)
    requires t0 in values
    ensures PresentTags([t0] + rest, values) == [t0] + PresentTags(rest, values - {t0})
  {
    assert ([t0] + rest)[1..] == rest;
  }

  lemma {:induction false} FirstMismatchCons(t0: Tag, p': seq<Tag>, values: map<Tag, CifValue>, n: nat)
    requires t0 in values && |Rows(values[t0])| == n
    requires forall t :: t in p' ==> t in values
    ensures FirstMismatch([t0] + p', values, n) == FirstMismatch(p', values, n)
  {
    assert ([t0] + p')[1..] == p';
  }

  lemma {:induction false} PopMore(t0: Tag, rest: seq<Tag>, values: map<Tag, CifValue>)
    ensures values - {t0} - Elems(rest) == values - Elems([t0] + rest)
  {
    assert Elems([t0] + rest) == {t0} + Elems(rest);
  }

  /** A present tag with the loop's count moves the outcome one tag on. */
  lemma OutcomeStep(t0: Tag, rest: seq<Tag>, s: LoopScan, n: nat)
    requires t0 in s.values && |Rows(s.values[t0])| == n && s.rowSize == Some(n)
    ensures OutcomeWithRowSize([t0] + rest, s, n) == OutcomeWithRowSize(rest, AfterTag(t0, s, n), n)
  {
    PresentStep(t0, rest, s.values, n);
    if n > 0 {
      OutcomeStepRows(t0, rest, s, n);
    }
  }

  lemma OutcomeStepRows(t0: Tag, rest: seq<Tag>, s: LoopScan, n: nat)
    requires t0 in s.values && |Rows(s.values[t0])| == n && s.rowSize == Some(n) && n > 0
    ensures OutcomeWithRowSize([t0] + rest, s, n) == OutcomeWithRowSize(rest, AfterTag(t0, s, n), n)
  {
    PresentStep(t0, rest, s.values, n);
    var values := s.values - {t0};
    var p := PresentTags([t0] + rest, s.values);
    var p' := PresentTags(rest, values);
    var rows := Rows(s.values[t0]);
    LoopItemsFrame(p', values, s.values);
    assert LoopItems(p, s.values) == [(t0, List(rows))] + LoopItems(p', values);
    AssembleStep(t0, rest, s, n, p, p', values);
  }

  lemma AssembleStep(t0: Tag, rest: seq<Tag>, s: LoopScan, n: nat, p: seq<Tag>, p': seq<Tag>,
                     values: map<Tag, CifValue>)
    requires t0 in s.values && |Rows(s.values[t0])| == n && s.rowSize == Some(n) && n > 0
    requires values == s.values - {t0}
    requires p == PresentTags([t0] + rest, s.values) && p' == PresentTags(rest, values) && p == [t0] + p'
    requires FirstMismatch(p, s.values, n) == FirstMismatch(p', values, n)
    requires values - Elems(rest) == s.values - Elems([t0] + rest)
    requires LoopItems(p, s.values) == [(t0, List(Rows(s.values[t0])))] + LoopItems(p', values)
    ensures OutcomeWithRowSize([t0] + rest, s, n) == OutcomeWithRowSize(rest, AfterTag(t0, s, n), n)
  {
    ConcatAssoc(s.block.items, [(t0, List(Rows(s.values[t0])))], LoopItems(p', values));
    ConcatAssoc(s.seen, [t0], p');
    ConcatAssoc(s.inLoops, [t0], p');
  }

  lemma OutcomeMismatch(t0: Tag, rest: seq<Tag>, s: LoopScan, n: nat)
    requires t0 in s.values && |Rows(s.values[t0])| != n
    ensures OutcomeWithRowSize([t0] + rest, s, n) == Err(RowCountMismatch(t0))
  {
    assert ([t0] + rest)[1..] == rest;
  }

  lemma OutcomeEmpty(s: LoopScan, n: nat)
    requires s.rowSize == Some(n)
    ensures OutcomeWithRowSize([], s, n) == Ok(s)
  {
    assert s.values - Elems([]) == s.values;
    assert PresentTags([], s.values) == [] && LoopItems([], s.values) == [];
    assert s.block.(items := s.block.items + []) == s.block;
    assert s.seen + [] == s.seen && s.inLoops + [] == s.inLoops;
    assert s.(values := s.values) == s;
  }

  /** After the row count is fixed at `n`, the scan has the stated outcome. */
  lemma {:induction false} ScanWithRowSize(tags: seq<Tag>, s: LoopScan, n: nat)
    requires s.rowSize == Some(n)
    ensures ScanLoopTags(tags, s) == OutcomeWithRowSize(tags, s, n)
    decreases |tags|
  {
    if tags == [] {
      OutcomeEmpty(s, n);
    } else {
      var t0, rest := tags[0], tags[1..];
      assert tags == [t0] + rest;
      if t0 !in s.values {
        ScanWithRowSize(rest, s, n);
        OutcomeSkip(t0, rest, s, n);
      } else if |Rows(s.values[t0])| != n {
        OutcomeMismatch(t0, rest, s, n);
      } else {
        assert ScanLoopTags(tags, s) == ScanLoopTags(rest, AfterTag(t0, s, n));
        ScanWithRowSize(rest, AfterTag(t0, s, n), n);
        OutcomeStep(t0, rest, s, n);
      }
    }
  }

  /** The tag-by-tag scan of a loop, from a fresh row count, has the
      outcome stated at once by `LoopOutcome`. */
  lemma {:induction false} ScanLoopTagsOutcome(tags: seq<Tag>, s: LoopScan)
    requires s.rowSize.None?
    ensures ScanLoopTags(tags, s) == LoopOutcome(tags, s)
    decreases |tags|
  {
    if tags != [] {
      var t0, rest := tags[0], tags[1..];
      assert tags == [t0] + rest;
      if t0 !in s.values {
        ScanLoopTagsOutcome(rest, s);
        assert PresentTags(tags, s.values) == PresentTags(rest, s.values);
        var p := PresentTags(rest, s.values);
        if p != [] {
          OutcomeSkip(t0, rest, s.(rowSize := Some(|Rows(s.values[p[0]])|)), |Rows(s.values[p[0]])|);
        }
      } else {
        var n := |Rows(s.values[t0])|;
        assert PresentTags(tags, s.values)[0] == t0;
        assert ScanLoopTags(tags, s) == ScanLoopTags(rest, AfterTag(t0, s, n));
        ScanWithRowSize(rest, AfterTag(t0, s, n), n);
        OutcomeStep(t0, rest, s.(rowSize := Some(n)), n);
        assert AfterTag(t0, s.(rowSize := Some(n)), n) == AfterTag(t0, s, n);
      }
    }
  }

  /** The inner loop of the layout for one declared loop. */
  method ScanLoop(tags: seq<Tag>, values0: map<Tag, CifValue>, block0: CifBlock, inLoops0: seq<Tag>)
    returns (r: Result<LoopScan, CifError>)
    ensures r == ScanLoopTags(tags, LoopScan(values0, block0, None, [], inLoops0))
  {
    var values, block, tagsSeen, tagsInLoops := values0, block0, [], inLoops0;
    var rowSize: Option<nat> := None;
    for i := 0 to |tags|
      invariant ScanLoopTags(tags, LoopScan(values0, block0, None, [], inLoops0))
             == ScanLoopTags(tags[i..], LoopScan(values, block, rowSize, tagsSeen, tagsInLoops))
    {
      assert tags[i..][1..] == tags[i + 1..];
      var tag := tags[i];
      if tag in values {
        var tagValues := values[tag];
        values := values - {tag};
        var rows := Rows(tagValues);
        if rowSize.None? {
          rowSize := Some(|rows|);
        } else if rowSize.value != |rows| {
          return Err(RowCountMismatch(tag));
        }
        if rowSize.value == 0 {
          continue;
        }
        block := AddItem(block, tag, List(rows));
        tagsSeen := tagsSeen + [tag];
        tagsInLoops := tagsInLoops + [tag];
      }
    }
    return Ok(LoopScan(values, block, rowSize, tagsSeen, tagsInLoops));
  }

  // -----------------------------------------------------------------------
  // All declared loops, then the remaining tags

  /** Every declared loop in turn; a loop with a positive row count is
      created over the tags it saw. */
  function ScanLoops(loops: seq<LoopDecl>, values: map<Tag, CifValue>, block: CifBlock, inLoops: seq<Tag>)
    : Result<(map<Tag, CifValue>, CifBlock, seq<Tag>), CifError>
    decreases |loops|
  {
    if loops == [] then Ok((values, block, inLoops))
    else
      var s :- ScanLoopTags(loops[0].1, LoopScan(values, block, None, [], inLoops));
      ScanLoops(loops[1..], s.values, ClosedBlock(s), s.inLoops)
  }

  /** The block once a loop is scanned: a loop over the tags it saw is
      created when its row count is positive. */
  function ClosedBlock(s: LoopScan): (b: CifBlock)
    ensures b.items == s.block.items
  {
    if s.rowSize.Some? && s.rowSize.value > 0 then CreateLoop(s.block, s.seen) else s.block
  }

  /** A declared loop, once scanned, adds one loop to the block: over its
      present tags, in the declared order, when its row count is positive;
      otherwise none. */
  lemma LoopCreated(tags: seq<Tag>, s: LoopScan)
    requires s.rowSize.None? && s.seen == []
    requires LoopOutcome(tags, s).Ok?
    ensures var p := PresentTags(tags, s.values);
      ClosedBlock(LoopOutcome(tags, s).value).loops
        == s.block.loops + (if p != [] && |Rows(s.values[p[0]])| > 0 then [p] else [])
  {
    var p := PresentTags(tags, s.values);
    if p != [] {
      assert [] + p == p;
    }
  }

  predicate IsSequence(v: CifValue) {
    v.List? || v.Tuple?
  }

  /** The remaining tags in the given order: each is added unless it went
      into a loop, and a list or tuple value whose tag is not a loop name
      gets a loop of its own. */
  function AddRemaining(tags: seq<Tag>, values: map<Tag, CifValue>, loopNames: set<string>,
                        inLoops: seq<Tag>, block: CifBlock): CifBlock
    requires forall t :: t in tags ==> t in values
    decreases |tags|
  {
    if tags == [] then block
    else
      var tag := tags[0];
      if tag in inLoops then AddRemaining(tags[1..], values, loopNames, inLoops, block)
      else AddRemaining(tags[1..], values, loopNames, inLoops, AddTag(block, tag, values[tag], loopNames))
  }

  /** One remaining tag added, with a loop of its own for a list or tuple
      whose tag is not a loop name. */
  function AddTag(block: CifBlock, tag: Tag, v: CifValue, loopNames: set<string>): CifBlock {
    var b := AddItem(block, tag, v);
    if IsSequence(v) && tag !in loopNames then CreateLoop(b, [tag]) else b
  }

  /** The remaining tags from `i` on, one tag on. */
  lemma {:induction false} AddRemainingStep(tags: seq<Tag>, values: map<Tag, CifValue>, loopNames: set<string>,
                                            inLoops: seq<Tag>, block: CifBlock, i: nat)
    requires forall t :: t in tags ==> t in values
    requires i < |tags|
    ensures AddRemaining(tags[i..], values, loopNames, inLoops, block)
         == AddRemaining(tags[i + 1..], values, loopNames, inLoops,
                         if tags[i] in inLoops then block else AddTag(block, tags[i], values[tags[i]], loopNames))
  {
    assert tags[i..][0] == tags[i] && tags[i..][1..] == tags[i + 1..];
  }

  /** One datablock laid out into a block, with what is left of it. */
  function LayOutBlock(values: map<Tag, CifValue>, loops: seq<LoopDecl>)
    : Result<(CifBlock, map<Tag, CifValue>), CifError>
  {
    var (rest, block, inLoops) :- ScanLoops(loops, values, EMPTY_BLOCK, []);
    Ok((AddRemaining(SortedStrings(rest.Keys), rest, LoopNames(loops), inLoops, block), rest))
  }

  /** The name of block `i`: `names[i]` when names are given, else `str(i)`. */
  function BlockName(names: Option<seq<string>>, i: nat): string
    requires names.Some? && names.value != [] ==> i < |names.value|
  {
    if names.Some? && names.value != [] then names.value[i] else NatToString(i)
  }

  type BlockResult = Result<(CifBlock, map<Tag, CifValue>), CifError>

  /** The blocks from `from` on, each under its name, from the layouts of
      the datablocks; the first failing layout fails the whole. */
  function LayOutBlocks(results: seq<BlockResult>, names: Option<seq<string>>, from: nat): Result<Layout, CifError>
    requires from <= |results|
    requires names.Some? && names.value != [] ==> |results| <= |names.value|
    decreases |results| - from
  {
    if from == |results| then Ok(Layout([], []))
    else
      var (block, rest) :- results[from];
      var tail :- LayOutBlocks(results, names, from + 1);
      Ok(Layout([(BlockName(names, from), block)] + tail.blocks, [rest] + tail.leftover))
  }

  /** The layout of each datablock on its own. */
  function BlockResults(datablocks: seq<map<Tag, CifValue>>, loops: seq<LoopDecl>): (r: seq<BlockResult>)
    ensures |r| == |datablocks|
  {
    seq(|datablocks|, k requires 0 <= k < |datablocks| => LayOutBlock(datablocks[k], loops))
  }

  /** `pycifrw_from_cif` as a function of its arguments. */
  function LayOutFile(datablocks: seq<map<Tag, CifValue>>, loops: Option<seq<LoopDecl>>,
                      names: Option<seq<string>>): Result<Layout, CifError>
  {
    var loops := if loops.None? then [] else loops.value;
    if names.Some? && names.value != [] && |names.value| < |datablocks| then
      Err(NotEnoughNames(|names.value|, |datablocks|))
    else LayOutBlocks(BlockResults(datablocks, loops), names, 0)
  }

  // -----------------------------------------------------------------------
  // The layout as the source does it, step by step

  method ScanAllLoops(loops: seq<LoopDecl>, values0: map<Tag, CifValue>)
    returns (r: Result<(map<Tag, CifValue>, CifBlock, seq<Tag>), CifError>)
    ensures r == ScanLoops(loops, values0, EMPTY_BLOCK, [])
  {
    var values, block, tagsInLoops := values0, EMPTY_BLOCK, [];
    for i := 0 to |loops|
      invariant ScanLoops(loops, values0, EMPTY_BLOCK, []) == ScanLoops(loops[i..], values, block, tagsInLoops)
    {
      assert loops[i..][1..] == loops[i + 1..];
      var scanned := ScanLoop(loops[i].1, values, block, tagsInLoops);
      if scanned.Err? {
        return Err(scanned.error);
      }
      var s := scanned.value;
      values, block, tagsInLoops := s.values, s.block, s.inLoops;
      if s.rowSize.Some? && s.rowSize.value > 0 {
        block := CreateLoop(block, s.seen);
      }
    }
    return Ok((values, block, tagsInLoops));
  }

  method AddRemainingTags(values: map<Tag, CifValue>, loopNames: set<string>, tagsInLoops: seq<Tag>,
                          block0: CifBlock)
    returns (block: CifBlock)
    ensures block == AddRemaining(SortedStrings(values.Keys), values, loopNames, tagsInLoops, block0)
  {
    var tags := SortedStrings(values.Keys);
    block := block0;
    for i := 0 to |tags|
      invariant AddRemaining(tags, values, loopNames, tagsInLoops, block0)
             == AddRemaining(tags[i..], values, loopNames, tagsInLoops, block)
    {
      AddRemainingStep(tags, values, loopNames, tagsInLoops, block, i);
      var tag := tags[i];
      if tag !in tagsInLoops {
        block := AddItem(block, tag, values[tag]);
        if IsSequence(values[tag]) && tag !in loopNames {
          block := CreateLoop(block, [tag]);
        }
      }
    }
  }

  /** `r` with `blocks` and `leftover` put in front, errors passed through. */
  function Prefixed(blocks: seq<(string, CifBlock)>, leftover: seq<map<Tag, CifValue>>,
                    r: Result<Layout, CifError>): Result<Layout, CifError>
  {
    if r.Err? then r else Ok(Layout(blocks + r.value.blocks, leftover + r.value.leftover))
  }

  lemma PrefixedTwice(b: seq<(string, CifBlock)>, l: seq<map<Tag, CifValue>>,
                      b': seq<(string, CifBlock)>, l': seq<map<Tag, CifValue>>,
                      r: Result<Layout, CifError>)
    ensures Prefixed(b, l, Prefixed(b', l', r)) == Prefixed(b + b', l + l', r)
  {
    if r.Ok? {
      ConcatAssoc(b, b', r.value.blocks);
      ConcatAssoc(l, l', r.value.leftover);
    }
  }

  lemma PrefixedNothing(r: Result<Layout, CifError>)
    ensures Prefixed([], [], r) == r
  {
    if r.Ok? {
      assert [] + r.value.blocks == r.value.blocks;
      assert [] + r.value.leftover == r.value.leftover;
    }
  }

  /** A datablock whose layout succeeds moves the remaining layout one block on. */
  lemma {:induction false} LayOutBlocksStep(results: seq<BlockResult>, names: Option<seq<string>>, i: nat,
                                            blocks: seq<(string, CifBlock)>, leftover: seq<map<Tag, CifValue>>,
                                            block: CifBlock, values: map<Tag, CifValue>)
    requires i < |results|
    requires names.Some? && names.value != [] ==> |results| <= |names.value|
    requires results[i] == Ok((block, values))
    ensures Prefixed(blocks, leftover, LayOutBlocks(results, names, i))
         == Prefixed(blocks + [(BlockName(names, i), block)], leftover + [values], LayOutBlocks(results, names, i + 1))
  {
    PrefixedTwice(blocks, leftover, [(BlockName(names, i), block)], [values], LayOutBlocks(results, names, i + 1));
  }

  /** A datablock whose layout fails ends the layout with its error. */
  lemma {:induction false} LayOutBlocksStop(results: seq<BlockResult>, names: Option<seq<string>>, i: nat,
                                            blocks: seq<(string, CifBlock)>, leftover: seq<map<Tag, CifValue>>)
    requires i < |results|
    requires names.Some? && names.value != [] ==> |results| <= |names.value|
    requires results[i].Err?
    ensures Prefixed(blocks, leftover, LayOutBlocks(results, names, i)) == Err(results[i].error)
  {
  }

  lemma {:induction false} LayOutBlocksEnd(results: seq<BlockResult>, names: Option<seq<string>>,
                                           blocks: seq<(string, CifBlock)>, leftover: seq<map<Tag, CifValue>>)
    requires names.Some? && names.value != [] ==> |results| <= |names.value|
    ensures Prefixed(blocks, leftover, LayOutBlocks(results, names, |results|)) == Ok(Layout(blocks, leftover))
  {
    assert blocks + [] == blocks && leftover + [] == leftover;
  }

  /** The layout of one datablock from the scan of its loops. */
  lemma {:induction false} LayOutBlockOfScan(values0: map<Tag, CifValue>, loops: seq<LoopDecl>,
                                             scanned: Result<(map<Tag, CifValue>, CifBlock, seq<Tag>), CifError>)
    requires scanned == ScanLoops(loops, values0, EMPTY_BLOCK, [])
    ensures scanned.Err? ==> LayOutBlock(values0, loops) == Err(scanned.error)
    ensures scanned.Ok? ==>
      var (values, block, inLoops) := scanned.value;
      LayOutBlock(values0, loops) == Ok((AddRemaining(SortedStrings(values.Keys), values, LoopNames(loops), inLoops, block), values))
  {
  }

  /** `pycifrw_from_cif`: the named blocks of the file, and each datablock
      with its loop tags popped. */
  method PycifrwFromCif(datablocks: seq<map<Tag, CifValue>>, loops: Option<seq<LoopDecl>>,
                        names: Option<seq<string>>)
    returns (r: Result<Layout, CifError>)
    ensures r == LayOutFile(datablocks, loops, names)
  {
    var loopDecls := if loops.None? then [] else loops.value;
    if names.Some? && names.value != [] && |names.value| < |datablocks| {
      return Err(NotEnoughNames(|names.value|, |datablocks|));
    }
    ghost var results := BlockResults(datablocks, loopDecls);
    ghost var whole := LayOutBlocks(results, names, 0);
    var blocks: seq<(string, CifBlock)> := [];
    var leftover: seq<map<Tag, CifValue>> := [];
    PrefixedNothing(whole);
    for i := 0 to |datablocks|
      invariant whole == Prefixed(blocks, leftover, LayOutBlocks(results, names, i))
    {
      var name := NatToString(i);
      if names.Some? && names.value != [] {
        name := names.value[i];
      }
      var scanned := ScanAllLoops(loopDecls, datablocks[i]);
      LayOutBlockOfScan(datablocks[i], loopDecls, scanned);
      if scanned.Err? {
        LayOutBlocksStop(results, names, i, blocks, leftover);
        return Err(scanned.error);
      }
      var (values, block, tagsInLoops) := scanned.value;
      block := AddRemainingTags(values, LoopNames(loopDecls), tagsInLoops, block);
      LayOutBlocksStep(results, names, i, blocks, leftover, block, values);
      blocks := blocks + [(name, block)];
      leftover := leftover + [values];
    }
    LayOutBlocksEnd(results, names, blocks, leftover);
    return Ok(Layout(blocks, leftover));
  }

  // -----------------------------------------------------------------------
  // Properties of the layout

  /** The tags of a block's items, in order. */
  function ItemTags(items: seq<(Tag, CifValue)>): (r: seq<Tag>)
    ensures |r| == |items|
  {
    seq(|items|, k requires 0 <= k < |items| => items[k].0)
  }

  predicate SubMap(values: map<Tag, CifValue>, values0: map<Tag, CifValue>) {
    forall t :: t in values ==> t in values0 && values[t] == values0[t]
  }

  /** Every tag declared by some loop. */
  function AllTags(loops: seq<LoopDecl>): set<Tag> {
    set l, t | l in loops && t in l.1 :: t
  }

  /** The state of the layout of datablock `values0`: the items added so
      far are the loop tags, each once, each taken from the datablock, and
      what is left of it lies inside it. */
  predicate Coherent(values0: map<Tag, CifValue>, values: map<Tag, CifValue>, block: CifBlock, inLoops: seq<Tag>) {
    && ItemTags(block.items) == inLoops
    && Distinct(inLoops)
    && (forall t :: t in inLoops ==> t in values0 && t !in values)
    && SubMap(values, values0)
  }

  lemma ItemTagsAppend(a: seq<(Tag, CifValue)>, b: seq<(Tag, CifValue)>)
    ensures ItemTags(a + b) == ItemTags(a) + ItemTags(b)
  {
  }

  lemma {:induction false} ItemTagsLoopItems(p: seq<Tag>, values: map<Tag, CifValue>)
    requires forall t :: t in p ==> t in values
    ensures ItemTags(LoopItems(p, values)) == p
    decreases |p|
  {
    if p != [] {
      ItemTagsLoopItems(p[1..], values);
      ItemTagsAppend([(p[0], List(Rows(values[p[0]])))], LoopItems(p[1..], values));
    }
  }

  /** One loop leaves the datablock without any of its declared tags. */
  lemma LoopOutcomeValues(tags: seq<Tag>, s: LoopScan)
    requires LoopOutcome(tags, s).Ok?
    ensures LoopOutcome(tags, s).value.values == s.values - Elems(tags)
  {
    PresentTagsExactly(tags, s.values);
    if PresentTags(tags, s.values) == [] {
      assert forall t :: t in Elems(tags) ==> t !in s.values;
      assert s.values - Elems(tags) == s.values;
    }
  }

  /** A loop fails exactly when two of its tags present in the datablock
      have different numbers of rows; the error names one of them. */
  lemma LoopOutcomeError(tags: seq<Tag>, s: LoopScan)
    ensures LoopOutcome(tags, s).Err? <==>
      exists t1, t2 :: t1 in tags && t2 in tags && t1 in s.values && t2 in s.values
                       && |Rows(s.values[t1])| != |Rows(s.values[t2])|
    ensures LoopOutcome(tags, s).Err? ==>
      LoopOutcome(tags, s).error.RowCountMismatch? && LoopOutcome(tags, s).error.tag in tags
      && LoopOutcome(tags, s).error.tag in s.values
  {
    var p := PresentTags(tags, s.values);
    PresentTagsExactly(tags, s.values);
    if p != [] {
      var n := |Rows(s.values[p[0]])|;
      assert p[0] in p;
      match FirstMismatch(p, s.values, n)
      case Some(t) =>
        assert t in p;
      case None =>
        forall t1, t2 | t1 in tags && t2 in tags && t1 in s.values && t2 in s.values
          ensures |Rows(s.values[t1])| == |Rows(s.values[t2])|
        {
          assert t1 in p && t2 in p;
        }
    }
  }

  /** One loop keeps the layout state coherent. */
  lemma LoopOutcomeKeeps(tags: seq<Tag>, s: LoopScan, values0: map<Tag, CifValue>)
    requires Coherent(values0, s.values, s.block, s.inLoops)
    requires LoopOutcome(tags, s).Ok?
    ensures Coherent(values0, LoopOutcome(tags, s).value.values, LoopOutcome(tags, s).value.block,
                     LoopOutcome(tags, s).value.inLoops)
  {
    LoopOutcomeValues(tags, s);
    var p := PresentTags(tags, s.values);
    PresentTagsExactly(tags, s.values);
    if p != [] {
      var n := |Rows(s.values[p[0]])|;
      if n > 0 {
        var s' := LoopOutcome(tags, s).value;
        assert s'.inLoops == s.inLoops + p;
        assert s'.block.items == s.block.items + LoopItems(p, s.values);
        ItemTagsAppend(s.block.items, LoopItems(p, s.values));
        ItemTagsLoopItems(p, s.values);
        DistinctConcat(s.inLoops, p);
      }
    }
  }

  lemma AllTagsCons(loops: seq<LoopDecl>)
    requires loops != []
    ensures AllTags(loops) == Elems(loops[0].1) + AllTags(loops[1..])
  {
    assert loops == [loops[0]] + loops[1..];
    forall t | t in AllTags(loops) ensures t in Elems(loops[0].1) + AllTags(loops[1..]) {
      var l :| l in loops && t in l.1;
      if l != loops[0] {
        assert l in loops[1..];
      }
    }
  }

  /** Popping the tags of every loop is popping those of the first, then the rest. */
  lemma {:induction false} PopAllTags(loops: seq<LoopDecl>, values: map<Tag, CifValue>)
    requires loops != []
    ensures values - AllTags(loops) == values - Elems(loops[0].1) - AllTags(loops[1..])
  {
    AllTagsCons(loops);
  }

  /** All declared loops keep the state coherent and pop every declared tag. */
  lemma {:induction false} ScanLoopsKeeps(loops: seq<LoopDecl>, values0: map<Tag, CifValue>,
                                          values: map<Tag, CifValue>, block: CifBlock, inLoops: seq<Tag>)
    requires Coherent(values0, values, block, inLoops)
    requires ScanLoops(loops, values, block, inLoops).Ok?
    ensures Coherent(values0, ScanLoops(loops, values, block, inLoops).value.0,
                     ScanLoops(loops, values, block, inLoops).value.1,
                     ScanLoops(loops, values, block, inLoops).value.2)
    ensures ScanLoops(loops, values, block, inLoops).value.0 == values - AllTags(loops)
    decreases |loops|
  {
    if loops == [] {
      assert values - AllTags(loops) == values;
    } else {
      var s0 := LoopScan(values, block, None, [], inLoops);
      ScanLoopTagsOutcome(loops[0].1, s0);
      var s := LoopOutcome(loops[0].1, s0).value;
      LoopOutcomeKeeps(loops[0].1, s0, values0);
      LoopOutcomeValues(loops[0].1, s0);
      ScanLoopsKeeps(loops[1..], values0, s.values, ClosedBlock(s), s.inLoops);
      PopAllTags(loops, values);
    }
  }

  /** A failing scan names a declared tag of the datablock. */
  lemma {:induction false} ScanLoopsError(loops: seq<LoopDecl>, values: map<Tag, CifValue>, block: CifBlock,
                                          inLoops: seq<Tag>)
    requires ScanLoops(loops, values, block, inLoops).Err?
    ensures ScanLoops(loops, values, block, inLoops).error.RowCountMismatch?
    ensures ScanLoops(loops, values, block, inLoops).error.tag in values
    ensures ScanLoops(loops, values, block, inLoops).error.tag in AllTags(loops)
    decreases |loops|
  {
    var s0 := LoopScan(values, block, None, [], inLoops);
    ScanLoopTagsOutcome(loops[0].1, s0);
    AllTagsCons(loops);
    if LoopOutcome(loops[0].1, s0).Err? {
      LoopOutcomeError(loops[0].1, s0);
    } else {
      var s := LoopOutcome(loops[0].1, s0).value;
      LoopOutcomeValues(loops[0].1, s0);
      ScanLoopsError(loops[1..], s.values, ClosedBlock(s), s.inLoops);
    }
  }

  /** The items the remaining tags add. */
  function RemainingItems(tags: seq<Tag>, values: map<Tag, CifValue>, inLoops: seq<Tag>): seq<(Tag, CifValue)>
    requires forall t :: t in tags ==> t in values
    decreases |tags|
  {
    if tags == [] then []
    else if tags[0] in inLoops then RemainingItems(tags[1..], values, inLoops)
    else [(tags[0], values[tags[0]])] + RemainingItems(tags[1..], values, inLoops)
  }

  /** The one-tag loops the remaining tags add. */
  function AutoLoops(tags: seq<Tag>, values: map<Tag, CifValue>, loopNames: set<string>,
                     inLoops: seq<Tag>): seq<seq<Tag>>
    requires forall t :: t in tags ==> t in values
    decreases |tags|
  {
    if tags == [] then []
    else
      var tail := AutoLoops(tags[1..], values, loopNames, inLoops);
      if tags[0] !in inLoops && IsSequence(values[tags[0]]) && tags[0] !in loopNames then [[tags[0]]] + tail
      else tail
  }

  /** Adding the remaining tags appends their items and their loops. */
  lemma {:induction false} AddRemainingAppends(tags: seq<Tag>, values: map<Tag, CifValue>, loopNames: set<string>,
                                               inLoops: seq<Tag>, block: CifBlock)
    requires forall t :: t in tags ==> t in values
    ensures AddRemaining(tags, values, loopNames, inLoops, block)
         == CifBlock(block.items + RemainingItems(tags, values, inLoops),
                     block.loops + AutoLoops(tags, values, loopNames, inLoops))
    decreases |tags|
  {
    if tags != [] {
      var tag := tags[0];
      var b := AddItem(block, tag, values[tag]);
      var b' := if IsSequence(values[tag]) && tag !in loopNames then CreateLoop(b, [tag]) else b;
      if tag in inLoops {
        AddRemainingAppends(tags[1..], values, loopNames, inLoops, block);
      } else {
        AddRemainingAppends(tags[1..], values, loopNames, inLoops, b');
        ConcatAssoc(block.items, [(tag, values[tag])], RemainingItems(tags[1..], values, inLoops));
        if b' != b {
          ConcatAssoc(block.loops, [[tag]], AutoLoops(tags[1..], values, loopNames, inLoops));
        } else {
          assert b.loops == block.loops;
        }
      }
    }
  }

  /** With no loop tag among them, every remaining tag is added, in the
      given order, with its value. */
  lemma {:induction false} RemainingItemsInOrder(tags: seq<Tag>, values: map<Tag, CifValue>, inLoops: seq<Tag>)
    requires forall t :: t in tags ==> t in values && t !in inLoops
    ensures |RemainingItems(tags, values, inLoops)| == |tags|
    ensures forall k :: 0 <= k < |tags| ==> RemainingItems(tags, values, inLoops)[k] == (tags[k], values[tags[k]])
    decreases |tags|
  {
    if tags != [] {
      assert forall t :: t in tags[1..] ==> t in tags;
      RemainingItemsInOrder(tags[1..], values, inLoops);
    }
  }

  /** The one-tag loops are exactly those of the remaining lists and tuples
      whose tag is not a loop name. */
  lemma {:induction false} AutoLoopsExactly(tags: seq<Tag>, values: map<Tag, CifValue>, loopNames: set<string>,
                                            inLoops: seq<Tag>)
    requires forall t :: t in tags ==> t in values && t !in inLoops
    ensures forall l :: l in AutoLoops(tags, values, loopNames, inLoops) ==>
              |l| == 1 && l[0] in tags && IsSequence(values[l[0]]) && l[0] !in loopNames
    ensures forall t :: t in tags && IsSequence(values[t]) && t !in loopNames ==>
              [t] in AutoLoops(tags, values, loopNames, inLoops)
    decreases |tags|
  {
    if tags != [] {
      assert forall t :: t in tags[1..] ==> t in tags;
      AutoLoopsExactly(tags[1..], values, loopNames, inLoops);
      assert tags == [tags[0]] + tags[1..];
    }
  }

  /** A laid-out block: what is left of the datablock is it without its
      declared loop tags; the items are distinct tags of the datablock,
      and end with what is left, in sorted order, with its values. */
  lemma {:induction false} LayOutBlockShape(values: map<Tag, CifValue>, loops: seq<LoopDecl>, block: CifBlock,
                                            rest: map<Tag, CifValue>)
    requires LayOutBlock(values, loops) == Ok((block, rest))
    ensures rest == values - AllTags(loops)
    ensures Distinct(ItemTags(block.items))
    ensures forall t :: t in ItemTags(block.items) ==> t in values
    ensures var sorted := SortedStrings(rest.Keys);
      && |block.items| >= |sorted|
      && forall k :: 0 <= k < |sorted| ==> block.items[|block.items| - |sorted| + k] == (sorted[k], rest[sorted[k]])
  {
    var scanned := ScanLoops(loops, values, EMPTY_BLOCK, []);
    LayOutBlockOfScan(values, loops, scanned);
    assert Coherent(values, values, EMPTY_BLOCK, []);
    ScanLoopsKeeps(loops, values, values, EMPTY_BLOCK, []);
    BlockOfParts(values, rest, scanned.value.1, scanned.value.2, LoopNames(loops), block);
  }

  /** The shape of a block from the coherent state its loops leave. */
  lemma {:induction false} BlockOfParts(values: map<Tag, CifValue>, rest: map<Tag, CifValue>, block0: CifBlock,
                                        inLoops: seq<Tag>, loopNames: set<string>, block: CifBlock)
    requires Coherent(values, rest, block0, inLoops)
    requires block == AddRemaining(SortedStrings(rest.Keys), rest, loopNames, inLoops, block0)
    ensures Distinct(ItemTags(block.items))
    ensures forall t :: t in ItemTags(block.items) ==> t in values
    ensures var sorted := SortedStrings(rest.Keys);
      && |block.items| >= |sorted|
      && forall k :: 0 <= k < |sorted| ==> block.items[|block.items| - |sorted| + k] == (sorted[k], rest[sorted[k]])
  {
    var tags := SortedStrings(rest.Keys);
    AddRemainingAppends(tags, rest, loopNames, inLoops, block0);
    BlockItems(values, rest, block0, inLoops, tags, block.items);
  }

  /** The items of a block: the loop items of a coherent state, followed by
      the remaining tags in sorted order. */
  lemma {:induction false} BlockItems(values: map<Tag, CifValue>, rest: map<Tag, CifValue>, block0: CifBlock,
                                      inLoops: seq<Tag>, tags: seq<Tag>, items: seq<(Tag, CifValue)>)
    requires Coherent(values, rest, block0, inLoops)
    requires tags == SortedStrings(rest.Keys)
    requires items == block0.items + RemainingItems(tags, rest, inLoops)
    ensures Distinct(ItemTags(items))
    ensures forall t :: t in ItemTags(items) ==> t in values
    ensures |items| >= |tags|
    ensures forall k :: 0 <= k < |tags| ==> items[|items| - |tags| + k] == (tags[k], rest[tags[k]])
  {
    assert forall t :: t in tags ==> t in rest && t !in inLoops;
    BlockItemTags(block0, inLoops, tags, rest, items);
    BlockItemsTail(block0, inLoops, tags, rest, items);
    SortedStringsSorted(rest.Keys);
    StrictlySortedDistinct(tags);
    DistinctConcat(inLoops, tags);
    forall t | t in inLoops + tags ensures t in values {
      if t in tags {
        assert t in rest;
      }
    }
  }

  lemma {:induction false} BlockItemTags(block0: CifBlock, inLoops: seq<Tag>, tags: seq<Tag>,
                                         rest: map<Tag, CifValue>, items: seq<(Tag, CifValue)>)
    requires ItemTags(block0.items) == inLoops
    requires forall t :: t in tags ==> t in rest && t !in inLoops
    requires items == block0.items + RemainingItems(tags, rest, inLoops)
    ensures ItemTags(items) == inLoops + tags
  {
    var extra := RemainingItems(tags, rest, inLoops);
    RemainingItemsInOrder(tags, rest, inLoops);
    ItemTagsAppend(block0.items, extra);
    assert ItemTags(extra) == tags;
  }

  lemma {:induction false} BlockItemsTail(block0: CifBlock, inLoops: seq<Tag>, tags: seq<Tag>,
                                          rest: map<Tag, CifValue>, items: seq<(Tag, CifValue)>)
    requires ItemTags(block0.items) == inLoops
    requires forall t :: t in tags ==> t in rest && t !in inLoops
    requires items == block0.items + RemainingItems(tags, rest, inLoops)
    ensures |items| >= |tags|
    ensures forall k :: 0 <= k < |tags| ==> items[|items| - |tags| + k] == (tags[k], rest[tags[k]])
  {
    var extra := RemainingItems(tags, rest, inLoops);
    RemainingItemsInOrder(tags, rest, inLoops);
    forall k | 0 <= k < |tags| ensures items[|items| - |tags| + k] == (tags[k], rest[tags[k]]) {
      assert items[|items| - |tags| + k] == extra[k];
    }
  }

  /** Two sequences without repeats and without common elements join into one. */
  lemma DistinctConcat(a: seq<Tag>, b: seq<Tag>)
    requires Distinct(a) && Distinct(b)
    requires forall t :: t in a ==> t !in b
    ensures Distinct(a + b)
  {
    var all := a + b;
    forall i, j | 0 <= i < j < |all| ensures all[i] != all[j] {
      if j < |a| {
        assert all[i] == a[i] && all[j] == a[j];
      } else if i < |a| {
        assert all[i] == a[i] && a[i] in a;
        assert all[j] == b[j - |a|] && b[j - |a|] in b;
      } else {
        assert all[i] == b[i - |a|] && all[j] == b[j - |a|];
      }
    }
  }

  /** A block fails only on a row-count mismatch in one of its declared loops. */
  lemma LayOutBlockError(values: map<Tag, CifValue>, loops: seq<LoopDecl>)
    requires LayOutBlock(values, loops).Err?
    ensures LayOutBlock(values, loops).error.RowCountMismatch?
    ensures LayOutBlock(values, loops).error.tag in values
    ensures LayOutBlock(values, loops).error.tag in AllTags(loops)
  {
    ScanLoopsError(loops, values, EMPTY_BLOCK, []);
  }

  /** The blocks from `from` on succeed exactly when each datablock's
      layout does. */
  lemma {:induction false} LayOutBlocksSucceed(results: seq<BlockResult>, names: Option<seq<string>>, from: nat)
    requires from <= |results|
    requires names.Some? && names.value != [] ==> |results| <= |names.value|
    ensures LayOutBlocks(results, names, from).Ok? <==> forall k :: from <= k < |results| ==> results[k].Ok?
    decreases |results| - from
  {
    if from < |results| {
      LayOutBlocksSucceed(results, names, from + 1);
    }
  }

  /** Block `k` of `r` is the laid-out datablock `from + k` under its
      name, and leftover `k` is what is left of it. */
  predicate LaidOutFrom(results: seq<BlockResult>, names: Option<seq<string>>, from: nat, r: Layout)
    requires from <= |results|
    requires names.Some? && names.value != [] ==> |results| <= |names.value|
  {
    && |r.blocks| == |results| - from && |r.leftover| == |results| - from
    && forall k :: 0 <= k < |results| - from ==>
         && r.blocks[k].0 == BlockName(names, from + k)
         && results[from + k] == Ok((r.blocks[k].1, r.leftover[k]))
  }

  /** When they succeed, block `k` is the laid-out datablock `from + k`
      under its name, and leftover `k` is what is left of it. */
  lemma {:induction false} LayOutBlocksOk(results: seq<BlockResult>, names: Option<seq<string>>, from: nat)
    requires from <= |results|
    requires names.Some? && names.value != [] ==> |results| <= |names.value|
    requires LayOutBlocks(results, names, from).Ok?
    ensures LaidOutFrom(results, names, from, LayOutBlocks(results, names, from).value)
    decreases |results| - from
  {
    if from < |results| {
      LayOutBlocksOk(results, names, from + 1);
      var head := results[from].value;
      var tail := LayOutBlocks(results, names, from + 1).value;
      LaidOutCons(results, names, from, head.0, head.1, tail);
    }
  }

  /** One more datablock in front of a laid-out tail. */
  lemma {:induction false} LaidOutCons(results: seq<BlockResult>, names: Option<seq<string>>, from: nat,
                                       block: CifBlock, rest: map<Tag, CifValue>, tail: Layout)
    requires from < |results|
    requires names.Some? && names.value != [] ==> |results| <= |names.value|
    requires results[from] == Ok((block, rest))
    requires LaidOutFrom(results, names, from + 1, tail)
    ensures LaidOutFrom(results, names, from,
                        Layout([(BlockName(names, from), block)] + tail.blocks, [rest] + tail.leftover))
  {
    var r := Layout([(BlockName(names, from), block)] + tail.blocks, [rest] + tail.leftover);
    forall k | 0 < k < |results| - from
      ensures r.blocks[k] == tail.blocks[k - 1] && r.leftover[k] == tail.leftover[k - 1]
    {
      ConsIndex((BlockName(names, from), block), tail.blocks, k);
      ConsIndex(rest, tail.leftover, k);
    }
    forall k | 0 < k < |results| - from
      ensures r.blocks[k].0 == BlockName(names, from + k) && results[from + k] == Ok((r.blocks[k].1, r.leftover[k]))
    {
      assert from + k == (from + 1) + (k - 1);
    }
  }

  lemma ConsIndex<T>(x: T, s: seq<T>, k: nat)
    requires 0 < k <= |s|
    ensures ([x] + s)[k] == s[k - 1]
  {
  }

  /** `k` is the first failing layout from `from` on. */
  predicate FirstFailure(results: seq<BlockResult>, from: nat, k: nat) {
    && from <= k < |results| && results[k].Err?
    && forall j :: from <= j < k ==> results[j].Ok?
  }

  /** A failing layout reports the error of the first datablock whose layout
      fails. */
  lemma {:induction false} LayOutBlocksFirstError(results: seq<BlockResult>, names: Option<seq<string>>, from: nat)
    requires from <= |results|
    requires names.Some? && names.value != [] ==> |results| <= |names.value|
    requires LayOutBlocks(results, names, from).Err?
    ensures exists k: nat :: FirstFailure(results, from, k) && LayOutBlocks(results, names, from).error == results[k].error
    decreases |results| - from
  {
    if results[from].Err? {
      assert FirstFailure(results, from, from);
    } else {
      LayOutBlocksFirstError(results, names, from + 1);
      var k: nat :| FirstFailure(results, from + 1, k) && LayOutBlocks(results, names, from + 1).error == results[k].error;
      assert FirstFailure(results, from, k);
    }
  }

  /** `pycifrw_from_cif` refuses too few names exactly when names are given
      (non-empty) and fewer than the datablocks; every other failure is a
      row-count mismatch on a declared tag of some datablock. */
  lemma LayOutFileErrors(datablocks: seq<map<Tag, CifValue>>, loops: Option<seq<LoopDecl>>,
                         names: Option<seq<string>>)
    ensures LayOutFile(datablocks, loops, names).Err? && LayOutFile(datablocks, loops, names).error.NotEnoughNames?
        <==> names.Some? && names.value != [] && |names.value| < |datablocks|
    ensures LayOutFile(datablocks, loops, names).Err? && !LayOutFile(datablocks, loops, names).error.NotEnoughNames? ==>
      var decls := if loops.None? then [] else loops.value;
      && LayOutFile(datablocks, loops, names).error.RowCountMismatch?
      && LayOutFile(datablocks, loops, names).error.tag in AllTags(decls)
      && exists k :: 0 <= k < |datablocks| && LayOutFile(datablocks, loops, names).error.tag in datablocks[k]
  {
    var decls := if loops.None? then [] else loops.value;
    if !(names.Some? && names.value != [] && |names.value| < |datablocks|) {
      var results := BlockResults(datablocks, decls);
      if LayOutBlocks(results, names, 0).Err? {
        LayOutBlocksFirstError(results, names, 0);
        var k: nat :| FirstFailure(results, 0, k) && LayOutBlocks(results, names, 0).error == results[k].error;
        LayOutBlockError(datablocks[k], decls);
      }
    }
  }

  /** A successful `pycifrw_from_cif`: one block per datablock, named by
      `names` when given and by its index otherwise, each the datablock
      laid out. */
  lemma LayOutFileOk(datablocks: seq<map<Tag, CifValue>>, loops: Option<seq<LoopDecl>>,
                     names: Option<seq<string>>, r: Layout)
    requires LayOutFile(datablocks, loops, names) == Ok(r)
    ensures |r.blocks| == |datablocks| && |r.leftover| == |datablocks|
    ensures forall k :: 0 <= k < |datablocks| ==>
      r.blocks[k].0 == (if names.Some? && names.value != [] then names.value[k] else NatToString(k))
    ensures forall k :: 0 <= k < |datablocks| ==>
      LayOutBlock(datablocks[k], if loops.None? then [] else loops.value) == Ok((r.blocks[k].1, r.leftover[k]))
  {
    var decls := if loops.None? then [] else loops.value;
    var results := BlockResults(datablocks, decls);
    LayOutBlocksOk(results, names, 0);
    forall k | 0 <= k < |datablocks|
      ensures r.blocks[k].0 == BlockName(names, k)
      ensures results[k] == Ok((r.blocks[k].1, r.leftover[k]))
    {
      assert 0 + k == k;
    }
  }

  /** A successful `pycifrw_from_cif` succeeds on each datablock; and if
      every datablock's layout succeeds and the names suffice, so does it. */
  lemma LayOutFileSucceeds(datablocks: seq<map<Tag, CifValue>>, loops: Option<seq<LoopDecl>>,
                           names: Option<seq<string>>)
    ensures LayOutFile(datablocks, loops, names).Ok? <==>
      && !(names.Some? && names.value != [] && |names.value| < |datablocks|)
      && forall k :: 0 <= k < |datablocks| ==> LayOutBlock(datablocks[k], if loops.None? then [] else loops.value).Ok?
  {
    var decls := if loops.None? then [] else loops.value;
    if !(names.Some? && names.value != [] && |names.value| < |datablocks|) {
      var results := BlockResults(datablocks, decls);
      LayOutBlocksSucceed(results, names, 0);
      assert forall k :: 0 <= k < |datablocks| ==> results[k] == LayOutBlock(datablocks[k], decls);
    }
  }
}
