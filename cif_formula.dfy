/** Parsing of a Hill formula written with whitespace between its terms,
    such as "C2 H6 O", into a map from species to quantity. */
module CifFormula {
  import opened Wrappers
  import opened Text

  /** A quantity: an integer count, or a decimal text such as "0.5" that
      the source turns into a float. */
  datatype Quantity = Count(n: nat) | Fractional(text: string)

  // -----------------------------------------------------------------------
  // Splitting on runs of whitespace (`re.split(r'\s+', ...)`)

  /** The index of the first whitespace character. */
  function FirstSpace(s: string): (i: nat)
    requires !NoSpace(s)
    ensures i < |s| && IsSpace(s[i]) && NoSpace(s[..i])
    decreases |s|
  {
    if IsSpace(s[0]) then 0
    else
      var i := 1 + FirstSpace(s[1..]);
      assert s[..i] == [s[0]] + s[1..][..i - 1];
      i
  }

  /** The length of the run of whitespace at the start of `s`. */
  function SpaceRun(s: string): (n: nat)
    ensures n <= |s| && (n < |s| ==> !IsSpace(s[n]))
    ensures forall k :: 0 <= k < n ==> IsSpace(s[k])
    decreases |s|
  {
    if s == [] || !IsSpace(s[0]) then 0 else 1 + SpaceRun(s[1..])
  }

  /** The pieces between maximal runs of whitespace; leading or trailing
      whitespace yields an empty first or last piece. */
  function SplitWhitespace(s: string): (r: seq<string>)
    ensures |r| > 0
    ensures forall k :: 0 <= k < |r| ==> NoSpace(r[k])
    decreases |s|
  {
    if NoSpace(s) then [s]
    else
      var i := FirstSpace(s);
      var n := SpaceRun(s[i..]);
      [s[..i]] + SplitWhitespace(s[i + n..])
  }

  function Concat(parts: seq<string>): string
    decreases |parts|
  {
    if parts == [] then "" else parts[0] + Concat(parts[1..])
  }

  /** The characters of `s` that are not whitespace, in order. */
  function NonSpace(s: string): (r: string)
    ensures NoSpace(r)
    decreases |s|
  {
    if s == [] then ""
    else if IsSpace(s[0]) then NonSpace(s[1..])
    else [s[0]] + NonSpace(s[1..])
  }

  lemma {:induction false} NonSpaceAppend(a: string, b: string)
    ensures NonSpace(a + b) == NonSpace(a) + NonSpace(b)
    decreases |a|
  {
    if a != [] {
      assert (a + b)[1..] == a[1..] + b;
      NonSpaceAppend(a[1..], b);
    } else {
      assert a + b == b;
    }
  }

  lemma NonSpaceOfNoSpace(a: string)
    requires NoSpace(a)
    ensures NonSpace(a) == a
    decreases |a|
  {
    if a != [] {
      NonSpaceOfNoSpace(a[1..]);
    }
  }

  lemma NonSpaceOfSpaces(a: string)
    requires forall k :: 0 <= k < |a| ==> IsSpace(a[k])
    ensures NonSpace(a) == ""
    decreases |a|
  {
    if a != [] {
      NonSpaceOfSpaces(a[1..]);
    }
  }

  /** Splitting loses exactly the whitespace: the pieces concatenated are
      the non-whitespace characters of the formula. */
  lemma {:induction false} ConcatSplitWhitespace(s: string)
    ensures Concat(SplitWhitespace(s)) == NonSpace(s)
    decreases |s|
  {
    if NoSpace(s) {
      NonSpaceOfNoSpace(s);
      assert Concat([s]) == s + Concat([]);
    } else {
      var i := FirstSpace(s);
      var n := SpaceRun(s[i..]);
      ConcatSplitWhitespace(s[i + n..]);
      NonSpaceAtFirstRun(s, i, n);
      var r := SplitWhitespace(s);
      assert r[0] == s[..i] && r[1..] == SplitWhitespace(s[i + n..]);
    }
  }

  lemma NonSpaceAtFirstRun(s: string, i: nat, n: nat)
    requires i + n <= |s| && NoSpace(s[..i])
    requires forall k :: i <= k < i + n ==> IsSpace(s[k])
    ensures NonSpace(s) == s[..i] + NonSpace(s[i + n..])
  {
    var a, b, rest := s[..i], s[i..i + n], s[i + n..];
    forall k | 0 <= k < |b| ensures IsSpace(b[k]) { assert b[k] == s[i + k]; }
    calc {
      NonSpace(s);
      { SliceSplit3(s, i, i + n); }
      NonSpace(a + b + rest);
      { NonSpaceAppend(a + b, rest); }
      NonSpace(a + b) + NonSpace(rest);
      { NonSpaceAppend(a, b); NonSpaceOfNoSpace(a); NonSpaceOfSpaces(b); assert a + "" == a; }
      a + NonSpace(rest);
    }
  }

  /** Splitting text that starts with a term and a single space. */
  lemma SplitWhitespaceCons(p: string, tail: string)
    requires NoSpace(p) && |tail| > 0 && !IsSpace(tail[0])
    ensures SplitWhitespace(p + " " + tail) == [p] + SplitWhitespace(tail)
  {
    FirstSpaceAfter(p, tail);
    SuffixAfter(p, " ", tail);
    SuffixFrom(p, " ", tail);
    SingleSpaceRun(tail);
  }

  lemma SingleSpaceRun(tail: string)
    requires |tail| > 0 && !IsSpace(tail[0])
    ensures SpaceRun(" " + tail) == 1
  {
    assert (" " + tail)[1..] == tail;
  }

  /** Terms joined by single spaces split back into those terms. */
  lemma {:induction false} SplitWhitespaceJoin(parts: seq<string>)
    requires |parts| > 0
    requires forall k :: 0 <= k < |parts| ==> |parts[k]| > 0 && NoSpace(parts[k])
    ensures SplitWhitespace(Join(" ", parts)) == parts
    decreases |parts|
  {
    if |parts| > 1 {
      var rest := parts[1..];
      forall k | 0 <= k < |rest| ensures |rest[k]| > 0 && NoSpace(rest[k]) {
        assert rest[k] == parts[k + 1];
      }
      JoinStartsWithFirst(rest);
      SplitWhitespaceJoin(rest);
      SplitWhitespaceCons(parts[0], Join(" ", rest));
      assert parts == [parts[0]] + rest;
    }
  }

  lemma JoinStartsWithFirst(parts: seq<string>)
    requires |parts| > 0 && |parts[0]| > 0
    ensures |Join(" ", parts)| > 0 && Join(" ", parts)[0] == parts[0][0]
  {
  }

  lemma {:induction false} FirstSpaceAfter(p: string, tail: string)
    requires NoSpace(p)
    ensures !NoSpace(p + " " + tail)
    ensures FirstSpace(p + " " + tail) == |p| && (p + " " + tail)[..|p|] == p
    decreases |p|
  {
    var s := p + " " + tail;
    assert IsSpace(s[|p|]);
    if p != [] {
      assert s[1..] == p[1..] + " " + tail;
      FirstSpaceAfter(p[1..], tail);
    }
  }

  // -----------------------------------------------------------------------
  // One term (`re.match(r'(\D+)([\.\d]+)?', part)`)

  predicate IsQuantityChar(c: char) {
    c == '.' || IsDigit(c)
  }

  /** The length of the longest prefix of `s` whose characters satisfy `p`. */
  function PrefixLen(s: string, p: char -> bool): (n: nat)
    ensures n <= |s| && (n < |s| ==> !p(s[n]))
    ensures forall k :: 0 <= k < n ==> p(s[k])
    decreases |s|
  {
    if s == [] || !p(s[0]) then 0 else 1 + PrefixLen(s[1..], p)
  }

  /** The species and quantity of one term. A term is skipped (`None`)
      exactly when it is empty or starts with a digit; otherwise its
      species is its longest digit-free prefix. */
  function ParseTerm(part: string): (r: Option<(string, Quantity)>)
    ensures r.None? <==> part == "" || IsDigit(part[0])
    ensures r.Some? ==>
      var sp := r.value.0;
      && |sp| > 0 && sp <= part
      && (forall k :: 0 <= k < |sp| ==> !IsDigit(sp[k]))
      && (|sp| == |part| || IsDigit(part[|sp|]))
  {
    var n := PrefixLen(part, c => !IsDigit(c));
    if n == 0 then None
    else
      var rest := part[n..];
      var q := rest[..PrefixLen(rest, IsQuantityChar)];
      if q == "" then Some((part[..n], Count(1)))
      else if AllDigits(q) then Some((part[..n], Count(DigitsValue(q))))
      else Some((part[..n], Fractional(q)))
  }

  /** A species with no count counts once; a species followed by digits
      counts their value, whatever follows the digits. */
  lemma ParseTermCount(sp: string, digits: string, tail: string)
    requires |sp| > 0 && forall k :: 0 <= k < |sp| ==> !IsDigit(sp[k])
    requires AllDigits(digits)
    requires tail == "" || !IsQuantityChar(tail[0])
    requires digits == "" ==> tail == ""
    ensures ParseTerm(sp + digits + tail) ==
      Some((sp, Count(if digits == "" then 1 else DigitsValue(digits))))
  {
    var part := sp + digits + tail;
    var nd := (c: char) => !IsDigit(c);
    PrefixLenOf(sp, digits + tail, nd);
    assert part == sp + (digits + tail);
    assert part[|sp|..] == digits + tail;
    PrefixLenOf(digits, tail, IsQuantityChar);
    assert (digits + tail)[..|digits|] == digits;
  }

  lemma {:induction false} PrefixLenOf(a: string, b: string, p: char -> bool)
    requires forall k :: 0 <= k < |a| ==> p(a[k])
    requires b == "" || !p(b[0])
    ensures PrefixLen(a + b, p) == |a| && (a + b)[..|a|] == a
    decreases |a|
  {
    if a != [] {
      assert (a + b)[1..] == a[1..] + b;
      PrefixLenOf(a[1..], b, p);
    } else {
      assert a + b == b;
    }
  }

  /** Python's `int()` of the count, rendered back, is the count. */
  lemma ParseTermOfRendered(sp: string, n: nat)
    requires |sp| > 0 && forall k :: 0 <= k < |sp| ==> !IsDigit(sp[k])
    ensures ParseTerm(sp + NatToString(n)) == Some((sp, Count(n)))
  {
    DigitsOfNatToString(n);
    ParseTermCount(sp, NatToString(n), "");
    assert sp + NatToString(n) + "" == sp + NatToString(n);
  }

  // -----------------------------------------------------------------------
  // The whole formula

  /** Each recognised term sets its species' quantity, later ones winning. */
  function AddTerms(parts: seq<string>, acc: map<string, Quantity>): map<string, Quantity>
    decreases |parts|
  {
    if parts == [] then acc
    else
      match ParseTerm(parts[0])
      case None => AddTerms(parts[1..], acc)
      case Some((sp, q)) => AddTerms(parts[1..], acc[sp := q])
  }

  function FormulaContents(formula: string): map<string, Quantity> {
    AddTerms(SplitWhitespace(formula), map[])
  }

  /** `parse_formula`. */
  method ParseFormula(formula: string) returns (contents: map<string, Quantity>)
    ensures contents == FormulaContents(formula)
  {
    contents := map[];
    var parts := SplitWhitespace(formula);
    for i := 0 to |parts|
      invariant AddTerms(parts, map[]) == AddTerms(parts[i..], contents)
    {
      assert parts[i..][1..] == parts[i + 1..];
      var m := ParseTerm(parts[i]);
      if m.None? {
        continue;
      }
      var (specie, quantity) := m.value;
      contents := contents[specie := quantity];
    }
  }

  function SpeciesOf(part: string): Option<string> {
    match ParseTerm(part)
    case None => None
    case Some((sp, _)) => Some(sp)
  }

  /** A species is in the result exactly when it was already there or some
      term names it. */
  lemma {:induction false} AddTermsKeys(parts: seq<string>, acc: map<string, Quantity>, sp: string)
    ensures sp in AddTerms(parts, acc) <==>
      sp in acc || exists i :: 0 <= i < |parts| && SpeciesOf(parts[i]) == Some(sp)
    decreases |parts|
  {
    if parts != [] {
      var acc' := match ParseTerm(parts[0]) case None => acc case Some((s, q)) => acc[s := q];
      AddTermsKeys(parts[1..], acc', sp);
      if exists i :: 0 <= i < |parts| && SpeciesOf(parts[i]) == Some(sp) {
        var i :| 0 <= i < |parts| && SpeciesOf(parts[i]) == Some(sp);
        if i > 0 { assert parts[1..][i - 1] == parts[i]; }
      }
      if exists i :: 0 <= i < |parts[1..]| && SpeciesOf(parts[1..][i]) == Some(sp) {
        var i :| 0 <= i < |parts[1..]| && SpeciesOf(parts[1..][i]) == Some(sp);
        assert parts[i + 1] == parts[1..][i];
      }
    }
  }

  /** The quantity kept for a species is that of the last term naming it. */
  lemma {:induction false} AddTermsLastWins(parts: seq<string>, acc: map<string, Quantity>, i: nat)
    requires i < |parts| && ParseTerm(parts[i]).Some?
    requires forall j :: i < j < |parts| ==> SpeciesOf(parts[j]) != SpeciesOf(parts[i])
    ensures var t := ParseTerm(parts[i]).value;
      t.0 in AddTerms(parts, acc) && AddTerms(parts, acc)[t.0] == t.1
    decreases |parts|
  {
    var acc' := match ParseTerm(parts[0]) case None => acc case Some((s, q)) => acc[s := q];
    if i == 0 {
      AddTermsUntouched(parts[1..], acc', ParseTerm(parts[0]).value.0);
    } else {
      forall j | i - 1 < j < |parts| - 1 ensures SpeciesOf(parts[1..][j]) != SpeciesOf(parts[1..][i - 1]) {
        assert parts[1..][j] == parts[j + 1];
      }
      AddTermsLastWins(parts[1..], acc', i - 1);
    }
  }

  /** Terms that do not name a species leave its entry alone. */
  lemma {:induction false} AddTermsUntouched(parts: seq<string>, acc: map<string, Quantity>, sp: string)
    requires sp in acc
    requires forall j :: 0 <= j < |parts| ==> SpeciesOf(parts[j]) != Some(sp)
    ensures sp in AddTerms(parts, acc) && AddTerms(parts, acc)[sp] == acc[sp]
    decreases |parts|
  {
    if parts != [] {
      var acc' := match ParseTerm(parts[0]) case None => acc case Some((s, q)) => acc[s := q];
      forall j | 0 <= j < |parts| - 1 ensures SpeciesOf(parts[1..][j]) != Some(sp) {
        assert parts[1..][j] == parts[j + 1];
      }
      AddTermsUntouched(parts[1..], acc', sp);
    }
  }

  /** For a formula built from single-space-separated terms: each species
      of a term is mapped to the quantity of the last term naming it, and
      no other species appears. */
  lemma FormulaOfTerms(parts: seq<string>, sp: string)
    requires |parts| > 0
    requires forall k :: 0 <= k < |parts| ==> |parts[k]| > 0 && NoSpace(parts[k])
    ensures var contents := FormulaContents(Join(" ", parts));
      sp in contents <==> exists i :: 0 <= i < |parts| && SpeciesOf(parts[i]) == Some(sp)
    ensures forall i ::
      (0 <= i < |parts| && ParseTerm(parts[i]).Some? &&
       forall j :: i < j < |parts| ==> SpeciesOf(parts[j]) != SpeciesOf(parts[i])) ==>
      var t := ParseTerm(parts[i]).value;
      t.0 in FormulaContents(Join(" ", parts)) && FormulaContents(Join(" ", parts))[t.0] == t.1
  {
    SplitWhitespaceJoin(parts);
    AddTermsKeys(parts, map[], sp);
    forall i | 0 <= i < |parts| && ParseTerm(parts[i]).Some? &&
        (forall j :: i < j < |parts| ==> SpeciesOf(parts[j]) != SpeciesOf(parts[i]))
      ensures var t := ParseTerm(parts[i]).value;
        t.0 in FormulaContents(Join(" ", parts)) && FormulaContents(Join(" ", parts))[t.0] == t.1
    {
      AddTermsLastWins(parts, map[], i);
    }
  }
}
