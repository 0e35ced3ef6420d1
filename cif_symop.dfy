/** The CIF text of a symmetry operation: a 3x3 matrix plus a translation
    written in the x,y,z notation of International Tables for
    Crystallography, Volume A (2002), e.g. "-x,y+1/2,z" style parts
    separated by commas. */
module CifSymop {
  import opened Text

  const AXES: seq<char> := ['x', 'y', 'z']

  /** The sign an entry contributes: +1 above `eps`, -1 below `-eps`, else none. */
  function Sign(m: real, eps: real): int {
    if m > eps then 1 else if m < -eps then -1 else 0
  }

  function Abs(t: real): real {
    if t < 0.0 then -t else t
  }

  /** The term of one axis: its sign followed by the axis letter, or nothing. */
  function AxisTerm(sign: int, axis: char): string {
    if sign == 1 then ['+', axis] else if sign == -1 then ['-', axis] else ""
  }

  /** The axis terms of a matrix row, in x, y, z order. */
  function Terms(row: seq<real>, eps: real): string
    requires |row| >= 3
  {
    AxisTerm(Sign(row[0], eps), 'x') + AxisTerm(Sign(row[1], eps), 'y') + AxisTerm(Sign(row[2], eps), 'z')
  }

  /** The axis terms of the first `j` entries, as the serialiser builds them. */
  function TermsUpTo(row: seq<real>, eps: real, j: nat): string
    requires j <= 3 && |row| >= 3
  {
    if j == 0 then "" else TermsUpTo(row, eps, j - 1) + AxisTerm(Sign(row[j - 1], eps), AXES[j - 1])
  }

  lemma TermsUpToAll(row: seq<real>, eps: real)
    requires |row| >= 3
    ensures TermsUpTo(row, eps, 3) == Terms(row, eps)
  {
    assert TermsUpTo(row, eps, 1) == AxisTerm(Sign(row[0], eps), 'x');
    assert TermsUpTo(row, eps, 2) == AxisTerm(Sign(row[0], eps), 'x') + AxisTerm(Sign(row[1], eps), 'y');
  }

  /** The translation term: its sign and `render` of its magnitude, only
      when it lies outside [-eps, eps]. `render` stands for Python's
      `str()` of the number. */
  function TranslationTerm(t: real, eps: real, render: real -> string): string {
    if t < -eps || t > eps then (if t < -eps then "-" else "+") + render(Abs(t)) else ""
  }

  /** The leading '+' is removed (one character, at the start only). */
  function StripPlus(s: string): string {
    if |s| > 0 && s[0] == '+' then s[1..] else s
  }

  /** One comma-separated part: the row's axis terms then the translation. */
  function Part(row: seq<real>, t: real, eps: real, render: real -> string): string
    requires |row| >= 3
  {
    StripPlus(Terms(row, eps) + TranslationTerm(t, eps, render))
  }

  function SymopText(matrix: seq<seq<real>>, tr: seq<real>, eps: real, render: real -> string): string
    requires |matrix| >= 3 && |tr| >= 3 && forall i :: 0 <= i < 3 ==> |matrix[i]| >= 3
  {
    Join(",", [Part(matrix[0], tr[0], eps, render), Part(matrix[1], tr[1], eps, render),
               Part(matrix[2], tr[2], eps, render)])
  }

  /** One step of the inner loop appends the entry's axis term. */
  lemma AxisStep(m: real, eps: real, axis: char, sign: string, before: string, after: string)
    requires sign == (if m > eps then "+" else if m < -eps then "-" else "")
    requires after == (if sign != "" then before + sign + [axis] else before)
    ensures after == before + AxisTerm(Sign(m, eps), axis)
  {
    if sign == "" {
      assert before + AxisTerm(Sign(m, eps), axis) == before;
    } else {
      assert sign + [axis] == AxisTerm(Sign(m, eps), axis);
      ConcatAssoc(before, sign, [axis]);
    }
  }

  /** The translation step appends the translation term. */
  lemma TranslationStep(t: real, eps: real, render: real -> string, before: string, after: string)
    requires after == (if t < -eps || t > eps then before + (if t < -eps then "-" else "+") + render(Abs(t)) else before)
    ensures after == before + TranslationTerm(t, eps, render)
  {
    if t < -eps || t > eps {
      ConcatAssoc(before, if t < -eps then "-" else "+", render(Abs(t)));
    } else {
      assert before + TranslationTerm(t, eps, render) == before;
    }
  }

  /** A row's terms and its translation, stripped, make its part. */
  lemma RowDone(row: seq<real>, t: real, eps: real, render: real -> string, terms: string, part: string)
    requires |row| >= 3
    requires terms == TermsUpTo(row, eps, 3) && part == terms + TranslationTerm(t, eps, render)
    ensures StripPlus(part) == Part(row, t, eps, render)
  {
    TermsUpToAll(row, eps);
  }

  /** One pass of the outer loop of `symop_string_from_symop_matrix_tr`:
      the axis terms of a row, its translation term, and the leading '+'
      stripped. */
  method RowPart(row: seq<real>, t: real, eps: real, render: real -> string) returns (part: string)
    requires |row| >= 3
    ensures part == Part(row, t, eps, render)
  {
    part := "";
    for j := 0 to 3
      invariant part == TermsUpTo(row, eps, j)
    {
      var sign := "";
      if row[j] > eps {
        sign := "+";
      } else if row[j] < -eps {
        sign := "-";
      }
      ghost var before := part;
      if sign != "" {
        part := part + sign + [AXES[j]];
      }
      AxisStep(row[j], eps, AXES[j], sign, before, part);
    }
    ghost var before := part;
    if t < -eps || t > eps {
      var sign := "+";
      if t < -eps {
        sign := "-";
      }
      part := part + sign + render(Abs(t));
    }
    TranslationStep(t, eps, render, before, part);
    RowDone(row, t, eps, render, before, part);
    part := StripPlus(part);
  }

  /** `symop_string_from_symop_matrix_tr`. */
  method SymopStringFromMatrixTr(matrix: seq<seq<real>>, tr: seq<real>, eps: real, render: real -> string)
    returns (s: string)
    requires |matrix| >= 3 && |tr| >= 3 && forall i :: 0 <= i < 3 ==> |matrix[i]| >= 3
    ensures s == SymopText(matrix, tr, eps, render)
  {
    ghost var want := [Part(matrix[0], tr[0], eps, render), Part(matrix[1], tr[1], eps, render),
                       Part(matrix[2], tr[2], eps, render)];
    var parts: seq<string> := ["", "", ""];
    for i := 0 to 3
      invariant |parts| == 3
      invariant forall k :: 0 <= k < i ==> parts[k] == want[k]
      invariant forall k :: i <= k < 3 ==> parts[k] == ""
    {
      var part := RowPart(matrix[i], tr[i], eps, render);
      parts := parts[i := part];
    }
    assert parts == want;
    s := Join(",", parts);
  }

  // -----------------------------------------------------------------------
  // Reading a part back

  /** What `str()` of a non-negative number looks like at its start: it is
      not empty and begins with none of the characters the notation uses. */
  ghost predicate Numeral(s: string) {
    |s| > 0 && s[0] !in "+-xyz" && ',' !in s
  }

  /** Puts back the '+' the serialiser strips. */
  function Unstrip(p: string): string {
    if p == "" || p[0] == '-' then p else "+" + p
  }

  function DecodeSign(c: char): int {
    if c == '+' then 1 else -1
  }

  /** Reads the term of `axis` at the front of `s`, if there is one. */
  function DecodeAxis(s: string, axis: char): (int, string) {
    if |s| >= 2 && s[1] == axis && (s[0] == '+' || s[0] == '-') then (DecodeSign(s[0]), s[2..]) else (0, s)
  }

  /** What a part says: the sign of each axis, the sign of the translation
      and its rendered magnitude. */
  datatype PartMeaning = PartMeaning(signs: seq<int>, trSign: int, trText: string)

  function DecodePart(p: string): PartMeaning {
    var s := Unstrip(p);
    var (sx, s1) := DecodeAxis(s, 'x');
    var (sy, s2) := DecodeAxis(s1, 'y');
    var (sz, s3) := DecodeAxis(s2, 'z');
    if s3 == "" then PartMeaning([sx, sy, sz], 0, "")
    else PartMeaning([sx, sy, sz], DecodeSign(s3[0]), s3[1..])
  }

  lemma DecodeAxisTerm(sign: int, axis: char, rest: string)
    requires sign in {-1, 0, 1}
    requires |rest| < 2 || rest[1] != axis || rest[0] !in "+-"
    ensures DecodeAxis(AxisTerm(sign, axis) + rest, axis) == (sign, rest)
  {
    var s := AxisTerm(sign, axis) + rest;
    if sign == 1 {
      assert s[0] == '+' && s[1] == axis && s[2..] == rest;
    } else if sign == -1 {
      assert s[0] == '-' && s[1] == axis && s[2..] == rest;
    } else {
      assert s == rest;
    }
  }

  /** The unstripped part starts with a sign, and a '+' is followed by an
      axis letter or the rendered magnitude. */
  lemma WholeShape(row: seq<real>, t: real, eps: real, render: real -> string)
    requires |row| >= 3 && Numeral(render(Abs(t)))
    ensures var w := Terms(row, eps) + TranslationTerm(t, eps, render);
      w == "" || (w[0] in "+-" && |w| >= 2 && w[1] != '-')
  {
    var ax, ay, az := AxisTerm(Sign(row[0], eps), 'x'), AxisTerm(Sign(row[1], eps), 'y'), AxisTerm(Sign(row[2], eps), 'z');
    var tt := TranslationTerm(t, eps, render);
    var w := ax + ay + az + tt;
    if ax != "" {
      assert w[..2] == ax;
    } else if ay != "" {
      assert w[..2] == ay;
    } else if az != "" {
      assert w[..2] == az;
    } else if tt != "" {
      assert w == tt;
    }
  }

  lemma UnstripStripPlus(w: string)
    requires w == "" || (w[0] in "+-" && |w| >= 2 && w[1] != '-')
    ensures Unstrip(StripPlus(w)) == w
  {
    if w != "" && w[0] == '+' {
      assert "+" + w[1..] == w;
    }
  }

  lemma DecodeTranslation(t: real, eps: real, render: real -> string)
    requires Numeral(render(Abs(t)))
    ensures var tt := TranslationTerm(t, eps, render);
      && (|tt| < 2 || (tt[1] != 'x' && tt[1] != 'y' && tt[1] != 'z'))
      && (tt == "" <==> -eps <= t <= eps)
      && (tt != "" ==> DecodeSign(tt[0]) == (if t < -eps then -1 else 1) && tt[1..] == render(Abs(t)))
  {
  }

  /** Putting an axis term in front keeps the second character away from
      two letters other than that axis. */
  lemma SecondCharAfterTerm(sign: int, axis: char, rest: string, a: char, b: char)
    requires axis != a && axis != b
    requires |rest| < 2 || (rest[1] != a && rest[1] != b)
    ensures var r := AxisTerm(sign, axis) + rest; |r| < 2 || (r[1] != a && r[1] != b)
  {
    if AxisTerm(sign, axis) == "" {
      assert AxisTerm(sign, axis) + rest == rest;
    }
  }

  /** The three axis terms read back in order, leaving the translation. */
  lemma DecodeAxes(sx: int, sy: int, sz: int, tt: string)
    requires sx in {-1, 0, 1} && sy in {-1, 0, 1} && sz in {-1, 0, 1}
    requires |tt| < 2 || (tt[1] != 'x' && tt[1] != 'y' && tt[1] != 'z')
    ensures var r2 := AxisTerm(sz, 'z') + tt; var r1 := AxisTerm(sy, 'y') + r2;
      && DecodeAxis(r2, 'z') == (sz, tt)
      && DecodeAxis(r1, 'y') == (sy, r2)
      && DecodeAxis(AxisTerm(sx, 'x') + r1, 'x') == (sx, r1)
  {
    DecodeAxisTerm(sz, 'z', tt);
    SecondCharAfterTerm(sz, 'z', tt, 'x', 'y');
    var r2 := AxisTerm(sz, 'z') + tt;
    DecodeAxisTerm(sy, 'y', r2);
    SecondCharAfterTerm(sy, 'y', r2, 'x', 'x');
    DecodeAxisTerm(sx, 'x', AxisTerm(sy, 'y') + r2);
  }

  /** A part determines the matrix row up to what the notation keeps: the
      sign of each entry beyond `eps` in x,y,z order (never its magnitude),
      and the translation's sign and rendered magnitude when it lies
      beyond `eps`. */
  lemma DecodePartOfPart(row: seq<real>, t: real, eps: real, render: real -> string)
    requires |row| >= 3
    requires Numeral(render(Abs(t)))
    ensures DecodePart(Part(row, t, eps, render)) ==
      PartMeaning([Sign(row[0], eps), Sign(row[1], eps), Sign(row[2], eps)],
                  if t < -eps then -1 else if t > eps then 1 else 0,
                  if t < -eps || t > eps then render(Abs(t)) else "")
  {
    var tt := TranslationTerm(t, eps, render);
    WholeShape(row, t, eps, render);
    UnstripStripPlus(Terms(row, eps) + tt);
    DecodeTranslation(t, eps, render);
    DecodeAxes(Sign(row[0], eps), Sign(row[1], eps), Sign(row[2], eps), tt);
    ConcatAssoc4(AxisTerm(Sign(row[0], eps), 'x'), AxisTerm(Sign(row[1], eps), 'y'), AxisTerm(Sign(row[2], eps), 'z'), tt);
  }

  // -----------------------------------------------------------------------
  // The shape of the whole string

  lemma NoCommaInPart(row: seq<real>, t: real, eps: real, render: real -> string)
    requires |row| >= 3 && ',' !in render(Abs(t))
    ensures ',' !in Part(row, t, eps, render)
  {
    var whole := Terms(row, eps) + TranslationTerm(t, eps, render);
    assert ',' !in whole;
  }

  lemma NoLeadingPlus(row: seq<real>, t: real, eps: real, render: real -> string)
    requires |row| >= 3 && Numeral(render(Abs(t)))
    ensures var p := Part(row, t, eps, render); p == "" || p[0] != '+'
  {
    WholeShape(row, t, eps, render);
  }

  /** The string has exactly three comma-separated parts, the parts of the
      three rows in order, and none of them starts with '+'. */
  lemma ThreeParts(matrix: seq<seq<real>>, tr: seq<real>, eps: real, render: real -> string)
    requires |matrix| >= 3 && |tr| >= 3 && forall i :: 0 <= i < 3 ==> |matrix[i]| >= 3
    requires forall i :: 0 <= i < 3 ==> Numeral(render(Abs(tr[i])))
    ensures var parts := SplitOn(SymopText(matrix, tr, eps, render), ',');
      && parts == [Part(matrix[0], tr[0], eps, render), Part(matrix[1], tr[1], eps, render),
                   Part(matrix[2], tr[2], eps, render)]
      && forall k :: 0 <= k < 3 ==> parts[k] == "" || parts[k][0] != '+'
  {
    var parts := [Part(matrix[0], tr[0], eps, render), Part(matrix[1], tr[1], eps, render),
                  Part(matrix[2], tr[2], eps, render)];
    forall k | 0 <= k < 3 ensures ',' !in parts[k] && (parts[k] == "" || parts[k][0] != '+') {
      NoCommaInPart(matrix[k], tr[k], eps, render);
      NoLeadingPlus(matrix[k], tr[k], eps, render);
    }
    SplitOnJoin(parts, ',');
  }

  function Identity(): seq<seq<real>> {
    [[1.0, 0.0, 0.0], [0.0, 1.0, 0.0], [0.0, 0.0, 1.0]]
  }

  /** The identity with no translation is "x,y,z", for any `eps` in [0, 1). */
  lemma IdentityIsXyz(eps: real, render: real -> string)
    requires 0.0 <= eps < 1.0
    ensures SymopText(Identity(), [0.0, 0.0, 0.0], eps, render) == "x,y,z"
  {
    var m := Identity();
    assert Terms(m[0], eps) == "+x" && Terms(m[1], eps) == "+y" && Terms(m[2], eps) == "+z";
    assert TranslationTerm(0.0, eps, render) == "";
    assert Part(m[0], 0.0, eps, render) == "x";
    assert Part(m[1], 0.0, eps, render) == "y";
    assert Part(m[2], 0.0, eps, render) == "z";
    assert Join(",", ["x", "y", "z"]) == "x" + "," + ("y" + "," + "z");
  }
}
