/** `BaseType`: a data node that stores one Python value of a fixed type
    (`int`, `str` or `bool`), normalising every value it is given by
    calling that type on it. */
module BaseTypes {
  import opened Wrappers
  import opened Text

  /** The `_type` a subclass declares. */
  datatype BaseKind = IntKind | StrKind | BoolKind

  /** The values these nodes are given and store. */
  datatype Scalar = NoneV | BoolV(b: bool) | IntV(i: int) | StrV(s: string)

  datatype BaseError =
    | InvalidLiteral(literal: string)   // ValueError from `int(s)`
    | NotConvertible(value: Scalar)     // TypeError from `int(None)`
    | AssertionFailed(message: string)

  /** `type(v) is k`. */
  predicate OfKind(v: Scalar, k: BaseKind) {
    match k
    case IntKind => v.IntV?
    case StrKind => v.StrV?
    case BoolKind => v.BoolV?
  }

  /** Python truthiness. */
  predicate Truthy(v: Scalar) {
    match v
    case NoneV => false
    case BoolV(b) => b
    case IntV(i) => i != 0
    case StrV(s) => s != []
  }

  /** `_type()`: what the type gives when called without an argument. */
  function Default(k: BaseKind): (r: Scalar)
    ensures OfKind(r, k) && !Truthy(r)
  {
    match k
    case IntKind => IntV(0)
    case StrKind => StrV([])
    case BoolKind => BoolV(false)
  }

  /** The falsy value of a kind is its default: nothing else of that
      kind is falsy. */
  lemma DefaultOnlyFalsy(k: BaseKind, v: Scalar)
    requires OfKind(v, k) && !Truthy(v)
    ensures v == Default(k)
  {
  }

  /** Python's `str(v)`. */
  function Str(v: Scalar): string {
    match v
    case NoneV => "None"
    case BoolV(b) => if b then "True" else "False"
    case IntV(i) => IntToString(i)
    case StrV(s) => s
  }

  /** `_type(v)`: a value of the kind, or the exception the call raises.
      A value already of the kind is kept as it is, so calling the type
      twice changes nothing more. */
  function Apply(k: BaseKind, v: Scalar): (r: Result<Scalar, BaseError>)
    ensures r.Ok? ==> OfKind(r.value, k)
    ensures OfKind(v, k) ==> r == Ok(v)
    ensures r.Err? <==> k == IntKind && (v == NoneV || (v.StrV? && ParseInt(v.s).None?))
  {
    match k
    case StrKind => Ok(StrV(Str(v)))
    case BoolKind => Ok(BoolV(Truthy(v)))
    case IntKind =>
      match v
      case NoneV => Err(NotConvertible(v))
      case BoolV(b) => Ok(IntV(if b then 1 else 0))
      case IntV(i) => Ok(v)
      case StrV(s) =>
        match ParseInt(s)
        case Some(i) => Ok(IntV(i))
        case None => Err(InvalidLiteral(s))
  }

  /** An integer survives the trip through `str` and back through `int`. */
  lemma IntStrRoundTrip(i: int)
    ensures Apply(StrKind, IntV(i)) == Ok(StrV(IntToString(i)))
    ensures Apply(IntKind, StrV(IntToString(i))) == Ok(IntV(i))
  {
    ParseIntOfIntToString(i);
  }

  /** `bool` keeps truthiness, and so does `int` on anything but a string;
      `str(0)` is "0" and `int("0")` is 0. */
  lemma ApplyTruthiness(k: BaseKind, v: Scalar)
    requires k == BoolKind || (k == IntKind && !v.StrV?)
    requires Apply(k, v).Ok?
    ensures Truthy(Apply(k, v).value) == Truthy(v)
  {
  }

  /** What `set_typevalue` stores: a falsy value is replaced by `_type()`,
      a truthy one is passed through `_type`. */
  function TypevalueStored(k: BaseKind, v: Scalar): (r: Result<Scalar, BaseError>)
    ensures r.Ok? ==> OfKind(r.value, k)
    ensures !Truthy(v) ==> r == Ok(Default(k))
    ensures Truthy(v) ==> r == Apply(k, v)
  {
    if Truthy(v) then Apply(k, v) else Ok(Default(k))
  }

  /** Wherever `_type(v)` succeeds on a falsy `int` or `bool` value, the
      falsy branch of `set_typevalue` stores the same; for `str` it does
      not, since `str(None)` is "None" while `set_typevalue` stores "". */
  lemma {:induction false} FalsyBranchAgrees(k: BaseKind, v: Scalar)
    requires !Truthy(v) && Apply(k, v).Ok?
    ensures k != StrKind ==> TypevalueStored(k, v) == Apply(k, v)
    ensures k == StrKind && v == NoneV ==> TypevalueStored(k, v) != Apply(k, v)
  {
    if k != StrKind {
      ApplyTruthiness(k, v);
      DefaultOnlyFalsy(k, Apply(k, v).value);
    }
  }

  /** Python's `==` on these values: `True == 1` and `False == 0`, values
      of different types are otherwise unequal. */
  function Numeric(v: Scalar): Option<int> {
    match v
    case BoolV(b) => Some(if b then 1 else 0)
    case IntV(i) => Some(i)
    case _ => None
  }

  predicate PyEq(a: Scalar, b: Scalar) {
    if Numeric(a).Some? && Numeric(b).Some? then Numeric(a) == Numeric(b) else a == b
  }

  lemma PyEqEquivalence(a: Scalar, b: Scalar, c: Scalar)
    ensures PyEq(a, a)
    ensures PyEq(a, b) ==> PyEq(b, a)
    ensures PyEq(a, b) && PyEq(b, c) ==> PyEq(a, c)
  {
  }

  /** What a node is compared with: another `BaseType` node (given by its
      stored value) or a plain value. */
  datatype Operand = Node(nodeValue: Scalar) | Plain(plainValue: Scalar)

  const TYPE_MISMATCH := ""
  const POSITIONAL_AND_KWARGS := "Cannot have positional arguments and kwargs"
  const ONE_POSITIONAL := "Simple data can only take at most one positional argument"
  const DBNODE_ALONE := "When specifying dbnode it can be the only kwarg"

  /** The keyword arguments of the constructor: the `typevalue` pair, the
      `dbnode` to load from, and every other keyword. */
  datatype Kwargs = Kwargs(typevalue: Option<(BaseKind, Scalar)>, dbnode: Option<nat>, others: map<string, Scalar>)

  /** `len(kwargs)`. */
  function KwargCount(kw: Kwargs): nat {
    (if kw.typevalue.Some? then 1 else 0) + (if kw.dbnode.Some? then 1 else 0) + |kw.others|
  }

  /** `_create_init_args` of a node whose `_type` is `k`: one positional
      value becomes the normalised `typevalue`; without one, a given
      `typevalue` of the right type has its value normalised unless it is
      None, and a missing one becomes `(k, None)`; a `dbnode` must come
      alone.  Each `assert` of the source is an AssertionFailed here. */
  function CreateInitArgs(k: BaseKind, args: seq<Scalar>, kwargs: Kwargs): (r: Result<Kwargs, BaseError>)
    ensures args != [] && KwargCount(kwargs) > 0 ==> r == Err(AssertionFailed(POSITIONAL_AND_KWARGS))
    ensures |args| > 1 && KwargCount(kwargs) == 0 ==> r == Err(AssertionFailed(ONE_POSITIONAL))
    ensures |args| == 1 && KwargCount(kwargs) == 0 ==>
      (r.Ok? <==> Apply(k, args[0]).Ok?) &&
      (r.Ok? ==> r.value == Kwargs(Some((k, Apply(k, args[0]).value)), None, map[]))
    ensures args == [] && kwargs.dbnode.Some? ==>
      (r.Ok? <==> KwargCount(kwargs) == 1) && (r.Ok? ==> r.value == kwargs)
    ensures args == [] && kwargs.dbnode.None? ==>
      (r.Ok? <==> kwargs.typevalue.None? ||
                  (kwargs.typevalue.value.0 == k &&
                   (kwargs.typevalue.value.1 == NoneV || Apply(k, kwargs.typevalue.value.1).Ok?)))
    ensures |args| == 1 && KwargCount(kwargs) == 0 && Apply(k, args[0]).Err? ==>
      r == Err(Apply(k, args[0]).error)
    ensures args == [] && kwargs.dbnode.Some? && KwargCount(kwargs) != 1 ==>
      r == Err(AssertionFailed(DBNODE_ALONE))
    ensures args == [] && kwargs.dbnode.None? && r.Ok? ==>
      r.value.dbnode.None? && r.value.others == kwargs.others && r.value.typevalue.Some? &&
      r.value.typevalue.value.0 == k &&
      (r.value.typevalue.value.1 == NoneV || OfKind(r.value.typevalue.value.1, k))
    // The keyword path, case by case.
    ensures args == [] && kwargs.dbnode.None? && kwargs.typevalue.None? ==>
      r == Ok(Kwargs(Some((k, NoneV)), None, kwargs.others))
    ensures args == [] && kwargs.dbnode.None? && kwargs.typevalue == Some((k, NoneV)) ==>
      r == Ok(kwargs)
    ensures args == [] && kwargs.dbnode.None? && kwargs.typevalue.Some? && kwargs.typevalue.value.0 != k ==>
      r == Err(AssertionFailed(TYPE_MISMATCH))
    ensures forall v :: args == [] && kwargs.dbnode.None? && kwargs.typevalue == Some((k, v)) && v != NoneV ==>
      r == (if Apply(k, v).Ok? then Ok(Kwargs(Some((k, Apply(k, v).value)), None, kwargs.others))
            else Err(Apply(k, v).error))
  {
    if args != [] then
      if KwargCount(kwargs) > 0 then Err(AssertionFailed(POSITIONAL_AND_KWARGS))
      else if |args| != 1 then Err(AssertionFailed(ONE_POSITIONAL))
      else
        var v :- Apply(k, args[0]);
        Ok(Kwargs(Some((k, v)), None, map[]))
    else if kwargs.dbnode.None? then
      match kwargs.typevalue
      case Some((tk, tv)) =>
        if tk != k then Err(AssertionFailed(TYPE_MISMATCH))
        else if tv != NoneV then
          var v :- Apply(k, tv);
          Ok(kwargs.(typevalue := Some((k, v))))
        else Ok(kwargs)
      case None => Ok(kwargs.(typevalue := Some((k, NoneV))))
    else if KwargCount(kwargs) != 1 then Err(AssertionFailed(DBNODE_ALONE))
    else Ok(kwargs)
  }

  /** A node built from one positional value ends up storing that value
      passed through its type, whether the value is truthy or not. */
  lemma {:induction false} InitStoresConverted(k: BaseKind, x: Scalar)
    requires CreateInitArgs(k, [x], Kwargs(None, None, map[])).Ok?
    ensures var tv := CreateInitArgs(k, [x], Kwargs(None, None, map[])).value.typevalue.value;
      tv.0 == k && TypevalueStored(k, tv.1) == Apply(k, x)
  {
    var v := Apply(k, x).value;
    if !Truthy(v) {
      DefaultOnlyFalsy(k, v);
    }
  }

  /** A node of a `BaseType` subclass: its `_type` and its stored value. */
  class BaseTypeNode {
    var kind: BaseKind
    var value: Scalar

    /** The stored value has the node's type. */
    predicate Valid()
      reads this
    {
      OfKind(value, kind)
    }

    /** A node created without a value, as `Int()` is: the type's default. */
    constructor (k: BaseKind)
      ensures kind == k && value == Default(k)
      ensures Valid()
    {
      kind := k;
      value := Default(k);
    }

    /** The `value` setter: stores `_type(v)`; when the call raises,
        nothing changes. */
    method SetValue(v: Scalar) returns (r: Result<(), BaseError>)
      modifies this
      ensures r.Ok? <==> Apply(kind, v).Ok?
      ensures r.Ok? ==> value == Apply(kind, v).value
      ensures r.Err? ==> r.error == Apply(kind, v).error && value == old(value)
      ensures kind == old(kind)
      ensures old(Valid()) ==> Valid()
    {
      var stored := Apply(kind, v);
      if stored.Err? {
        return Err(stored.error);
      }
      value := stored.value;
      return Ok(());
    }

    /** `set_typevalue`: the type is replaced first, then the value is set,
        `_type()` standing in for a falsy one.  When the conversion raises,
        the type has already changed but the value has not. */
    method SetTypevalue(k: BaseKind, v: Scalar) returns (r: Result<(), BaseError>)
      modifies this
      ensures kind == k
      ensures r.Ok? <==> TypevalueStored(k, v).Ok?
      ensures r.Ok? ==> value == TypevalueStored(k, v).value && Valid()
      ensures r.Err? ==> r.error == TypevalueStored(k, v).error && value == old(value)
    {
      kind := k;
      if Truthy(v) {
        r := SetValue(v);
      } else {
        r := SetValue(Default(k));
      }
    }

    /** `__eq__`: another node is compared by its stored value, anything
        else directly. */
    predicate Equals(other: Operand)
      reads this
    {
      match other
      case Node(x) => PyEq(value, x)
      case Plain(x) => PyEq(value, x)
    }

    /** `__ne__`, written out on its own in the source. */
    predicate NotEquals(other: Operand)
      reads this
    {
      match other
      case Node(x) => !PyEq(value, x)
      case Plain(x) => !PyEq(value, x)
    }
  }

  /** A node equals another node exactly when it equals that node's value;
      `!=` is the negation of `==`. */
  lemma EqualsCompareValues(n: BaseTypeNode, x: Scalar)
    ensures n.Equals(Node(x)) <==> n.Equals(Plain(x))
    ensures n.Equals(Node(x)) <==> PyEq(n.value, x)
    ensures n.NotEquals(Node(x)) <==> !n.Equals(Node(x))
    ensures n.NotEquals(Plain(x)) <==> !n.Equals(Plain(x))
  {
  }
}
