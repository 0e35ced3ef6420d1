/** The calculation job that adds two numbers: validation of its raw input
    dictionary, the input file it writes, and the submission record
    (a CalcInfo holding one CodeInfo) it hands to the engine. */
module ArithmeticAdd {
  import opened Wrappers
  import opened Text

  /** A key of the raw input dictionary, and the link name it is stored under. */
  type Key = string
  type Link = string

  /** Node classes a use-method entry may declare as valid. */
  datatype NodeClass = IntClass | FloatClass | CodeClass | OtherClass(name: string)

  /** The `.value` of a numeric node: an integer, or a float kept as the
      text Python's `str()` gives for it. */
  datatype Number = IntNumber(i: int) | FloatNumber(text: string)

  /** An input node: its uuid and, for Int and Float nodes, its value. */
  datatype Node = Node(uuid: string, value: Option<Number>)

  /** The `valid_types` of a use-method entry: one class or a tuple of them. */
  datatype ValidTypes = SingleType(t: NodeClass) | TypeTuple(ts: seq<NodeClass>)

  datatype CalcError =
    | RequiredInputMissing(key: Key)       // InputValidationError: required input '<key>' was not specified
    | InputsNotRecognized(keys: set<Key>)  // InputValidationError: the following input nodes were not recognized
    | NoUseMethod(key: Key)                // KeyError from _use_methods[key]
    | NoValidType(key: Key)                // IndexError from an empty valid_types tuple
    | NoValueAttribute                     // AttributeError: operand x or y has no .value

  /** A local-copy instruction (local source path, path in the remote folder). */
  datatype LocalCopy = LocalCopy(source: string, target: string)

  /** A remote-copy instruction (computer uuid, remote source path, target path). */
  datatype RemoteCopy = RemoteCopy(computerUuid: string, source: string, target: string)

  /** What is executed: arguments, the file receiving stdout, the code to run. */
  datatype CodeInfo = CodeInfo(cmdlineParams: seq<string>, stdoutName: string, codeUuid: string)

  /** The submission record returned by the preparation step. */
  datatype CalcInfo = CalcInfo(
    uuid: string,
    codesInfo: seq<CodeInfo>,
    retrieveList: seq<string>,
    localCopyList: seq<LocalCopy>,
    remoteCopyList: seq<RemoteCopy>)

  const INPUT_FILE_NAME: string := "aiida.in"
  const OUTPUT_FILE_NAME: string := "aiida.out"
  const REQUIRED_INPUTS: seq<Key> := ["code", "x", "y"]
  const OPTIONAL_INPUTS: seq<Key> := []

  /** The operands accept an Int or a Float node. */
  const OPERAND_TYPES: ValidTypes := TypeTuple([IntClass, FloatClass])

  /** `_use_methods`: the inherited table with entries for x and y added. */
  function UseMethods(inherited: map<Key, ValidTypes>): (m: map<Key, ValidTypes>)
    ensures m.Keys == inherited.Keys + {"x", "y"}
    ensures m["x"] == OPERAND_TYPES && m["y"] == OPERAND_TYPES
    ensures forall k :: k in inherited && k != "x" && k != "y" ==> m[k] == inherited[k]
  {
    inherited["x" := OPERAND_TYPES]["y" := OPERAND_TYPES]
  }

  /** `_get_input_valid_types`: the declared valid types of `key`. */
  function GetInputValidTypes(useMethods: map<Key, ValidTypes>, key: Key): (r: Result<ValidTypes, CalcError>)
    ensures r.Ok? <==> key in useMethods
    ensures r.Ok? ==> r.value == useMethods[key]
    ensures r.Err? ==> r.error == NoUseMethod(key)
  {
    if key in useMethods then Ok(useMethods[key]) else Err(NoUseMethod(key))
  }

  /** `_get_input_valid_type`: the first class of a tuple, or the single class. */
  function GetInputValidType(useMethods: map<Key, ValidTypes>, key: Key): (r: Result<NodeClass, CalcError>)
    ensures key !in useMethods ==> r == Err(NoUseMethod(key))
    ensures key in useMethods && useMethods[key].SingleType? ==> r == Ok(useMethods[key].t)
    ensures key in useMethods && useMethods[key].TypeTuple? ==>
              r == if useMethods[key].ts == [] then Err(NoValidType(key)) else Ok(useMethods[key].ts[0])
  {
    var vt :- GetInputValidTypes(useMethods, key);
    match vt
    case SingleType(t) => Ok(t)
    case TypeTuple(ts) => if ts == [] then Err(NoValidType(key)) else Ok(ts[0])
  }

  /** How far validation got: the validated nodes or the error, and what
      is left of the raw dictionary, which validation pops in place. */
  datatype Progress = Progress(outcome: Result<map<Link, Node>, CalcError>, rest: map<Key, Node>)

  function Links(keys: seq<Key>, linkName: Key -> Link): set<Link> {
    set k | k in keys :: linkName(k)
  }

  /** The loop over the required keys: each one is popped and stored under
      its link name; the first one not found stops validation. */
  function TakeRequired(req: seq<Key>, linkName: Key -> Link, raw: map<Key, Node>, acc: map<Link, Node>): (p: Progress)
    ensures p.outcome.Ok? ==> p.outcome.value.Keys == acc.Keys + Links(req, linkName)
    ensures p.outcome.Err? ==> p.outcome.error.RequiredInputMissing? && p.outcome.error.key in req
    ensures p.rest.Keys <= raw.Keys
    decreases |req|
  {
    if req == [] then Progress(Ok(acc), raw)
    else if req[0] !in raw then Progress(Err(RequiredInputMissing(req[0])), raw)
    else
      var p := TakeRequired(req[1..], linkName, raw - {req[0]}, acc[linkName(req[0]) := raw[req[0]]]);
      assert p.outcome.Ok? ==> Links(req, linkName) == {linkName(req[0])} + Links(req[1..], linkName) by {
        assert req == [req[0]] + req[1..];
      }
      p
  }

  /** The loop over the optional keys: a present one is popped, a missing
      one is replaced by a default instance of its first valid class
      (`construct` stands for calling that class). */
  function TakeOptional(opt: seq<Key>, linkName: Key -> Link, useMethods: map<Key, ValidTypes>,
                        construct: NodeClass -> Node, raw: map<Key, Node>, acc: map<Link, Node>): (p: Progress)
    ensures p.outcome.Ok? ==> p.outcome.value.Keys == acc.Keys + Links(opt, linkName)
    ensures p.outcome.Err? ==> (p.outcome.error.NoUseMethod? || p.outcome.error.NoValidType?) && p.outcome.error.key in opt
    ensures p.rest.Keys <= raw.Keys
    decreases |opt|
  {
    if opt == [] then Progress(Ok(acc), raw)
    else
      var key := opt[0];
      assert opt == [key] + opt[1..];
      assert Links(opt, linkName) == {linkName(key)} + Links(opt[1..], linkName);
      if key in raw then
        TakeOptional(opt[1..], linkName, useMethods, construct, raw - {key}, acc[linkName(key) := raw[key]])
      else
        match GetInputValidType(useMethods, key)
        case Err(e) => Progress(Err(e), raw)
        case Ok(t) => TakeOptional(opt[1..], linkName, useMethods, construct, raw, acc[linkName(key) := construct(t)])
  }

  /** `validate_input_nodes` as a function of the raw dictionary: required
      keys, then optional keys, then the check for leftovers. */
  function Validate(req: seq<Key>, opt: seq<Key>, linkName: Key -> Link, useMethods: map<Key, ValidTypes>,
                    construct: NodeClass -> Node, raw: map<Key, Node>): (p: Progress)
    ensures p.outcome.Ok? ==> p.outcome.value.Keys == Links(req, linkName) + Links(opt, linkName)
    ensures p.outcome.Ok? ==> p.rest == map[]
    ensures p.outcome.Err? && p.outcome.error.InputsNotRecognized? ==>
              p.outcome.error.keys == p.rest.Keys
  {
    var p := TakeRequired(req, linkName, raw, map[]);
    if p.outcome.Err? then p
    else
      var q := TakeOptional(opt, linkName, useMethods, construct, p.rest, p.outcome.value);
      if q.outcome.Err? then q
      else if q.rest != map[] then
        Progress(Err(InputsNotRecognized(q.rest.Keys)), q.rest)
      else q
  }

  // -----------------------------------------------------------------------
  // Properties of validation

  ghost function Elems(s: seq<Key>): set<Key> {
    set k | k in s
  }

  ghost predicate Distinct(s: seq<Key>) {
    forall a, b :: 0 <= a < b < |s| ==> s[a] != s[b]
  }

  ghost predicate AllIn(s: seq<Key>, raw: map<Key, Node>) {
    forall j :: 0 <= j < |s| ==> s[j] in raw
  }

  ghost predicate Injective(linkName: Key -> Link, keys: seq<Key>) {
    forall a, b :: a in keys && b in keys && linkName(a) == linkName(b) ==> a == b
  }

  lemma ElemsCons(k: Key, s: seq<Key>)
    ensures Elems([k] + s) == {k} + Elems(s)
  {
    assert forall x :: x in [k] + s <==> x == k || x in s;
  }

  lemma LinksCons(k: Key, s: seq<Key>, linkName: Key -> Link)
    ensures Links([k] + s, linkName) == {linkName(k)} + Links(s, linkName)
  {
    assert forall x :: x in [k] + s <==> x == k || x in s;
  }

  /** The required loop stops at the first key that is missing or repeated. */
  lemma {:induction false} TakeRequiredStopsAt(req: seq<Key>, linkName: Key -> Link, raw: map<Key, Node>,
                                               acc: map<Link, Node>, i: nat)
    requires i < |req| && Distinct(req[..i]) && AllIn(req[..i], raw)
    requires req[i] !in raw || req[i] in req[..i]
    ensures TakeRequired(req, linkName, raw, acc).outcome == Err(RequiredInputMissing(req[i]))
    decreases i
  {
    if i > 0 {
      var k := req[0];
      var pre := req[..i];
      assert k in raw by { assert pre[0] == k; }
      var raw' := raw - {k};
      var req' := req[1..];
      var pre' := req'[..i - 1];
      assert pre == [k] + pre';
      assert Distinct(pre') by {
        forall a, b | 0 <= a < b < i - 1 ensures pre'[a] != pre'[b] {
          assert pre[a + 1] == pre'[a] && pre[b + 1] == pre'[b];
        }
      }
      assert AllIn(pre', raw') by {
        forall j | 0 <= j < i - 1 ensures pre'[j] in raw' {
          assert pre[j + 1] == pre'[j];
        }
      }
      assert req'[i - 1] == req[i];
      assert req'[i - 1] !in raw' || req'[i - 1] in pre';
      TakeRequiredStopsAt(req', linkName, raw', acc[linkName(k) := raw[k]], i - 1);
    }
  }

  /** The first required key, in declared order, that is missing (or
      repeated) is the one reported, whatever else the dictionary holds. */
  lemma FirstMissingRequiredReported(req: seq<Key>, opt: seq<Key>, linkName: Key -> Link,
                                     useMethods: map<Key, ValidTypes>, construct: NodeClass -> Node,
                                     raw: map<Key, Node>, i: nat)
    requires i < |req| && Distinct(req[..i]) && AllIn(req[..i], raw)
    requires req[i] !in raw || req[i] in req[..i]
    ensures Validate(req, opt, linkName, useMethods, construct, raw).outcome == Err(RequiredInputMissing(req[i]))
  {
    TakeRequiredStopsAt(req, linkName, raw, map[], i);
  }

  lemma TailDistinct(s: seq<Key>)
    requires |s| > 0 && Distinct(s)
    ensures Distinct(s[1..]) && s[0] !in s[1..]
  {
    forall a, b | 0 <= a < b < |s| - 1 ensures s[1..][a] != s[1..][b] {
      assert s[1..][a] == s[a + 1] && s[1..][b] == s[b + 1];
    }
    forall j | 0 <= j < |s| - 1 ensures s[1..][j] != s[0] {
      assert s[1..][j] == s[j + 1];
    }
  }

  /** With every required key present once, the required loop succeeds and
      pops exactly the required keys. */
  lemma {:induction false} TakeRequiredOk(req: seq<Key>, linkName: Key -> Link, raw: map<Key, Node>, acc: map<Link, Node>)
    requires Distinct(req) && AllIn(req, raw)
    ensures TakeRequired(req, linkName, raw, acc).outcome.Ok?
    ensures TakeRequired(req, linkName, raw, acc).rest == raw - Elems(req)
    decreases |req|
  {
    if req == [] {
      assert raw - Elems(req) == raw;
    } else {
      var k := req[0];
      var req' := req[1..];
      TailDistinct(req);
      assert AllIn(req', raw - {k}) by {
        forall j | 0 <= j < |req'| ensures req'[j] in raw - {k} {
          assert req'[j] == req[j + 1];
        }
      }
      TakeRequiredOk(req', linkName, raw - {k}, acc[linkName(k) := raw[k]]);
      assert req == [k] + req';
      ElemsCons(k, req');
      assert raw - {k} - Elems(req') == raw - Elems(req);
    }
  }

  /** Past the first required key, the rest are still distinct and present. */
  lemma AllInTail(req: seq<Key>, raw: map<Key, Node>)
    requires |req| > 0 && Distinct(req) && AllIn(req, raw)
    ensures req[0] in raw && req[0] !in req[1..]
    ensures Distinct(req[1..]) && AllIn(req[1..], raw - {req[0]})
  {
    TailDistinct(req);
    forall j | 0 <= j < |req| - 1 ensures req[1..][j] in raw - {req[0]} {
      assert req[1..][j] == req[j + 1];
    }
  }

  /** The required loop, one present key on. */
  lemma TakeRequiredCons(req: seq<Key>, linkName: Key -> Link, raw: map<Key, Node>, acc: map<Link, Node>)
    requires |req| > 0 && req[0] in raw
    ensures TakeRequired(req, linkName, raw, acc)
         == TakeRequired(req[1..], linkName, raw - {req[0]}, acc[linkName(req[0]) := raw[req[0]]])
    ensures Links(req, linkName) == {linkName(req[0])} + Links(req[1..], linkName)
  {
    assert req == [req[0]] + req[1..];
    LinksCons(req[0], req[1..], linkName);
  }

  /** With every required key present once, an earlier entry under a link
      no required key has stays. */
  lemma {:induction false} TakeRequiredKeeps(req: seq<Key>, linkName: Key -> Link, raw: map<Key, Node>,
                                             acc: map<Link, Node>)
    requires Distinct(req) && AllIn(req, raw)
    ensures TakeRequired(req, linkName, raw, acc).outcome.Ok?
    ensures var v := TakeRequired(req, linkName, raw, acc).outcome.value;
      forall l :: l in acc && l !in Links(req, linkName) ==> v[l] == acc[l]
    decreases |req|
  {
    TakeRequiredOk(req, linkName, raw, acc);
    if req != [] {
      var k0 := req[0];
      AllInTail(req, raw);
      TakeRequiredCons(req, linkName, raw, acc);
      TakeRequiredKeeps(req[1..], linkName, raw - {k0}, acc[linkName(k0) := raw[k0]]);
    }
  }

  /** With every required key present once and link names not colliding,
      each given node is stored unchanged under its link name. */
  lemma {:induction false} TakeRequiredStores(req: seq<Key>, linkName: Key -> Link, raw: map<Key, Node>,
                                              acc: map<Link, Node>)
    requires Distinct(req) && AllIn(req, raw) && Injective(linkName, req)
    ensures TakeRequired(req, linkName, raw, acc).outcome.Ok?
    ensures var v := TakeRequired(req, linkName, raw, acc).outcome.value;
      forall k :: k in req ==> v[linkName(k)] == raw[k]
    decreases |req|
  {
    TakeRequiredOk(req, linkName, raw, acc);
    if req != [] {
      var k0, req' := req[0], req[1..];
      var raw', acc' := raw - {k0}, acc[linkName(k0) := raw[k0]];
      AllInTail(req, raw);
      TakeRequiredCons(req, linkName, raw, acc);
      assert Injective(linkName, req') by {
        assert forall k :: k in req' ==> k in req;
      }
      TakeRequiredStores(req', linkName, raw', acc');
      TakeRequiredKeeps(req', linkName, raw', acc');
      assert linkName(k0) !in Links(req', linkName);
      var v := TakeRequired(req, linkName, raw, acc).outcome.value;
      forall k | k in req ensures v[linkName(k)] == raw[k] {
        if k != k0 {
          assert k in req';
        }
      }
    }
  }

  /** With every required key present once: each given node is stored
      unchanged under its link name (link names not colliding), and an
      earlier entry under another link stays. */
  lemma TakeRequiredValues(req: seq<Key>, linkName: Key -> Link, raw: map<Key, Node>, acc: map<Link, Node>)
    requires Distinct(req) && AllIn(req, raw)
    ensures TakeRequired(req, linkName, raw, acc).outcome.Ok?
    ensures var v := TakeRequired(req, linkName, raw, acc).outcome.value;
      forall l :: l in acc && l !in Links(req, linkName) ==> v[l] == acc[l]
    ensures Injective(linkName, req) ==>
      var v := TakeRequired(req, linkName, raw, acc).outcome.value;
      forall k :: k in req ==> v[linkName(k)] == raw[k]
  {
    TakeRequiredKeeps(req, linkName, raw, acc);
    if Injective(linkName, req) {
      TakeRequiredStores(req, linkName, raw, acc);
    }
  }

  /** With the optional keys distinct and every missing one having a valid
      class, the optional loop succeeds and pops exactly the optional keys. */
  lemma {:induction false} TakeOptionalOk(opt: seq<Key>, linkName: Key -> Link, useMethods: map<Key, ValidTypes>,
                                          construct: NodeClass -> Node, raw: map<Key, Node>, acc: map<Link, Node>)
    requires Distinct(opt)
    requires forall k :: k in opt && k !in raw ==> GetInputValidType(useMethods, k).Ok?
    ensures TakeOptional(opt, linkName, useMethods, construct, raw, acc).outcome.Ok?
    ensures TakeOptional(opt, linkName, useMethods, construct, raw, acc).rest == raw - Elems(opt)
    decreases |opt|
  {
    if opt == [] {
      assert raw - Elems(opt) == raw;
    } else {
      var k0 := opt[0];
      var opt' := opt[1..];
      TailDistinct(opt);
      assert opt == [k0] + opt';
      var raw' := if k0 in raw then raw - {k0} else raw;
      var v := if k0 in raw then raw[k0] else construct(GetInputValidType(useMethods, k0).value);
      TakeOptionalOk(opt', linkName, useMethods, construct, raw', acc[linkName(k0) := v]);
      ElemsCons(k0, opt');
      assert raw' - Elems(opt') == raw - Elems(opt);
    }
  }

  /** With the optional keys distinct, every missing one having a valid
      class and link names not colliding: a given node is stored unchanged,
      a missing one is replaced by a default instance of its first valid
      class, and an earlier entry under another link stays. */
  lemma {:induction false} TakeOptionalValues(opt: seq<Key>, linkName: Key -> Link, useMethods: map<Key, ValidTypes>,
                                              construct: NodeClass -> Node, raw: map<Key, Node>, acc: map<Link, Node>)
    requires Distinct(opt) && Injective(linkName, opt)
    requires forall k :: k in opt && k !in raw ==> GetInputValidType(useMethods, k).Ok?
    ensures TakeOptional(opt, linkName, useMethods, construct, raw, acc).outcome.Ok?
    ensures var v := TakeOptional(opt, linkName, useMethods, construct, raw, acc).outcome.value;
      forall l :: l in acc && l !in Links(opt, linkName) ==> v[l] == acc[l]
    ensures var v := TakeOptional(opt, linkName, useMethods, construct, raw, acc).outcome.value;
      forall k :: k in opt ==>
        v[linkName(k)] == if k in raw then raw[k] else construct(GetInputValidType(useMethods, k).value)
    decreases |opt|
  {
    TakeOptionalOk(opt, linkName, useMethods, construct, raw, acc);
    if opt != [] {
      var k0 := opt[0];
      var opt' := opt[1..];
      TailDistinct(opt);
      assert opt == [k0] + opt';
      var raw' := if k0 in raw then raw - {k0} else raw;
      var x := if k0 in raw then raw[k0] else construct(GetInputValidType(useMethods, k0).value);
      var acc' := acc[linkName(k0) := x];
      assert Injective(linkName, opt');
      TakeOptionalValues(opt', linkName, useMethods, construct, raw', acc');
      LinksCons(k0, opt', linkName);
      assert linkName(k0) !in Links(opt', linkName);
      var v := TakeOptional(opt, linkName, useMethods, construct, raw, acc).outcome.value;
      assert v == TakeOptional(opt', linkName, useMethods, construct, raw', acc').outcome.value;
      forall k | k in opt
        ensures v[linkName(k)] == if k in raw then raw[k] else construct(GetInputValidType(useMethods, k).value)
      {
        if k != k0 {
          assert k in opt';
          assert k in raw' <==> k in raw;
        }
      }
    }
  }

  /** The declaration is well formed when the required keys are distinct,
      the optional keys are distinct and disjoint from them, and every
      optional key missing from `raw` has a valid class. */
  ghost predicate WellFormedCall(req: seq<Key>, opt: seq<Key>, useMethods: map<Key, ValidTypes>, raw: map<Key, Node>) {
    && Distinct(req) && Distinct(opt)
    && (forall k :: k in opt ==> k !in req)
    && (forall k :: k in opt && k !in raw ==> GetInputValidType(useMethods, k).Ok?)
  }

  /** With every required key present and a well-formed declaration:
      validation succeeds and empties the raw dictionary exactly when every
      key is required or optional; otherwise all leftover keys are reported
      together and stay in the raw dictionary. */
  lemma ValidationOutcome(req: seq<Key>, opt: seq<Key>, linkName: Key -> Link, useMethods: map<Key, ValidTypes>,
                          construct: NodeClass -> Node, raw: map<Key, Node>)
    requires WellFormedCall(req, opt, useMethods, raw) && AllIn(req, raw)
    ensures var p := Validate(req, opt, linkName, useMethods, construct, raw);
      if raw.Keys <= Elems(req) + Elems(opt) then p.outcome.Ok? && p.rest == map[]
      else p.outcome == Err(InputsNotRecognized(raw.Keys - Elems(req) - Elems(opt)))
           && p.rest.Keys == raw.Keys - Elems(req) - Elems(opt)
  {
    TakeRequiredOk(req, linkName, raw, map[]);
    var p := TakeRequired(req, linkName, raw, map[]);
    var raw' := raw - Elems(req);
    TakeOptionalOk(opt, linkName, useMethods, construct, raw', p.outcome.value);
    var q := TakeOptional(opt, linkName, useMethods, construct, raw', p.outcome.value);
    assert q.rest.Keys == raw.Keys - Elems(req) - Elems(opt);
    if raw.Keys <= Elems(req) + Elems(opt) {
      assert q.rest == map[] by { assert q.rest.Keys == {}; }
    } else {
      assert q.rest != map[] by {
        var k :| k in raw.Keys && k !in Elems(req) + Elems(opt);
        assert k in q.rest.Keys;
      }
    }
  }

  /** A successful validation stores each given node unchanged under its
      link name, and a default instance of the first valid class for each
      missing optional key, when link names do not collide. */
  lemma ValidatedValues(req: seq<Key>, opt: seq<Key>, linkName: Key -> Link, useMethods: map<Key, ValidTypes>,
                        construct: NodeClass -> Node, raw: map<Key, Node>)
    requires WellFormedCall(req, opt, useMethods, raw) && AllIn(req, raw)
    requires raw.Keys <= Elems(req) + Elems(opt)
    requires Injective(linkName, req + opt)
    ensures Validate(req, opt, linkName, useMethods, construct, raw).outcome.Ok?
    ensures var v := Validate(req, opt, linkName, useMethods, construct, raw).outcome.value;
      && (forall k :: k in raw ==> v[linkName(k)] == raw[k])
      && (forall k :: k in opt && k !in raw ==> v[linkName(k)] == construct(GetInputValidType(useMethods, k).value))
  {
    ValidationOutcome(req, opt, linkName, useMethods, construct, raw);
    assert Injective(linkName, req) && Injective(linkName, opt) by {
      assert forall k :: k in req ==> k in req + opt;
      assert forall k :: k in opt ==> k in req + opt;
    }
    TakeRequiredValues(req, linkName, raw, map[]);
    var p := TakeRequired(req, linkName, raw, map[]);
    TakeRequiredOk(req, linkName, raw, map[]);
    var raw' := raw - Elems(req);
    TakeOptionalValues(opt, linkName, useMethods, construct, raw', p.outcome.value);
    var v := Validate(req, opt, linkName, useMethods, construct, raw).outcome.value;
    assert v == TakeOptional(opt, linkName, useMethods, construct, raw', p.outcome.value).outcome.value;
    forall k | k in raw ensures v[linkName(k)] == raw[k] {
      if k in req {
        assert linkName(k) !in Links(opt, linkName) by {
          forall k' | k' in opt ensures linkName(k') != linkName(k) {
            assert k' in req + opt && k in req + opt;
          }
        }
      } else {
        assert k in opt && k in raw';
      }
    }
  }

  /** The calculation's own declaration: with its inputs `code`, `x` and `y`,
      validation succeeds exactly when the raw dictionary holds those three
      keys and nothing else, and a dictionary holding only `code` and `x`
      is rejected naming `y`. */
  lemma {:induction false} AddInputsValidation(linkName: Key -> Link, useMethods: map<Key, ValidTypes>,
                            construct: NodeClass -> Node, raw: map<Key, Node>)
    ensures Validate(REQUIRED_INPUTS, OPTIONAL_INPUTS, linkName, useMethods, construct, raw).outcome.Ok?
            <==> raw.Keys == {"code", "x", "y"}
    ensures raw.Keys == {"code", "x"} ==>
            Validate(REQUIRED_INPUTS, OPTIONAL_INPUTS, linkName, useMethods, construct, raw).outcome
            == Err(RequiredInputMissing("y"))
  {
    if "code" !in raw {
      AddInputsMissing(linkName, useMethods, construct, raw, 0);
    } else if "x" !in raw {
      AddInputsMissing(linkName, useMethods, construct, raw, 1);
    } else if "y" !in raw {
      AddInputsMissing(linkName, useMethods, construct, raw, 2);
    } else {
      AddInputsPresent(linkName, useMethods, construct, raw);
    }
  }

  /** The first of the calculation's inputs missing from the raw dictionary
      is reported. */
  lemma {:induction false} AddInputsMissing(linkName: Key -> Link, useMethods: map<Key, ValidTypes>,
                                            construct: NodeClass -> Node, raw: map<Key, Node>, i: nat)
    requires i < 3 && REQUIRED_INPUTS[i] !in raw
    requires forall j :: 0 <= j < i ==> REQUIRED_INPUTS[j] in raw
    ensures Validate(REQUIRED_INPUTS, OPTIONAL_INPUTS, linkName, useMethods, construct, raw).outcome
         == Err(RequiredInputMissing(REQUIRED_INPUTS[i]))
  {
    var req := REQUIRED_INPUTS;
    assert Distinct(req[..i]) && AllIn(req[..i], raw) by {
      assert forall j :: 0 <= j < i ==> req[..i][j] == req[j];
    }
    FirstMissingRequiredReported(req, OPTIONAL_INPUTS, linkName, useMethods, construct, raw, i);
  }

  /** With all three inputs present, validation succeeds exactly when
      nothing else is given. */
  lemma {:induction false} AddInputsPresent(linkName: Key -> Link, useMethods: map<Key, ValidTypes>,
                                            construct: NodeClass -> Node, raw: map<Key, Node>)
    requires "code" in raw && "x" in raw && "y" in raw
    ensures Validate(REQUIRED_INPUTS, OPTIONAL_INPUTS, linkName, useMethods, construct, raw).outcome.Ok?
            <==> raw.Keys == {"code", "x", "y"}
  {
    var req := REQUIRED_INPUTS;
    assert Elems(req) == {"code", "x", "y"};
    assert Elems(OPTIONAL_INPUTS) == {};
    assert AllIn(req, raw);
    ValidationOutcome(req, OPTIONAL_INPUTS, linkName, useMethods, construct, raw);
  }

  // -----------------------------------------------------------------------
  // The input file and the submission record

  /** `str()` of a numeric value. */
  function NumberText(n: Number): string {
    match n
    case IntNumber(i) => IntToString(i)
    case FloatNumber(text) => text
  }

  /** The content of `aiida.in`: x, one space, y, a newline. */
  function InputFileContent(x: Number, y: Number): (s: string)
    ensures s == NumberText(x) + " " + NumberText(y) + "\n"
  {
    NumberText(x) + " " + NumberText(y) + "\n"
  }

  /** The input file splits back into its two operands; for integer
      operands, parsing those back gives the operands themselves. */
  lemma InputFileRoundTrip(x: Number, y: Number)
    requires NoSpace(NumberText(x)) && NoSpace(NumberText(y))
    ensures var s := InputFileContent(x, y);
      && s[|s| - 1] == '\n'
      && SplitOn(s[..|s| - 1], ' ') == [NumberText(x), NumberText(y)]
    ensures x.IntNumber? && y.IntNumber? ==>
      var s := InputFileContent(x, y);
      var parts := SplitOn(s[..|s| - 1], ' ');
      ParseInt(parts[0]) == Some(x.i) && ParseInt(parts[1]) == Some(y.i)
  {
    var s := InputFileContent(x, y);
    var xs, ys := NumberText(x), NumberText(y);
    assert ' ' !in xs && ' ' !in ys;
    assert s[..|s| - 1] == Join(" ", [xs, ys]);
    SplitOnJoin([xs, ys], ' ');
    if x.IntNumber? && y.IntNumber? {
      ParseIntOfIntToString(x.i);
      ParseIntOfIntToString(y.i);
    }
  }

  /** `get_local_copy_list`: nothing is copied from the local machine. */
  function GetLocalCopyList(): (r: seq<LocalCopy>)
    ensures r == []
  {
    []
  }

  /** `get_remote_copy_list`: nothing is copied on the remote machine. */
  function GetRemoteCopyList(): (r: seq<RemoteCopy>)
    ensures r == []
  {
    []
  }

  /** `get_retrieve_list`: only the output file is retrieved. */
  method GetRetrieveList() returns (r: seq<string>)
    ensures r == [OUTPUT_FILE_NAME]
  {
    r := [];
    r := r + [OUTPUT_FILE_NAME];
  }

  /** The raw input dictionary, which validation consumes. */
  class InputNodesRaw {
    var nodes: map<Key, Node>

    constructor (nodes: map<Key, Node>)
      ensures this.nodes == nodes
    {
      this.nodes := nodes;
    }

    /** `dict.pop(key)`: `None` stands for the KeyError of a missing key. */
    method Pop(key: Key) returns (r: Option<Node>)
      modifies this
      ensures r == if key in old(nodes) then Some(old(nodes)[key]) else None
      ensures nodes == old(nodes) - {key}
    {
      if key in nodes {
        r := Some(nodes[key]);
        nodes := nodes - {key};
      } else {
        r := None;
      }
    }
  }

  /** The temporary folder the input file is written into: file name to content. */
  class Folder {
    var files: map<string, string>

    constructor ()
      ensures files == map[]
    {
      files := map[];
    }

    method WriteFile(name: string, content: string)
      modifies this
      ensures files == old(files)[name := content]
    {
      files := files[name := content];
    }
  }

  class ArithmeticAddCalculation {
    const uuid: string
    const requiredInputs: seq<Key>
    const optionalInputs: seq<Key>
    const useMethods: map<Key, ValidTypes>
    /** `get_linkname`, declared by the parent calculation class. */
    const linkName: Key -> Link

    constructor (uuid: string, inheritedUseMethods: map<Key, ValidTypes>, linkName: Key -> Link)
      ensures this.uuid == uuid && this.linkName == linkName
      ensures requiredInputs == REQUIRED_INPUTS && optionalInputs == OPTIONAL_INPUTS
      ensures useMethods == UseMethods(inheritedUseMethods)
    {
      this.uuid := uuid;
      this.linkName := linkName;
      requiredInputs := REQUIRED_INPUTS;
      optionalInputs := OPTIONAL_INPUTS;
      useMethods := UseMethods(inheritedUseMethods);
    }

    /** `validate_input_nodes`: pops every recognised key from `raw`. */
    method ValidateInputNodes(raw: InputNodesRaw, construct: NodeClass -> Node)
      returns (r: Result<map<Link, Node>, CalcError>)
      modifies raw
      ensures var p := Validate(requiredInputs, optionalInputs, linkName, useMethods, construct, old(raw.nodes));
        r == p.outcome && raw.nodes == p.rest
    {
      ghost var raw0 := raw.nodes;
      var inputNodes: map<Link, Node> := map[];
      for i := 0 to |requiredInputs|
        invariant TakeRequired(requiredInputs, linkName, raw0, map[])
               == TakeRequired(requiredInputs[i..], linkName, raw.nodes, inputNodes)
      {
        var key := requiredInputs[i];
        var link := linkName(key);
        assert requiredInputs[i..][1..] == requiredInputs[i + 1..];
        var node := raw.Pop(key);
        if node.None? {
          return Err(RequiredInputMissing(key));
        }
        inputNodes := inputNodes[link := node.value];
      }
      ghost var afterRequired := raw.nodes;
      ghost var accRequired := inputNodes;
      for i := 0 to |optionalInputs|
        invariant TakeOptional(optionalInputs, linkName, useMethods, construct, afterRequired, accRequired)
               == TakeOptional(optionalInputs[i..], linkName, useMethods, construct, raw.nodes, inputNodes)
      {
        var key := optionalInputs[i];
        var link := linkName(key);
        assert optionalInputs[i..][1..] == optionalInputs[i + 1..];
        assert key !in raw.nodes ==> raw.nodes - {key} == raw.nodes;
        var node := raw.Pop(key);
        var value: Node;
        if node.Some? {
          value := node.value;
        } else {
          var validType := GetInputValidType(useMethods, key);
          if validType.Err? {
            return Err(validType.error);
          }
          value := construct(validType.value);
        }
        inputNodes := inputNodes[link := value];
      }
      if raw.nodes != map[] {
        return Err(InputsNotRecognized(raw.nodes.Keys));
      }
      return Ok(inputNodes);
    }

    /** `write_input_files`: the file is opened (and so created empty)
        before the operands' values are read. */
    method WriteInputFiles(folder: Folder, x: Node, y: Node) returns (r: Result<(), CalcError>)
      modifies folder
      ensures x.value.Some? && y.value.Some? ==>
        r == Ok(()) && folder.files == old(folder.files)[INPUT_FILE_NAME := InputFileContent(x.value.value, y.value.value)]
      ensures !(x.value.Some? && y.value.Some?) ==>
        r == Err(NoValueAttribute) && folder.files == old(folder.files)[INPUT_FILE_NAME := ""]
    {
      folder.WriteFile(INPUT_FILE_NAME, "");
      if x.value.None? || y.value.None? {
        return Err(NoValueAttribute);
      }
      folder.WriteFile(INPUT_FILE_NAME, InputFileContent(x.value.value, y.value.value));
      return Ok(());
    }

    /** `_prepare_for_submission`: validate, write `aiida.in`, and build the
        CalcInfo with one CodeInfo that runs the code on `-in aiida.in`
        with stdout captured in `aiida.out`, which is also the one file
        retrieved. */
    method PrepareForSubmission(folder: Folder, raw: InputNodesRaw, construct: NodeClass -> Node)
      returns (r: Result<CalcInfo, CalcError>)
      requires requiredInputs == REQUIRED_INPUTS
      modifies folder, raw
      ensures var p := Validate(requiredInputs, optionalInputs, linkName, useMethods, construct, old(raw.nodes));
        && raw.nodes == p.rest
        && (p.outcome.Err? ==> r == Err(p.outcome.error) && folder.files == old(folder.files))
        && (p.outcome.Ok? ==>
              assert linkName("x") in Links(REQUIRED_INPUTS, linkName);
              assert linkName("y") in Links(REQUIRED_INPUTS, linkName);
              assert linkName("code") in Links(REQUIRED_INPUTS, linkName);
              var x := p.outcome.value[linkName("x")];
              var y := p.outcome.value[linkName("y")];
              var code := p.outcome.value[linkName("code")];
              if x.value.Some? && y.value.Some? then
                && folder.files == old(folder.files)[INPUT_FILE_NAME := InputFileContent(x.value.value, y.value.value)]
                && r == Ok(CalcInfo(uuid, [CodeInfo(["-in", INPUT_FILE_NAME], OUTPUT_FILE_NAME, code.uuid)],
                                    [OUTPUT_FILE_NAME], [], []))
              else
                && folder.files == old(folder.files)[INPUT_FILE_NAME := ""]
                && r == Err(NoValueAttribute))
    {
      var validated := ValidateInputNodes(raw, construct);
      if validated.Err? {
        return Err(validated.error);
      }
      var inputNodes := validated.value;
      assert linkName("x") in Links(REQUIRED_INPUTS, linkName);
      assert linkName("y") in Links(REQUIRED_INPUTS, linkName);
      assert linkName("code") in Links(REQUIRED_INPUTS, linkName);
      var inputX := inputNodes[linkName("x")];
      var inputY := inputNodes[linkName("y")];
      var inputCode := inputNodes[linkName("code")];

      var written := WriteInputFiles(folder, inputX, inputY);
      if written.Err? {
        return Err(written.error);
      }

      var retrieveList := GetRetrieveList();
      var localCopyList := GetLocalCopyList();
      var remoteCopyList := GetRemoteCopyList();

      var codeInfo := CodeInfo(["-in", INPUT_FILE_NAME], OUTPUT_FILE_NAME, inputCode.uuid);
      return Ok(CalcInfo(uuid, [codeInfo], retrieveList, localCopyList, remoteCopyList));
    }
  }
}
