/** The `etrace` decorator (src/scottbrian_utils/entry_trace.py): the
    target name and parameter table worked out when a function is
    decorated, and the argument rendering of its entry and exit log lines.

    Argument values are abstract; `strOf` and `reprOf` stand for Python's
    `str()` and `repr()` of a value, `caller` for the call sequence that
    diag_msg formats, and `wrapped` for the decorated function. */
module EntryTrace {
  import opened Optional
  import opened Strings

  /** An argument value: a `str`, any other object, or the tuple that
      gathers the extra positional arguments of `*args`. */
  datatype Value = Str(s: string) | Obj(id: nat) | Tuple(items: seq<Value>)

  /** `inspect.Parameter.kind`. */
  datatype ParamKind = PositionalOnly | PositionalOrKeyword | VarPositional | KeywordOnly | VarKeyword

  /** A parameter of the decorated function's signature; `default` is
      `None` for `inspect.Parameter.empty`. */
  datatype Param = Param(name: string, kind: ParamKind, default: Option<Value>)

  /** What `wrapped` is: a plain function (or instance method), a
      `staticmethod` or a `classmethod` object. */
  datatype FuncKind = PlainFunction | StaticMethod | ClassMethod

  /** The `omit_parms` argument: `None`, a single `str`, or an iterable of names. */
  datatype OmitArg = OmitNone | OmitOne(name: string) | OmitMany(names: seq<string>)

  /** An exception: the `IndexError` of too many positional arguments, the
      `ValueError` of an unknown omitted name, or one the decorated function
      raised itself, which propagates unchanged. */
  datatype TraceError = IndexError | ValueError(name: string) | Raised(exception: nat)

  datatype Result<T> = Ok(value: T) | Err(error: TraceError)

  /** The value a parameter without a default starts with. */
  const Unset: Value := Str("?")
  /** The value an omitted parameter is shown with. */
  const Omitted: Value := Str("...")

  //--------------------------------------------------------------------------
  // Decoration time: omit set, target name, signature table
  //--------------------------------------------------------------------------

  /** `set({omit_parms} if isinstance(omit_parms, str) else omit_parms or "")`. */
  function OmitSet(o: OmitArg): (r: set<string>)
    ensures o.OmitNone? ==> r == {}
    ensures o.OmitOne? ==> r == {o.name}
    ensures o.OmitMany? ==> forall n :: n in r <==> n in o.names
  {
    match o
    case OmitNone => {}
    case OmitOne(n) => {n}
    case OmitMany(ns) => set n | n in ns
  }

  /** A single name is omitted as the one-element list of it would be,
      `None` as the empty list, and a name listed twice is omitted once. */
  lemma OmitNormalised(n: string, ns: seq<string>)
    ensures OmitSet(OmitOne(n)) == OmitSet(OmitMany([n]))
    ensures OmitSet(OmitNone) == OmitSet(OmitMany([]))
    ensures OmitSet(OmitMany(ns + ns)) == OmitSet(OmitMany(ns))
  {
  }

  /** The name shown for `__qualname__`, and whether it names a member of
      a class: the bare function name for a top-level or nested function,
      `:Class.method` otherwise. */
  function TargetName(qualname: string): (r: (string, bool))
  {
    var parts := Split(qualname, '.');
    var n := |parts|;
    if n == 1 || parts[n - 2] == "<locals>" then (parts[n - 1], false)
    else (":" + parts[n - 2] + "." + parts[n - 1], true)
  }

  /** Whether the first parameter (`self` or `cls`) is left out of the table. */
  function SkipSelfCls(qualname: string, kind: FuncKind): bool
  {
    kind == ClassMethod || (TargetName(qualname).1 && kind != StaticMethod)
  }

  /** `f"{target_file}:{target_name}:{target_line_num}"`, the file being the
      last `\`-separated part of the source path and the line `?` when the
      source cannot be read. */
  function Target(sourceFile: string, qualname: string, lineNum: Option<nat>): string
  {
    LastPart(sourceFile, '\\') + ":" + TargetName(qualname).0 + ":"
      + (if lineNum.Some? then NatToString(lineNum.value) else "?")
  }

  /** A top-level function is shown by its own name. */
  lemma TargetNameTopLevel(name: string)
    requires '.' !in name
    ensures TargetName(name) == (name, false)
  {
    SplitNoSep(name, '.');
  }

  /** A function nested in another function is shown by its own name. */
  lemma TargetNameNested(outer: string, name: string)
    requires '.' !in outer && '.' !in name
    ensures TargetName(outer + ".<locals>." + name) == (name, false)
  {
    var parts := [outer, "<locals>", name];
    assert parts[1..] == ["<locals>", name];
    assert Join(parts[1..], ".") == "<locals>" + "." + name;
    assert Join(parts, ".") == outer + ".<locals>." + name;
    SplitJoin(parts, '.');
  }

  /** A method is shown as `:Class.method`, and its first parameter is
      skipped unless it is a staticmethod. */
  lemma TargetNameMethod(cls: string, name: string, kind: FuncKind)
    requires '.' !in cls && '.' !in name && cls != "<locals>"
    ensures TargetName(cls + "." + name) == (":" + cls + "." + name, true)
    ensures SkipSelfCls(cls + "." + name, kind) <==> kind != StaticMethod
  {
    SplitJoin([cls, name], '.');
  }

  /** The parameters among the first `n` that enter the table: all but the
      skipped first one and `**kwargs`, in declaration order. */
  function KeptUpTo(params: seq<Param>, skip: bool, n: nat): seq<Param>
    requires n <= |params|
  {
    if n == 0 then []
    else
      var prev := KeptUpTo(params, skip, n - 1);
      if (n == 1 && skip) || params[n - 1].kind == VarKeyword then prev
      else prev + [params[n - 1]]
  }

  /** Only parameters among the first `n`, and never `**kwargs`, are kept. */
  lemma {:induction false} KeptFromPrefix(params: seq<Param>, skip: bool, n: nat)
    requires n <= |params|
    ensures forall p :: p in KeptUpTo(params, skip, n) ==> p in params[..n] && p.kind != VarKeyword
  {
    if n > 0 {
      KeptFromPrefix(params, skip, n - 1);
      assert params[..n] == params[..n - 1] + [params[n - 1]];
    }
  }

  function Kept(params: seq<Param>, skip: bool): seq<Param>
  {
    KeptUpTo(params, skip, |params|)
  }

  /** Exactly the parameters other than the skipped first one and
      `**kwargs` are kept. */
  lemma {:induction false} KeptMembers(params: seq<Param>, skip: bool, n: nat)
    requires UniqueParamNames(params) && n <= |params|
    ensures forall i :: 0 <= i < |params| ==>
      (params[i] in KeptUpTo(params, skip, n) <==> i < n && !(i == 0 && skip) && params[i].kind != VarKeyword)
  {
    if n > 0 {
      KeptMembers(params, skip, n - 1);
    }
  }

  function DefaultOf(p: Param): Value
  {
    if p.default.Some? then p.default.value else Unset
  }

  function NamesOf(ps: seq<Param>): (r: seq<string>)
    ensures |r| == |ps| && forall i :: 0 <= i < |ps| ==> r[i] == ps[i].name
  {
    seq(|ps|, i requires 0 <= i < |ps| => ps[i].name)
  }

  function KindsOf(ps: seq<Param>): (r: seq<ParamKind>)
    ensures |r| == |ps| && forall i :: 0 <= i < |ps| ==> r[i] == ps[i].kind
  {
    seq(|ps|, i requires 0 <= i < |ps| => ps[i].kind)
  }

  /** The initial table: each kept parameter with its default, or `"?"`. */
  function SigTable(ps: seq<Param>): (t: Table)
    ensures |t| == |ps| && forall i :: 0 <= i < |ps| ==> t[i] == (ps[i].name, DefaultOf(ps[i]))
  {
    seq(|ps|, i requires 0 <= i < |ps| => (ps[i].name, DefaultOf(ps[i])))
  }

  /** `var_pos_idx`: the table position of `*args`, or -1. */
  function VarPosIndex(ps: seq<Param>): (r: int)
    ensures -1 <= r < |ps|
    ensures r >= 0 ==> ps[r].kind == VarPositional
    ensures forall i :: r < i < |ps| ==> ps[i].kind != VarPositional
  {
    if ps == [] then -1
    else if ps[|ps| - 1].kind == VarPositional then |ps| - 1
    else VarPosIndex(ps[..|ps| - 1])
  }

  /** Python never gives two parameters one name. */
  predicate UniqueParamNames(params: seq<Param>)
  {
    forall i, j :: 0 <= i < j < |params| ==> params[i].name != params[j].name
  }

  //--------------------------------------------------------------------------
  // The argument table: a dict in insertion order
  //--------------------------------------------------------------------------

  type Table = seq<(string, Value)>

  function Keys(t: Table): (ks: seq<string>)
    ensures |ks| == |t| && forall i :: 0 <= i < |t| ==> ks[i] == t[i].0
  {
    seq(|t|, i requires 0 <= i < |t| => t[i].0)
  }

  predicate UniqueKeys(t: Table)
  {
    forall i, j :: 0 <= i < j < |t| ==> t[i].0 != t[j].0
  }

  /** `d.get(k)`. */
  function Get(t: Table, k: string): Option<Value>
    decreases |t|
  {
    if t == [] then None
    else if t[0].0 == k then Some(t[0].1)
    else Get(t[1..], k)
  }

  /** `d[k] = v`: replaces the value of an existing key in place, or
      appends the key at the end. */
  function Put(t: Table, k: string, v: Value): Table
    decreases |t|
  {
    if t == [] then [(k, v)]
    else if t[0].0 == k then [(k, v)] + t[1..]
    else [t[0]] + Put(t[1..], k, v)
  }

  /** `del d[k]`. */
  function Delete(t: Table, k: string): Table
    decreases |t|
  {
    if t == [] then []
    else if t[0].0 == k then Delete(t[1..], k)
    else [t[0]] + Delete(t[1..], k)
  }

  lemma {:induction false} GetSomeIff(t: Table, k: string)
    ensures Get(t, k).Some? <==> k in Keys(t)
    decreases |t|
  {
    if t != [] {
      GetSomeIff(t[1..], k);
      assert Keys(t) == [t[0].0] + Keys(t[1..]);
    }
  }

  /** In a table with distinct keys each entry is what its key looks up. */
  lemma {:induction false} GetAt(t: Table, i: nat)
    requires UniqueKeys(t) && i < |t|
    ensures Get(t, t[i].0) == Some(t[i].1)
    decreases i
  {
    if i > 0 {
      GetAt(t[1..], i - 1);
    }
  }

  /** After `d[k] = v`, `k` looks up `v` and every other key what it did before. */
  lemma {:induction false} PutGet(t: Table, k: string, v: Value, k': string)
    ensures Get(Put(t, k, v), k') == if k' == k then Some(v) else Get(t, k')
    decreases |t|
  {
    if t != [] && t[0].0 != k {
      PutGet(t[1..], k, v, k');
    }
  }

  /** `d[k] = v` keeps the key order, adding `k` at the end when it is new. */
  lemma {:induction false} PutKeys(t: Table, k: string, v: Value)
    ensures Keys(Put(t, k, v)) == if k in Keys(t) then Keys(t) else Keys(t) + [k]
    ensures k !in Keys(t) ==> Put(t, k, v) == t + [(k, v)]
    decreases |t|
  {
    if t != [] {
      assert Keys(t) == [t[0].0] + Keys(t[1..]);
      if t[0].0 != k {
        PutKeys(t[1..], k, v);
        assert Keys(Put(t, k, v)) == [t[0].0] + Keys(Put(t[1..], k, v));
      } else {
        assert Keys(Put(t, k, v)) == [k] + Keys(t[1..]);
      }
    }
  }

  lemma PutUnique(t: Table, k: string, v: Value)
    requires UniqueKeys(t)
    ensures UniqueKeys(Put(t, k, v))
  {
    PutKeys(t, k, v);
    var r := Put(t, k, v);
    assert forall i, j :: 0 <= i < j < |r| ==> Keys(r)[i] != Keys(r)[j];
  }

  /** On distinct keys `d[k] = v` for a present key replaces its entry. */
  lemma {:induction false} PutAt(t: Table, i: nat, v: Value)
    requires UniqueKeys(t) && i < |t|
    ensures Put(t, t[i].0, v) == t[i := (t[i].0, v)]
    decreases i
  {
    if i > 0 {
      PutAt(t[1..], i - 1, v);
      assert t[i := (t[i].0, v)] == [t[0]] + t[1..][i - 1 := (t[i].0, v)];
    }
  }

  /** After `del d[k]`, `k` is gone and every other key looks up what it did. */
  lemma {:induction false} DeleteGet(t: Table, k: string, k': string)
    ensures Get(Delete(t, k), k') == if k' == k then None else Get(t, k')
    decreases |t|
  {
    if t != [] {
      DeleteGet(t[1..], k, k');
    }
  }

  /** Every key in `omit` shown as `"..."`. */
  function Mask(t: Table, omit: set<string>): (r: Table)
    ensures |r| == |t|
    ensures forall i :: 0 <= i < |t| ==> r[i] == (t[i].0, if t[i].0 in omit then Omitted else t[i].1)
  {
    seq(|t|, i requires 0 <= i < |t| => (t[i].0, if t[i].0 in omit then Omitted else t[i].1))
  }

  /** The initial table as a dict: its keys are the kept parameters' names
      in order, each looks up its default (or `"?"`), and no other key is
      present. */
  lemma SigTableLookup(ps: seq<Param>, k: string)
    requires UniqueParamNames(ps)
    ensures Keys(SigTable(ps)) == NamesOf(ps) && UniqueKeys(SigTable(ps))
    ensures forall i :: 0 <= i < |ps| ==> Get(SigTable(ps), ps[i].name) == Some(DefaultOf(ps[i]))
    ensures k !in NamesOf(ps) ==> Get(SigTable(ps), k) == None
  {
    var t := SigTable(ps);
    forall i | 0 <= i < |ps| ensures Get(t, ps[i].name) == Some(DefaultOf(ps[i])) {
      GetAt(t, i);
    }
    GetSomeIff(t, k);
  }

  /** Masking keeps the keys in order; an omitted key that is present looks
      up `"..."`, and every other key looks up what it did. */
  lemma {:induction false} MaskGet(t: Table, omit: set<string>, k: string)
    ensures Keys(Mask(t, omit)) == Keys(t)
    ensures Get(Mask(t, omit), k) == if k in omit && k in Keys(t) then Some(Omitted) else Get(t, k)
    decreases |t|
  {
    if t != [] {
      assert Mask(t, omit)[1..] == Mask(t[1..], omit);
      assert Keys(t) == [t[0].0] + Keys(t[1..]);
      MaskGet(t[1..], omit, k);
    }
  }

  //--------------------------------------------------------------------------
  // Call time: binding, omission and rendering
  //--------------------------------------------------------------------------

  /** The positional binding loop from argument `idx` on: each argument
      overwrites the entry of its parameter; at `*args` the remaining
      arguments go in one tuple and binding stops; an argument beyond the
      table raises `IndexError`. */
  function BindFrom(t: Table, names: seq<string>, kinds: seq<ParamKind>, args: seq<Value>, idx: nat): Result<Table>
    requires |names| == |kinds| && idx <= |args|
    decreases |args| - idx
  {
    if idx == |args| then Ok(t)
    else if idx >= |kinds| then Err(IndexError)
    else if kinds[idx] == VarPositional then Ok(Put(t, names[idx], Tuple(args[idx..])))
    else BindFrom(Put(t, names[idx], args[idx]), names, kinds, args, idx + 1)
  }

  /** The keyword loop: each keyword argument overwrites its entry or is
      appended after the declared parameters. */
  function BindKeywords(t: Table, kwargs: Table): Table
    decreases |kwargs|
  {
    if kwargs == [] then t
    else BindKeywords(Put(t, kwargs[0].0, kwargs[0].1), kwargs[1..])
  }

  /** The table after positional and keyword binding. */
  function Bound(t: Table, names: seq<string>, kinds: seq<ParamKind>, args: seq<Value>, kwargs: Table): Result<Table>
    requires |names| == |kinds|
  {
    match BindFrom(t, names, kinds, args, 0)
    case Err(e) => Err(e)
    case Ok(b) => Ok(BindKeywords(b, kwargs))
  }

  /** Whether every name to omit is in the table (otherwise `ValueError`). */
  predicate OmitKnown(t: Table, omit: set<string>)
  {
    forall n :: n in omit ==> n in Keys(t)
  }

  /** An `*args` entry that received nothing (still `"?"`) is dropped. */
  function DropUnfilledVarArgs(t: Table, names: seq<string>, varPosIdx: int): Table
    requires varPosIdx < |names|
  {
    if varPosIdx >= 0 && Get(t, names[varPosIdx]) == Some(Unset) then Delete(t, names[varPosIdx])
    else t
  }

  /** The table the entry log shows. */
  function Shown(b: Table, names: seq<string>, varPosIdx: int, omit: set<string>): Table
    requires varPosIdx < |names|
  {
    DropUnfilledVarArgs(Mask(b, omit), names, varPosIdx)
  }

  /** `key='v', ` for a string other than `"?"`, `key=v, ` otherwise. */
  function RenderEntry(e: (string, Value), strOf: Value -> string): string
  {
    match e.1
    case Str(s) => if s != "?" then e.0 + "='" + s + "', " else e.0 + "=" + s + ", "
    case _ => e.0 + "=" + strOf(e.1) + ", "
  }

  /** `log_sig_array`: the entries rendered one after the other. */
  function RenderAll(t: Table, strOf: Value -> string): string
  {
    Concat(t, e => RenderEntry(e, strOf))
  }

  function EntryLog(target: string, rendered: string, caller: string): string
  {
    target + " entry: " + rendered + "caller: " + caller
  }

  function ExitLog(target: string, returnValue: Value, omitReturnValue: bool, reprOf: Value -> string): string
  {
    target + " exit: " + (if omitReturnValue then "return value omitted" else "return_value=" + reprOf(returnValue))
  }

  /** In the rendering of a masked table each omitted parameter appears as
      `key='...', ` between the renderings of the entries around it. */
  lemma RenderOmitted(t: Table, omit: set<string>, i: nat, strOf: Value -> string)
    requires i < |t| && t[i].0 in omit
    ensures var m := Mask(t, omit);
      RenderAll(m, strOf) == RenderAll(m[..i], strOf) + t[i].0 + "='...', " + RenderAll(m[i + 1..], strOf)
  {
    var m := Mask(t, omit);
    var k := t[i].0;
    ConcatSplitAt(m, i, e => RenderEntry(e, strOf));
    assert RenderEntry(m[i], strOf) == k + "='...', " by {
      assert m[i] == (k, Omitted);
      assert k + "='" + "..." + "', " == k + "='...', ";
    }
  }

  //--------------------------------------------------------------------------
  // Properties of binding
  //--------------------------------------------------------------------------

  /** Positional binding fails exactly when there are more arguments than
      table entries and none of the entries is `*args`. */
  lemma {:induction false} BindFailsIff(t: Table, names: seq<string>, kinds: seq<ParamKind>, args: seq<Value>, idx: nat)
    requires |names| == |kinds| && idx <= |args| && idx <= |kinds|
    ensures BindFrom(t, names, kinds, args, idx).Err? <==>
      |args| > |kinds| && forall i :: idx <= i < |kinds| ==> kinds[i] != VarPositional
    decreases |args| - idx
  {
    if idx < |args| && idx < |kinds| && kinds[idx] != VarPositional {
      BindFailsIff(Put(t, names[idx], args[idx]), names, kinds, args, idx + 1);
    }
  }

  /** Binding keeps the keys of a table distinct. */
  lemma {:induction false} BindFromUnique(t: Table, names: seq<string>, kinds: seq<ParamKind>, args: seq<Value>, idx: nat)
    requires |names| == |kinds| && idx <= |args| && UniqueKeys(t)
    ensures BindFrom(t, names, kinds, args, idx).Ok? ==> UniqueKeys(BindFrom(t, names, kinds, args, idx).value)
    decreases |args| - idx
  {
    if idx < |args| && idx < |kinds| {
      if kinds[idx] == VarPositional {
        PutUnique(t, names[idx], Tuple(args[idx..]));
      } else {
        PutUnique(t, names[idx], args[idx]);
        BindFromUnique(Put(t, names[idx], args[idx]), names, kinds, args, idx + 1);
      }
    }
  }

  /** Positional arguments bound without `*args`: the i-th argument is the
      value of the i-th parameter, no key is added, and keys of no bound
      parameter keep their values. */
  lemma BindPlain(t: Table, names: seq<string>, kinds: seq<ParamKind>, args: seq<Value>, idx: nat)
    requires |names| == |kinds| && idx <= |args| <= |kinds|
    requires forall i :: 0 <= i < |kinds| ==> kinds[i] != VarPositional
    requires forall i :: idx <= i < |names| ==> names[i] in Keys(t)
    requires forall i, j :: 0 <= i < j < |names| ==> names[i] != names[j]
    ensures BindFrom(t, names, kinds, args, idx).Ok?
    ensures Keys(BindFrom(t, names, kinds, args, idx).value) == Keys(t)
    ensures forall i :: idx <= i < |args| ==> Get(BindFrom(t, names, kinds, args, idx).value, names[i]) == Some(args[i])
    ensures forall k :: k !in names[idx..|args|] ==> Get(BindFrom(t, names, kinds, args, idx).value, k) == Get(t, k)
  {
    BindPlainKeys(t, names, kinds, args, idx);
    BindPlainGet(t, names, kinds, args, idx);
  }

  lemma {:induction false} BindPlainKeys(t: Table, names: seq<string>, kinds: seq<ParamKind>, args: seq<Value>, idx: nat)
    requires |names| == |kinds| && idx <= |args| <= |kinds|
    requires forall i :: 0 <= i < |kinds| ==> kinds[i] != VarPositional
    requires forall i :: idx <= i < |names| ==> names[i] in Keys(t)
    ensures BindFrom(t, names, kinds, args, idx).Ok?
    ensures Keys(BindFrom(t, names, kinds, args, idx).value) == Keys(t)
    decreases |args| - idx
  {
    if idx < |args| {
      PutKeys(t, names[idx], args[idx]);
      BindPlainKeys(Put(t, names[idx], args[idx]), names, kinds, args, idx + 1);
    }
  }

  lemma {:induction false} BindPlainGet(t: Table, names: seq<string>, kinds: seq<ParamKind>, args: seq<Value>, idx: nat)
    requires |names| == |kinds| && idx <= |args| <= |kinds|
    requires forall i :: 0 <= i < |kinds| ==> kinds[i] != VarPositional
    requires forall i, j :: 0 <= i < j < |names| ==> names[i] != names[j]
    requires BindFrom(t, names, kinds, args, idx).Ok?
    ensures forall i :: idx <= i < |args| ==> Get(BindFrom(t, names, kinds, args, idx).value, names[i]) == Some(args[i])
    ensures forall k :: k !in names[idx..|args|] ==> Get(BindFrom(t, names, kinds, args, idx).value, k) == Get(t, k)
    decreases |args| - idx
  {
    if idx < |args| {
      var k, v := names[idx], args[idx];
      var t' := Put(t, k, v);
      assert BindFrom(t, names, kinds, args, idx) == BindFrom(t', names, kinds, args, idx + 1);
      BindPlainGet(t', names, kinds, args, idx + 1);
      var r := BindFrom(t', names, kinds, args, idx + 1).value;
      assert names[idx..|args|] == [k] + names[idx + 1..|args|];
      forall k' | k' !in names[idx..|args|]
        ensures Get(r, k') == Get(t, k')
      {
        PutGet(t, k, v, k');
      }
      assert k !in names[idx + 1..|args|] by {
        forall j | idx + 1 <= j < |args| ensures names[j] != k { }
      }
      PutGet(t, k, v, k);
    }
  }

  /** With `*args` at position `v` and more than `v` arguments, the
      arguments from `v` on become one tuple stored under its name, and
      the ones before it are bound one by one. */
  lemma {:induction false} BindVarArgs(t: Table, names: seq<string>, kinds: seq<ParamKind>, args: seq<Value>, idx: nat, v: nat)
    requires |names| == |kinds| && idx <= v < |args| && v < |kinds|
    requires kinds[v] == VarPositional && forall i :: idx <= i < v ==> kinds[i] != VarPositional
    requires forall i, j :: 0 <= i < j < |names| ==> names[i] != names[j]
    ensures BindFrom(t, names, kinds, args, idx).Ok?
    ensures Get(BindFrom(t, names, kinds, args, idx).value, names[v]) == Some(Tuple(args[v..]))
    ensures forall i :: idx <= i < v ==> Get(BindFrom(t, names, kinds, args, idx).value, names[i]) == Some(args[i])
    decreases v - idx
  {
    if idx < v {
      var t' := Put(t, names[idx], args[idx]);
      BindVarArgs(t', names, kinds, args, idx + 1, v);
      var r := BindFrom(t', names, kinds, args, idx + 1).value;
      assert Get(r, names[idx]) == Some(args[idx]) by {
        BindTouchesOnly(t', names, kinds, args, idx + 1, names[idx]);
        PutGet(t, names[idx], args[idx], names[idx]);
      }
    } else {
      PutGet(t, names[v], Tuple(args[v..]), names[v]);
    }
  }

  /** Binding from `idx` on leaves a key that no later parameter has alone. */
  lemma {:induction false} BindTouchesOnly(t: Table, names: seq<string>, kinds: seq<ParamKind>, args: seq<Value>, idx: nat, k: string)
    requires |names| == |kinds| && idx <= |args|
    requires forall i :: idx <= i < |names| ==> names[i] != k
    requires BindFrom(t, names, kinds, args, idx).Ok?
    ensures Get(BindFrom(t, names, kinds, args, idx).value, k) == Get(t, k)
    decreases |args| - idx
  {
    if idx < |args| && idx < |kinds| {
      if kinds[idx] == VarPositional {
        PutGet(t, names[idx], Tuple(args[idx..]), k);
      } else {
        PutGet(t, names[idx], args[idx], k);
        BindTouchesOnly(Put(t, names[idx], args[idx]), names, kinds, args, idx + 1, k);
      }
    }
  }

  /** Keyword arguments (a dict, so with distinct keys) end up with their
      values, and keys not mentioned keep theirs. */
  lemma {:induction false} BindKeywordsSpec(t: Table, kwargs: Table)
    requires UniqueKeys(kwargs)
    ensures forall i :: 0 <= i < |kwargs| ==> Get(BindKeywords(t, kwargs), kwargs[i].0) == Some(kwargs[i].1)
    ensures forall k :: k !in Keys(kwargs) ==> Get(BindKeywords(t, kwargs), k) == Get(t, k)
    decreases |kwargs|
  {
    if kwargs != [] {
      var k := kwargs[0].0;
      var t' := Put(t, k, kwargs[0].1);
      var rest := kwargs[1..];
      BindKeywordsSpec(t', rest);
      var r := BindKeywords(t', rest);
      assert Keys(kwargs) == [k] + Keys(rest);
      forall k' | k' !in Keys(kwargs)
        ensures Get(r, k') == Get(t, k')
      {
        PutGet(t, k, kwargs[0].1, k');
      }
      forall i | 0 <= i < |kwargs|
        ensures Get(r, kwargs[i].0) == Some(kwargs[i].1)
      {
        if i == 0 {
          assert k !in Keys(rest);
          PutGet(t, k, kwargs[0].1, k);
        } else {
          assert kwargs[i] == rest[i - 1];
        }
      }
    }
  }

  /** Keyword binding keeps the keys of a table distinct and its existing
      keys in place. */
  lemma {:induction false} BindKeywordsUnique(t: Table, kwargs: Table)
    requires UniqueKeys(t)
    ensures UniqueKeys(BindKeywords(t, kwargs))
    ensures Keys(t) <= Keys(BindKeywords(t, kwargs))
    decreases |kwargs|
  {
    if kwargs != [] {
      var t' := Put(t, kwargs[0].0, kwargs[0].1);
      PutUnique(t, kwargs[0].0, kwargs[0].1);
      PutKeys(t, kwargs[0].0, kwargs[0].1);
      BindKeywordsUnique(t', kwargs[1..]);
    }
  }

  //--------------------------------------------------------------------------
  // The decorated function
  //--------------------------------------------------------------------------

  class Tracer {
    var target: string
    var omitParms: set<string>
    var omitReturnValue: bool
    var enableTrace: bool
    /** `target_sig_array`, `target_sig_names`, `target_sig_kind`, `var_pos_idx`. */
    var sigTable: Table
    var sigNames: seq<string>
    var sigKinds: seq<ParamKind>
    var varPosIdx: int

    ghost predicate Valid()
      reads this
    {
      |sigNames| == |sigKinds| && -1 <= varPosIdx < |sigNames| && UniqueKeys(sigTable)
    }

    /** `etrace(wrapped, enable_trace=..., omit_parms=..., omit_return_value=...)`
        for a function with the given qualname, kind, source file, line
        and parameters. */
    constructor(qualname: string, kind: FuncKind, sourceFile: string, lineNum: Option<nat>,
                params: seq<Param>, enable: bool, omit: OmitArg, omitReturn: bool)
      requires UniqueParamNames(params)
      ensures Valid()
      ensures target == Target(sourceFile, qualname, lineNum)
      ensures omitParms == OmitSet(omit) && omitReturnValue == omitReturn && enableTrace == enable
      ensures var kept := Kept(params, SkipSelfCls(qualname, kind));
        && sigTable == SigTable(kept) && sigNames == NamesOf(kept) && sigKinds == KindsOf(kept)
        && varPosIdx == VarPosIndex(kept)
    {
      omitParms := OmitSet(omit);
      target := Target(sourceFile, qualname, lineNum);
      omitReturnValue := omitReturn;
      enableTrace := enable;
      var t, ns, ks, v := BuildSignature(params, SkipSelfCls(qualname, kind));
      sigTable, sigNames, sigKinds, varPosIdx := t, ns, ks, v;
    }

    /** A call of the decorated function: the value `wrapped` returns, or
        the exception it raises, unchanged, and the log lines written. With
        tracing disabled the call is passed straight through; an error of
        the entry trace is raised before the function is called, and an
        exception of the function leaves the entry line without an exit
        line. */
    method Call(args: seq<Value>, kwargs: Table, wrapped: (seq<Value>, Table) -> Result<Value>,
                strOf: Value -> string, reprOf: Value -> string, caller: string)
      returns (r: Result<Value>, log: seq<string>)
      requires Valid()
      ensures !enableTrace ==> r == wrapped(args, kwargs) && log == []
      ensures enableTrace ==>
        match Bound(sigTable, sigNames, sigKinds, args, kwargs)
        case Err(e) => r == Err(e) && log == []
        case Ok(b) =>
          if OmitKnown(b, omitParms) then
            var entry := EntryLog(target, RenderAll(Shown(b, sigNames, varPosIdx, omitParms), strOf), caller);
            && r == wrapped(args, kwargs)
            && log == if r.Ok? then [entry, ExitLog(target, r.value, omitReturnValue, reprOf)] else [entry]
          else
            && r.Err? && r.error.ValueError? && log == []
            && r.error.name in omitParms && r.error.name !in Keys(b)
    {
      if !enableTrace {
        return wrapped(args, kwargs), [];
      }
      var bound := BindPositional(sigTable, sigNames, sigKinds, args);
      if bound.Err? {
        return Err(bound.error), [];
      }
      BindFromUnique(sigTable, sigNames, sigKinds, args, 0);
      var table := bound.value;
      var i := 0;
      while i < |kwargs|
        invariant 0 <= i <= |kwargs|
        invariant UniqueKeys(table)
        invariant BindKeywords(bound.value, kwargs) == BindKeywords(table, kwargs[i..])
      {
        assert kwargs[i..][1..] == kwargs[i + 1..];
        PutUnique(table, kwargs[i].0, kwargs[i].1);
        table := Put(table, kwargs[i].0, kwargs[i].1);
        i := i + 1;
      }
      assert table == BindKeywords(bound.value, kwargs);
      var masked := ApplyOmit(table, omitParms);
      if masked.Err? {
        return Err(masked.error), [];
      }
      table := masked.value;
      if varPosIdx >= 0 && Get(table, sigNames[varPosIdx]) == Some(Unset) {
        table := Delete(table, sigNames[varPosIdx]);
      }
      var rendered := Render(table, strOf);
      log := [EntryLog(target, rendered, caller)];
      r := wrapped(args, kwargs);
      if r.Err? {
        return;
      }
      log := log + [ExitLog(target, r.value, omitReturnValue, reprOf)];
    }
  }

  /** The loop of `etrace` that builds the parameter table. */
  method BuildSignature(params: seq<Param>, skip: bool)
    returns (table: Table, names: seq<string>, kinds: seq<ParamKind>, varPosIdx: int)
    requires UniqueParamNames(params)
    ensures UniqueKeys(table)
    ensures var kept := Kept(params, skip);
      && table == SigTable(kept) && names == NamesOf(kept) && kinds == KindsOf(kept)
      && varPosIdx == VarPosIndex(kept)
  {
    table, names, kinds, varPosIdx := [], [], [], -1;
    var pidx := 0;
    while pidx < |params|
      invariant 0 <= pidx <= |params|
      invariant Describes(KeptUpTo(params, skip, pidx), table, names, kinds, varPosIdx)
    {
      var p := params[pidx];
      SignatureStep(params, skip, pidx, table, names, kinds, varPosIdx);
      if !(pidx == 0 && skip) && p.kind != VarKeyword {
        table := Put(table, p.name, DefaultOf(p));
        names := names + [p.name];
        kinds := kinds + [p.kind];
        if p.kind == VarPositional {
          varPosIdx := |kinds| - 1;
        }
      }
      pidx := pidx + 1;
    }
  }

  /** One turn of the signature loop: a kept parameter is added to what
      the loop has built, any other is passed over. */
  lemma SignatureStep(params: seq<Param>, skip: bool, pidx: nat,
                      table: Table, names: seq<string>, kinds: seq<ParamKind>, varPosIdx: int)
    requires UniqueParamNames(params) && pidx < |params|
    requires Describes(KeptUpTo(params, skip, pidx), table, names, kinds, varPosIdx)
    ensures var p := params[pidx];
      if !(pidx == 0 && skip) && p.kind != VarKeyword then
        Describes(KeptUpTo(params, skip, pidx + 1), Put(table, p.name, DefaultOf(p)), names + [p.name],
                  kinds + [p.kind], if p.kind == VarPositional then |kinds| else varPosIdx)
      else
        Describes(KeptUpTo(params, skip, pidx + 1), table, names, kinds, varPosIdx)
  {
    var p := params[pidx];
    if !(pidx == 0 && skip) && p.kind != VarKeyword {
      KeptStep(params, skip, pidx);
      DescribesStep(KeptUpTo(params, skip, pidx), p, table, names, kinds, varPosIdx);
    } else {
      KeptSkip(params, skip, pidx);
    }
  }

  /** The table, names, kinds and `*args` position the signature loop has
      built for the parameters `kept` so far. */
  ghost predicate Describes(kept: seq<Param>, table: Table, names: seq<string>, kinds: seq<ParamKind>, varPosIdx: int)
  {
    && UniqueKeys(table)
    && table == SigTable(kept) && names == NamesOf(kept)
    && kinds == KindsOf(kept) && varPosIdx == VarPosIndex(kept)
  }

  /** One turn of the signature loop for a kept parameter with a new name. */
  lemma DescribesStep(kept: seq<Param>, p: Param, table: Table, names: seq<string>, kinds: seq<ParamKind>, varPosIdx: int)
    requires Describes(kept, table, names, kinds, varPosIdx)
    requires p.name !in Keys(SigTable(kept))
    ensures Describes(kept + [p], Put(table, p.name, DefaultOf(p)), names + [p.name], kinds + [p.kind],
                      if p.kind == VarPositional then |kinds| else varPosIdx)
  {
    PutUnique(table, p.name, DefaultOf(p));
    SigTableStep(kept, p);
    NamesOfAppend(kept, p);
    KindsOfAppend(kept, p);
    VarPosIndexAppend(kept, p);
  }

  /** A kept parameter extends the kept ones, its name being new. */
  lemma KeptStep(params: seq<Param>, skip: bool, pidx: nat)
    requires UniqueParamNames(params) && pidx < |params|
    requires !(pidx == 0 && skip) && params[pidx].kind != VarKeyword
    ensures KeptUpTo(params, skip, pidx + 1) == KeptUpTo(params, skip, pidx) + [params[pidx]]
    ensures params[pidx].name !in Keys(SigTable(KeptUpTo(params, skip, pidx)))
  {
    KeptNamesFresh(params, skip, pidx);
  }

  /** The skipped first parameter and `**kwargs` are not kept. */
  lemma KeptSkip(params: seq<Param>, skip: bool, pidx: nat)
    requires pidx < |params|
    requires (pidx == 0 && skip) || params[pidx].kind == VarKeyword
    ensures KeptUpTo(params, skip, pidx + 1) == KeptUpTo(params, skip, pidx)
  {
  }

  /** One more kept parameter: its entry is put in the table, at the end
      since its name is new. */
  lemma SigTableStep(kept: seq<Param>, p: Param)
    requires p.name !in Keys(SigTable(kept))
    ensures SigTable(kept + [p]) == Put(SigTable(kept), p.name, DefaultOf(p))
  {
    assert SigTable(kept + [p]) == SigTable(kept) + [(p.name, DefaultOf(p))];
    PutKeys(SigTable(kept), p.name, DefaultOf(p));
  }

  /** One more kept parameter: its name is appended. */
  lemma NamesOfAppend(kept: seq<Param>, p: Param)
    ensures NamesOf(kept + [p]) == NamesOf(kept) + [p.name]
  {
    assert NamesOf(kept + [p]) == NamesOf(kept) + [p.name];
  }

  /** One more kept parameter: its kind is appended. */
  lemma KindsOfAppend(kept: seq<Param>, p: Param)
    ensures KindsOf(kept + [p]) == KindsOf(kept) + [p.kind]
  {
    assert KindsOf(kept + [p]) == KindsOf(kept) + [p.kind];
  }

  /** One more kept parameter becomes the `*args` position if it is `*args`. */
  lemma VarPosIndexAppend(kept: seq<Param>, p: Param)
    ensures VarPosIndex(kept + [p]) == if p.kind == VarPositional then |kept| else VarPosIndex(kept)
  {
    assert (kept + [p])[..|kept|] == kept;
  }

  /** A parameter's name is not among those kept before it. */
  lemma KeptNamesFresh(params: seq<Param>, skip: bool, pidx: nat)
    requires UniqueParamNames(params) && pidx < |params|
    ensures params[pidx].name !in Keys(SigTable(KeptUpTo(params, skip, pidx)))
  {
    var kept := KeptUpTo(params, skip, pidx);
    KeptFromPrefix(params, skip, pidx);
    forall q | q in kept ensures q.name != params[pidx].name {
      assert q in params[..pidx];
    }
  }

  /** The positional loop of `trace_wrapper`. */
  method BindPositional(t: Table, names: seq<string>, kinds: seq<ParamKind>, args: seq<Value>)
    returns (r: Result<Table>)
    requires |names| == |kinds|
    ensures r == BindFrom(t, names, kinds, args, 0)
  {
    var table := t;
    var idx := 0;
    while idx < |args|
      invariant 0 <= idx <= |args|
      invariant BindFrom(t, names, kinds, args, 0) == BindFrom(table, names, kinds, args, idx)
    {
      if idx >= |kinds| {
        return Err(IndexError);
      }
      if kinds[idx] == VarPositional {
        table := Put(table, names[idx], Tuple(args[idx..]));
        return Ok(table);
      }
      table := Put(table, names[idx], args[idx]);
      idx := idx + 1;
    }
    r := Ok(table);
  }

  /** The `omit_parms` loop of `trace_wrapper`; the set is visited in no
      particular order, so which missing name is reported is not fixed. */
  method ApplyOmit(t: Table, omit: set<string>) returns (r: Result<Table>)
    requires UniqueKeys(t)
    ensures r.Ok? <==> OmitKnown(t, omit)
    ensures r.Ok? ==> r.value == Mask(t, omit)
    ensures r.Err? ==> r.error.ValueError? && r.error.name in omit && r.error.name !in Keys(t)
  {
    var table := t;
    var rest := omit;
    ghost var done: set<string> := {};
    while rest != {}
      invariant rest + done == omit && rest !! done
      invariant forall n :: n in done ==> n in Keys(t)
      invariant table == Mask(t, done)
      decreases |rest|
    {
      var name :| name in rest;
      assert Keys(table) == Keys(t);
      if name in Keys(table) {
        MaskPut(t, done, name);
        table := Put(table, name, Omitted);
      } else {
        return Err(ValueError(name));
      }
      rest := rest - {name};
      done := done + {name};
    }
    r := Ok(table);
  }

  lemma MaskPut(t: Table, done: set<string>, name: string)
    requires UniqueKeys(t) && name in Keys(t)
    ensures Put(Mask(t, done), name, Omitted) == Mask(t, done + {name})
  {
    var m := Mask(t, done);
    var i :| 0 <= i < |t| && t[i].0 == name;
    assert UniqueKeys(m);
    PutAt(m, i, Omitted);
  }

  lemma RenderStep(t: Table, i: nat, strOf: Value -> string)
    requires i < |t|
    ensures RenderAll(t[i..], strOf) == RenderEntry(t[i], strOf) + RenderAll(t[i + 1..], strOf)
  {
    assert t[i..][1..] == t[i + 1..];
  }

  /** The rendering loop of `trace_wrapper`. */
  method Render(t: Table, strOf: Value -> string) returns (s: string)
    ensures s == RenderAll(t, strOf)
  {
    s := "";
    var i := 0;
    assert t[0..] == t;
    while i < |t|
      invariant 0 <= i <= |t|
      invariant s + RenderAll(t[i..], strOf) == RenderAll(t, strOf)
    {
      RenderStep(t, i, strOf);
      var e, rest := RenderEntry(t[i], strOf), RenderAll(t[i + 1..], strOf);
      assert s + (e + rest) == (s + e) + rest;
      s := s + e;
      i := i + 1;
    }
    assert s + "" == s;
  }
}
