/** Caller information and the formatted call sequence of
    src/scottbrian_utils/diag_msg.py.

    The interpreter stack is the `stack` parameter: `stack[d]` is the frame
    `sys._getframe(d)` returns, and a depth past its end is the
    `ValueError` that ends the walk. Which class of the module's globals
    defines a frame's function is found by object identity in the source;
    here it is the frame's `definingClass` field. */
module DiagMsg {
  import opened Strings

  /** What the model needs of a frame: the source file path, the code
      name, the name of the class whose method the code is (or ""), and
      the current line. */
  datatype Frame = Frame(fileName: string, codeName: string, definingClass: string, lineNum: nat)

  datatype CallerInfo = CallerInfo(modName: string, clsName: string, funcName: string, lineNum: nat)

  /** `get_caller_info`: the module is the last component of the file
      path; a module-level frame has neither function nor class. */
  function GetCallerInfo(f: Frame): (ci: CallerInfo)
    ensures ci.modName == LastPart(f.fileName, '/') && ci.lineNum == f.lineNum
    ensures f.codeName == "<module>" ==> ci.funcName == "" && ci.clsName == ""
    ensures f.codeName != "<module>" ==> ci.funcName == f.codeName && ci.clsName == f.definingClass
  {
    if f.codeName == "<module>" then CallerInfo(LastPart(f.fileName, '/'), "", "", f.lineNum)
    else CallerInfo(LastPart(f.fileName, '/'), f.definingClass, f.codeName, f.lineNum)
  }

  /** The module name is the file name proper: it holds no `/` and the
      path ends with it. */
  lemma CallerModuleIsFileName(f: Frame)
    ensures var m := GetCallerInfo(f).modName;
      '/' !in m && |m| <= |f.fileName| && f.fileName[|f.fileName| - |m|..] == m
  {
    var parts := Split(f.fileName, '/');
    SplitPartsFree(f.fileName, '/');
    JoinSplit(f.fileName, '/');
    JoinEnds(parts, "/");
  }

  /** One entry of the call sequence: `mod::cls.func:line`, the `::` only
      with a function and the `.` only with a class. */
  function FormatCaller(ci: CallerInfo): string
  {
    ci.modName + (if ci.funcName != "" then "::" else "") + ci.clsName
      + (if ci.clsName != "" then "." else "") + ci.funcName + ":" + NatToString(ci.lineNum)
  }

  /** The three shapes an entry takes: a script, a function and a method. */
  lemma FormatCallerShapes(f: Frame)
    ensures f.codeName == "<module>" ==>
      FormatCaller(GetCallerInfo(f)) == LastPart(f.fileName, '/') + ":" + NatToString(f.lineNum)
    ensures f.codeName != "<module>" && f.codeName != "" && f.definingClass == "" ==>
      FormatCaller(GetCallerInfo(f)) == LastPart(f.fileName, '/') + "::" + f.codeName + ":" + NatToString(f.lineNum)
    ensures f.codeName != "<module>" && f.codeName != "" && f.definingClass != "" ==>
      FormatCaller(GetCallerInfo(f)) ==
        LastPart(f.fileName, '/') + "::" + f.definingClass + "." + f.codeName + ":" + NatToString(f.lineNum)
  {
    var ci := GetCallerInfo(f);
    var m, n := ci.modName, NatToString(f.lineNum);
    if f.codeName == "<module>" {
      assert FormatCaller(ci) == m + "" + "" + "" + "" + ":" + n;
      assert m + "" + "" + "" + "" + ":" + n == m + ":" + n;
    } else if f.codeName != "" && f.definingClass == "" {
      assert FormatCaller(ci) == m + "::" + "" + "" + f.codeName + ":" + n;
      assert m + "::" + "" + "" + f.codeName + ":" + n == m + "::" + f.codeName + ":" + n;
    }
  }

  /** The frames the walk visits: depths `latest+1` to `latest+depth`, as
      far as the stack goes, most recent first. */
  function Window(stack: seq<Frame>, latest: nat, depth: int): (w: seq<Frame>)
    ensures |w| == if depth <= 0 || latest + 1 >= |stack| then 0
                   else if latest + 1 + depth <= |stack| then depth
                   else |stack| - (latest + 1)
    ensures forall i :: 0 <= i < |w| ==> w[i] == stack[latest + 1 + i]
  {
    if depth <= 0 || latest + 1 >= |stack| then []
    else if latest + 1 + depth <= |stack| then stack[latest + 1..latest + 1 + depth]
    else stack[latest + 1..]
  }

  /** The entries of a window, oldest caller first. */
  function OldestFirst(w: seq<Frame>): (r: seq<string>)
    ensures |r| == |w|
    decreases |w|
  {
    if w == [] then [] else [FormatCaller(GetCallerInfo(w[|w| - 1]))] + OldestFirst(w[..|w| - 1])
  }

  /** The i-th entry, oldest first, is the frame i places from the far end. */
  lemma {:induction false} OldestFirstAt(w: seq<Frame>, i: nat)
    requires i < |w|
    ensures OldestFirst(w)[i] == FormatCaller(GetCallerInfo(w[|w| - 1 - i]))
    decreases |w|
  {
    if i > 0 {
      OldestFirstAt(w[..|w| - 1], i - 1);
    }
  }

  /** `get_formatted_call_sequence(latest, depth)`. */
  function CallSequence(stack: seq<Frame>, latest: nat, depth: int): string
  {
    Join(OldestFirst(Window(stack, latest, depth)), " -> ")
  }

  /** A join starts with its first part and ends with its last. */
  lemma {:induction false} JoinEnds(parts: seq<string>, sep: string)
    requires |parts| >= 1
    ensures parts[0] <= Join(parts, sep)
    ensures var j := Join(parts, sep); var l := parts[|parts| - 1];
      |l| <= |j| && j[|j| - |l|..] == l
    decreases |parts|
  {
    if |parts| > 1 {
      JoinEnds(parts[1..], sep);
      var rest := Join(parts[1..], sep);
      assert Join(parts, sep) == parts[0] + (sep + rest);
    }
  }

  /** With at least one frame in range the sequence starts with the oldest
      visited caller and ends with the most recent one (depth `latest+1`);
      with none it is empty. */
  lemma CallSequenceEnds(stack: seq<Frame>, latest: nat, depth: int)
    ensures Window(stack, latest, depth) == [] ==> CallSequence(stack, latest, depth) == ""
    ensures Window(stack, latest, depth) != [] ==>
      var w := Window(stack, latest, depth);
      var s := CallSequence(stack, latest, depth);
      var newest := FormatCaller(GetCallerInfo(stack[latest + 1]));
      var oldest := FormatCaller(GetCallerInfo(stack[latest + |w|]));
      && oldest <= s
      && |newest| <= |s| && s[|s| - |newest|..] == newest
  {
    var w := Window(stack, latest, depth);
    if w != [] {
      var entries := OldestFirst(w);
      OldestFirstAt(w, 0);
      OldestFirstAt(w, |w| - 1);
      JoinEnds(entries, " -> ");
    }
  }

  /** Joining one more entry in front: the new entry, the arrow, the rest. */
  lemma JoinCons(x: string, rest: seq<string>, sep: string)
    ensures Join([x] + rest, sep) == if rest == [] then x else x + sep + Join(rest, sep)
  {
    assert ([x] + rest)[1..] == rest;
  }

  /** One more caller in the window: its entry goes in front of the
      sequence so far, with an arrow after it unless it is the first. */
  lemma CallSequenceStep(w: seq<Frame>, k: nat)
    requires k < |w|
    ensures Join(OldestFirst(w[..k + 1]), " -> ") ==
      FormatCaller(GetCallerInfo(w[k])) + (if k == 0 then "" else " -> ") + Join(OldestFirst(w[..k]), " -> ")
  {
    var entry := FormatCaller(GetCallerInfo(w[k]));
    assert OldestFirst(w[..k + 1]) == [entry] + OldestFirst(w[..k]) by {
      assert w[..k + 1][..k] == w[..k];
    }
    JoinCons(entry, OldestFirst(w[..k]), " -> ");
  }

  /** The loop of `get_formatted_call_sequence`: each caller's entry is put
      in front of the sequence built so far, after the first with an arrow
      between them; the walk stops at the end of the stack. */
  method GetFormattedCallSequence(stack: seq<Frame>, latest: nat, depth: int) returns (callerSequence: string)
    ensures callerSequence == CallSequence(stack, latest, depth)
  {
    ghost var w := Window(stack, latest, depth);
    callerSequence := "";
    var arrow := "";
    var callerDepth := latest + 1;
    while callerDepth < latest + 1 + depth
      invariant latest + 1 <= callerDepth
      invariant depth > 0 ==> callerDepth <= latest + 1 + depth
      invariant depth <= 0 ==> callerDepth == latest + 1
      invariant callerDepth - (latest + 1) <= |w|
      invariant callerDepth - (latest + 1) < |w| ==> callerDepth < |stack|
      invariant callerSequence == Join(OldestFirst(w[..callerDepth - (latest + 1)]), " -> ")
      invariant arrow == if callerDepth == latest + 1 then "" else " -> "
      decreases latest + 1 + depth - callerDepth
    {
      if callerDepth >= |stack| {
        break;
      }
      CallSequenceStep(w, callerDepth - (latest + 1));
      callerSequence := FormatCaller(GetCallerInfo(stack[callerDepth])) + arrow + callerSequence;
      arrow := " -> ";
      callerDepth := callerDepth + 1;
    }
    assert w[..callerDepth - (latest + 1)] == w;
  }
}
