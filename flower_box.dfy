/** `print_flower_box_msg` (src/scottbrian_utils/flower_box.py): messages
    framed in a box of asterisks. The printed output is the sequence of
    strings handed to `print`, one per call; `print`'s own keyword
    arguments (`file`, `flush`) are not modelled. */
module FlowerBox {
  import opened Strings

  /** The `msgs` argument: one string or a list of strings. */
  datatype MsgsArg = Single(msg: string) | Many(msgs: seq<string>)

  /** `max()` of an empty list raises `ValueError` before anything is printed. */
  datatype BoxError = EmptyMessageList

  datatype Result<T> = Ok(value: T) | Err(error: BoxError)

  /** A single string is a one-element list. */
  function AsList(m: MsgsArg): (r: seq<string>)
    ensures m.Single? ==> r == [m.msg]
    ensures m.Many? ==> r == m.msgs
  {
    match m
    case Single(s) => [s]
    case Many(ms) => ms
  }

  /** The length of the longest message. */
  function MaxLen(msgs: seq<string>): (r: nat)
    requires |msgs| > 0
    ensures forall i :: 0 <= i < |msgs| ==> |msgs[i]| <= r
    ensures exists i :: 0 <= i < |msgs| && |msgs[i]| == r
    decreases |msgs|
  {
    if |msgs| == 1 then |msgs[0]|
    else
      var rest := MaxLen(msgs[1..]);
      assert forall i :: 1 <= i < |msgs| ==> msgs[i] == msgs[1..][i - 1];
      if |msgs[0]| >= rest then |msgs[0]| else rest
  }

  /** The box width: longest message plus two asterisks and two spaces. */
  function Width(msgs: seq<string>): nat
    requires |msgs| > 0
  {
    MaxLen(msgs) + 4
  }

  function Border(w: nat): string
  {
    Repeat('*', w)
  }

  /** A message line: the message between `* ` and ` *`, padded to the width. */
  function Framed(msg: string, w: nat): string
    requires |msg| + 4 <= w
  {
    "* " + msg + Repeat(' ', w - |msg| - 4) + " *"
  }

  /** The strings printed, one per `print` call: a newline and the top
      border, each message line, the bottom border. */
  function BoxPrints(m: MsgsArg): Result<seq<string>>
  {
    var msgs := AsList(m);
    if |msgs| == 0 then Err(EmptyMessageList)
    else
      var w := Width(msgs);
      Ok(["\n" + Border(w)] + FramedAll(msgs, w) + [Border(w)])
  }

  function FramedAll(msgs: seq<string>, w: nat): (r: seq<string>)
    requires forall i :: 0 <= i < |msgs| ==> |msgs[i]| + 4 <= w
    ensures |r| == |msgs| && forall i :: 0 <= i < |msgs| ==> r[i] == Framed(msgs[i], w)
  {
    seq(|msgs|, i requires 0 <= i < |msgs| => Framed(msgs[i], w))
  }

  /** Framing one more message appends its line. */
  lemma FramedAllStep(msgs: seq<string>, i: nat, w: nat)
    requires i < |msgs| && forall j :: 0 <= j < |msgs| ==> |msgs[j]| + 4 <= w
    ensures FramedAll(msgs[..i + 1], w) == FramedAll(msgs[..i], w) + [Framed(msgs[i], w)]
  {
    var a, b := FramedAll(msgs[..i + 1], w), FramedAll(msgs[..i], w) + [Framed(msgs[i], w)];
    assert forall j :: 0 <= j < |a| ==> a[j] == b[j];
  }

  /** A message line has the box width, is framed by `* ` and ` *`, and
      holds the message unchanged followed by spaces only. */
  lemma FramedShape(msg: string, w: nat)
    requires |msg| + 4 <= w
    ensures var f := Framed(msg, w);
      && |f| == w
      && f[..2] == "* " && f[w - 2..] == " *"
      && f[2..2 + |msg|] == msg
      && forall j :: 2 + |msg| <= j < w - 2 ==> f[j] == ' '
  {
    var f := Framed(msg, w);
    var pad := Repeat(' ', w - |msg| - 4);
    assert f == "* " + msg + pad + " *";
    assert f[2..2 + |msg|] == msg;
    assert forall j :: 2 + |msg| <= j < w - 2 ==> f[j] == pad[j - 2 - |msg|];
  }

  /** The box around a non-empty list: one line per message plus the two
      borders, the borders as wide as the box, and the box exactly wide
      enough for the longest message, which gets no padding. */
  lemma BoxShape(m: MsgsArg)
    requires |AsList(m)| > 0
    ensures BoxPrints(m).Ok?
    ensures var p := BoxPrints(m).value; var msgs := AsList(m); var w := Width(msgs);
      && |p| == |msgs| + 2
      && p[0] == "\n" + Border(w) && p[|p| - 1] == Border(w) && |Border(w)| == w
      && (forall i :: 0 <= i < |msgs| ==> p[i + 1] == Framed(msgs[i], w))
      && (exists i :: 0 <= i < |msgs| && |msgs[i]| + 4 == w)
  {
    var msgs := AsList(m);
    var w := Width(msgs);
    var top, lines, bottom := ["\n" + Border(w)], FramedAll(msgs, w), [Border(w)];
    AppendPieces(top, lines, bottom);
  }

  /** The elements of `a + b + c`, piece by piece. */
  lemma AppendPieces<T>(a: seq<T>, b: seq<T>, c: seq<T>)
    ensures |a + b + c| == |a| + |b| + |c|
    ensures forall i :: 0 <= i < |b| ==> (a + b + c)[|a| + i] == b[i]
    ensures |c| > 0 ==> (a + b + c)[|a| + |b| + |c| - 1] == c[|c| - 1]
    ensures |a| > 0 ==> (a + b + c)[0] == a[0]
  {
  }

  /** The messages can be read back from the box, in order. */
  lemma MessagesRecoverable(m: MsgsArg, i: nat)
    requires i < |AsList(m)|
    ensures BoxPrints(m).Ok?
    ensures var msg := AsList(m)[i]; BoxPrints(m).value[i + 1][2..2 + |msg|] == msg
  {
    var msgs := AsList(m);
    FramedShape(msgs[i], Width(msgs));
  }

  /** An empty list is refused, as `max()` refuses it. */
  /** A single string is boxed exactly as the one-element list of it. */
  lemma SingleAsList(msg: string)
    ensures BoxPrints(Single(msg)) == BoxPrints(Many([msg]))
    ensures BoxPrints(Single(msg)).Ok?
  {
  }

  lemma EmptyRefused()
    ensures BoxPrints(Many([])) == Err(EmptyMessageList)
  {
  }

  /** `print_flower_box_msg`: the width, then the top border, one print per
      message, and the bottom border. */
  method PrintFlowerBoxMsg(m: MsgsArg) returns (r: Result<seq<string>>)
    ensures r == BoxPrints(m)
  {
    var msgs := AsList(m);
    if |msgs| == 0 {
      return Err(EmptyMessageList);
    }
    var maxMsgLen := Width(msgs);
    var printed := ["\n" + Border(maxMsgLen)];
    var i := 0;
    while i < |msgs|
      invariant 0 <= i <= |msgs|
      invariant printed == ["\n" + Border(maxMsgLen)] + FramedAll(msgs[..i], maxMsgLen)
    {
      var line := "* " + msgs[i] + Repeat(' ', maxMsgLen - |msgs[i]| - 4) + " *";
      FramedAllStep(msgs, i, maxMsgLen);
      printed := printed + [line];
      i := i + 1;
    }
    assert msgs[..|msgs|] == msgs;
    printed := printed + [Border(maxMsgLen)];
    r := Ok(printed);
  }
}
