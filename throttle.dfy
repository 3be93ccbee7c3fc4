/** The `Throttle` class (src/scottbrian_utils/throttle.py) and the
    sliding-window `Request` helper its tests define
    (tests/test_scottbrian_utils/test_throttle.py).

    `Throttle` only validates and keeps its arguments: its
    `before_request` and `after_request` do nothing, so nothing is ever
    added to its `request_times`. The trimming of a timestamp window lives
    in `Request.make_request`. Times are `real` seconds; the current time
    is the `now` parameter. */
module Throttles {
  import opened Optional
  import opened Strings

  /** A Python argument as `isinstance` sees it. A `bool` is an `int` too. */
  datatype Number = IntArg(i: int) | BoolArg(b: bool) | FloatArg(f: real) | OtherArg

  datatype ThrottleError = IncorrectNumberRequestsSpecified | IncorrectPerSecondsSpecified

  datatype Result<T> = Ok(value: T) | Err(error: ThrottleError)

  /** `isinstance(x, int)`. */
  predicate IsInt(x: Number)
  {
    x.IntArg? || x.BoolArg?
  }

  /** The numeric value of an `int`, `bool` or `float` argument. */
  function NumValue(x: Number): real
  {
    match x
    case IntArg(i) => i as real
    case BoolArg(b) => if b then 1.0 else 0.0
    case FloatArg(f) => f
    case OtherArg => 0.0
  }

  /** The exception `Throttle.__init__` raises, if any: the request count
      is checked first, then the period. */
  function CheckArgs(numRequestsAllowed: Number, perSeconds: Number): (e: Option<ThrottleError>)
    ensures e == None <==>
      IsInt(numRequestsAllowed) && NumValue(numRequestsAllowed) > 0.0
      && (IsInt(perSeconds) || perSeconds.FloatArg?) && NumValue(perSeconds) > 0.0
    ensures !(IsInt(numRequestsAllowed) && NumValue(numRequestsAllowed) > 0.0) ==>
      e == Some(IncorrectNumberRequestsSpecified)
  {
    if !(IsInt(numRequestsAllowed) && 0.0 < NumValue(numRequestsAllowed)) then Some(IncorrectNumberRequestsSpecified)
    else if !((perSeconds.FloatArg? || IsInt(perSeconds)) && 0.0 < NumValue(perSeconds)) then Some(IncorrectPerSecondsSpecified)
    else None
  }

  /** `f"{x}"` for an argument; the text of a `float` is the `floatText`
      parameter, since Python's shortest round-trip float formatting is not
      modelled. */
  function NumText(x: Number, floatText: real -> string): string
  {
    match x
    case IntArg(i) => IntToString(i)
    case BoolArg(b) => if b then "True" else "False"
    case FloatArg(f) => floatText(f)
    case OtherArg => ""
  }

  /** A `float` per-seconds is refused when not positive, an `int` count
      when zero, and a `str` count always. */
  lemma ValidationExamples(floatText: real -> string)
    ensures CheckArgs(IntArg(1), FloatArg(0.0)) == Some(IncorrectPerSecondsSpecified)
    ensures CheckArgs(IntArg(0), FloatArg(1.0)) == Some(IncorrectNumberRequestsSpecified)
    ensures CheckArgs(OtherArg, OtherArg) == Some(IncorrectNumberRequestsSpecified)
    ensures CheckArgs(FloatArg(2.0), IntArg(1)) == Some(IncorrectNumberRequestsSpecified)
    ensures CheckArgs(BoolArg(true), IntArg(1)) == None
  {
  }

  class Throttle {
    var numRequestsAllowed: Number
    var perSeconds: Number
    var requestTimes: seq<real>

    constructor Init(n: Number, p: Number)
      ensures numRequestsAllowed == n && perSeconds == p && requestTimes == []
    {
      numRequestsAllowed := n;
      perSeconds := p;
      requestTimes := [];
    }

    /** `Throttle(num_requests_allowed, per_seconds)`: the exception, or a
        throttle holding the arguments and no request times. */
    static method New(n: Number, p: Number) returns (r: Result<Throttle>)
      ensures r.Err? <==> CheckArgs(n, p).Some?
      ensures r.Err? ==> r.error == CheckArgs(n, p).value
      ensures r.Ok? ==> fresh(r.value) && r.value.numRequestsAllowed == n && r.value.perSeconds == p
      ensures r.Ok? ==> r.value.requestTimes == [] && r.value.Len() == 0
    {
      var e := CheckArgs(n, p);
      if e.Some? {
        return Err(e.value);
      }
      var t := new Throttle.Init(n, p);
      r := Ok(t);
    }

    /** `len(throttle)`. */
    function Len(): (n: nat)
      reads this
      ensures n == |requestTimes|
    {
      |requestTimes|
    }

    /** `repr(throttle)`. */
    function Repr(floatText: real -> string): string
      reads this
    {
      "Throttle(num_requests_allowed=" + NumText(numRequestsAllowed, floatText)
        + ", per_seconds=" + NumText(perSeconds, floatText) + ")"
    }

    /** `before_request`: does nothing. */
    method BeforeRequest()
      ensures requestTimes == old(requestTimes) && Len() == old(Len())
    {
    }

    /** `after_request`: does nothing. */
    method AfterRequest()
      ensures requestTimes == old(requestTimes) && Len() == old(Len())
    {
    }
  }

  /** The count in `repr` reads back as the count given. */
  lemma ReprShowsCount(t: Throttle, n: nat, floatText: real -> string)
    requires t.numRequestsAllowed == IntArg(n)
    ensures var s := t.Repr(floatText); var prefix := "Throttle(num_requests_allowed=";
      && prefix <= s
      && var digits := NatToString(n);
      && s[|prefix|..|prefix| + |digits|] == digits && DigitsValue(digits) == n
  {
    NatToStringRoundTrip(n);
    var s := t.Repr(floatText);
    var prefix := "Throttle(num_requests_allowed=";
    var digits := NatToString(n);
    var rest := ", per_seconds=" + NumText(t.perSeconds, floatText) + ")";
    assert s == prefix + digits + rest;
    assert s[|prefix|..|prefix| + |digits|] == digits;
  }

  //--------------------------------------------------------------------------
  // The sliding-window helper of the tests
  //--------------------------------------------------------------------------

  /** The trimming loop: drop entries from the front while strictly older
      than `threshold`, stopping at the first entry that is not. */
  function Trim(q: seq<real>, threshold: real): seq<real>
    decreases |q|
  {
    if q != [] && q[0] < threshold then Trim(q[1..], threshold) else q
  }

  /** Trimming keeps a suffix: every dropped entry is older than the
      threshold and the first kept one is not. */
  lemma {:induction false} TrimIsSuffix(q: seq<real>, threshold: real)
    ensures var k := Dropped(q, threshold);
      && Trim(q, threshold) == q[k..]
      && (forall j :: 0 <= j < k ==> q[j] < threshold)
      && (k < |q| ==> q[k] >= threshold)
    decreases |q|
  {
    if q != [] && q[0] < threshold {
      TrimIsSuffix(q[1..], threshold);
      var k := Dropped(q[1..], threshold);
      assert q[1..][k..] == q[k + 1..];
      assert forall j :: 1 <= j < k + 1 ==> q[j] == q[1..][j - 1];
    } else {
      assert q[0..] == q;
    }
  }

  /** How many entries trimming drops. */
  function Dropped(q: seq<real>, threshold: real): (k: nat)
    ensures k <= |q|
    decreases |q|
  {
    if q != [] && q[0] < threshold then 1 + Dropped(q[1..], threshold) else 0
  }

  /** With a non-negative period the entry just appended is never trimmed. */
  lemma {:induction false} TrimKeepsNewest(q: seq<real>, now: real, per: real)
    requires per >= 0.0
    ensures var r := Trim(q + [now], now - per); r != [] && r[|r| - 1] == now
    decreases |q|
  {
    if q != [] && q[0] < now - per {
      assert (q + [now])[1..] == q[1..] + [now];
      TrimKeepsNewest(q[1..], now, per);
    } else if q == [] {
      assert q + [now] == [now];
    }
  }

  predicate NonDecreasing(q: seq<real>)
  {
    forall i, j :: 0 <= i < j < |q| ==> q[i] <= q[j]
  }

  /** With timestamps appended in order, everything kept lies within the
      period before the newest one. */
  lemma TrimWindow(q: seq<real>, now: real, per: real)
    requires NonDecreasing(q + [now])
    ensures var r := Trim(q + [now], now - per); forall i :: 0 <= i < |r| ==> now - per <= r[i] <= now
  {
    var s := q + [now];
    TrimIsSuffix(s, now - per);
    var k := Dropped(s, now - per);
    forall i | 0 <= i < |s| - k ensures now - per <= s[k..][i] <= now {
      assert s[k] <= s[k + i] <= s[|s| - 1];
    }
  }

  /** The window alone does not bound its size: two requests one second
      apart with a ten-second period are both kept. */
  lemma WindowUnbounded()
    ensures |Trim([0.0, 1.0], 1.0 - 10.0)| == 2
  {
  }

  class Request {
    var numRequestsAllowed: int
    var perSeconds: real
    var requestTimes: seq<real>

    /** `Request(num_requests_allowed, per_seconds)`. */
    constructor(n: int, per: real)
      ensures numRequestsAllowed == n && perSeconds == per && requestTimes == []
    {
      numRequestsAllowed := n;
      perSeconds := per;
      requestTimes := [];
    }

    /** `make_request` at time `now`: append, trim the front, and report
        whether the test's assertion (at most `num_requests_allowed`
        entries) holds. */
    method MakeRequest(now: real) returns (withinLimit: bool)
      modifies this
      ensures requestTimes == Trim(old(requestTimes) + [now], now - perSeconds)
      ensures numRequestsAllowed == old(numRequestsAllowed) && perSeconds == old(perSeconds)
      ensures withinLimit <==> |requestTimes| <= numRequestsAllowed
    {
      requestTimes := requestTimes + [now];
      var trimTime := requestTimes[|requestTimes| - 1] - perSeconds;
      while 0 < |requestTimes|
        invariant numRequestsAllowed == old(numRequestsAllowed) && perSeconds == old(perSeconds)
        invariant trimTime == now - perSeconds
        invariant Trim(requestTimes, trimTime) == Trim(old(requestTimes) + [now], trimTime)
        decreases |requestTimes|
      {
        if requestTimes[0] < trimTime {
          requestTimes := requestTimes[1..];
        } else {
          break;
        }
      }
      withinLimit := |requestTimes| <= numRequestsAllowed;
    }
  }
}
