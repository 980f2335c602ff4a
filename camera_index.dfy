/**
 * The viewer's current camera position: the index it starts from, and the
 * wrap-around moves of the next/previous slide buttons.
 */
module CameraIndex {
  import opened StreamSelection

  /** A JavaScript number, as far as the index logic can observe it. */
  datatype JsNumber = NaN | Finite(value: real) | Infinite(negative: bool)

  /** The `selectedIndex` handed over in the shared state: a number, or something else. */
  datatype SelectedIndex = NotNumber | Number(n: JsNumber)

  /** `x < k` on a JavaScript number; every comparison with NaN is false. */
  predicate JsLess(x: JsNumber, k: int) {
    match x
    case NaN => false
    case Finite(v) => v < k as real
    case Infinite(negative) => negative
  }

  /** `x >= k` on a JavaScript number. */
  predicate JsAtLeast(x: JsNumber, k: int) {
    match x
    case NaN => false
    case Finite(v) => v >= k as real
    case Infinite(negative) => !negative
  }

  /** `cams.findIndex(c => c.rtmpUrl && c.rtmpUrl.trim() !== '')`: the first camera with an RTMP URL, or -1. */
  function FirstRtmpIndex(cams: seq<Camera>): (k: int)
    ensures k == -1 <==> forall j :: 0 <= j < |cams| ==> !HasRtmp(cams[j])
    ensures k != -1 ==> 0 <= k < |cams| && HasRtmp(cams[k])
    ensures forall j :: 0 <= j < k ==> !HasRtmp(cams[j])
  {
    if cams == [] then -1
    else if HasRtmp(cams[0]) then 0
    else
      var k := FirstRtmpIndex(cams[1..]);
      if k == -1 then -1 else k + 1
  }

  /** The number is a whole number (`Number.isInteger`). */
  predicate IsWhole(v: real) {
    v == v.Floor as real
  }

  /**
   * The starting index exactly as the component computes it: a numeric
   * `selectedIndex` as given, otherwise the first RTMP camera; -1 becomes 0,
   * and so does anything the range test at the end sees below 0 or at or past
   * the end. NaN fails both halves of that test and is kept, and so is a
   * fraction inside the range.
   */
  function InitialIndexAsWritten(cams: seq<Camera>, selected: SelectedIndex): (r: JsNumber)
    ensures r == NaN <==> selected == Number(NaN)
    ensures r != NaN ==> r.Finite? && (r.value == 0.0 || 0.0 <= r.value < |cams| as real)
    ensures selected == NotNumber ==> r.Finite? && IsWhole(r.value)
    ensures selected.Number? && selected.n.Finite? && 0.0 <= selected.n.value < |cams| as real ==> r == selected.n
  {
    var picked := match selected
      case Number(n) => n
      case NotNumber => Finite(FirstRtmpIndex(cams) as real);
    var noMinusOne := if picked == Finite(-1.0) then Finite(0.0) else picked;
    if JsLess(noMinusOne, 0) || JsAtLeast(noMinusOne, |cams|) then Finite(0.0) else noMinusOne
  }

  /**
   * The starting index as the range test evidently intends it: a numeric
   * `selectedIndex` that is a whole number inside the list, else 0; with no
   * number, the first RTMP camera, else 0.
   */
  function InitialIndex(cams: seq<Camera>, selected: SelectedIndex): (k: int)
    requires cams != []
    ensures 0 <= k < |cams|
    ensures selected == NotNumber && FirstRtmpIndex(cams) != -1 ==> k == FirstRtmpIndex(cams) && HasRtmp(cams[k])
    ensures selected == NotNumber && FirstRtmpIndex(cams) == -1 ==> k == 0
    ensures (selected.Number? && selected.n.Finite? && IsWhole(selected.n.value)
             && 0.0 <= selected.n.value < |cams| as real) ==> k as real == selected.n.value
  {
    match selected
    case NotNumber =>
      var first := FirstRtmpIndex(cams);
      if first == -1 then 0 else first
    case Number(n) =>
      if n.Finite? && IsWhole(n.value) && 0.0 <= n.value < |cams| as real then n.value.Floor else 0
  }

  /** On every input that is not a NaN, an infinity or a fraction, the code as written and the intended index agree. */
  lemma InitialIndexAgreesOnWholeNumbers(cams: seq<Camera>, selected: SelectedIndex)
    requires cams != []
    requires selected.Number? ==> selected.n.Finite? && IsWhole(selected.n.value)
    ensures InitialIndexAsWritten(cams, selected) == Finite(InitialIndex(cams, selected) as real)
  {
  }

  /** A NaN `selectedIndex` passes the range test and becomes the viewer's index. */
  lemma NaNIndexPassesRangeTest(cams: seq<Camera>)
    ensures InitialIndexAsWritten(cams, Number(NaN)) == NaN
    ensures cams != [] ==> InitialIndex(cams, Number(NaN)) == 0
  {
  }

  /** A fractional `selectedIndex` inside the range is kept as it is, so no stream slot matches it. */
  lemma FractionalIndexPassesRangeTest(cams: seq<Camera>)
    requires |cams| >= 1
    ensures InitialIndexAsWritten(cams, Number(Finite(0.5))) == Finite(0.5)
    ensures InitialIndex(cams, Number(Finite(0.5))) == 0
  {
    assert !IsWhole(0.5) by { assert (0.5).Floor == 0; }
  }

  /** JavaScript's `a % b` for a positive divisor: the remainder takes the sign of `a`. */
  function JsRem(a: int, b: int): (r: int)
    requires b > 0
    ensures -b < r < b
    ensures a >= 0 ==> r == a % b
    ensures a < 0 ==> r <= 0
  {
    if a >= 0 then a % b else -((-a) % b)
  }

  /** The next-slide button: `(currentIndex + 1) % camCount`. */
  function Next(i: int, n: int): (r: int)
    requires 0 <= i < n
    ensures 0 <= r < n
    ensures r == if i == n - 1 then 0 else i + 1
  {
    JsRem(i + 1, n)
  }

  /** The previous-slide button: `(currentIndex - 1 + camCount) % camCount`. */
  function Prev(i: int, n: int): (r: int)
    requires 0 <= i < n
    ensures 0 <= r < n
    ensures r == if i == 0 then n - 1 else i - 1
  {
    JsRem(i - 1 + n, n)
  }

  /** Next undoes Prev and Prev undoes Next. */
  lemma NextPrevInverse(i: int, n: int)
    requires 0 <= i < n
    ensures Prev(Next(i, n), n) == i
    ensures Next(Prev(i, n), n) == i
  {
  }

  /** The index after `k` presses of the next-slide button. */
  function Advance(i: int, n: int, k: nat): (r: int)
    requires 0 <= i < n
    ensures 0 <= r < n
  {
    if k == 0 then i else Next(Advance(i, n, k - 1), n)
  }

  /** Fewer presses than it takes to pass the last camera simply count up. */
  lemma {:induction false} AdvanceCountsUp(i: int, n: int, k: nat)
    requires 0 <= i < n && i + k < n
    ensures Advance(i, n, k) == i + k
  {
    if k > 0 {
      AdvanceCountsUp(i, n, k - 1);
    }
  }

  /** Pressing `a` times and then `b` times is pressing `a + b` times. */
  lemma {:induction false} AdvanceCompose(i: int, n: int, a: nat, b: nat)
    requires 0 <= i < n
    ensures Advance(i, n, a + b) == Advance(Advance(i, n, a), n, b)
  {
    if b > 0 {
      AdvanceCompose(i, n, a, b - 1);
    }
  }

  /** Within one turn, `k` presses wrap past the last camera to the first at most once. */
  lemma AdvanceWithinTurn(i: int, n: int, k: nat)
    requires 0 <= i < n && k < n
    ensures Advance(i, n, k) == if i + k < n then i + k else i + k - n
  {
    if i + k >= n {
      var toLast := n - 1 - i;
      AdvanceCompose(i, n, toLast, k - toLast);
      AdvanceCountsUp(i, n, toLast);
      AdvanceCompose(n - 1, n, 1, k - toLast - 1);
      AdvanceCountsUp(0, n, i + k - n);
    } else {
      AdvanceCountsUp(i, n, k);
    }
  }

  /** Pressing next once per camera brings the viewer back to where it was. */
  lemma FullTurnReturns(i: int, n: int)
    requires 0 <= i < n
    ensures Advance(i, n, n) == i
  {
    AdvanceWithinTurn(i, n, n - 1);
  }

  /**
   * `k` presses of next move the index `k` places forward around the ring:
   * within one turn it wraps past the last camera to the first, and a full
   * extra turn changes nothing.
   */
  lemma AdvanceRotates(i: int, n: int, k: nat)
    requires 0 <= i < n
    ensures k < n ==> Advance(i, n, k) == if i + k < n then i + k else i + k - n
    ensures Advance(i, n, k + n) == Advance(i, n, k)
  {
    if k < n {
      AdvanceWithinTurn(i, n, k);
    }
    AdvanceCompose(i, n, n, k);
    FullTurnReturns(i, n);
  }
}
