/**
 A 6th-order IIR filter with output offset, saturation limits and hold.

 The filter state `xy` is a 13-slot history owned by the caller. Between two
 updates it holds the inputs x0..x5 in slots 0..5 and the outputs y0..y6 in
 slots 6..12, most recent first. During an update the history is shifted one
 slot older and the new input is written to slot 0, so that the weighted sum
 sees x0..x6 in slots 0..6 and y1..y6 in slots 7..12; the new output then
 overwrites slot 6.

 The taps `ba` are the feed-forward coefficients b0..b6 followed by the
 negated feed-back coefficients -a1..-a6 (normalized so that a0 = 1).
 */
module Iir6 {
  import opened MultiplyAccumulate

  /** Number of taps and of history slots: 2 * 6 + 1. */
  const N: nat := 13

  /** A fixed-size vector of 13 samples or taps. */
  type Vec13 = s: seq<real> | |s| == N witness seq(N, i => 0.0)

  /** Saturating clamp of `x` into `[lo, hi]`. */
  function Clamp(x: real, lo: real, hi: real): (r: real)
    requires lo <= hi
    ensures lo <= r <= hi
    ensures lo <= x <= hi ==> r == x
    ensures x < lo ==> r == lo
    ensures hi < x ==> r == hi
  {
    if x < lo then lo else if x > hi then hi else x
  }

  /** The clamp is the nearest point of `[lo, hi]` to `x`. */
  lemma ClampIsNearest(x: real, lo: real, hi: real, y: real)
    requires lo <= hi && lo <= y <= hi
    ensures Abs(Clamp(x, lo, hi) - x) <= Abs(y - x)
  {
  }

  /** Clamping twice into the same limits is clamping once. */
  lemma ClampIdempotent(x: real, lo: real, hi: real)
    requires lo <= hi
    ensures Clamp(Clamp(x, lo, hi), lo, hi) == Clamp(x, lo, hi)
  {
  }

  function Abs(x: real): real {
    if x < 0.0 then -x else x
  }

  /**
   The history after one time step: every sample moves one slot older, the
   oldest one (slot 12) falls off, and `x0` goes into slot 0.
   */
  function Advance(xy: Vec13, x0: real): (s: Vec13)
    ensures s[0] == x0
    ensures forall i :: 1 <= i < N ==> s[i] == xy[i - 1]
  {
    [x0] + xy[..N - 1]
  }

  /** Filter configuration: taps, output offset and output limits. */
  datatype IIR6 = IIR6(ba: Vec13, yOffset: real, yMin: real, yMax: real)
  {
    /** A configuration with all-zero taps and offset and the given limits. */
    static function New(yMin: real, yMax: real): (f: IIR6)
      ensures forall k :: 0 <= k < N ==> f.ba[k] == 0.0
      ensures f.yOffset == 0.0 && f.yMin == yMin && f.yMax == yMax
    {
      IIR6(seq(N, k => 0.0), 0.0, yMin, yMax)
    }

    /** The limits do not invert the clamp. */
    predicate Limited() {
      yMin <= yMax
    }

    /**
     The output before clamping, computed on the advanced history `s`: the
     previous output (now in slot 7) when held, the offset plus the weighted
     sum of all 13 slots otherwise.
     */
    function RawOutput(s: Vec13, hold: bool): real {
      if hold then s[N / 2 + 1] else Macc(yOffset, s, ba)
    }

    /** The value returned by an update of history `xy` with input `x0`. */
    function Output(xy: Vec13, x0: real, hold: bool): real
      requires Limited()
    {
      Clamp(RawOutput(Advance(xy, x0), hold), yMin, yMax)
    }

    /** The history after an update of `xy` with input `x0`. */
    function Next(xy: Vec13, x0: real, hold: bool): Vec13
      requires Limited()
    {
      Advance(xy, x0)[N / 2 := Output(xy, x0, hold)]
    }

    /**
     Feed a new input into the filter, update the caller's history in place
     and return the new output. The configuration itself is not changed.
     */
    method Update(xy: array<real>, x0: real, hold: bool) returns (y0: real)
      requires xy.Length == N
      requires Limited()
      modifies xy
      ensures y0 == Output(old(xy[..]), x0, hold)
      ensures xy[..] == Next(old(xy[..]), x0, hold)
      ensures y0 == xy[N / 2]
    {
      ghost var before: Vec13 := xy[..];
      ShiftOlder(xy);
      xy[0] := x0;
      assert xy[..] == Advance(before, x0);
      if hold {
        y0 := xy[N / 2 + 1];
      } else {
        y0 := Macc(yOffset, xy[..], ba);
      }
      y0 := Clamp(y0, yMin, yMax);
      xy[N / 2] := y0;
    }
  }

  /**
   Block shift of `a[0..Length-1]` to `a[1..Length]`: every slot but the
   first receives its predecessor's old value, and slot 0 keeps its value.
   The copy runs from the top down so that no value is overwritten before it
   has been moved.
   */
  method ShiftOlder(a: array<real>)
    requires a.Length > 0
    modifies a
    ensures a[0] == old(a[0])
    ensures forall i :: 1 <= i < a.Length ==> a[i] == old(a[i - 1])
  {
    var i := a.Length - 1;
    while i > 0
      invariant 0 <= i < a.Length
      invariant forall j :: 0 <= j <= i ==> a[j] == old(a[j])
      invariant forall j :: i < j < a.Length ==> a[j] == old(a[j - 1])
    {
      a[i] := a[i - 1];
      i := i - 1;
    }
  }

  /** Which slots move and which receive fresh values. */
  lemma UpdateFrame(f: IIR6, xy: Vec13, x0: real, hold: bool)
    requires f.Limited()
    ensures f.Next(xy, x0, hold)[0] == x0
    ensures f.Next(xy, x0, hold)[N / 2] == f.Output(xy, x0, hold)
    ensures forall i :: 1 <= i < N && i != N / 2 ==> f.Next(xy, x0, hold)[i] == xy[i - 1]
  {
  }

  /** The oldest slot (12) has no influence on the output or the new history. */
  lemma OldestSlotDropped(f: IIR6, xy: Vec13, xy': Vec13, x0: real, hold: bool)
    requires f.Limited()
    requires xy[..N - 1] == xy'[..N - 1]
    ensures f.Output(xy, x0, hold) == f.Output(xy', x0, hold)
    ensures f.Next(xy, x0, hold) == f.Next(xy', x0, hold)
  {
  }

  /** The output lies within the limits. */
  lemma OutputWithinLimits(f: IIR6, xy: Vec13, x0: real, hold: bool)
    requires f.Limited()
    ensures f.yMin <= f.Output(xy, x0, hold) <= f.yMax
  {
  }

  /** Saturation: a raw output beyond a limit is returned and stored as that limit. */
  lemma Saturation(f: IIR6, xy: Vec13, x0: real, hold: bool)
    requires f.Limited()
    ensures f.RawOutput(Advance(xy, x0), hold) > f.yMax ==>
              f.Output(xy, x0, hold) == f.yMax && f.Next(xy, x0, hold)[N / 2] == f.yMax
    ensures f.RawOutput(Advance(xy, x0), hold) < f.yMin ==>
              f.Output(xy, x0, hold) == f.yMin && f.Next(xy, x0, hold)[N / 2] == f.yMin
  {
  }

  /**
   Without hold, the output is the clamped difference equation
   y0 = offset + b0*x0 + ... + b6*x6 + (-a1)*y1 + ... + (-a6)*y6,
   where x1..x6 are the old slots 0..5 and y1..y6 the old slots 6..11.
   */
  lemma DifferenceEquation(f: IIR6, xy: Vec13, x0: real)
    requires f.Limited()
    ensures f.Output(xy, x0, false) ==
              Clamp(f.yOffset + Dot([x0] + xy[..N / 2], f.ba[..N / 2 + 1])
                              + Dot(xy[N / 2..N - 1], f.ba[N / 2 + 1..]),
                    f.yMin, f.yMax)
  {
    var s := Advance(xy, x0);
    assert s[..N / 2 + 1] == [x0] + xy[..N / 2];
    assert s[N / 2 + 1..] == xy[N / 2..N - 1];
    assert s == s[..N / 2 + 1] + s[N / 2 + 1..];
    assert f.ba == f.ba[..N / 2 + 1] + f.ba[N / 2 + 1..];
    DotAppend(s[..N / 2 + 1], f.ba[..N / 2 + 1], s[N / 2 + 1..], f.ba[N / 2 + 1..]);
  }

  /** With hold, the output is the previous output (old slot 6), clamped. */
  lemma HoldOutput(f: IIR6, xy: Vec13, x0: real)
    requires f.Limited()
    ensures f.Output(xy, x0, true) == Clamp(xy[N / 2], f.yMin, f.yMax)
    ensures f.yMin <= xy[N / 2] <= f.yMax ==> f.Output(xy, x0, true) == xy[N / 2]
  {
  }

  /**
   An update with hold right after any update with the same configuration
   returns that update's output unchanged, yet still records the new input.
   */
  lemma HoldRepeatsPrevious(f: IIR6, xy: Vec13, x0: real, h: bool, x1: real)
    requires f.Limited()
    ensures f.Output(f.Next(xy, x0, h), x1, true) == f.Output(xy, x0, h)
    ensures f.Next(f.Next(xy, x0, h), x1, true)[0] == x1
    ensures f.Next(f.Next(xy, x0, h), x1, true)[1] == x0
  {
  }

  /** With all-zero taps and no hold the output is the clamped offset. */
  lemma ZeroTapsInert(f: IIR6, xy: Vec13, x0: real)
    requires f.Limited()
    requires forall k :: 0 <= k < N ==> f.ba[k] == 0.0
    ensures f.Output(xy, x0, false) == Clamp(f.yOffset, f.yMin, f.yMax)
  {
    DotZeroWeights(Advance(xy, x0), f.ba);
  }

  /** A fresh configuration outputs the clamped zero offset, whatever the input. */
  lemma NewIsInert(yMin: real, yMax: real, xy: Vec13, x0: real)
    requires yMin <= yMax
    ensures IIR6.New(yMin, yMax).Output(xy, x0, false) == Clamp(0.0, yMin, yMax)
  {
    ZeroTapsInert(IIR6.New(yMin, yMax), xy, x0);
  }

  /** With b0 = 1, every other tap and the offset zero, an in-range input passes through. */
  lemma PassThrough(f: IIR6, xy: Vec13, x0: real)
    requires f.Limited()
    requires f.ba[0] == 1.0 && forall k :: 1 <= k < N ==> f.ba[k] == 0.0
    requires f.yOffset == 0.0 && f.yMin <= x0 <= f.yMax
    ensures f.Output(xy, x0, false) == x0
  {
    DotUnitWeight(Advance(xy, x0), f.ba, 0);
  }

  /** The output half of the history (slots 6..12) lies within `[lo, hi]`. */
  ghost predicate OutputsWithin(xy: Vec13, lo: real, hi: real) {
    forall i :: N / 2 <= i < N ==> lo <= xy[i] <= hi
  }

  /**
   Anti-windup: the history stores only emitted (clamped) outputs, so an
   update keeps the output half within the limits.
   */
  lemma UpdateKeepsOutputsWithin(f: IIR6, xy: Vec13, x0: real, hold: bool)
    requires f.Limited() && OutputsWithin(xy, f.yMin, f.yMax)
    ensures OutputsWithin(f.Next(xy, x0, hold), f.yMin, f.yMax)
  {
  }

  /** One call of the update: an input sample and a hold flag. */
  datatype Tick = Tick(x0: real, hold: bool)

  /** The history after a sequence of updates with configuration `f`. */
  function Run(f: IIR6, xy: Vec13, ticks: seq<Tick>): Vec13
    requires f.Limited()
    decreases |ticks|
  {
    if ticks == [] then xy
    else Run(f, f.Next(xy, ticks[0].x0, ticks[0].hold), ticks[1..])
  }

  /** The outputs returned by a sequence of updates with configuration `f`. */
  function Outputs(f: IIR6, xy: Vec13, ticks: seq<Tick>): (ys: seq<real>)
    requires f.Limited()
    ensures |ys| == |ticks|
    decreases |ticks|
  {
    if ticks == [] then []
    else [f.Output(xy, ticks[0].x0, ticks[0].hold)]
         + Outputs(f, f.Next(xy, ticks[0].x0, ticks[0].hold), ticks[1..])
  }

  /** Every output of a run lies within the limits. */
  lemma {:induction false} RunOutputsWithinLimits(f: IIR6, xy: Vec13, ticks: seq<Tick>)
    requires f.Limited()
    ensures forall j :: 0 <= j < |ticks| ==> f.yMin <= Outputs(f, xy, ticks)[j] <= f.yMax
    decreases |ticks|
  {
    if ticks != [] {
      var xy' := f.Next(xy, ticks[0].x0, ticks[0].hold);
      RunOutputsWithinLimits(f, xy', ticks[1..]);
      forall j | 0 <= j < |ticks|
        ensures f.yMin <= Outputs(f, xy, ticks)[j] <= f.yMax
      {
        if j > 0 {
          assert Outputs(f, xy, ticks)[j] == Outputs(f, xy', ticks[1..])[j - 1];
        }
      }
    }
  }

  /**
   Anti-windup over a whole run: starting from a history whose output half is
   within the limits (for example the all-zero history when 0 is in range),
   the output half stays within the limits after any sequence of updates.
   */
  lemma {:induction false} RunKeepsOutputsWithin(f: IIR6, xy: Vec13, ticks: seq<Tick>)
    requires f.Limited() && OutputsWithin(xy, f.yMin, f.yMax)
    ensures OutputsWithin(Run(f, xy, ticks), f.yMin, f.yMax)
    decreases |ticks|
  {
    if ticks != [] {
      UpdateKeepsOutputsWithin(f, xy, ticks[0].x0, ticks[0].hold);
      RunKeepsOutputsWithin(f, f.Next(xy, ticks[0].x0, ticks[0].hold), ticks[1..]);
    }
  }

  /** With all-zero taps and no hold, every output of a run is the clamped offset. */
  lemma {:induction false} ZeroTapsRunInert(f: IIR6, xy: Vec13, ticks: seq<Tick>)
    requires f.Limited()
    requires forall k :: 0 <= k < N ==> f.ba[k] == 0.0
    requires forall j :: 0 <= j < |ticks| ==> !ticks[j].hold
    ensures forall j :: 0 <= j < |ticks| ==>
              Outputs(f, xy, ticks)[j] == Clamp(f.yOffset, f.yMin, f.yMax)
    decreases |ticks|
  {
    if ticks != [] {
      var xy' := f.Next(xy, ticks[0].x0, false);
      ZeroTapsInert(f, xy, ticks[0].x0);
      ZeroTapsRunInert(f, xy', ticks[1..]);
      forall j | 0 <= j < |ticks|
        ensures Outputs(f, xy, ticks)[j] == Clamp(f.yOffset, f.yMin, f.yMax)
      {
        if j > 0 {
          assert Outputs(f, xy, ticks)[j] == Outputs(f, xy', ticks[1..])[j - 1];
          assert ticks[1..][j - 1] == ticks[j];
        }
      }
    }
  }

  /** Appending one update at the end of a run. */
  lemma {:induction false} RunSnoc(f: IIR6, xy: Vec13, ticks: seq<Tick>, t: Tick)
    requires f.Limited()
    ensures Run(f, xy, ticks + [t]) == f.Next(Run(f, xy, ticks), t.x0, t.hold)
    ensures Outputs(f, xy, ticks + [t]) == Outputs(f, xy, ticks) + [f.Output(Run(f, xy, ticks), t.x0, t.hold)]
    decreases |ticks|
  {
    if ticks != [] {
      assert (ticks + [t])[1..] == ticks[1..] + [t];
      RunSnoc(f, f.Next(xy, ticks[0].x0, ticks[0].hold), ticks[1..], t);
    } else {
      assert [] + [t] == [t];
    }
  }

  /**
   After a run, slot i of the input half holds the input of the i-th most
   recent update, held or not.
   */
  lemma {:induction false} RunRecordsInputs(f: IIR6, xy: Vec13, ticks: seq<Tick>, i: nat)
    requires f.Limited()
    requires i < N / 2 && i < |ticks|
    ensures Run(f, xy, ticks)[i] == ticks[|ticks| - 1 - i].x0
    decreases |ticks|
  {
    var n := |ticks| - 1;
    var init, t := ticks[..n], ticks[n];
    assert ticks == init + [t];
    RunSnoc(f, xy, init, t);
    if i > 0 {
      RunRecordsInputs(f, xy, init, i - 1);
    }
  }

  /**
   After a run, slot 6 + j of the output half holds the output returned by the
   j-th most recent update: the history stores only emitted outputs.
   */
  lemma {:induction false} RunRecordsOutputs(f: IIR6, xy: Vec13, ticks: seq<Tick>, j: nat)
    requires f.Limited()
    requires j <= N / 2 && j < |ticks|
    ensures Run(f, xy, ticks)[N / 2 + j] == Outputs(f, xy, ticks)[|ticks| - 1 - j]
    decreases |ticks|
  {
    var n := |ticks| - 1;
    var init, t := ticks[..n], ticks[n];
    assert ticks == init + [t];
    RunSnoc(f, xy, init, t);
    if j > 0 {
      RunRecordsOutputs(f, xy, init, j - 1);
    }
  }

  /**
   Bump-less transfer at the level of the history: two updates of the same
   history with the same input, under any two configurations and hold flags,
   leave every slot but the new output slot identical. The history records
   samples, not anything derived from the taps, so a configuration may be
   replaced between updates without touching it.
   */
  lemma HistoryIndependentOfConfiguration(f: IIR6, g: IIR6, xy: Vec13, x0: real, hf: bool, hg: bool)
    requires f.Limited() && g.Limited()
    ensures forall i :: 0 <= i < N && i != N / 2 ==> f.Next(xy, x0, hf)[i] == g.Next(xy, x0, hg)[i]
  {
  }
}
