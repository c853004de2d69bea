/**
 `MTIFilter::apply`: eight second-order sections over the symbols of each subcarrier. The source runs one
 section over all symbols before the next; a cascade runs all sections on one symbol before the next.
 Arithmetic is exact.
 */
module MtiFilter {
  import opened ComplexValues

  datatype Section = Section(b0: real, b1: real, b2: real, a1: real, a2: real)

  /** The two delay values of a section. */
  datatype Taps = Taps(s0: Complex, s1: Complex)

  const STAGES := 8

  const SECTIONS: seq<Section> := [
    Section(0.993542, -1.987084, 0.993542, -1.993112, 0.993951),
    Section(0.981889, -1.963778, 0.981889, -1.981389, 0.982224),
    Section(0.971190, -1.942380, 0.971190, -1.970564, 0.971395),
    Section(0.961860, -1.923721, 0.961860, -1.961077, 0.961903),
    Section(0.954245, -1.908491, 0.954245, -1.953298, 0.954121),
    Section(0.948614, -1.897228, 0.948614, -1.947526, 0.948346),
    Section(0.945158, -1.890316, 0.945158, -1.943975, 0.944795),
    Section(0.971593, -0.971593, 0.000000, -0.971389, 0.000000)]

  function Output(sec: Section, t: Taps, x: Complex): Complex {
    Add(Scale(x, sec.b0), t.s0)
  }

  function NextTaps(sec: Section, t: Taps, x: Complex): Taps {
    var y := Output(sec, t, x);
    Taps(Add(Sub(Scale(x, sec.b1), Scale(y, sec.a1)), t.s1), Sub(Scale(x, sec.b2), Scale(y, sec.a2)))
  }

  // ---------------------------------------------------------------------------------------------
  // Stage by stage.

  function Front<T>(s: seq<T>): seq<T>
    requires s != []
  {
    s[..|s| - 1]
  }

  function Last<T>(s: seq<T>): T
    requires s != []
  {
    s[|s| - 1]
  }

  function TapsAfter(sec: Section, t: Taps, xs: seq<Complex>): Taps {
    if xs == [] then t else NextTaps(sec, TapsAfter(sec, t, Front(xs)), Last(xs))
  }

  function StageOut(sec: Section, t: Taps, xs: seq<Complex>): (r: seq<Complex>)
    ensures |r| == |xs|
  {
    if xs == [] then [] else StageOut(sec, t, Front(xs)) + [Output(sec, TapsAfter(sec, t, Front(xs)), Last(xs))]
  }

  /** All sections, each over the whole run before the next. */
  function CascadeOut(secs: seq<Section>, taps: seq<Taps>, xs: seq<Complex>): (r: seq<Complex>)
    requires |secs| == |taps|
    ensures |r| == |xs|
  {
    if secs == [] then xs else StageOut(Last(secs), Last(taps), CascadeOut(Front(secs), Front(taps), xs))
  }

  function CascadeTaps(secs: seq<Section>, taps: seq<Taps>, xs: seq<Complex>): (r: seq<Taps>)
    requires |secs| == |taps|
    ensures |r| == |taps|
  {
    if secs == [] then []
    else CascadeTaps(Front(secs), Front(taps), xs)
         + [TapsAfter(Last(secs), Last(taps), CascadeOut(Front(secs), Front(taps), xs))]
  }

  // ---------------------------------------------------------------------------------------------
  // Symbol by symbol.

  /** One symbol through all sections. */
  function Pushed(secs: seq<Section>, taps: seq<Taps>, x: Complex): Complex
    requires |secs| == |taps|
  {
    if secs == [] then x else Output(Last(secs), Last(taps), Pushed(Front(secs), Front(taps), x))
  }

  function PushedTaps(secs: seq<Section>, taps: seq<Taps>, x: Complex): (r: seq<Taps>)
    requires |secs| == |taps|
    ensures |r| == |taps|
  {
    if secs == [] then []
    else
      PushedTaps(Front(secs), Front(taps), x)
      + [NextTaps(Last(secs), Last(taps), Pushed(Front(secs), Front(taps), x))]
  }

  function SymbolTaps(secs: seq<Section>, taps: seq<Taps>, xs: seq<Complex>): (r: seq<Taps>)
    requires |secs| == |taps|
    ensures |r| == |taps|
  {
    if xs == [] then taps else PushedTaps(secs, SymbolTaps(secs, taps, Front(xs)), Last(xs))
  }

  function SymbolOut(secs: seq<Section>, taps: seq<Taps>, xs: seq<Complex>): (r: seq<Complex>)
    requires |secs| == |taps|
    ensures |r| == |xs|
  {
    if xs == [] then []
    else SymbolOut(secs, taps, Front(xs)) + [Pushed(secs, SymbolTaps(secs, taps, Front(xs)), Last(xs))]
  }

  /** The last section of a symbol-by-symbol run is a stage over what the sections before it put out. */
  lemma {:induction false} LastSection(secs: seq<Section>, taps: seq<Taps>, xs: seq<Complex>)
    requires |secs| == |taps| && secs != []
    ensures Front(SymbolTaps(secs, taps, xs)) == SymbolTaps(Front(secs), Front(taps), xs)
    ensures Last(SymbolTaps(secs, taps, xs))
            == TapsAfter(Last(secs), Last(taps), SymbolOut(Front(secs), Front(taps), xs))
    ensures SymbolOut(secs, taps, xs) == StageOut(Last(secs), Last(taps), SymbolOut(Front(secs), Front(taps), xs))
    decreases |xs|
  {
    hide Output, NextTaps;
    if xs != [] {
      LastSection(secs, taps, Front(xs));
      var before := SymbolTaps(secs, taps, Front(xs));
      var inner := SymbolOut(Front(secs), Front(taps), xs);
      assert Front(inner) == SymbolOut(Front(secs), Front(taps), Front(xs));
      assert Last(inner) == Pushed(Front(secs), Front(before), Last(xs));
    }
  }

  /** Section by section and symbol by symbol give the same output and leave the same state. */
  lemma {:induction false} StageMajorIsSymbolMajor(secs: seq<Section>, taps: seq<Taps>, xs: seq<Complex>)
    requires |secs| == |taps|
    ensures CascadeOut(secs, taps, xs) == SymbolOut(secs, taps, xs)
    ensures CascadeTaps(secs, taps, xs) == SymbolTaps(secs, taps, xs)
    decreases |secs|
  {
    hide Output, NextTaps;
    if secs == [] {
      NoSections(taps, xs);
    } else {
      StageMajorIsSymbolMajor(Front(secs), Front(taps), xs);
      LastSection(secs, taps, xs);
      var t := SymbolTaps(secs, taps, xs);
      assert t == Front(t) + [Last(t)];
    }
  }

  lemma {:induction false} NoSections(taps: seq<Taps>, xs: seq<Complex>)
    requires taps == []
    ensures SymbolOut([], taps, xs) == xs && SymbolTaps([], taps, xs) == []
    decreases |xs|
  {
    if xs != [] {
      NoSections(taps, Front(xs));
      assert xs == Front(xs) + [Last(xs)];
    }
  }

  lemma {:induction false} SymbolRunSplits(secs: seq<Section>, taps: seq<Taps>, xs: seq<Complex>, ys: seq<Complex>)
    requires |secs| == |taps|
    ensures SymbolTaps(secs, taps, xs + ys) == SymbolTaps(secs, SymbolTaps(secs, taps, xs), ys)
    ensures SymbolOut(secs, taps, xs + ys)
            == SymbolOut(secs, taps, xs) + SymbolOut(secs, SymbolTaps(secs, taps, xs), ys)
    decreases |ys|
  {
    hide Pushed, PushedTaps;
    if ys == [] {
      assert xs + ys == xs;
    } else {
      SymbolRunSplits(secs, taps, xs, Front(ys));
      assert Front(xs + ys) == xs + Front(ys);
    }
  }

  /** Splitting a run into consecutive calls changes neither the output nor the final state. */
  lemma SplitRunIsSame(secs: seq<Section>, taps: seq<Taps>, xs: seq<Complex>, ys: seq<Complex>)
    requires |secs| == |taps|
    ensures CascadeOut(secs, taps, xs + ys)
            == CascadeOut(secs, taps, xs) + CascadeOut(secs, CascadeTaps(secs, taps, xs), ys)
    ensures CascadeTaps(secs, taps, xs + ys) == CascadeTaps(secs, CascadeTaps(secs, taps, xs), ys)
  {
    StageMajorIsSymbolMajor(secs, taps, xs + ys);
    StageMajorIsSymbolMajor(secs, taps, xs);
    StageMajorIsSymbolMajor(secs, CascadeTaps(secs, taps, xs), ys);
    SymbolRunSplits(secs, taps, xs, ys);
    hide *;
  }

  // ---------------------------------------------------------------------------------------------
  // The filter on a buffer: one row per symbol, one column per subcarrier.

  ghost function ColumnOf(buffer: array2<Complex>, col: nat): (r: seq<Complex>)
    requires col < buffer.Length1
    reads buffer
    ensures |r| == buffer.Length0 && forall i | 0 <= i < |r| :: r[i] == buffer[i, col]
  {
    seq(buffer.Length0, i requires 0 <= i < buffer.Length0 reads buffer => buffer[i, col])
  }

  class MTIFilter {
    const width: nat
    const s0: array2<Complex>
    const s1: array2<Complex>

    ghost predicate Valid()
      reads this
    {
      && s0.Length0 == STAGES && s1.Length0 == STAGES && s0.Length1 == width && s1.Length1 == width
      && s0 != s1
    }

    ghost function TapsOf(stage: nat, col: nat): Taps
      requires Valid() && stage < STAGES && col < width
      reads this, s0, s1
    {
      Taps(s0[stage, col], s1[stage, col])
    }

    ghost function AllTaps(col: nat): (r: seq<Taps>)
      requires Valid() && col < width
      reads this, s0, s1
      ensures |r| == STAGES && forall k | 0 <= k < STAGES :: r[k] == TapsOf(k, col)
    {
      seq(STAGES, k requires 0 <= k < STAGES reads this, s0, s1 => TapsOf(k, col))
    }

    constructor (rangeFftSize: nat)
      ensures Valid() && width == rangeFftSize && fresh(s0) && fresh(s1)
      ensures forall stage, col | 0 <= stage < STAGES && 0 <= col < width :: TapsOf(stage, col) == Taps(ZERO, ZERO)
    {
      width := rangeFftSize;
      s0 := new Complex[STAGES, rangeFftSize]((i, j) => ZERO);
      s1 := new Complex[STAGES, rangeFftSize]((i, j) => ZERO);
    }

    /** One section on one symbol, subcarrier by subcarrier. */
    method FilterSymbol(buffer: array2<Complex>, stage: nat, i: nat, count: nat)
      requires Valid() && buffer != s0 && buffer != s1 && stage < STAGES && i < buffer.Length0
      requires count <= width == buffer.Length1
      modifies buffer, s0, s1
      ensures forall col | 0 <= col < count ::
                && buffer[i, col] == Output(SECTIONS[stage], old(TapsOf(stage, col)), old(buffer[i, col]))
                && TapsOf(stage, col) == NextTaps(SECTIONS[stage], old(TapsOf(stage, col)), old(buffer[i, col]))
      ensures forall k, col | 0 <= k < buffer.Length0 && 0 <= col < width && !(k == i && col < count) ::
                buffer[k, col] == old(buffer[k, col])
      ensures forall k, col | 0 <= k < STAGES && 0 <= col < width && !(k == stage && col < count) ::
                TapsOf(k, col) == old(TapsOf(k, col))
    {
      hide Add, Sub, Scale;
      var sec := SECTIONS[stage];
      for col := 0 to count
        invariant forall c | 0 <= c < col ::
                    && buffer[i, c] == Output(sec, old(TapsOf(stage, c)), old(buffer[i, c]))
                    && TapsOf(stage, c) == NextTaps(sec, old(TapsOf(stage, c)), old(buffer[i, c]))
        invariant forall k, c | 0 <= k < buffer.Length0 && 0 <= c < width && !(k == i && c < col) ::
                    buffer[k, c] == old(buffer[k, c])
        invariant forall k, c | 0 <= k < STAGES && 0 <= c < width && !(k == stage && c < col) ::
                    TapsOf(k, c) == old(TapsOf(k, c))
      {
        var x := buffer[i, col];
        var p0, p1 := s0[stage, col], s1[stage, col];
        var y := Add(Scale(x, sec.b0), p0);
        s0[stage, col] := Add(Sub(Scale(x, sec.b1), Scale(y, sec.a1)), p1);
        s1[stage, col] := Sub(Scale(x, sec.b2), Scale(y, sec.a2));
        buffer[i, col] := y;
      }
    }

    /** One section over all symbols. */
    method FilterStage(buffer: array2<Complex>, stage: nat, count: nat)
      requires Valid() && buffer != s0 && buffer != s1 && stage < STAGES && count <= width == buffer.Length1
      modifies buffer, s0, s1
      ensures forall col | 0 <= col < count ::
                && ColumnOf(buffer, col)
                   == StageOut(SECTIONS[stage], old(TapsOf(stage, col)), old(ColumnOf(buffer, col)))
                && TapsOf(stage, col) == TapsAfter(SECTIONS[stage], old(TapsOf(stage, col)), old(ColumnOf(buffer, col)))
      ensures forall k, col | 0 <= k < buffer.Length0 && count <= col < width :: buffer[k, col] == old(buffer[k, col])
      ensures forall k, col | 0 <= k < STAGES && 0 <= col < width && !(k == stage && col < count) ::
                TapsOf(k, col) == old(TapsOf(k, col))
    {
      hide Output, NextTaps, StageTo;
      forall col | 0 <= col < count
        ensures StageTo(SECTIONS[stage], old(TapsOf(stage, col)), old(ColumnOf(buffer, col)), 0,
                        ColumnOf(buffer, col), TapsOf(stage, col))
      {
        StageBegins(SECTIONS[stage], TapsOf(stage, col), ColumnOf(buffer, col));
      }
      for i := 0 to buffer.Length0
        invariant forall col | 0 <= col < count ::
                    StageTo(SECTIONS[stage], old(TapsOf(stage, col)), old(ColumnOf(buffer, col)), i,
                            ColumnOf(buffer, col), TapsOf(stage, col))
        invariant forall k, col | 0 <= k < buffer.Length0 && count <= col < width ::
                    buffer[k, col] == old(buffer[k, col])
        invariant forall k, col | 0 <= k < STAGES && 0 <= col < width && !(k == stage && col < count) ::
                    TapsOf(k, col) == old(TapsOf(k, col))
      {
        label before:
        FilterSymbol(buffer, stage, i, count);
        forall col | 0 <= col < count
          ensures StageTo(SECTIONS[stage], old(TapsOf(stage, col)), old(ColumnOf(buffer, col)), i + 1,
                          ColumnOf(buffer, col), TapsOf(stage, col))
        {
          StageStep(SECTIONS[stage], old(TapsOf(stage, col)), old(ColumnOf(buffer, col)), i,
                    old@before(ColumnOf(buffer, col)), old@before(TapsOf(stage, col)),
                    ColumnOf(buffer, col), TapsOf(stage, col));
        }
      }
      forall col | 0 <= col < count
        ensures ColumnOf(buffer, col) == StageOut(SECTIONS[stage], old(TapsOf(stage, col)), old(ColumnOf(buffer, col)))
        ensures TapsOf(stage, col) == TapsAfter(SECTIONS[stage], old(TapsOf(stage, col)), old(ColumnOf(buffer, col)))
      {
        StageEnds(SECTIONS[stage], old(TapsOf(stage, col)), old(ColumnOf(buffer, col)),
                  ColumnOf(buffer, col), TapsOf(stage, col));
      }
    }

    /** `apply`: every processed subcarrier goes through the cascade, all others stay as they are. */
    method Apply(buffer: array2<Complex>, count: nat)
      requires Valid() && buffer != s0 && buffer != s1 && count <= width == buffer.Length1
      modifies buffer, s0, s1
      ensures forall col | 0 <= col < count ::
                && ColumnOf(buffer, col) == CascadeOut(SECTIONS, old(AllTaps(col)), old(ColumnOf(buffer, col)))
                && AllTaps(col) == CascadeTaps(SECTIONS, old(AllTaps(col)), old(ColumnOf(buffer, col)))
      ensures forall k, col | 0 <= k < buffer.Length0 && count <= col < width :: buffer[k, col] == old(buffer[k, col])
      ensures forall k, col | 0 <= k < STAGES && count <= col < width :: TapsOf(k, col) == old(TapsOf(k, col))
    {
      hide StageOut, TapsAfter, CascadeOut, CascadeTaps, CascadeTo;
      forall col | 0 <= col < count
        ensures CascadeTo(SECTIONS, old(AllTaps(col)), old(ColumnOf(buffer, col)), 0,
                          AllTaps(col), ColumnOf(buffer, col))
      {
        CascadeBegins(SECTIONS, AllTaps(col), ColumnOf(buffer, col));
      }
      for stage := 0 to STAGES
        invariant forall col | 0 <= col < count ::
                    CascadeTo(SECTIONS, old(AllTaps(col)), old(ColumnOf(buffer, col)), stage,
                              AllTaps(col), ColumnOf(buffer, col))
        invariant forall k, col | 0 <= k < buffer.Length0 && count <= col < width ::
                    buffer[k, col] == old(buffer[k, col])
        invariant forall k, col | 0 <= k < STAGES && count <= col < width :: TapsOf(k, col) == old(TapsOf(k, col))
      {
        label before:
        FilterStage(buffer, stage, count);
        forall col | 0 <= col < count
          ensures CascadeTo(SECTIONS, old(AllTaps(col)), old(ColumnOf(buffer, col)), stage + 1,
                            AllTaps(col), ColumnOf(buffer, col))
        {
          CascadeStep(SECTIONS, old(AllTaps(col)), old(ColumnOf(buffer, col)), stage,
                      old@before(AllTaps(col)), AllTaps(col), old@before(ColumnOf(buffer, col)), ColumnOf(buffer, col));
        }
      }
      forall col | 0 <= col < count
        ensures ColumnOf(buffer, col) == CascadeOut(SECTIONS, old(AllTaps(col)), old(ColumnOf(buffer, col)))
        ensures AllTaps(col) == CascadeTaps(SECTIONS, old(AllTaps(col)), old(ColumnOf(buffer, col)))
      {
        CascadeEnds(SECTIONS, old(AllTaps(col)), old(ColumnOf(buffer, col)), AllTaps(col), ColumnOf(buffer, col));
      }
    }
  }

  /** A column after the first sections of the cascade. */
  ghost predicate CascadeTo(secs: seq<Section>, taps0: seq<Taps>, input: seq<Complex>, stage: nat,
                            taps: seq<Taps>, column: seq<Complex>) {
    && stage <= |secs| == |taps0| == |taps|
    && column == CascadeOut(secs[..stage], taps0[..stage], input)
    && taps[..stage] == CascadeTaps(secs[..stage], taps0[..stage], input)
    && taps[stage..] == taps0[stage..]
  }

  lemma CascadeBegins(secs: seq<Section>, taps: seq<Taps>, input: seq<Complex>)
    requires |secs| == |taps|
    ensures CascadeTo(secs, taps, input, 0, taps, input)
  {
  }

  lemma CascadeEnds(secs: seq<Section>, taps0: seq<Taps>, input: seq<Complex>, taps: seq<Taps>, column: seq<Complex>)
    requires CascadeTo(secs, taps0, input, |secs|, taps, column)
    ensures |secs| == |taps0| && column == CascadeOut(secs, taps0, input) && taps == CascadeTaps(secs, taps0, input)
  {
    hide CascadeOut, CascadeTaps;
    assert secs[..|secs|] == secs && taps0[..|secs|] == taps0 && taps[..|secs|] == taps;
  }

  /** A column in the middle of a stage: the first i symbols are done. */
  ghost predicate StageTo(sec: Section, t0: Taps, input: seq<Complex>, i: nat, column: seq<Complex>, t: Taps) {
    && i <= |input| == |column|
    && column[..i] == StageOut(sec, t0, input[..i]) && column[i..] == input[i..]
    && t == TapsAfter(sec, t0, input[..i])
  }

  lemma StageBegins(sec: Section, t: Taps, input: seq<Complex>)
    ensures StageTo(sec, t, input, 0, input, t)
  {
  }

  lemma StageEnds(sec: Section, t0: Taps, input: seq<Complex>, column: seq<Complex>, t: Taps)
    requires StageTo(sec, t0, input, |input|, column, t)
    ensures column == StageOut(sec, t0, input) && t == TapsAfter(sec, t0, input)
  {
    assert column[..|input|] == column && input[..|input|] == input;
  }

  /** One more symbol of a stage. */
  lemma StageStep(sec: Section, t0: Taps, input: seq<Complex>, i: nat, before: seq<Complex>, t: Taps,
                  after: seq<Complex>, next: Taps)
    requires i < |input| && StageTo(sec, t0, input, i, before, t) && |after| == |before|
    requires after == before[i := Output(sec, t, before[i])] && next == NextTaps(sec, t, before[i])
    ensures StageTo(sec, t0, input, i + 1, after, next)
  {
    hide Output, NextTaps;
    assert before[i] == before[i..][0] == input[i];
    assert Front(input[..i + 1]) == input[..i];
    assert after[..i + 1] == before[..i] + [after[i]];
    assert after[i + 1..] == before[i..][1..] == input[i..][1..];
  }

  /** One more section of the cascade. */
  lemma CascadeStep(secs: seq<Section>, taps0: seq<Taps>, input: seq<Complex>, stage: nat,
                    tapsBefore: seq<Taps>, tapsAfter: seq<Taps>, before: seq<Complex>, after: seq<Complex>)
    requires CascadeTo(secs, taps0, input, stage, tapsBefore, before) && stage < |secs| && |tapsAfter| == |tapsBefore|
    requires after == StageOut(secs[stage], tapsBefore[stage], before)
    requires tapsAfter == tapsBefore[stage := TapsAfter(secs[stage], tapsBefore[stage], before)]
    ensures CascadeTo(secs, taps0, input, stage + 1, tapsAfter, after)
  {
    hide StageOut, TapsAfter;
    assert tapsBefore[stage] == tapsBefore[stage..][0] == taps0[stage];
    assert Front(secs[..stage + 1]) == secs[..stage] && Front(taps0[..stage + 1]) == taps0[..stage];
    assert tapsAfter[..stage + 1] == tapsBefore[..stage] + [tapsAfter[stage]];
    assert tapsAfter[stage + 1..] == tapsBefore[stage..][1..] == taps0[stage..][1..];
  }

  // ---------------------------------------------------------------------------------------------
  // What a section computes.

  /** The k-th value, zero before the start. */
  function ValueAt(s: seq<Complex>, k: int): Complex
    requires k < |s|
  {
    if k < 0 then ZERO else s[k]
  }

  lemma {:induction false} StageAt(sec: Section, t: Taps, xs: seq<Complex>, n: nat)
    requires n < |xs|
    ensures StageOut(sec, t, xs)[n] == Output(sec, TapsAfter(sec, t, xs[..n]), xs[n])
    decreases |xs|
  {
    hide Output, TapsAfter;
    if n < |xs| - 1 {
      StageAt(sec, t, Front(xs), n);
      assert Front(xs)[..n] == xs[..n];
    }
  }

  lemma TapsAt(sec: Section, t: Taps, xs: seq<Complex>, n: nat)
    requires 0 < n <= |xs|
    ensures TapsAfter(sec, t, xs[..n]) == NextTaps(sec, TapsAfter(sec, t, xs[..n - 1]), xs[n - 1])
  {
    assert Front(xs[..n]) == xs[..n - 1] && Last(xs[..n]) == xs[n - 1];
  }

  /**
   The difference equation of a second-order section: from rest, every output is
   b0 x[n] + b1 x[n-1] + b2 x[n-2] - a1 y[n-1] - a2 y[n-2].
   */
  lemma DifferenceEquation(sec: Section, xs: seq<Complex>, n: nat)
    requires n < |xs|
    ensures var ys := StageOut(sec, Taps(ZERO, ZERO), xs);
            ys[n] == Sub(Add(Add(Scale(xs[n], sec.b0), Scale(ValueAt(xs, n - 1), sec.b1)),
                             Scale(ValueAt(xs, n - 2), sec.b2)),
                         Add(Scale(ValueAt(ys, n - 1), sec.a1), Scale(ValueAt(ys, n - 2), sec.a2)))
  {
    var rest := Taps(ZERO, ZERO);
    StageAt(sec, rest, xs, n);
    if n >= 1 {
      TapsAt(sec, rest, xs, n);
      StageAt(sec, rest, xs, n - 1);
    }
    if n >= 2 {
      TapsAt(sec, rest, xs, n - 1);
      StageAt(sec, rest, xs, n - 2);
    }
    hide StageOut;
  }

  /** Every section all but blocks a constant: its numerator coefficients add up to zero, or to a rounding error. */
  lemma SectionsBlockConstants(k: nat)
    requires k < STAGES
    ensures |SECTIONS| == STAGES && -0.000001 <= SECTIONS[k].b0 + SECTIONS[k].b1 + SECTIONS[k].b2 <= 0.0
    ensures k != 3 && k != 4 ==> SECTIONS[k].b0 + SECTIONS[k].b1 + SECTIONS[k].b2 == 0.0
  {
  }
}
