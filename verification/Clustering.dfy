/**
 `cluster_detected_targets`: flood fill over the detections, one summary per cluster, strongest first.
 The decibel-to-amplitude power is a parameter; arithmetic is exact.
 */
module Clustering {
  import opened Integers
  import opened Ranking
  import opened Sorting

  datatype Point = Point(doppler: int, range: int)

  datatype Cluster = Cluster(
    peakDoppler: int,
    peakRange: int,
    strength: Level,
    size: nat,
    centroidDoppler: real,
    centroidRange: real)

  predicate Near(a: Point, b: Point, dopplerGap: int, rangeGap: int) {
    Abs(a.doppler - b.doppler) <= dopplerGap && Abs(a.range - b.range) <= rangeGap
  }

  // ---------------------------------------------------------------------------------------------
  // Connected components.

  /** A chain of detections, each near the one before. */
  ghost predicate Chain(points: seq<Point>, dg: int, rg: int, chain: seq<nat>) {
    && chain != []
    && (forall i | 0 <= i < |chain| :: chain[i] < |points|)
    && forall i | 0 < i < |chain| ::
         var a, b := points[chain[i - 1]], points[chain[i]];
         -dg <= b.doppler - a.doppler <= dg && -rg <= b.range - a.range <= rg
  }

  ghost predicate Connected(points: seq<Point>, dg: int, rg: int, a: nat, b: nat) {
    exists chain :: Chain(points, dg, rg, chain) && chain[0] == a && chain[|chain| - 1] == b
  }

  /** Nothing outside the marked points is near a marked one. */
  ghost predicate Closed(points: seq<Point>, dg: int, rg: int, marked: seq<bool>) {
    |marked| == |points| && forall i, j | 0 <= i < |points| && 0 <= j < |points| ::
      marked[i] && Near(points[j], points[i], dg, rg) ==> marked[j]
  }

  lemma ConnectedToItself(points: seq<Point>, dg: int, rg: int, a: nat)
    requires a < |points|
    ensures Connected(points, dg, rg, a, a)
  {
    assert Chain(points, dg, rg, [a]);
  }

  lemma ConnectedOn(points: seq<Point>, dg: int, rg: int, a: nat, b: nat, c: nat)
    requires Connected(points, dg, rg, a, b) && c < |points| && b < |points| && Near(points[c], points[b], dg, rg)
    ensures Connected(points, dg, rg, a, c)
  {
    var chain :| Chain(points, dg, rg, chain) && chain[0] == a && chain[|chain| - 1] == b;
    assert Chain(points, dg, rg, chain + [c]);
  }

  /** A chain that starts in a closed set stays in it; one that starts outside stays outside. */
  lemma {:induction false} ChainStays(points: seq<Point>, dg: int, rg: int, marked: seq<bool>, chain: seq<nat>, i: nat)
    requires Closed(points, dg, rg, marked) && Chain(points, dg, rg, chain) && i < |chain|
    ensures marked[chain[i]] == marked[chain[0]]
  {
    if i > 0 {
      ChainStays(points, dg, rg, marked, chain, i - 1);
      NearSymmetric(points[chain[i]], points[chain[i - 1]], dg, rg);
      hide Near;
    }
  }

  lemma NearSymmetric(a: Point, b: Point, dg: int, rg: int)
    ensures Near(a, b, dg, rg) == Near(b, a, dg, rg)
  {
  }

  lemma ConnectedStays(points: seq<Point>, dg: int, rg: int, marked: seq<bool>, a: nat, b: nat)
    requires Closed(points, dg, rg, marked) && a < |points| && b < |points| && Connected(points, dg, rg, a, b)
    ensures marked[a] == marked[b]
  {
    var chain :| Chain(points, dg, rg, chain) && chain[0] == a && chain[|chain| - 1] == b;
    ChainStays(points, dg, rg, marked, chain, |chain| - 1);
  }

  // ---------------------------------------------------------------------------------------------
  // The flood fill.

  /** The points of a list are in range and each occurs once. */
  ghost predicate Distinct(s: seq<nat>, n: nat) {
    (forall i | 0 <= i < |s| :: s[i] < n) && forall i, j | 0 <= i < j < |s| :: s[i] != s[j]
  }

  /** The state of the flood from `seed`: who was marked before, who is now, the queue, and who is done. */
  ghost predicate Flooding(points: seq<Point>, dg: int, rg: int, seed: nat, before: seq<bool>,
                           marked: seq<bool>, queue: seq<nat>, done: seq<nat>) {
    && seed < |points| == |marked| == |before| && !before[seed] && marked[seed]
    && Distinct(done + queue, |points|)
    && (forall j | 0 <= j < |points| :: marked[j] <==> before[j] || j in done + queue)
    && (forall j | j in done + queue :: !before[j] && Connected(points, dg, rg, seed, j))
    && CountTrue(marked, |points|) == CountTrue(before, |points|) + |done + queue|
  }

  ghost predicate Expanded(points: seq<Point>, dg: int, rg: int, marked: seq<bool>, done: seq<nat>) {
    |marked| == |points| && forall i, j | i in done && 0 <= j < |points| && i < |points| ::
      Near(points[j], points[i], dg, rg) ==> marked[j]
  }

  /** One more neighbour is marked and queued. */
  lemma FloodGrows(points: seq<Point>, dg: int, rg: int, seed: nat, before: seq<bool>,
                   marked: seq<bool>, queue: seq<nat>, done: seq<nat>, cur: nat, j: nat)
    requires Flooding(points, dg, rg, seed, before, marked, queue, done)
    requires j < |points| && !marked[j] && cur in done && cur < |points| && Near(points[j], points[cur], dg, rg)
    ensures Flooding(points, dg, rg, seed, before, marked[j := true], queue + [j], done)
    ensures forall i | 0 <= i < |marked| :: marked[i] ==> marked[j := true][i]
  {
    hide Near, Connected;
    assert done + (queue + [j]) == done + queue + [j];
    assert cur in done + queue;
    ConnectedOn(points, dg, rg, seed, cur, j);
    CountSet(marked, j, |points|);
    forall i | 0 <= i < |points|
      ensures i in done + (queue + [j]) <==> i in done + queue || i == j
    {
    }
  }

  /** The last of the queue becomes the current point. */
  lemma FloodPops(points: seq<Point>, dg: int, rg: int, seed: nat, before: seq<bool>,
                  marked: seq<bool>, queue: seq<nat>, done: seq<nat>)
    requires Flooding(points, dg, rg, seed, before, marked, queue, done) && queue != []
    ensures Flooding(points, dg, rg, seed, before, marked, queue[..|queue| - 1], done + [queue[|queue| - 1]])
    ensures |done| < |points|
  {
    hide Near, Connected;
    var cur, rest := queue[|queue| - 1], queue[..|queue| - 1];
    var all, now := done + queue, done + [cur] + rest;
    assert queue == rest + [cur];
    forall i, j | 0 <= i < j < |now|
      ensures now[i] < |points| && now[i] != now[j]
    {
      var f := (k: int) => if k < |done| then k else if k == |done| then |all| - 1 else k - 1;
      assert now[i] == all[f(i)] && now[j] == all[f(j)] && f(i) != f(j);
    }
    assert now[|now| - 1] in all;
    forall i
      ensures i in all <==> i in now
    {
    }
    assert CountTrue(marked, |points|) <= |points|;
  }

  /** The inner loop: every unmarked neighbour of the current point is marked and queued. */
  method MarkNeighbours(points: seq<Point>, dg: int, rg: int, ghost seed: nat, ghost before: seq<bool>,
                        marked: seq<bool>, queue: seq<nat>, ghost done: seq<nat>, cur: nat)
    returns (now: seq<bool>, longer: seq<nat>)
    requires Flooding(points, dg, rg, seed, before, marked, queue, done) && cur in done && cur < |points|
    ensures Flooding(points, dg, rg, seed, before, now, longer, done)
    ensures forall i | 0 <= i < |points| :: marked[i] ==> now[i]
    ensures forall j | 0 <= j < |points| && Near(points[j], points[cur], dg, rg) :: now[j]
  {
    now, longer := marked, queue;
    for j := 0 to |points|
      invariant Flooding(points, dg, rg, seed, before, now, longer, done)
      invariant forall i | 0 <= i < |points| :: marked[i] ==> now[i]
      invariant forall i | 0 <= i < j && Near(points[i], points[cur], dg, rg) :: now[i]
    {
      if now[j] {
        continue;
      }
      if Abs(points[j].doppler - points[cur].doppler) <= dg && Abs(points[j].range - points[cur].range) <= rg {
        FloodGrows(points, dg, rg, seed, before, now, longer, done, cur, j);
        now, longer := now[j := true], longer + [j];
      }
    }
  }

  ghost predicate IsComponent(points: seq<Point>, dg: int, rg: int, seed: nat, members: seq<nat>) {
    && Distinct(members, |points|)
    && forall j | 0 <= j < |points| :: j in members <==> Connected(points, dg, rg, seed, j)
  }

  lemma FloodStarts(points: seq<Point>, dg: int, rg: int, seed: nat, before: seq<bool>)
    requires |before| == |points| && seed < |points| && !before[seed]
    ensures Flooding(points, dg, rg, seed, before, before[seed := true], [seed], [])
  {
    ConnectedToItself(points, dg, rg, seed);
    hide Connected;
    CountSet(before, seed, |points|);
    assert [] + [seed] == [seed];
  }

  /** When the queue runs dry the marks are closed, and what was added is the component of the seed. */
  lemma FloodEnds(points: seq<Point>, dg: int, rg: int, seed: nat, before: seq<bool>, marked: seq<bool>, done: seq<nat>)
    requires Flooding(points, dg, rg, seed, before, marked, [], done) && Expanded(points, dg, rg, marked, done)
    requires Closed(points, dg, rg, before)
    ensures Closed(points, dg, rg, marked) && IsComponent(points, dg, rg, seed, done)
    ensures forall j | 0 <= j < |points| :: marked[j] <==> before[j] || j in done
    ensures marked[seed] && forall j | j in done :: j < |points| && !before[j]
    ensures CountTrue(marked, |points|) == CountTrue(before, |points|) + |done|
  {
    hide Near, Connected;
    assert done + [] == done;
    forall i, j | 0 <= i < |points| && 0 <= j < |points| && marked[i] && Near(points[j], points[i], dg, rg)
      ensures marked[j]
    {
      if before[i] {
        assert before[j];
      }
    }
    forall j | 0 <= j < |points| && Connected(points, dg, rg, seed, j)
      ensures j in done
    {
      ConnectedStays(points, dg, rg, marked, seed, j);
      ConnectedStays(points, dg, rg, before, seed, j);
    }
  }

  /** One flood: the cluster of a seed not marked yet. */
  method Flood(points: seq<Point>, dg: int, rg: int, seed: nat, before: seq<bool>)
    returns (marked: seq<bool>, members: seq<nat>)
    requires Closed(points, dg, rg, before) && seed < |points| && !before[seed]
    ensures Closed(points, dg, rg, marked) && IsComponent(points, dg, rg, seed, members)
    ensures forall j | 0 <= j < |points| :: marked[j] <==> before[j] || j in members
    ensures marked[seed] && forall j | j in members :: j < |points| && !before[j]
    ensures CountTrue(marked, |points|) == CountTrue(before, |points|) + |members|
  {
    hide Flooding, Closed, IsComponent, Near;
    assert |before| == |points| by { ClosedLength(points, dg, rg, before); }
    var queue := [seed];
    marked, members := before[seed := true], [];
    FloodStarts(points, dg, rg, seed, before);
    while queue != []
      invariant |members| <= |points| && |marked| == |points|
      invariant Flooding(points, dg, rg, seed, before, marked, queue, members)
      invariant Expanded(points, dg, rg, marked, members)
      decreases |points| - |members|
    {
      FloodPops(points, dg, rg, seed, before, marked, queue, members);
      FloodRange(points, dg, rg, seed, before, marked, queue, members);
      var cur := queue[|queue| - 1];
      queue := queue[..|queue| - 1];
      members := members + [cur];
      marked, queue := MarkNeighbours(points, dg, rg, seed, before, marked, queue, members, cur);
      FloodRange(points, dg, rg, seed, before, marked, queue, members);
    }
    FloodEnds(points, dg, rg, seed, before, marked, members);
  }

  lemma ClosedLength(points: seq<Point>, dg: int, rg: int, marked: seq<bool>)
    requires Closed(points, dg, rg, marked)
    ensures |marked| == |points|
  {
  }

  lemma FloodRange(points: seq<Point>, dg: int, rg: int, seed: nat, before: seq<bool>,
                   marked: seq<bool>, queue: seq<nat>, done: seq<nat>)
    requires Flooding(points, dg, rg, seed, before, marked, queue, done)
    ensures |marked| == |points| && forall i | 0 <= i < |queue| :: queue[i] < |points|
  {
    assert forall i | 0 <= i < |queue| :: queue[i] == (done + queue)[|done| + i];
  }

  // ---------------------------------------------------------------------------------------------
  // The partition.

  function TotalSize(groups: seq<seq<nat>>): nat {
    if groups == [] then 0 else TotalSize(groups[..|groups| - 1]) + |groups[|groups| - 1]|
  }

  ghost predicate InSome(groups: seq<seq<nat>>, j: nat) {
    exists g :: 0 <= g < |groups| && j in groups[g]
  }

  /** Each group is the component of its first point, and no point is in two groups. */
  ghost predicate Components(points: seq<Point>, dg: int, rg: int, groups: seq<seq<nat>>) {
    && (forall g | 0 <= g < |groups| :: groups[g] != [] && IsComponent(points, dg, rg, groups[g][0], groups[g]))
    && forall g, h, j | 0 <= g < h < |groups| && j in groups[g] :: j !in groups[h]
  }

  ghost predicate IsPartition(points: seq<Point>, dg: int, rg: int, groups: seq<seq<nat>>) {
    && Components(points, dg, rg, groups)
    && (forall j | 0 <= j < |points| :: InSome(groups, j))
    && TotalSize(groups) == |points|
  }

  /** The points connected to `a`, as marks. */
  ghost function Reach(points: seq<Point>, dg: int, rg: int, a: nat): (r: seq<bool>)
    ensures |r| == |points| && forall j | 0 <= j < |points| :: r[j] <==> Connected(points, dg, rg, a, j)
  {
    seq(|points|, j requires 0 <= j < |points| => Connected(points, dg, rg, a, j))
  }

  lemma ReachIsClosed(points: seq<Point>, dg: int, rg: int, a: nat)
    ensures Closed(points, dg, rg, Reach(points, dg, rg, a))
  {
    hide Near, Connected;
    forall i, j | 0 <= i < |points| && 0 <= j < |points|
                  && Connected(points, dg, rg, a, i) && Near(points[j], points[i], dg, rg)
      ensures Connected(points, dg, rg, a, j)
    {
      ConnectedOn(points, dg, rg, a, i, j);
    }
  }

  /** Being connected goes both ways and chains up. */
  lemma ConnectedBack(points: seq<Point>, dg: int, rg: int, seed: nat, a: nat, b: nat)
    requires seed < |points| && a < |points| && b < |points| && Connected(points, dg, rg, seed, a)
    ensures Connected(points, dg, rg, seed, b) <==> Connected(points, dg, rg, a, b)
  {
    hide Connected, Closed;
    ReachIsClosed(points, dg, rg, a);
    ReachIsClosed(points, dg, rg, seed);
    ConnectedToItself(points, dg, rg, a);
    ConnectedStays(points, dg, rg, Reach(points, dg, rg, a), seed, a);
    if Connected(points, dg, rg, seed, b) {
      ConnectedStays(points, dg, rg, Reach(points, dg, rg, a), seed, b);
    }
    if Connected(points, dg, rg, a, b) {
      ConnectedStays(points, dg, rg, Reach(points, dg, rg, seed), a, b);
    }
  }

  /** Two detections share a cluster exactly if a chain of near detections joins them. */
  lemma SameClusterIff(points: seq<Point>, dg: int, rg: int, groups: seq<seq<nat>>, a: nat, b: nat)
    requires IsPartition(points, dg, rg, groups) && a < |points| && b < |points|
    ensures Connected(points, dg, rg, a, b) <==> exists g :: 0 <= g < |groups| && a in groups[g] && b in groups[g]
  {
    hide Connected;
    assert InSome(groups, a);
    var g :| 0 <= g < |groups| && a in groups[g];
    var seed := groups[g][0];
    assert IsComponent(points, dg, rg, seed, groups[g]);
    ConnectedBack(points, dg, rg, seed, a, b);
    if h :| 0 <= h < |groups| && a in groups[h] && b in groups[h] {
      assert h == g;
    }
  }

  // ---------------------------------------------------------------------------------------------
  // The summary of a cluster.

  /** The map of strengths, row by row; `Strength` is `rd_value`. */
  datatype StrengthMap = StrengthMap(rows: nat, cols: nat, db: seq<real>)

  function Strength(m: StrengthMap, p: Point): Level
    requires |m.db| == m.rows * m.cols
  {
    if p.doppler < 0 || p.range < 0 || p.doppler >= m.rows || p.range >= m.cols then MinusInfinity
    else
      FlatInside(p.doppler, p.range, m.rows, m.cols);
      Db(m.db[Flat(p.doppler, p.range, m.cols)])
  }

  ghost predicate IsAmplitude(amplitude: Level -> real) {
    amplitude(MinusInfinity) == 0.0 && forall v :: amplitude(Db(v)) > 0.0
  }

  function WeightSum(ws: seq<real>): real {
    if ws == [] then 0.0 else WeightSum(ws[..|ws| - 1]) + ws[|ws| - 1]
  }

  function Moment(ws: seq<real>, xs: seq<real>): real
    requires |ws| == |xs|
  {
    if ws == [] then 0.0 else Moment(ws[..|ws| - 1], xs[..|xs| - 1]) + xs[|xs| - 1] * ws[|ws| - 1]
  }

  ghost predicate Bounded(moment: real, sum: real, lo: real, hi: real) {
    sum >= 0.0 && lo * sum <= moment <= hi * sum
  }

  lemma NothingBounded(lo: real, hi: real)
    ensures Bounded(0.0, 0.0, lo, hi)
  {
  }

  lemma BoundedStep(moment: real, sum: real, lo: real, hi: real, x: real, w: real)
    requires w >= 0.0 && lo <= x <= hi && Bounded(moment, sum, lo, hi)
    ensures Bounded(moment + x * w, sum + w, lo, hi)
  {
    Scaled(lo, x, w);
    Scaled(x, hi, w);
  }

  lemma QuotientBetween(moment: real, sum: real, lo: real, hi: real)
    requires sum > 0.0 && Bounded(moment, sum, lo, hi)
    ensures lo <= moment / sum <= hi
  {
    assert (moment / sum) * sum == moment;
    FactorBetween(moment / sum, moment, sum, lo, hi);
  }

  lemma FactorBetween(q: real, moment: real, sum: real, lo: real, hi: real)
    requires sum > 0.0 && q * sum == moment && Bounded(moment, sum, lo, hi)
    ensures lo <= q <= hi
  {
    FactorBelow(lo, q, sum, lo * sum, moment);
    FactorBelow(q, hi, sum, moment, hi * sum);
  }

  lemma FactorBelow(a: real, b: real, w: real, aw: real, bw: real)
    requires w > 0.0 && aw == a * w && bw == b * w && aw <= bw
    ensures a <= b
  {
    assert (a - b) * w == aw - bw;
    if b < a {
      ProductSign(a - b, w);
    }
  }

  lemma Scaled(a: real, b: real, w: real)
    requires w >= 0.0
    ensures a <= b ==> a * w <= b * w
    ensures w > 0.0 && a < b ==> a * w < b * w
  {
    assert (b - a) * w == b * w - a * w;
    if a <= b {
      ProductSign(b - a, w);
    }
  }

  lemma ProductSign(d: real, w: real)
    requires d >= 0.0 && w >= 0.0
    ensures d * w >= 0.0
    ensures d > 0.0 && w > 0.0 ==> d * w > 0.0
  {
  }

  lemma {:induction false} MomentBounds(ws: seq<real>, xs: seq<real>, lo: real, hi: real)
    requires |ws| == |xs| && (forall i | 0 <= i < |ws| :: ws[i] >= 0.0) && forall i | 0 <= i < |xs| :: lo <= xs[i] <= hi
    ensures Bounded(Moment(ws, xs), WeightSum(ws), lo, hi)
  {
    hide Bounded;
    if ws == [] {
      NothingBounded(lo, hi);
    } else {
      MomentBounds(ws[..|ws| - 1], xs[..|xs| - 1], lo, hi);
      var moment, sum := Moment(ws[..|ws| - 1], xs[..|xs| - 1]), WeightSum(ws[..|ws| - 1]);
      var w, x := ws[|ws| - 1], xs[|xs| - 1];
      assert w >= 0.0 && lo <= x <= hi;
      BoundedStep(moment, sum, lo, hi, x, w);
      assert Moment(ws, xs) == moment + x * w;
    }
  }

  /** A weighted mean lies between the smallest and the largest value. */
  lemma MeanBetween(ws: seq<real>, xs: seq<real>, lo: real, hi: real)
    requires |ws| == |xs| && (forall i | 0 <= i < |ws| :: ws[i] >= 0.0) && forall i | 0 <= i < |xs| :: lo <= xs[i] <= hi
    requires WeightSum(ws) > 0.0
    ensures lo <= Moment(ws, xs) / WeightSum(ws) <= hi
  {
    hide Bounded, Moment, WeightSum;
    MomentBounds(ws, xs, lo, hi);
    QuotientBetween(Moment(ws, xs), WeightSum(ws), lo, hi);
  }

  function Weights(points: seq<Point>, m: StrengthMap, amplitude: Level -> real, members: seq<nat>): (r: seq<real>)
    requires |m.db| == m.rows * m.cols && forall i | 0 <= i < |members| :: members[i] < |points|
    ensures |r| == |members|
  {
    seq(|members|, i requires 0 <= i < |members| => amplitude(Strength(m, points[members[i]])))
  }

  function Dopplers(points: seq<Point>, members: seq<nat>): (r: seq<real>)
    requires forall i | 0 <= i < |members| :: members[i] < |points|
    ensures |r| == |members|
  {
    seq(|members|, i requires 0 <= i < |members| => points[members[i]].doppler as real)
  }

  function Ranges(points: seq<Point>, members: seq<nat>): (r: seq<real>)
    requires forall i | 0 <= i < |members| :: members[i] < |points|
    ensures |r| == |members|
  {
    seq(|members|, i requires 0 <= i < |members| => points[members[i]].range as real)
  }

  /** The peak is the first of the strongest members; the centroid is the mean weighted by amplitude. */
  ghost predicate Summarizes(points: seq<Point>, m: StrengthMap, amplitude: Level -> real, members: seq<nat>,
                             c: Cluster)
    requires |m.db| == m.rows * m.cols
  {
    && members != [] && (forall i | 0 <= i < |members| :: members[i] < |points|)
    && c.size == |members|
    && (exists p :: 0 <= p < |members| && points[members[p]] == Point(c.peakDoppler, c.peakRange)
         && Strength(m, points[members[p]]) == c.strength
         && (forall i | 0 <= i < |members| :: !Above(Strength(m, points[members[i]]), c.strength))
         && forall i | 0 <= i < p :: Above(c.strength, Strength(m, points[members[i]])))
    && var w := WeightSum(Weights(points, m, amplitude, members));
       if w > 0.0 then
         && c.centroidDoppler == Moment(Weights(points, m, amplitude, members), Dopplers(points, members)) / w
         && c.centroidRange == Moment(Weights(points, m, amplitude, members), Ranges(points, members)) / w
       else c.centroidDoppler == c.peakDoppler as real && c.centroidRange == c.peakRange as real
  }

  /** The centroid lies within every box that holds the members of the cluster. */
  lemma CentroidBetween(points: seq<Point>, m: StrengthMap, amplitude: Level -> real, members: seq<nat>, c: Cluster,
                        low: Point, high: Point)
    requires |m.db| == m.rows * m.cols && IsAmplitude(amplitude) && Summarizes(points, m, amplitude, members, c)
    requires forall i | 0 <= i < |members| ::
               && low.doppler <= points[members[i]].doppler <= high.doppler
               && low.range <= points[members[i]].range <= high.range
    ensures low.doppler as real <= c.centroidDoppler <= high.doppler as real
    ensures low.range as real <= c.centroidRange <= high.range as real
  {
    var ws := Weights(points, m, amplitude, members);
    if WeightSum(ws) > 0.0 {
      assert forall i | 0 <= i < |ws| :: ws[i] >= 0.0 by {
        assert forall v :: amplitude(v) >= 0.0 by {
          forall v
            ensures amplitude(v) >= 0.0
          {
            if v.Db? {
              assert amplitude(Db(v.value)) > 0.0;
            }
          }
        }
      }
      hide WeightSum, Moment, Weights, Strength, IsAmplitude;
      MeanBetween(ws, Dopplers(points, members), low.doppler as real, high.doppler as real);
      MeanBetween(ws, Ranges(points, members), low.range as real, high.range as real);
    }
  }

  lemma SumsGrow(points: seq<Point>, m: StrengthMap, amplitude: Level -> real, members: seq<nat>, i: nat)
    requires |m.db| == m.rows * m.cols && i < |members| && forall k | 0 <= k < |members| :: members[k] < |points|
    ensures var ws := Weights(points, m, amplitude, members[..i]);
            var more := Weights(points, m, amplitude, members[..i + 1]);
            var p := points[members[i]]; var w := amplitude(Strength(m, p));
            && WeightSum(more) == WeightSum(ws) + w
            && Moment(more, Dopplers(points, members[..i + 1]))
               == Moment(ws, Dopplers(points, members[..i])) + p.doppler as real * w
            && Moment(more, Ranges(points, members[..i + 1]))
               == Moment(ws, Ranges(points, members[..i])) + p.range as real * w
  {
    var more := Weights(points, m, amplitude, members[..i + 1]);
    assert more[..i] == Weights(points, m, amplitude, members[..i]);
    assert Dopplers(points, members[..i + 1])[..i] == Dopplers(points, members[..i]);
    assert Ranges(points, members[..i + 1])[..i] == Ranges(points, members[..i]);
  }

  method Summarize(points: seq<Point>, m: StrengthMap, amplitude: Level -> real, members: seq<nat>) returns (c: Cluster)
    requires |m.db| == m.rows * m.cols && members != [] && forall i | 0 <= i < |members| :: members[i] < |points|
    ensures Summarizes(points, m, amplitude, members, c)
  {
    hide Strength, Above, WeightSum, Moment, Weights, Dopplers, Ranges;
    var peak, strength := 0, MinusInfinity;
    var weightSum, sumD, sumR := 0.0, 0.0, 0.0;
    EmptySums(points, m, amplitude);
    assert members[..0] == [];
    for i := 0 to |members|
      invariant peak < |members| && (i > 0 ==> peak < i)
      invariant strength == MinusInfinity || (i > 0 && strength == Strength(m, points[members[peak]]))
      invariant strength == MinusInfinity ==> peak == 0
      invariant forall k | 0 <= k < i :: !Above(Strength(m, points[members[k]]), strength)
      invariant forall k | 0 <= k < peak :: Above(strength, Strength(m, points[members[k]]))
      invariant weightSum == WeightSum(Weights(points, m, amplitude, members[..i]))
      invariant sumD == Moment(Weights(points, m, amplitude, members[..i]), Dopplers(points, members[..i]))
      invariant sumR == Moment(Weights(points, m, amplitude, members[..i]), Ranges(points, members[..i]))
    {
      var p := points[members[i]];
      var value := Strength(m, p);
      AboveFacts(value, strength);
      if Above(value, strength) {
        forall k | 0 <= k < i
          ensures Above(value, Strength(m, points[members[k]])) && !Above(Strength(m, points[members[k]]), value)
        {
          AboveChains(value, strength, Strength(m, points[members[k]]));
          AboveFacts(value, Strength(m, points[members[k]]));
        }
        strength, peak := value, i;
      }
      SumsGrow(points, m, amplitude, members, i);
      var weight := amplitude(value);
      weightSum := weightSum + weight;
      sumD := sumD + p.doppler as real * weight;
      sumR := sumR + p.range as real * weight;
    }
    assert members[..|members|] == members;
    AboveFacts(Strength(m, points[members[0]]), strength);
    var top := points[members[peak]];
    if weightSum > 0.0 {
      c := Cluster(top.doppler, top.range, strength, |members|, sumD / weightSum, sumR / weightSum);
    } else {
      c := Cluster(top.doppler, top.range, strength, |members|, top.doppler as real, top.range as real);
    }
  }

  lemma EmptySums(points: seq<Point>, m: StrengthMap, amplitude: Level -> real)
    requires |m.db| == m.rows * m.cols
    ensures WeightSum(Weights(points, m, amplitude, [])) == 0.0
    ensures Moment(Weights(points, m, amplitude, []), Dopplers(points, [])) == 0.0
    ensures Moment(Weights(points, m, amplitude, []), Ranges(points, [])) == 0.0
  {
  }

  lemma AboveFacts(a: Level, b: Level)
    ensures Above(a, b) ==> a != MinusInfinity && !Above(b, a)
    ensures b == MinusInfinity && !Above(a, b) ==> a == MinusInfinity
    ensures !Above(a, a)
  {
  }

  lemma AboveChains(a: Level, b: Level, c: Level)
    requires Above(a, b) && !Above(c, b)
    ensures Above(a, c)
  {
  }

  // ---------------------------------------------------------------------------------------------
  // All clusters.

  lemma PartitionGrows(points: seq<Point>, dg: int, rg: int, groups: seq<seq<nat>>, before: seq<bool>, seed: nat,
                       members: seq<nat>)
    requires Components(points, dg, rg, groups) && IsComponent(points, dg, rg, seed, members) && seed < |points|
    requires |before| == |points| && forall j | 0 <= j < |points| :: before[j] <==> InSome(groups, j)
    requires forall j | j in members :: j < |points| && !before[j]
    ensures Components(points, dg, rg, groups + [members]) && members != []
    ensures TotalSize(groups + [members]) == TotalSize(groups) + |members|
    ensures forall j | 0 <= j < |points| :: InSome(groups + [members], j) <==> InSome(groups, j) || j in members
  {
    ConnectedToItself(points, dg, rg, seed);
    assert seed in members;
    FirstAsSeed(points, dg, rg, seed, members);
    hide IsComponent;
    var more := groups + [members];
    assert more[..|groups|] == groups;
    assert more[|groups|] == members;
    forall j | 0 <= j < |points|
      ensures InSome(more, j) <==> InSome(groups, j) || j in members
    {
      if InSome(groups, j) {
        var g :| 0 <= g < |groups| && j in groups[g];
        assert more[g] == groups[g];
      }
    }
    forall g, j | 0 <= g < |groups| && j in groups[g]
      ensures j !in members
    {
      assert InSome(groups, j);
    }
  }

  /** The component of a seed is the component of each of its members. */
  lemma FirstAsSeed(points: seq<Point>, dg: int, rg: int, seed: nat, members: seq<nat>)
    requires IsComponent(points, dg, rg, seed, members) && members != [] && seed < |points|
    ensures IsComponent(points, dg, rg, members[0], members)
  {
    hide Connected;
    assert members[0] in members;
    forall j | 0 <= j < |points|
      ensures j in members <==> Connected(points, dg, rg, members[0], j)
    {
      ConnectedBack(points, dg, rg, seed, members[0], j);
    }
  }

  /** The clusters made from the groups, before sorting. */
  ghost predicate Made(points: seq<Point>, m: StrengthMap, amplitude: Level -> real,
                       groups: seq<seq<nat>>, made: seq<Cluster>)
    requires |m.db| == m.rows * m.cols
  {
    |made| == |groups| && forall g | 0 <= g < |groups| :: Summarizes(points, m, amplitude, groups[g], made[g])
  }

  /**
   `cluster_detected_targets`: the groups are the connected components of the detections, and the result
   is one summary of each, strongest first.
   */
  method ClusterTargets(points: seq<Point>, m: StrengthMap, dg: int, rg: int, amplitude: Level -> real)
    returns (clusters: seq<Cluster>, ghost groups: seq<seq<nat>>, ghost made: seq<Cluster>)
    requires |m.db| == m.rows * m.cols
    ensures points == [] || m.db == [] ==> clusters == []
    ensures points != [] && m.db != [] ==>
      && IsPartition(points, dg, rg, groups) && Made(points, m, amplitude, groups, made)
      && Permutation(clusters, made) && Descending(clusters, (c: Cluster) => c.strength)
  {
    hide Closed, IsComponent, Summarizes, Components, InSome, TotalSize;
    clusters, groups, made := [], [], [];
    if |points| == 0 || |m.db| == 0 {
      return;
    }
    var marked: seq<bool> := seq(|points|, _ => false);
    var found: seq<Cluster> := [];
    NothingYet(points, dg, rg, marked);
    for seed := 0 to |points|
      invariant |marked| == |points| && Closed(points, dg, rg, marked)
      invariant forall j | 0 <= j < seed :: marked[j]
      invariant Components(points, dg, rg, groups) && TotalSize(groups) == CountTrue(marked, |points|)
      invariant forall j | 0 <= j < |points| :: marked[j] <==> InSome(groups, j)
      invariant Made(points, m, amplitude, groups, found)
    {
      if marked[seed] {
        continue;
      }
      ghost var before := marked;
      var members;
      marked, members := Flood(points, dg, rg, seed, marked);
      ClosedLength(points, dg, rg, marked);
      PartitionGrows(points, dg, rg, groups, before, seed, members);
      ComponentInRange(points, dg, rg, seed, members);
      var c := Summarize(points, m, amplitude, members);
      found := found + [c];
      groups := groups + [members];
    }
    AllTrue(marked, |points|);
    made := found;
    clusters := Sort(found, (c: Cluster) => c.strength);
  }

  lemma ComponentInRange(points: seq<Point>, dg: int, rg: int, seed: nat, members: seq<nat>)
    requires IsComponent(points, dg, rg, seed, members)
    ensures forall i | 0 <= i < |members| :: members[i] < |points|
  {
  }

  lemma NothingYet(points: seq<Point>, dg: int, rg: int, marked: seq<bool>)
    requires |marked| == |points| && forall j | 0 <= j < |points| :: !marked[j]
    ensures Closed(points, dg, rg, marked) && Components(points, dg, rg, [])
    ensures TotalSize([]) == CountTrue(marked, |points|)
    ensures forall j: nat :: !InSome([], j)
  {
    NoneTrue(marked, |marked|);
  }

  /** The level of a point: the map entry of its row and column, or minus infinity outside the map. */
  lemma StrengthAt(m: StrengthMap, p: Point)
    requires |m.db| == m.rows * m.cols
    ensures 0 <= p.doppler < m.rows && 0 <= p.range < m.cols ==>
              && 0 <= p.doppler * m.cols + p.range < |m.db|
              && Strength(m, p) == Db(m.db[p.doppler * m.cols + p.range])
    ensures !(0 <= p.doppler < m.rows && 0 <= p.range < m.cols) ==> Strength(m, p) == MinusInfinity
  {
    if 0 <= p.doppler < m.rows && 0 <= p.range < m.cols {
      FlatInside(p.doppler, p.range, m.rows, m.cols);
    }
  }
}
