/** Greedy selection of boxes by score, over exact real numbers. */
module NonMaxSuppression {
  import opened Wrappers

  /** Two opposite corners, in any order. */
  datatype Box = Box(y1: real, x1: real, y2: real, x2: real)

  function Min(a: real, b: real): real { if a <= b then a else b }
  function Max(a: real, b: real): real { if a >= b then a else b }

  function Times(a: real, b: real): real { a * b }

  function Width(b: Box): real { Max(b.x1, b.x2) - Min(b.x1, b.x2) }
  function Height(b: Box): real { Max(b.y1, b.y2) - Min(b.y1, b.y2) }
  function Area(b: Box): real { Times(Width(b), Height(b)) }

  function OverlapX(a: Box, b: Box): real {
    Max(Min(Max(a.x1, a.x2), Max(b.x1, b.x2)) - Max(Min(a.x1, a.x2), Min(b.x1, b.x2)), 0.0)
  }

  function OverlapY(a: Box, b: Box): real {
    Max(Min(Max(a.y1, a.y2), Max(b.y1, b.y2)) - Max(Min(a.y1, a.y2), Min(b.y1, b.y2)), 0.0)
  }

  function Intersection(a: Box, b: Box): real {
    Times(OverlapX(a, b), OverlapY(a, b))
  }

  function Union(a: Box, b: Box): real {
    Area(a) + Area(b) - Intersection(a, b)
  }

  predicate SuppressByIOU(a: Box, b: Box, threshold: real) {
    if Intersection(a, b) <= 0.0 then false
    else if Area(a) <= 0.0 || Area(b) <= 0.0 || Union(a, b) <= 0.0 then false
    else Intersection(a, b) / Union(a, b) > threshold
  }

  lemma OverlapBounds(a: Box, b: Box)
    ensures 0.0 <= OverlapX(a, b) <= Width(a) && OverlapX(a, b) <= Width(b)
    ensures 0.0 <= OverlapY(a, b) <= Height(a) && OverlapY(a, b) <= Height(b)
    ensures OverlapX(a, b) == OverlapX(b, a) && OverlapY(a, b) == OverlapY(b, a)
  {
  }

  /** The interval from lo to hi lies between the two ends, given in any order. */
  predicate Between(lo: real, hi: real, p: real, q: real) {
    lo <= hi && ((p <= lo && hi <= q) || (q <= lo && hi <= p))
  }

  /** The overlap is the length of the longest interval inside both sides, and zero if there is none. */
  lemma OverlapIsLongest(a: Box, b: Box)
    ensures forall lo, hi :: Between(lo, hi, a.x1, a.x2) && Between(lo, hi, b.x1, b.x2) ==> hi - lo <= OverlapX(a, b)
    ensures OverlapX(a, b) > 0.0 ==>
              exists lo, hi ::
                Between(lo, hi, a.x1, a.x2) && Between(lo, hi, b.x1, b.x2) && hi - lo == OverlapX(a, b)
    ensures forall lo, hi :: Between(lo, hi, a.y1, a.y2) && Between(lo, hi, b.y1, b.y2) ==> hi - lo <= OverlapY(a, b)
    ensures OverlapY(a, b) > 0.0 ==>
              exists lo, hi ::
                Between(lo, hi, a.y1, a.y2) && Between(lo, hi, b.y1, b.y2) && hi - lo == OverlapY(a, b)
  {
    if OverlapX(a, b) > 0.0 {
      var lo, hi := Max(Min(a.x1, a.x2), Min(b.x1, b.x2)), Min(Max(a.x1, a.x2), Max(b.x1, b.x2));
      assert Between(lo, hi, a.x1, a.x2) && Between(lo, hi, b.x1, b.x2) && hi - lo == OverlapX(a, b);
    }
    if OverlapY(a, b) > 0.0 {
      var lo, hi := Max(Min(a.y1, a.y2), Min(b.y1, b.y2)), Min(Max(a.y1, a.y2), Max(b.y1, b.y2));
      assert Between(lo, hi, a.y1, a.y2) && Between(lo, hi, b.y1, b.y2) && hi - lo == OverlapY(a, b);
    }
  }

  /** The point lies inside the box and on none of its sides. */
  predicate Interior(x: real, y: real, b: Box) {
    (b.x1 < x < b.x2 || b.x2 < x < b.x1) && (b.y1 < y < b.y2 || b.y2 < y < b.y1)
  }

  /** One box suppresses another only if they have a common interior point. */
  lemma SuppressedBoxesMeet(a: Box, b: Box, threshold: real)
    requires SuppressByIOU(a, b, threshold)
    ensures exists x, y :: Interior(x, y, a) && Interior(x, y, b)
  {
    OverlapBounds(a, b);
    OverlapIsLongest(a, b);
    hide OverlapX, OverlapY;
    var l, r :| Between(l, r, a.x1, a.x2) && Between(l, r, b.x1, b.x2) && r - l == OverlapX(a, b);
    var d, u :| Between(d, u, a.y1, a.y2) && Between(d, u, b.y1, b.y2) && u - d == OverlapY(a, b);
    assert Interior((l + r) / 2.0, (d + u) / 2.0, a) && Interior((l + r) / 2.0, (d + u) / 2.0, b);
  }

  lemma ProductBounds(x: real, y: real, w: real, h: real)
    requires 0.0 <= x <= w && 0.0 <= y <= h
    ensures 0.0 <= Times(x, y) <= Times(w, h)
  {
    assert x * y <= w * y;
    assert w * y <= w * h;
  }

  /** The intersection is part of both boxes, so where it is not empty the other tests pass. */
  lemma IntersectionBounds(a: Box, b: Box)
    ensures 0.0 <= Intersection(a, b) <= Area(a) && Intersection(a, b) <= Area(b)
    ensures Intersection(a, b) <= Union(a, b) && Intersection(a, b) == Intersection(b, a) && Union(a, b) == Union(b, a)
  {
    hide OverlapX, OverlapY, Width, Height, Times;
    OverlapBounds(a, b);
    ProductBounds(OverlapX(a, b), OverlapY(a, b), Width(a), Height(a));
    ProductBounds(OverlapX(a, b), OverlapY(a, b), Width(b), Height(b));
  }

  lemma QuotientBounds(i: real, u: real, t: real)
    requires 0.0 < i <= u
    ensures 0.0 < i / u <= 1.0 && (i / u > t <==> i > Times(t, u))
  {
    var q := i / u;
    assert q * u == i;
    TimesOrder(t, q, u);
    TimesOrder(1.0, q, u);
    TimesOrder(q, 0.0, u);
  }

  lemma TimesOrder(s: real, t: real, u: real)
    requires u > 0.0
    ensures s < t <==> s * u < t * u
  {
    if s < t { assert (t - s) * u > 0.0; } else { assert (s - t) * u >= 0.0; }
  }

  /** Suppression without division: the overlap is not empty and exceeds its share of the union. */
  lemma SuppressMeans(a: Box, b: Box, threshold: real)
    ensures SuppressByIOU(a, b, threshold) <==>
              Intersection(a, b) > 0.0 && Intersection(a, b) > Times(threshold, Union(a, b))
    ensures SuppressByIOU(a, b, threshold) <==> SuppressByIOU(b, a, threshold)
    ensures SuppressByIOU(a, b, threshold) ==> threshold < 1.0
  {
    IntersectionBounds(a, b);
    hide Intersection, Union, Area;
    if Intersection(a, b) > 0.0 { QuotientBounds(Intersection(a, b), Union(a, b), threshold); }
  }

  /** It does not matter which corners describe a box. */
  lemma CornersDoNotMatter(a: Box, b: Box, c: Box, threshold: real)
    requires c == Box(a.y2, a.x1, a.y1, a.x2) || c == Box(a.y1, a.x2, a.y2, a.x1)
    ensures SuppressByIOU(a, b, threshold) <==> SuppressByIOU(c, b, threshold)
    ensures SuppressByIOU(b, a, threshold) <==> SuppressByIOU(b, c, threshold)
  {
    hide Times;
    SameSides(a, b, c);
    hide OverlapX, OverlapY, Width, Height;
  }

  lemma SameSides(a: Box, b: Box, c: Box)
    requires c == Box(a.y2, a.x1, a.y1, a.x2) || c == Box(a.y1, a.x2, a.y2, a.x1)
    ensures Width(a) == Width(c) && Height(a) == Height(c)
    ensures OverlapX(a, b) == OverlapX(c, b) && OverlapY(a, b) == OverlapY(c, b)
    ensures OverlapX(b, a) == OverlapX(b, c) && OverlapY(b, a) == OverlapY(b, c)
  {
  }

  /** A box with an area suppresses its duplicates, if the threshold lets anything be suppressed. */
  lemma SuppressesItself(a: Box, threshold: real)
    requires Area(a) > 0.0
    ensures SuppressByIOU(a, a, threshold) <==> threshold < 1.0
  {
    assert Intersection(a, a) == Area(a) == Union(a, a);
    hide Intersection, Union, Area;
    SuppressMeans(a, a, threshold);
    TimesOrder(threshold, 1.0, Area(a));
  }

  // ----- selection

  datatype Problem = Problem(boxes: seq<Box>, scores: seq<real>, maxOutputSize: int, pad: bool, iou: real,
                             minScore: real)

  /** How many boxes may be selected. */
  function Limit(p: Problem): nat {
    if p.maxOutputSize <= 0 then 0 else p.maxOutputSize
  }

  /** Boxes above the score threshold. */
  predicate Candidate(p: Problem, i: nat) {
    i < |p.boxes| && i < |p.scores| && p.scores[i] > p.minScore
  }

  predicate Suppresses(p: Problem, i: nat, j: nat) {
    i < |p.boxes| && j < |p.boxes| && SuppressByIOU(p.boxes[i], p.boxes[j], p.iou)
  }

  /** Different candidates in order of falling score, none suppressing another. */
  ghost predicate Admissible(p: Problem, sel: seq<nat>) {
    && |sel| <= Limit(p)
    && (forall k :: 0 <= k < |sel| ==> Candidate(p, sel[k]))
    && (forall j, k :: 0 <= j < k < |sel| ==>
          sel[j] != sel[k] && p.scores[sel[j]] >= p.scores[sel[k]] && !Suppresses(p, sel[j], sel[k]))
  }

  /** Candidate j scores at least as much as candidate i and suppresses it. */
  ghost predicate Beats(p: Problem, j: nat, i: nat) {
    Candidate(p, j) && Candidate(p, i) && p.scores[j] >= p.scores[i] && Suppresses(p, j, i)
  }

  /** Some selected box of at least its score suppresses i. */
  ghost predicate BeatenBy(p: Problem, sel: seq<nat>, i: nat) {
    exists k :: 0 <= k < |sel| && Beats(p, sel[k], i)
  }

  /** The limit is reached by boxes that all score at least as much. */
  ghost predicate TooLate(p: Problem, sel: seq<nat>, i: nat) {
    && |sel| == Limit(p) && Candidate(p, i)
    && forall k :: 0 <= k < |sel| ==> Candidate(p, sel[k]) && p.scores[sel[k]] >= p.scores[i]
  }

  /** What is not selected was beaten or came too late. */
  ghost predicate Selection(p: Problem, sel: seq<nat>) {
    Admissible(p, sel) && forall i: nat :: Candidate(p, i) && i !in sel ==> BeatenBy(p, sel, i) || TooLate(p, sel, i)
  }

  /** A box scoring more than the minimum that has been left out has been so for one of two reasons. */
  lemma LeftOutBecause(p: Problem, sel: seq<nat>, i: nat)
    requires Selection(p, sel) && i < |p.boxes| == |p.scores| && p.scores[i] > p.minScore && i !in sel
    ensures || (exists k ::
                  && 0 <= k < |sel| && sel[k] < |p.boxes| && p.scores[sel[k]] >= p.scores[i]
                  && SuppressByIOU(p.boxes[sel[k]], p.boxes[i], p.iou))
            || (|sel| >= p.maxOutputSize && forall k :: 0 <= k < |sel| ==>
                  sel[k] < |p.scores| && p.scores[sel[k]] >= p.scores[i])
  {
    hide SuppressByIOU;
    assert Candidate(p, i);
    if BeatenBy(p, sel, i) {
      var k :| 0 <= k < |sel| && Beats(p, sel[k], i);
    }
  }

  /** What is selected, said of the scores and boxes themselves. */
  lemma SelectedAre(p: Problem, sel: seq<nat>)
    requires Selection(p, sel)
    ensures sel == [] || |sel| <= p.maxOutputSize
    ensures forall k :: 0 <= k < |sel| ==>
              sel[k] < |p.boxes| && sel[k] < |p.scores| && p.scores[sel[k]] > p.minScore
    ensures forall j, k :: 0 <= j < k < |sel| ==>
              && sel[j] != sel[k] && p.scores[sel[j]] >= p.scores[sel[k]]
              && !SuppressByIOU(p.boxes[sel[j]], p.boxes[sel[k]], p.iou)
  {
    hide SuppressByIOU;
    assert forall k :: 0 <= k < |sel| ==> Candidate(p, sel[k]);
  }

  /** With different scores there is only one selection. */
  lemma {:induction false} SelectionIsUnique(p: Problem, a: seq<nat>, b: seq<nat>, n: nat)
    requires Selection(p, a) && Selection(p, b)
    requires forall i: nat, j: nat :: Candidate(p, i) && Candidate(p, j) && i != j ==> p.scores[i] != p.scores[j]
    requires n <= |a| && n <= |b| && a[..n] == b[..n]
    ensures a == b
    decreases |a| - n
  {
    if n == |a| == |b| {
      assert a == a[..n] && b == b[..n];
    } else {
      if n == |a| {
        NextIsSelected(p, b, a, n);
      } else if n == |b| {
        NextIsSelected(p, a, b, n);
      } else if a[n] != b[n] {
        if p.scores[a[n]] > p.scores[b[n]] { NextIsSelected(p, a, b, n); } else { NextIsSelected(p, b, a, n); }
      }
      assert n < |a| && n < |b| && a[n] == b[n];
      assert a[..n + 1] == a[..n] + [a[n]] && b[..n + 1] == b[..n] + [b[n]];
      SelectionIsUnique(p, a, b, n + 1);
    }
  }

  /** a goes on with a box that b has not selected, b being at its end or at a worse one. */
  ghost predicate Differ(p: Problem, a: seq<nat>, b: seq<nat>, n: nat) {
    && Admissible(p, a) && Admissible(p, b) && n < |a| && n <= |b| && a[..n] == b[..n]
    && (n == |b| || p.scores[b[n]] < p.scores[a[n]])
  }

  lemma LaterAreWorse(p: Problem, a: seq<nat>, b: seq<nat>, n: nat, k: nat)
    requires Differ(p, a, b, n) && k < |b|
    ensures Candidate(p, a[n]) && Candidate(p, b[k]) && b[k] != a[n]
    ensures if k < n then b[k] == a[k] && !Suppresses(p, b[k], a[n]) else p.scores[b[k]] < p.scores[a[n]]
  {
    hide Suppresses;
    if k < n {
      assert b[k] == b[..n][k] == a[..n][k] == a[k];
    }
  }

  lemma DifferIsUnbeaten(p: Problem, a: seq<nat>, b: seq<nat>, n: nat)
    requires Differ(p, a, b, n)
    ensures Candidate(p, a[n]) && a[n] !in b && !BeatenBy(p, b, a[n]) && !TooLate(p, b, a[n])
  {
    assert Candidate(p, a[n]);
    assert n < |a| <= Limit(p);
    if n < |b| { LaterAreWorse(p, a, b, n, n); }
    hide Suppresses, Differ, Admissible;
    forall k: nat | k < |b|
      ensures b[k] != a[n] && !(Candidate(p, b[k]) && p.scores[b[k]] >= p.scores[a[n]] && Suppresses(p, b[k], a[n]))
    {
      LaterAreWorse(p, a, b, n, k);
    }
  }

  /** Where two selections first differ, neither can have gone on alone nor with a better box. */
  lemma NextIsSelected(p: Problem, a: seq<nat>, b: seq<nat>, n: nat)
    requires Selection(p, a) && Selection(p, b) && n < |a| && n <= |b| && a[..n] == b[..n]
    ensures n < |b| && Candidate(p, a[n]) && Candidate(p, b[n]) && p.scores[a[n]] <= p.scores[b[n]]
  {
    assert Candidate(p, a[n]) && (n < |b| ==> Candidate(p, b[n]));
    if n == |b| || p.scores[b[n]] < p.scores[a[n]] {
      assert Differ(p, a, b, n);
      hide Differ, BeatenBy, TooLate, Admissible;
      DifferIsUnbeaten(p, a, b, n);
      assert false;
    }
  }

  // ----- the kernel

  /**
   Pops the best score first; which of equal ones is arbitrary.  Boxes and scores must be as many.  With nothing to
   select from, or nothing to be selected, no count is written.
   */
  method Select(p: Problem) returns (ok: bool, selected: seq<int>, valid: Option<nat>, ghost sel: seq<nat>)
    ensures ok <==> |p.boxes| == |p.scores|
    ensures ok ==> Selection(p, sel)
    ensures ok && (p.maxOutputSize <= 0 || p.boxes == []) ==> selected == [] && valid == None && sel == []
    ensures ok && p.maxOutputSize > 0 && p.boxes != [] ==>
              && valid == Some(|sel|) && |selected| == (if p.pad then p.maxOutputSize else |sel|)
              && forall k :: 0 <= k < |selected| ==> selected[k] == if k < |sel| then sel[k] else 0
  {
    hide SuppressByIOU, Selection, Progress;
    selected, valid, sel := [], None, [];
    ok := |p.boxes| == |p.scores|;
    if !ok || p.maxOutputSize <= 0 || p.boxes == [] {
      if ok { NothingSelected(p); }
      return;
    }
    var queue: set<nat> := set i: nat | i < |p.scores| && p.scores[i] > p.minScore;
    StartProgress(p);
    var selectedIndex := new int[p.maxOutputSize](_ => 0);
    var numSelected: nat := 0;
    while numSelected < p.maxOutputSize && queue != {}
      invariant numSelected == |sel| <= Limit(p) && fresh(selectedIndex)
      invariant forall k :: 0 <= k < Limit(p) ==> selectedIndex[k] == if k < numSelected then sel[k] else 0
      invariant Progress(p, sel, queue)
      decreases queue
    {
      ProgressFacts(p, sel, queue);
      BestExists(p, queue);
      var next: nat :| next in queue && forall j :: j in queue ==> j < |p.scores| && p.scores[j] <= p.scores[next];
      var keep := true;
      var i := numSelected - 1;
      while i >= 0
        invariant -1 <= i < numSelected && keep
        invariant forall k :: i < k < numSelected ==> !Suppresses(p, sel[k], next)
        decreases i
      {
        if SuppressByIOU(p.boxes[selectedIndex[i]], p.boxes[next], p.iou) {
          keep := false;
          break;
        }
        i := i - 1;
      }
      if keep {
        Keep(p, sel, queue, next);
        selectedIndex[numSelected] := next;
        numSelected := numSelected + 1;
        sel := sel + [next];
      } else {
        Drop(p, sel, queue, next, i);
      }
      queue := queue - {next};
    }
    Finished(p, sel, queue);
    valid := Some(numSelected);
    selected := selectedIndex[..if p.pad then p.maxOutputSize else numSelected];
  }

  /** Selected so far, beaten, or still in the queue and scoring no more than what is selected. */
  ghost predicate Progress(p: Problem, sel: seq<nat>, queue: set<nat>) {
    && Admissible(p, sel)
    && (forall i :: i in queue ==> Candidate(p, i) && i !in sel)
    && (forall i, k :: i in queue && 0 <= k < |sel| ==> p.scores[sel[k]] >= p.scores[i])
    && (forall i: nat :: Candidate(p, i) && i !in sel && i !in queue ==> BeatenBy(p, sel, i))
  }

  lemma ProgressFacts(p: Problem, sel: seq<nat>, queue: set<nat>)
    requires Progress(p, sel, queue)
    ensures forall k :: 0 <= k < |sel| ==> sel[k] < |p.boxes| && sel[k] < |p.scores|
    ensures forall i :: i in queue ==> i < |p.boxes| && i < |p.scores|
  {
    hide BeatenBy, Suppresses;
  }

  lemma StartProgress(p: Problem)
    requires |p.boxes| == |p.scores|
    ensures Progress(p, [], set i: nat | i < |p.scores| && p.scores[i] > p.minScore)
  {
    hide BeatenBy, Suppresses;
  }

  lemma NothingSelected(p: Problem)
    requires |p.boxes| == |p.scores| && (p.maxOutputSize <= 0 || p.boxes == [])
    ensures Selection(p, [])
  {
    hide BeatenBy, Suppresses;
    forall i: nat | Candidate(p, i)
      ensures TooLate(p, [], i)
    {
    }
  }

  lemma {:induction false} BestExists(p: Problem, queue: set<nat>)
    requires queue != {} && forall i :: i in queue ==> i < |p.scores|
    ensures exists b :: b in queue && forall j :: j in queue ==> j < |p.scores| && p.scores[j] <= p.scores[b]
    decreases |queue|
  {
    var a :| a in queue;
    var rest := queue - {a};
    if rest == {} {
      assert queue == {a};
      assert forall j :: j in queue ==> j < |p.scores| && p.scores[j] <= p.scores[a];
    } else {
      BestExists(p, rest);
      var b :| b in rest && forall j :: j in rest ==> j < |p.scores| && p.scores[j] <= p.scores[b];
      var c := if p.scores[a] >= p.scores[b] then a else b;
      assert c in queue && forall j :: j in queue ==> j < |p.scores| && p.scores[j] <= p.scores[c];
    }
  }

  lemma StillBeaten(p: Problem, sel: seq<nat>, x: nat, i: nat)
    requires BeatenBy(p, sel, i)
    ensures BeatenBy(p, sel + [x], i)
  {
    var k :| 0 <= k < |sel| && Beats(p, sel[k], i);
    assert (sel + [x])[k] == sel[k];
  }

  lemma Keep(p: Problem, sel: seq<nat>, queue: set<nat>, next: nat)
    requires Progress(p, sel, queue) && |sel| < Limit(p) && next in queue
    requires forall j :: j in queue ==> j < |p.scores| && next < |p.scores| && p.scores[j] <= p.scores[next]
    requires forall k :: 0 <= k < |sel| ==> !Suppresses(p, sel[k], next)
    ensures Progress(p, sel + [next], queue - {next})
  {
    hide Suppresses, BeatenBy;
    forall i: nat | Candidate(p, i) && i !in sel + [next] && i !in queue - {next}
      ensures BeatenBy(p, sel + [next], i)
    {
      assert (sel + [next])[|sel|] == next;
      StillBeaten(p, sel, next, i);
    }
  }

  lemma Drop(p: Problem, sel: seq<nat>, queue: set<nat>, next: nat, k: nat)
    requires Progress(p, sel, queue) && next in queue && k < |sel| && Suppresses(p, sel[k], next)
    ensures Progress(p, sel, queue - {next})
  {
    hide Suppresses;
    assert BeatenBy(p, sel, next);
  }

  lemma Finished(p: Problem, sel: seq<nat>, queue: set<nat>)
    requires Progress(p, sel, queue) && (|sel| == Limit(p) || queue == {})
    ensures Selection(p, sel)
  {
    hide BeatenBy, Suppresses;
    forall i: nat | Candidate(p, i) && i !in sel
      ensures BeatenBy(p, sel, i) || TooLate(p, sel, i)
    {
    }
  }
}
