/**
 * What the two search drivers try, stated apart from the loops that try
 * it: the order in which a window of offsets around a centre is scanned,
 * the record of the builder attempts made, the boxes those attempts
 * commit, and the label count and ideal label distances of line placement.
 */
module Search {
  import opened Envelopes
  import opened RealArith

  datatype Builder = Horizontal | Follow

  /**
   * One builder call: which builder, at which target distance, whether it
   * succeeded, and the glyph boxes it queued (all of them on success, the
   * ones before the rejected glyph on failure).
   */
  datatype Attempt = Attempt(builder: Builder, target: real, ok: bool, queued: seq<Envelope>)

  // ---------------------------------------------------------------- window scan

  /** The j-th offset of a scan: delta added j times to 0. */
  function Offset(j: nat, delta: real): real
  {
    if j == 0 then 0.0 else Offset(j - 1, delta) + delta
  }

  lemma NextOffset(i: real, j: nat, delta: real)
    requires i == Offset(j, delta)
    ensures i + delta == Offset(j + 1, delta)
  {
  }

  /** Adding delta j times is multiplying it by j. */
  lemma {:induction false} OffsetIsProduct(j: nat, delta: real)
    ensures Offset(j, delta) == j as real * delta
  {
    if j > 0 {
      OffsetIsProduct(j - 1, delta);
    }
  }

  /** While the offset is below the bound, j is below bound / delta: the scan ends. */
  lemma OffsetBelowBound(j: nat, delta: real, bound: real)
    requires delta > 0.0 && Offset(j, delta) < bound
    ensures j < (bound / delta).Floor + 1
  {
    OffsetIsProduct(j, delta);
    AboveQuotient(bound, delta, j as real);
  }

  /** The k-th target of a scan: centre + i, then centre - i, for i = 0, delta, 2 delta, ... */
  function ScanTarget(center: real, delta: real, k: nat): real
  {
    var i := Offset(k / 2, delta);
    if k % 2 == 0 then center + i else center - i
  }

  /** The last attempt succeeded. */
  predicate Succeeded(tr: seq<Attempt>)
  {
    |tr| > 0 && tr[|tr| - 1].ok
  }

  /** Every attempt of tr failed. */
  predicate AllFailed(tr: seq<Attempt>)
  {
    forall k :: 0 <= k < |tr| ==> !tr[k].ok
  }

  /**
   * tr is what scanning the window of offsets below `bound` does: the
   * targets in scan order, each offset below the bound, every attempt but
   * the last a failure, and stopping either at a success or once the next
   * offset reaches the bound.
   */
  predicate ScanTrace(tr: seq<Attempt>, b: Builder, center: real, bound: real, delta: real)
  {
    && ScanOrder(tr, b, center, bound, delta)
    && (forall k :: 0 <= k < |tr| - 1 ==> !tr[k].ok)
    && (Succeeded(tr) || (|tr| % 2 == 0 && Offset(|tr| / 2, delta) >= bound))
  }

  /** The attempts of tr are the first |tr| of the scan, each at an offset below the bound. */
  predicate ScanOrder(tr: seq<Attempt>, b: Builder, center: real, bound: real, delta: real)
    decreases |tr|
  {
    tr != [] ==>
      && ScanOrder(tr[..|tr| - 1], b, center, bound, delta)
      && tr[|tr| - 1].builder == b && tr[|tr| - 1].target == ScanTarget(center, delta, |tr| - 1)
      && Offset((|tr| - 1) / 2, delta) < bound
  }

  /** The next attempt of a scan, at an offset below the bound, extends its order. */
  lemma ScanOrderAppend(tr: seq<Attempt>, a: Attempt, b: Builder, center: real, bound: real, delta: real)
    requires ScanOrder(tr, b, center, bound, delta)
    requires a.builder == b && a.target == ScanTarget(center, delta, |tr|) && Offset(|tr| / 2, delta) < bound
    ensures ScanOrder(tr + [a], b, center, bound, delta)
  {
    assert (tr + [a])[..|tr|] == tr;
  }

  /** The k-th attempt of a scan in order is at the k-th target, at an offset below the bound. */
  lemma {:induction false} ScanOrderAt(tr: seq<Attempt>, b: Builder, center: real, bound: real, delta: real, k: nat)
    requires ScanOrder(tr, b, center, bound, delta) && k < |tr|
    ensures tr[k].builder == b && tr[k].target == ScanTarget(center, delta, k) && Offset(k / 2, delta) < bound
    decreases |tr|
  {
    if k < |tr| - 1 {
      var init := tr[..|tr| - 1];
      ScanOrderAt(init, b, center, bound, delta, k);
      assert init[k] == tr[k];
    }
  }

  /**
   * The attempts at one offset: centre + off, then, if that failed,
   * centre - off; the pair ends at the first success.
   */
  predicate BothSides(pair: seq<Attempt>, b: Builder, center: real, off: real)
  {
    && 1 <= |pair| <= 2
    && pair[0].builder == b && pair[0].target == center + off
    && (|pair| == 1 ==> pair[0].ok)
    && (|pair| == 2 ==> !pair[0].ok && pair[1].builder == b && pair[1].target == center - off)
  }

  /**
   * A scan that failed at the first j offsets and tries both sides of the
   * next one, below the bound, is still a prefix of the scan; it ends there
   * when that pair succeeded and commits just that success's boxes.
   */
  lemma {:induction false} ScanStep(tr: seq<Attempt>, pair: seq<Attempt>, b: Builder, center: real, bound: real, delta: real, j: nat)
    requires ScanOrder(tr, b, center, bound, delta) && AllFailed(tr) && |tr| == 2 * j
    requires Offset(j, delta) < bound && BothSides(pair, b, center, Offset(j, delta))
    ensures ScanOrder(tr + pair, b, center, bound, delta)
    ensures Succeeded(pair) ==> Succeeded(tr + pair) && ScanTrace(tr + pair, b, center, bound, delta)
    ensures !Succeeded(pair) ==> AllFailed(tr + pair) && |tr + pair| == 2 * (j + 1)
    ensures Committed(tr + pair) == if Succeeded(pair) then pair[|pair| - 1].queued else []
  {
    ScanPairOrder(tr, pair, b, center, bound, delta, j);
    ScanPairFailures(tr, pair, b, center, Offset(j, delta));
    ScanPairCommits(tr, pair, b, center, Offset(j, delta));
  }

  /** Both sides of the next offset, below the bound, continue the scan order. */
  lemma ScanPairOrder(tr: seq<Attempt>, pair: seq<Attempt>, b: Builder, center: real, bound: real, delta: real, j: nat)
    requires ScanOrder(tr, b, center, bound, delta) && |tr| == 2 * j
    requires Offset(j, delta) < bound && BothSides(pair, b, center, Offset(j, delta))
    ensures ScanOrder(tr + pair, b, center, bound, delta)
  {
    var a0 := pair[0];
    assert (2 * j) / 2 == j && (2 * j) % 2 == 0;
    ScanOrderAppend(tr, a0, b, center, bound, delta);
    if |pair| == 2 {
      assert (2 * j + 1) / 2 == j && (2 * j + 1) % 2 == 1;
      ScanOrderAppend(tr + [a0], pair[1], b, center, bound, delta);
      assert tr + pair == (tr + [a0]) + [pair[1]];
    } else {
      assert tr + pair == tr + [a0];
    }
  }

  /** After failures only, a pair of attempts leaves at most its own last attempt a success. */
  lemma ScanPairFailures(tr: seq<Attempt>, pair: seq<Attempt>, b: Builder, center: real, off: real)
    requires AllFailed(tr) && BothSides(pair, b, center, off)
    ensures forall k :: 0 <= k < |tr + pair| - 1 ==> !(tr + pair)[k].ok
    ensures Succeeded(pair) <==> Succeeded(tr + pair)
    ensures !Succeeded(pair) ==> AllFailed(tr + pair)
  {
    var full := tr + pair;
    forall k | 0 <= k < |full| ensures k < |full| - 1 || !Succeeded(pair) ==> !full[k].ok {
      if k >= |tr| { assert full[k] == pair[k - |tr|]; }
    }
  }

  /** After failures only, a pair of attempts commits the boxes of its success, if any. */
  lemma ScanPairCommits(tr: seq<Attempt>, pair: seq<Attempt>, b: Builder, center: real, off: real)
    requires AllFailed(tr) && BothSides(pair, b, center, off)
    ensures Committed(tr + pair) == if Succeeded(pair) then pair[|pair| - 1].queued else []
  {
    var a0 := pair[0];
    if |pair| == 1 {
      assert tr + pair == tr + [a0];
      CommitAfterFailures(tr, a0);
    } else {
      var a1 := pair[1];
      var tr0 := tr + [a0];
      assert tr + pair == tr0 + [a1];
      forall k | 0 <= k < |tr0| ensures !tr0[k].ok {
        if k < |tr| {
          assert tr0[k] == tr[k];
        }
      }
      CommitAfterFailures(tr0, a1);
      assert Succeeded(pair) == a1.ok && pair[|pair| - 1] == a1;
    }
  }

  /** After failures only, one more attempt commits its own boxes if it succeeds, and nothing otherwise. */
  lemma CommitAfterFailures(tr: seq<Attempt>, a: Attempt)
    requires AllFailed(tr)
    ensures Committed(tr + [a]) == if a.ok then a.queued else []
  {
    NoSuccessCommitsNothing(tr);
    CommittedAppend(tr, a);
  }

  /** A scan that failed at every offset below the bound is a whole scan. */
  lemma ScanExhausted(tr: seq<Attempt>, b: Builder, center: real, bound: real, delta: real, j: nat)
    requires ScanOrder(tr, b, center, bound, delta) && AllFailed(tr) && |tr| == 2 * j
    requires Offset(j, delta) >= bound
    ensures ScanTrace(tr, b, center, bound, delta) && !Succeeded(tr)
    ensures Committed(tr) == []
  {
    NoSuccessCommitsNothing(tr);
  }

  /** The boxes the detector receives from a run of attempts: those queued by each successful one, in order. */
  function Committed(tr: seq<Attempt>): seq<Envelope>
  {
    if tr == [] then [] else Committed(tr[..|tr| - 1]) + (if tr[|tr| - 1].ok then tr[|tr| - 1].queued else [])
  }

  function Flatten(windows: seq<seq<Attempt>>): seq<Attempt>
  {
    if windows == [] then [] else Flatten(windows[..|windows| - 1]) + windows[|windows| - 1]
  }

  /** The number of windows that ended in a success. */
  function SuccessCount(windows: seq<seq<Attempt>>): nat
  {
    if windows == [] then 0
    else SuccessCount(windows[..|windows| - 1]) + (if Succeeded(windows[|windows| - 1]) then 1 else 0)
  }

  lemma FlattenAppend(windows: seq<seq<Attempt>>, tr: seq<Attempt>)
    ensures Flatten(windows + [tr]) == Flatten(windows) + tr
    ensures SuccessCount(windows + [tr]) == SuccessCount(windows) + (if Succeeded(tr) then 1 else 0)
  {
    assert (windows + [tr])[..|windows|] == windows;
  }

  /** Some window of the run ended in a success. */
  predicate AnySucceeded(windows: seq<seq<Attempt>>)
  {
    exists k :: 0 <= k < |windows| && Succeeded(windows[k])
  }

  lemma AnySucceededAppend(windows: seq<seq<Attempt>>, tr: seq<Attempt>)
    ensures AnySucceeded(windows + [tr]) <==> AnySucceeded(windows) || Succeeded(tr)
  {
    if AnySucceeded(windows) {
      var k :| 0 <= k < |windows| && Succeeded(windows[k]);
      assert (windows + [tr])[k] == windows[k];
    }
    if Succeeded(tr) {
      assert (windows + [tr])[|windows|] == tr;
    }
  }

  /** Every attempt of a scan in order is made by the scan's builder. */
  lemma ScanUsesOneBuilder(tr: seq<Attempt>, b: Builder, center: real, bound: real, delta: real)
    requires ScanOrder(tr, b, center, bound, delta)
    ensures forall k :: 0 <= k < |tr| ==> tr[k].builder == b
  {
    forall k | 0 <= k < |tr|
      ensures tr[k].builder == b
    {
      ScanOrderAt(tr, b, center, bound, delta, k);
    }
  }

  /**
   * The k-th of the windows scans, with step delta, the offsets below the
   * ideal spacing distance / n around the k-th ideal label distance less
   * half the text width.
   */
  predicate LabelWindows(windows: seq<seq<Attempt>>, distance: real, n: nat, width: real, delta: real)
    requires n >= 1
    decreases |windows|
  {
    windows != [] ==>
      && LabelWindows(windows[..|windows| - 1], distance, n, width, delta)
      && ScanTrace(windows[|windows| - 1], Follow, IdealDistance(distance, n, |windows| - 1) - width / 2.0, distance / n as real, delta)
  }

  /** Each window of a run of line-placement windows is the scan around its own candidate. */
  lemma {:induction false} LabelWindowAt(windows: seq<seq<Attempt>>, distance: real, n: nat, width: real, delta: real, k: nat)
    requires n >= 1 && LabelWindows(windows, distance, n, width, delta) && k < |windows|
    ensures ScanTrace(windows[k], Follow, IdealDistance(distance, n, k) - width / 2.0, distance / n as real, delta)
    decreases |windows|
  {
    if k < |windows| - 1 {
      var init := windows[..|windows| - 1];
      LabelWindowAt(init, distance, n, width, delta, k);
      assert init[k] == windows[k];
    }
  }

  lemma LabelWindowsAppend(windows: seq<seq<Attempt>>, tr: seq<Attempt>, distance: real, n: nat, width: real,
                            center: real, spacing: real, delta: real)
    requires n >= 1 && LabelWindows(windows, distance, n, width, delta)
    requires center == IdealDistance(distance, n, |windows|) - width / 2.0 && spacing == distance / n as real
    requires ScanTrace(tr, Follow, center, spacing, delta)
    ensures LabelWindows(windows + [tr], distance, n, width, delta)
  {
    assert (windows + [tr])[..|windows|] == windows;
  }

  /** Adding the next candidate's window to a run of line-placement windows. */
  lemma LabelWindowsStep(windows: seq<seq<Attempt>>, tr: seq<Attempt>, distance: real, n: nat, width: real,
                         center: real, spacing: real, delta: real)
    requires n >= 1 && LabelWindows(windows, distance, n, width, delta)
    requires center == IdealDistance(distance, n, |windows|) - width / 2.0 && spacing == distance / n as real
    requires ScanTrace(tr, Follow, center, spacing, delta)
    ensures LabelWindows(windows + [tr], distance, n, width, delta)
    ensures Flatten(windows + [tr]) == Flatten(windows) + tr
    ensures Committed(Flatten(windows + [tr])) == Committed(Flatten(windows)) + Committed(tr)
    ensures SuccessCount(windows + [tr]) == SuccessCount(windows) + (if Succeeded(tr) then 1 else 0)
    ensures AnySucceeded(windows + [tr]) <==> AnySucceeded(windows) || Succeeded(tr)
  {
    LabelWindowsAppend(windows, tr, distance, n, width, center, spacing, delta);
    FlattenAppend(windows, tr);
    CommittedConcat(Flatten(windows), tr);
    AnySucceededAppend(windows, tr);
  }

  /** Every attempt of a run of line-placement windows is made by the follow builder. */
  lemma {:induction false} WindowsUseFollow(windows: seq<seq<Attempt>>, distance: real, n: nat, width: real, delta: real)
    requires n >= 1 && LabelWindows(windows, distance, n, width, delta)
    ensures forall k :: 0 <= k < |Flatten(windows)| ==> Flatten(windows)[k].builder == Follow
    decreases |windows|
  {
    if windows != [] {
      var init, last := windows[..|windows| - 1], windows[|windows| - 1];
      WindowsUseFollow(init, distance, n, width, delta);
      ScanUsesOneBuilder(last, Follow, IdealDistance(distance, n, |windows| - 1) - width / 2.0, distance / n as real, delta);
      assert Flatten(windows) == Flatten(init) + last;
    }
  }

  /** Placements were made exactly when some window succeeded. */
  lemma {:induction false} SuccessMeansPlaced(windows: seq<seq<Attempt>>)
    ensures AnySucceeded(windows) <==> SuccessCount(windows) > 0
    decreases |windows|
  {
    if windows != [] {
      var init := windows[..|windows| - 1];
      var last := windows[|windows| - 1];
      SuccessMeansPlaced(init);
      assert windows == init + [last];
      AnySucceededAppend(init, last);
    }
  }

  /** Concatenation regroups: appending b and then c appends b + c. */
  lemma Regroup<T>(a: seq<T>, b: seq<T>, c: seq<T>)
    ensures a + b + c == a + (b + c)
  {
  }

  lemma CommittedAppend(a: seq<Attempt>, x: Attempt)
    ensures Committed(a + [x]) == Committed(a) + (if x.ok then x.queued else [])
  {
    assert (a + [x])[..|a|] == a;
  }

  lemma {:induction false} CommittedConcat(a: seq<Attempt>, b: seq<Attempt>)
    ensures Committed(a + b) == Committed(a) + Committed(b)
    decreases |b|
  {
    if b == [] {
      assert a + b == a;
    } else {
      var c := b[..|b| - 1];
      var x := b[|b| - 1];
      assert b == c + [x];
      assert a + b == (a + c) + [x];
      CommittedAppend(a + c, x);
      CommittedAppend(c, x);
      CommittedConcat(a, c);
    }
  }

  /** A scan commits the boxes of its one success, or nothing. */
  lemma {:induction false} ScanCommitsOnlyItsSuccess(tr: seq<Attempt>, b: Builder, center: real, bound: real, delta: real)
    requires ScanTrace(tr, b, center, bound, delta)
    ensures Committed(tr) == if Succeeded(tr) then tr[|tr| - 1].queued else []
  {
    if tr != [] {
      var init := tr[..|tr| - 1];
      assert tr == init + [tr[|tr| - 1]];
      NoSuccessCommitsNothing(init);
      CommittedAppend(init, tr[|tr| - 1]);
    }
  }

  lemma {:induction false} NoSuccessCommitsNothing(tr: seq<Attempt>)
    requires forall k :: 0 <= k < |tr| ==> !tr[k].ok
    ensures Committed(tr) == []
    decreases |tr|
  {
    if tr != [] {
      NoSuccessCommitsNothing(tr[..|tr| - 1]);
    }
  }

  /** An offset below the bound comes before the first offset that reaches it. */
  lemma OffsetReachesBound(m: nat, j: nat, delta: real, bound: real)
    requires delta > 0.0 && Offset(m, delta) >= bound && j as real * delta < bound
    ensures j < m
  {
    OffsetIsProduct(m, delta);
    if m <= j {
      ScaleAtMost(m as real, j as real, delta);
    }
  }

  /**
   * A scan that found nothing tried both centre + j delta and centre - j
   * delta for every offset j delta below the bound, in that order.
   */
  lemma ScanCoversWindow(tr: seq<Attempt>, b: Builder, center: real, bound: real, delta: real, j: nat)
    requires ScanTrace(tr, b, center, bound, delta) && !Succeeded(tr)
    requires delta > 0.0 && j as real * delta < bound
    ensures 2 * j + 1 < |tr|
    ensures tr[2 * j].target == center + j as real * delta
    ensures tr[2 * j + 1].target == center - j as real * delta
  {
    var m := |tr| / 2;
    assert |tr| % 2 == 0 && Offset(m, delta) >= bound;
    OffsetReachesBound(m, j, delta, bound);
    assert |tr| >= 2 * j + 2;
    OffsetIsProduct(j, delta);
    assert (2 * j) / 2 == j && (2 * j + 1) / 2 == j;
    assert (2 * j) % 2 == 0 && (2 * j + 1) % 2 == 1;
    ScanOrderAt(tr, b, center, bound, delta, 2 * j);
    ScanOrderAt(tr, b, center, bound, delta, 2 * j + 1);
  }

  /** No attempt of a scan but the last succeeded, so a successful scan succeeded exactly once. */
  lemma ScanStopsAtFirstSuccess(tr: seq<Attempt>, b: Builder, center: real, bound: real, delta: real, k: nat)
    requires ScanTrace(tr, b, center, bound, delta) && k < |tr| && tr[k].ok
    ensures k == |tr| - 1 && Succeeded(tr)
  {
  }

  // ---------------------------------------------------------------- label count

  /**
   * How many labels a line gets: distance over spacing plus string width,
   * rounded down, when a spacing is set and that is positive; else one.
   */
  function NumLabels(distance: real, spacing: nat, width: real): (n: nat)
    requires distance >= 0.0 && width >= 0.0
    ensures n >= 1
  {
    if spacing != 0 && (distance / (spacing as real + width)).Floor > 0 then (distance / (spacing as real + width)).Floor
    else 1
  }

  /** With a spacing set and room for one label, the labels and their spacings fill the line without overrunning it. */
  lemma NumLabelsFill(distance: real, spacing: nat, width: real)
    requires distance >= 0.0 && width >= 0.0 && spacing != 0
    requires distance >= spacing as real + width
    ensures var n, per := NumLabels(distance, spacing, width), spacing as real + width;
      n as real * per <= distance < (n + 1) as real * per
  {
    var per := spacing as real + width;
    var q := distance / per;
    assert q * per == distance;
    if q < 1.0 {
      ScaleLess(q, 1.0, per);
      assert false;
    }
    var n: nat := q.Floor;
    assert NumLabels(distance, spacing, width) == n;
    ScaleAtMost(n as real, q, per);
    ScaleLess(q, (n + 1) as real, per);
    assert distance < (n + 1) as real * per;
  }

  /** Without a spacing, or with no room for a whole label and its spacing, a line gets one label. */
  lemma OneLabelWhenNoRoom(distance: real, spacing: nat, width: real)
    requires distance >= 0.0 && width >= 0.0
    requires spacing == 0 || distance < spacing as real + width
    ensures NumLabels(distance, spacing, width) == 1
  {
    if spacing != 0 {
      var per := spacing as real + width;
      var q := distance / per;
      assert q * per == distance;
      if q >= 1.0 {
        ScaleAtMost(1.0, q, per);
        assert false;
      }
    }
  }

  /** The k-th ideal label distance: half a spacing in, then a whole spacing apart. */
  function IdealDistance(distance: real, n: nat, k: nat): real
    requires n >= 1
  {
    if k == 0 then distance / n as real / 2.0 else IdealDistance(distance, n, k - 1) + distance / n as real
  }

  /** The k-th ideal label distance is k and a half spacings. */
  lemma {:induction false} IdealDistanceIsProduct(distance: real, n: nat, k: nat)
    requires n >= 1
    ensures IdealDistance(distance, n, k) == (k as real + 0.5) * (distance / n as real)
  {
    if k > 0 {
      IdealDistanceIsProduct(distance, n, k - 1);
    }
  }

  /** A candidate lies before the end of the line exactly when it is one of the first n. */
  lemma IdealDistanceBelowEnd(distance: real, n: nat, k: nat)
    requires n >= 1 && distance > 0.0
    ensures IdealDistance(distance, n, k) < distance <==> k < n
  {
    var s := distance / n as real;
    assert s * n as real == distance;
    assert s > 0.0 by {
      PositiveFactor(s, n as real);
    }
    IdealDistanceIsProduct(distance, n, k);
    if k < n {
      ScaleLess(k as real + 0.5, n as real, s);
    } else {
      ScaleLess(n as real, k as real + 0.5, s);
    }
  }

  /** The candidates lie inside the line, in increasing order. */
  lemma IdealDistancesInside(distance: real, n: nat, k: nat)
    requires n >= 1 && distance > 0.0 && k < n
    ensures 0.0 < IdealDistance(distance, n, k) < distance
    ensures k + 1 < n ==> IdealDistance(distance, n, k) < IdealDistance(distance, n, k + 1)
  {
    IdealDistanceBelowEnd(distance, n, k);
    var s := distance / n as real;
    assert s * n as real == distance;
    PositiveFactor(s, n as real);
    IdealDistanceIsProduct(distance, n, k);
    ScaleAtMost(0.0, k as real, s);
  }

  /** On a line of non-negative length the ideal spacing and the scan step are both non-negative, and both zero together. */
  lemma SpacingAndStep(distance: real, n: nat)
    requires n >= 1 && distance >= 0.0
    ensures distance / 100.0 >= 0.0 && distance / n as real >= 0.0
    ensures distance / 100.0 > 0.0 || distance / n as real <= 0.0
  {
    var s := distance / n as real;
    assert s * n as real == distance;
    if s < 0.0 {
      ScaleLess(s, 0.0, n as real);
    }
  }

  /** The number of ideal label distances the loop produces: n on a line of positive length, none otherwise. */
  function CandidateCount(distance: real, n: nat): nat
  {
    if distance > 0.0 then n else 0
  }

  /** The ideal label distances, from half a spacing in, stepping by the spacing while before the end. */
  method IdealLabelDistances(distance: real, n: nat) returns (r: seq<real>)
    requires n >= 1 && distance >= 0.0
    ensures |r| == CandidateCount(distance, n)
    ensures forall k :: 0 <= k < |r| ==> r[k] == IdealDistance(distance, n, k) && r[k] < distance
  {
    var spacing := distance / n as real;
    SpacingAndStep(distance, n);
    r := [];
    var labelPos := spacing / 2.0;
    while labelPos < distance
      invariant |r| <= n && labelPos >= 0.0
      invariant labelPos == IdealDistance(distance, n, |r|)
      invariant forall k :: 0 <= k < |r| ==> r[k] == IdealDistance(distance, n, k) && r[k] < distance
      decreases n - |r|
    {
      IdealDistanceBelowEnd(distance, n, |r|);
      ghost var k := |r|;
      assert labelPos + spacing == IdealDistance(distance, n, k + 1);
      r := r + [labelPos];
      labelPos := labelPos + spacing;
    }
    if distance > 0.0 {
      IdealDistanceBelowEnd(distance, n, |r|);
    } else {
      assert |r| == 0;
    }
  }

  /** A 100-long line with spacing 50 and a 20-wide string gets one label at 50, whose scan starts at 40. */
  lemma OneLabelOnShortLine()
    ensures NumLabels(100.0, 50, 20.0) == 1
    ensures CandidateCount(100.0, 1) == 1 && IdealDistance(100.0, 1, 0) == 50.0
    ensures ScanTarget(IdealDistance(100.0, 1, 0) - 20.0 / 2.0, 1.0, 0) == 40.0
  {
    var q := 100.0 / (50 as real + 20.0);
    assert q * 70.0 == 100.0;
    assert 1.0 <= q < 2.0;
  }
}
