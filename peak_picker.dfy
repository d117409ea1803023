/**
 * `findPeaks`: at most one peak per octave-shaped band of FFT bins, the band
 * peaks ordered by falling magnitude, the first three returned.
 */
module PeakPicker {
  import opened Wrappers
  import opened Sorting

  /** A bin must be louder than this to count as a peak. */
  const Threshold := 30
  /** Number of octave bands analysed. */
  const OctaveBands := 9
  /** Number of peaks returned. */
  const MaxPeaks := 3

  /** `n / 2^k`, halving `k` times. */
  function Halve(n: nat, k: nat): (r: nat)
    ensures r <= n
  {
    if k == 0 then n else Halve(n, k - 1) / 2
  }

  /** `Math.floor(N * 2^(b - 9))`: the first bin of band `b`. */
  function BandStart(n: nat, b: nat): (r: nat)
    requires b < OctaveBands
  {
    Halve(n, OctaveBands - b)
  }

  /** `Math.floor(N * 2^(b - 8))`: one past the last bin of band `b`. */
  function BandEnd(n: nat, b: nat): (r: nat)
    requires b < OctaveBands
  {
    Halve(n, OctaveBands - 1 - b)
  }

  predicate InBand(n: nat, b: nat, k: int)
    requires b < OctaveBands
  {
    BandStart(n, b) <= k < BandEnd(n, b)
  }

  /**
   * The test of the inner loop: above the threshold and strictly above both
   * neighbours. Outside the spectrum a neighbour is `undefined` and the
   * comparison is false, so the first and the last bin never qualify.
   */
  predicate IsPeak(f: seq<int>, i: int) {
    0 < i < |f| - 1 && f[i] > Threshold && f[i] > f[i - 1] && f[i] > f[i + 1]
  }

  /** The `maxBin` the inner loop holds after bins `lo .. i - 1`, if one was found. */
  function BandScan(f: seq<int>, lo: nat, i: nat): (r: Option<nat>)
    requires lo <= i <= |f|
    ensures r.Some? ==> lo <= r.value < i
  {
    if i == lo then None
    else
      var prev := BandScan(f, lo, i - 1);
      if IsPeak(f, i - 1) && (prev.None? || f[i - 1] > f[prev.value]) then Some(i - 1) else prev
  }

  lemma {:induction false} BandStartMonotone(n: nat, c: nat, d: nat)
    requires c <= d < OctaveBands
    ensures BandStart(n, c) <= BandStart(n, d)
    decreases d - c
  {
    if c < d {
      BandStartMonotone(n, c + 1, d);
    }
  }

  /** Each band lies inside the spectrum, and band `b` ends where band `b + 1` starts. */
  lemma BandBounds(n: nat, b: nat)
    requires b < OctaveBands
    ensures BandStart(n, b) <= BandEnd(n, b) <= n
    ensures b + 1 < OctaveBands ==> BandEnd(n, b) == BandStart(n, b + 1)
  {
  }

  /**
   * The band scan finds the first bin holding the band's largest peak value,
   * and finds nothing exactly when the band has no peak.
   */
  lemma {:induction false} BandScanFindsFirstMaximum(f: seq<int>, lo: nat, hi: nat)
    requires lo <= hi <= |f|
    ensures BandScan(f, lo, hi).None? <==> forall j :: lo <= j < hi ==> !IsPeak(f, j)
    ensures BandScan(f, lo, hi).Some? ==>
      var k := BandScan(f, lo, hi).value;
      && IsPeak(f, k)
      && (forall j :: lo <= j < hi && IsPeak(f, j) ==> f[j] <= f[k])
      && (forall j :: lo <= j < k && IsPeak(f, j) ==> f[j] < f[k])
    decreases hi
  {
    if hi > lo {
      BandScanFindsFirstMaximum(f, lo, hi - 1);
    }
  }

  /** The band peaks found in bands `0 .. b - 1`, in band order (the array before sorting). */
  function BandPeaks(f: seq<int>, b: nat): (r: seq<nat>)
    requires b <= OctaveBands
    ensures forall i :: 0 <= i < |r| ==> r[i] < |f|
  {
    if b == 0 then []
    else
      BandPeaks(f, b - 1) +
        match BandPeakOf(f, b - 1)
        case None => []
        case Some(k) => [k]
  }

  /** A bin's magnitude (0 outside the spectrum, a case the sort never meets). */
  function Magnitude(f: seq<int>, k: nat): int {
    if k < |f| then f[k] else 0
  }

  /** The comparator `(a, b) => frequencies[b] - frequencies[a]`: louder first. */
  function Louder(f: seq<int>): nat -> int {
    (k: nat) => -Magnitude(f, k)
  }

  function Min(a: int, b: int): int { if a < b then a else b }

  /** The result of findPeaks. */
  function Peaks(f: seq<int>): (r: seq<nat>)
    ensures |r| <= MaxPeaks
  {
    var sorted := SortBy(BandPeaks(f, OctaveBands), Louder(f));
    sorted[..Min(MaxPeaks, |sorted|)]
  }

  /** findPeaks: a loop over the bands, each scanned for its peak, then sort and slice. */
  method FindPeaks(frequencies: seq<int>) returns (result: seq<nat>)
    ensures result == Peaks(frequencies)
  {
    var peaks: seq<nat> := [];
    for octave := 0 to OctaveBands
      invariant peaks == BandPeaks(frequencies, octave)
    {
      BandBounds(|frequencies|, octave);
      var startBin := BandStart(|frequencies|, octave);
      var endBin := BandEnd(|frequencies|, octave);
      var maxVal, maxBin := ScanBand(frequencies, startBin, endBin);
      if maxVal > 0 {
        peaks := peaks + [maxBin];
      }
    }
    peaks := SortBy(peaks, Louder(frequencies));
    result := peaks[..Min(MaxPeaks, |peaks|)];
  }

  /** The inner loop of findPeaks over the bins of one band: `maxVal` stays 0 when the band has no peak. */
  method ScanBand(frequencies: seq<int>, startBin: nat, endBin: nat) returns (maxVal: int, maxBin: nat)
    requires startBin <= endBin <= |frequencies|
    ensures BandScan(frequencies, startBin, endBin).None? ==> maxVal == 0 && maxBin == 0
    ensures BandScan(frequencies, startBin, endBin).Some? ==>
      maxBin == BandScan(frequencies, startBin, endBin).value && maxVal > Threshold
  {
    maxVal := 0;
    maxBin := 0;
    for i := startBin to endBin
      invariant BandScan(frequencies, startBin, i).None? ==> maxVal == 0 && maxBin == 0
      invariant BandScan(frequencies, startBin, i).Some? ==>
        var k := BandScan(frequencies, startBin, i).value;
        maxBin == k && maxVal == frequencies[k] && maxVal > Threshold
    {
      if frequencies[i] > Threshold && frequencies[i] > maxVal {
        // a neighbour outside the spectrum is undefined and compares false
        if 0 < i && i + 1 < |frequencies| && frequencies[i] > frequencies[i - 1] && frequencies[i] > frequencies[i + 1] {
          maxVal := frequencies[i];
          maxBin := i;
        }
      }
    }
  }

  // ---------------------------------------------------------------------
  // Properties of the result

  function Pow2(k: nat): (r: nat)
    ensures r >= 1
  {
    if k == 0 then 1 else 2 * Pow2(k - 1)
  }

  /** Halving `k` times is integer division by 2^k, so band `b` starts at N / 2^(9 - b). */
  lemma {:induction false} HalveIsDivision(n: nat, k: nat)
    ensures Halve(n, k) == n / Pow2(k)
  {
    if k > 0 {
      HalveIsDivision(n, k - 1);
      HalfOfQuotient(n, Pow2(k - 1));
    }
  }

  /** Halving a quotient by `p` is the quotient by `2 * p`. */
  lemma HalfOfQuotient(n: nat, p: nat)
    requires p >= 1
    ensures n / p / 2 == n / (2 * p)
  {
    var q, r := n / p, n % p;
    var a, s := q / 2, q % 2;
    assert q * p == (2 * a + s) * p;
    assert (2 * a + s) * p == a * (2 * p) + s * p;
    assert s * p <= p;
    QuotientOf(n, 2 * p, a, s * p + r);
  }

  lemma QuotientOf(n: nat, m: nat, a: nat, t: nat)
    requires m >= 1 && n == a * m + t && t < m
    ensures n / m == a
  {
    var q, r := n / m, n % m;
    if q > a {
      MulMonotone(a + 1, q, m);
      assert false;
    } else if q < a {
      MulMonotone(q + 1, a, m);
      assert false;
    }
  }

  lemma MulMonotone(x: nat, y: nat, m: nat)
    requires x <= y
    ensures x * m <= y * m
  {
    assert y * m == x * m + (y - x) * m;
  }

  /** Bands do not overlap: an earlier band ends before a later one starts. */
  lemma BandsDisjoint(n: nat, c: nat, d: nat)
    requires c < d < OctaveBands
    ensures BandEnd(n, c) <= BandStart(n, d)
  {
    BandBounds(n, c);
    BandStartMonotone(n, c + 1, d);
  }

  /** A bin lies in at most one band. */
  lemma OneBand(n: nat, c: nat, d: nat, k: int)
    requires c < OctaveBands && d < OctaveBands
    requires InBand(n, c, k) && InBand(n, d, k)
    ensures c == d
  {
    if c < d {
      BandsDisjoint(n, c, d);
    } else if d < c {
      BandsDisjoint(n, d, c);
    }
  }

  /** What band `b` adds to the band peaks. */
  function BandPeakOf(f: seq<int>, b: nat): Option<nat>
    requires b < OctaveBands
  {
    BandBounds(|f|, b);
    BandScan(f, BandStart(|f|, b), BandEnd(|f|, b))
  }

  /** One past the last bin of bands `0 .. b - 1`. */
  function Bound(n: nat, b: nat): nat
    requires b <= OctaveBands
  {
    if b == 0 then 0 else BandEnd(n, b - 1)
  }

  predicate AllPeaks(f: seq<int>, P: seq<nat>) {
    forall i :: 0 <= i < |P| ==> IsPeak(f, P[i]) && BandStart(|f|, 0) <= P[i]
  }

  predicate Below(P: seq<nat>, bound: nat) {
    forall i :: 0 <= i < |P| ==> P[i] < bound
  }

  predicate Rising(P: seq<nat>) {
    forall i, j :: 0 <= i < j < |P| ==> P[i] < P[j]
  }

  /** Every bin in P is the peak its band's scan finds. */
  predicate BandMaxima(f: seq<int>, P: seq<nat>) {
    forall i, c :: 0 <= i < |P| && 0 <= c < OctaveBands && InBand(|f|, c, P[i]) ==> BandPeakOf(f, c) == Some(P[i])
  }

  /** No two bins of P share a band. */
  predicate OnePerBand(n: nat, P: seq<nat>) {
    forall i, j, c :: 0 <= i < j < |P| && 0 <= c < OctaveBands ==> !(InBand(n, c, P[i]) && InBand(n, c, P[j]))
  }

  /** The bin band `b` adds is a peak, lies in band `b` and in no other band. */
  lemma NewBandPeak(f: seq<int>, b: nat, k: nat)
    requires b < OctaveBands && BandPeakOf(f, b) == Some(k)
    ensures BandPeaks(f, b + 1) == BandPeaks(f, b) + [k]
    ensures IsPeak(f, k) && InBand(|f|, b, k) && Bound(|f|, b) <= k < Bound(|f|, b + 1)
    ensures BandStart(|f|, 0) <= k
    ensures forall c :: 0 <= c < OctaveBands && InBand(|f|, c, k) ==> c == b
  {
    var n := |f|;
    BandBounds(n, b);
    BandScanFindsFirstMaximum(f, BandStart(n, b), BandEnd(n, b));
    BandStartMonotone(n, 0, b);
    if b > 0 {
      BandBounds(n, b - 1);
    }
    forall c | 0 <= c < OctaveBands && InBand(n, c, k) ensures c == b {
      OneBand(n, c, b, k);
    }
  }

  lemma NoNewBandPeak(f: seq<int>, b: nat)
    requires b < OctaveBands && BandPeakOf(f, b).None?
    ensures BandPeaks(f, b + 1) == BandPeaks(f, b)
  {
  }

  lemma {:induction false} BandPeaksArePeaks(f: seq<int>, b: nat)
    requires b <= OctaveBands
    ensures AllPeaks(f, BandPeaks(f, b)) && Below(BandPeaks(f, b), Bound(|f|, b))
  {
    if b > 0 {
      BandPeaksArePeaks(f, b - 1);
      BoundRises(|f|, b);
      match BandPeakOf(f, b - 1)
      case None =>
        NoNewBandPeak(f, b - 1);
      case Some(k) =>
        NewBandPeak(f, b - 1, k);
        PeaksAppend(f, BandPeaks(f, b - 1), k, Bound(|f|, b));
    }
  }

  lemma BoundRises(n: nat, b: nat)
    requires 0 < b <= OctaveBands
    ensures Bound(n, b - 1) <= Bound(n, b)
  {
    BandBounds(n, b - 1);
    if b > 1 {
      BandBounds(n, b - 2);
    }
  }

  lemma PeaksAppend(f: seq<int>, P: seq<nat>, k: nat, t: nat)
    requires AllPeaks(f, P) && Below(P, t) && IsPeak(f, k) && BandStart(|f|, 0) <= k < t
    ensures AllPeaks(f, P + [k]) && Below(P + [k], t)
  {
    assert forall i :: 0 <= i < |P| ==> (P + [k])[i] == P[i];
  }

  lemma {:induction false} BandPeaksRise(f: seq<int>, b: nat)
    requires b <= OctaveBands
    ensures Rising(BandPeaks(f, b))
  {
    if b > 0 {
      BandPeaksRise(f, b - 1);
      BandPeaksArePeaks(f, b - 1);
      match BandPeakOf(f, b - 1)
      case None => NoNewBandPeak(f, b - 1);
      case Some(k) =>
        NewBandPeak(f, b - 1, k);
        RisingAppend(BandPeaks(f, b - 1), k, Bound(|f|, b - 1));
    }
  }

  lemma RisingAppend(P: seq<nat>, k: nat, t: nat)
    requires Rising(P) && Below(P, t) && t <= k
    ensures Rising(P + [k])
  {
    assert forall i :: 0 <= i < |P| ==> (P + [k])[i] == P[i];
  }

  lemma {:induction false} BandPeaksAreBandMaxima(f: seq<int>, b: nat)
    requires b <= OctaveBands
    ensures BandMaxima(f, BandPeaks(f, b))
  {
    if b > 0 {
      BandPeaksAreBandMaxima(f, b - 1);
      match BandPeakOf(f, b - 1)
      case None => NoNewBandPeak(f, b - 1);
      case Some(k) =>
        NewBandPeak(f, b - 1, k);
        MaximaAppend(f, BandPeaks(f, b - 1), k, b - 1);
    }
  }

  lemma MaximaAppend(f: seq<int>, P: seq<nat>, k: nat, b: nat)
    requires BandMaxima(f, P) && b < OctaveBands && BandPeakOf(f, b) == Some(k)
    requires forall c :: 0 <= c < OctaveBands && InBand(|f|, c, k) ==> c == b
    ensures BandMaxima(f, P + [k])
  {
    assert forall i :: 0 <= i < |P| ==> (P + [k])[i] == P[i];
  }

  lemma {:induction false} BandPeaksOnePerBand(f: seq<int>, b: nat)
    requires b <= OctaveBands
    ensures OnePerBand(|f|, BandPeaks(f, b))
  {
    if b > 0 {
      BandPeaksOnePerBand(f, b - 1);
      BandPeaksArePeaks(f, b - 1);
      match BandPeakOf(f, b - 1)
      case None => NoNewBandPeak(f, b - 1);
      case Some(k) =>
        NewBandPeak(f, b - 1, k);
        if b > 1 {
          BandStartIsBound(|f|, b - 1);
        }
        OnePerBandAppend(|f|, BandPeaks(f, b - 1), k, b - 1);
    }
  }

  lemma BandStartIsBound(n: nat, b: nat)
    requires 0 < b < OctaveBands
    ensures Bound(n, b) == BandStart(n, b)
  {
    BandBounds(n, b - 1);
  }

  lemma OnePerBandAppend(n: nat, P: seq<nat>, k: nat, b: nat)
    requires b < OctaveBands && OnePerBand(n, P) && Below(P, BandStart(n, b))
    requires forall c :: 0 <= c < OctaveBands && InBand(n, c, k) ==> c == b
    ensures OnePerBand(n, P + [k])
  {
    var Q := P + [k];
    forall i, j, c | 0 <= i < j < |Q| && 0 <= c < OctaveBands
      ensures !(InBand(n, c, Q[i]) && InBand(n, c, Q[j]))
    {
      if j < |P| {
        assert Q[i] == P[i] && Q[j] == P[j];
      } else {
        assert Q[i] == P[i] < BandStart(n, b);
      }
    }
  }

  lemma {:induction false} BandPeaksEmpty(f: seq<int>, b: nat)
    requires b <= OctaveBands
    ensures BandPeaks(f, b) == [] <==> forall c :: 0 <= c < b ==> BandPeakOf(f, c).None?
  {
    if b > 0 {
      BandPeaksEmpty(f, b - 1);
      match BandPeakOf(f, b - 1)
      case None => NoNewBandPeak(f, b - 1);
      case Some(k) => NewBandPeak(f, b - 1, k);
    }
  }

  lemma CountAtMostOnce(s: seq<nat>)
    requires forall i, j :: 0 <= i < j < |s| ==> s[i] < s[j]
    ensures forall x :: multiset(s)[x] <= 1
  {
    if s != [] {
      var t := s[1..];
      assert forall i, j :: 0 <= i < j < |t| ==> t[i] < t[j] by {
        forall i, j | 0 <= i < j < |t| ensures t[i] < t[j] {
          assert t[i] == s[i + 1] && t[j] == s[j + 1];
        }
      }
      CountAtMostOnce(t);
      assert s == [s[0]] + t;
      forall m | 0 <= m < |t| ensures t[m] != s[0] {
        assert t[m] == s[m + 1];
      }
    }
  }

  lemma TwiceCounted<T>(s: seq<T>, i: nat, j: nat)
    requires i < j < |s| && s[i] == s[j]
    ensures multiset(s)[s[i]] >= 2
  {
    assert s == s[..j] + s[j..];
    assert s[i] == s[..j][i];
    assert s[j] == s[j..][0];
  }

  lemma InSortedAt(s: seq<nat>, sorted: seq<nat>, x: nat) returns (p: nat)
    requires multiset(sorted) == multiset(s) && x in s
    ensures p < |sorted| && sorted[p] == x
  {
    assert x in multiset(sorted);
    p :| 0 <= p < |sorted| && sorted[p] == x;
  }

  lemma PositionIn(P: seq<nat>, Q: seq<nat>, i: nat) returns (m: nat)
    requires multiset(Q) == multiset(P) && i < |Q|
    ensures m < |P| && P[m] == Q[i]
  {
    assert Q[i] in multiset(P);
    m :| 0 <= m < |P| && P[m] == Q[i];
  }

  /** Reordering the band peaks keeps every per-bin fact, and (having no repeats) keeps them in different bands. */
  lemma ReorderedBandPeaks(f: seq<int>, Q: seq<nat>)
    requires multiset(Q) == multiset(BandPeaks(f, OctaveBands))
    ensures AllPeaks(f, Q) && BandMaxima(f, Q) && OnePerBand(|f|, Q)
  {
    var P := BandPeaks(f, OctaveBands);
    BandPeaksArePeaks(f, OctaveBands);
    BandPeaksAreBandMaxima(f, OctaveBands);
    forall i | 0 <= i < |Q| ensures IsPeak(f, Q[i]) && BandStart(|f|, 0) <= Q[i] {
      var m := PositionIn(P, Q, i);
    }
    forall i, c | 0 <= i < |Q| && 0 <= c < OctaveBands && InBand(|f|, c, Q[i])
      ensures BandPeakOf(f, c) == Some(Q[i])
    {
      var m := PositionIn(P, Q, i);
    }
    ReorderedOnePerBand(f, Q);
  }

  lemma ReorderedOnePerBand(f: seq<int>, Q: seq<nat>)
    requires multiset(Q) == multiset(BandPeaks(f, OctaveBands))
    ensures OnePerBand(|f|, Q)
  {
    var P := BandPeaks(f, OctaveBands);
    BandPeaksOnePerBand(f, OctaveBands);
    BandPeaksRise(f, OctaveBands);
    CountAtMostOnce(P);
    ReorderedKeepsBands(|f|, P, Q);
  }

  /** Bins in different bands, reordered without repeats, stay in different bands. */
  lemma ReorderedKeepsBands(n: nat, P: seq<nat>, Q: seq<nat>)
    requires OnePerBand(n, P) && multiset(Q) == multiset(P) && forall x :: multiset(P)[x] <= 1
    ensures OnePerBand(n, Q)
  {
    NoRepeats(P, Q);
    forall i, j, c | 0 <= i < j < |Q| && 0 <= c < OctaveBands
      ensures !(InBand(n, c, Q[i]) && InBand(n, c, Q[j]))
    {
      var a := PositionIn(P, Q, i);
      var d := PositionIn(P, Q, j);
      if a < d {
        assert !(InBand(n, c, P[a]) && InBand(n, c, P[d]));
      } else {
        assert d < a;
        assert !(InBand(n, c, P[d]) && InBand(n, c, P[a]));
      }
    }
  }

  /** A reordering of a sequence without repeats has no repeats. */
  lemma NoRepeats(P: seq<nat>, Q: seq<nat>)
    requires multiset(Q) == multiset(P) && forall x :: multiset(P)[x] <= 1
    ensures forall i, j :: 0 <= i < j < |Q| ==> Q[i] != Q[j]
  {
    forall i, j | 0 <= i < j < |Q| ensures Q[i] != Q[j] {
      if Q[i] == Q[j] {
        TwiceCounted(Q, i, j);
      }
    }
  }

  /** The band peaks sorted louder-first; findPeaks returns its first three. */
  function SortedBandPeaks(f: seq<int>): seq<nat> {
    SortBy(BandPeaks(f, OctaveBands), Louder(f))
  }

  lemma PrefixKeepsBandFacts(f: seq<int>, Q: seq<nat>, m: nat)
    requires m <= |Q| && AllPeaks(f, Q) && BandMaxima(f, Q) && OnePerBand(|f|, Q)
    ensures AllPeaks(f, Q[..m]) && BandMaxima(f, Q[..m]) && OnePerBand(|f|, Q[..m])
  {
    assert forall i :: 0 <= i < m ==> Q[..m][i] == Q[i];
  }

  /**
   * findPeaks returns at most three bins (three when at least three bands have a
   * peak), each a peak, above the threshold and strictly above both neighbours,
   * and the peak of its own band, no two in one band.
   */
  lemma PeaksAreBandPeaks(f: seq<int>)
    ensures |Peaks(f)| == Min(MaxPeaks, |BandPeaks(f, OctaveBands)|)
    ensures AllPeaks(f, Peaks(f)) && BandMaxima(f, Peaks(f)) && OnePerBand(|f|, Peaks(f))
  {
    var sorted := SortedBandPeaks(f);
    SortByIsSortedPermutation(BandPeaks(f, OctaveBands), Louder(f));
    ReorderedBandPeaks(f, sorted);
    PrefixKeepsBandFacts(f, sorted, |Peaks(f)|);
  }

  /** The bins come in order of non-increasing magnitude. */
  lemma PeaksByMagnitude(f: seq<int>)
    ensures forall i, j :: 0 <= i < j < |Peaks(f)| ==> Magnitude(f, Peaks(f)[i]) >= Magnitude(f, Peaks(f)[j])
  {
    var r, sorted := Peaks(f), SortedBandPeaks(f);
    SortByIsSortedPermutation(BandPeaks(f, OctaveBands), Louder(f));
    PeaksAreBandPeaks(f);
    forall i, j | 0 <= i < j < |r| ensures Magnitude(f, r[i]) >= Magnitude(f, r[j]) {
      assert r[i] == sorted[i] && r[j] == sorted[j];
      assert Louder(f)(sorted[i]) <= Louder(f)(sorted[j]);
    }
  }

  /** A band peak left out is no louder than the last of the three returned. */
  lemma PeaksAreTheLoudest(f: seq<int>)
    ensures forall k :: k in BandPeaks(f, OctaveBands) && k !in Peaks(f) ==>
      |Peaks(f)| == MaxPeaks && Magnitude(f, k) <= Magnitude(f, Peaks(f)[MaxPeaks - 1])
  {
    var r, P, sorted := Peaks(f), BandPeaks(f, OctaveBands), SortedBandPeaks(f);
    SortByIsSortedPermutation(P, Louder(f));
    BandPeaksArePeaks(f, OctaveBands);
    forall k | k in P && k !in r ensures |r| == MaxPeaks && Magnitude(f, k) <= Magnitude(f, r[MaxPeaks - 1]) {
      var p := InSortedAt(P, sorted, k);
      assert forall i :: 0 <= i < |r| ==> r[i] == sorted[i];
      assert p >= |r|;
      assert Louder(f)(sorted[MaxPeaks - 1]) <= Louder(f)(sorted[p]);
    }
  }

  lemma {:induction false} BandsCover(n: nat, c: nat, j: int)
    requires c < OctaveBands && BandStart(n, c) <= j < n
    ensures exists d :: c <= d < OctaveBands && InBand(n, d, j)
    decreases OctaveBands - c
  {
    BandBounds(n, c);
    if j >= BandEnd(n, c) {
      assert c < OctaveBands - 1 by {
        assert BandEnd(n, OctaveBands - 1) == n;
      }
      BandsCover(n, c + 1, j);
    } else {
      assert InBand(n, c, j);
    }
  }

  /**
   * The result is empty (the dominant frequency is then not a number and no note
   * is recorded) exactly when no bin from the first band on is a peak.
   */
  lemma NoPeakNoResult(f: seq<int>)
    ensures Peaks(f) == [] <==> forall j :: BandStart(|f|, 0) <= j < |f| ==> !IsPeak(f, j)
  {
    if forall j :: BandStart(|f|, 0) <= j < |f| ==> !IsPeak(f, j) {
      NoPeakInAnyBand(f);
    } else {
      var j :| BandStart(|f|, 0) <= j < |f| && IsPeak(f, j);
      PeakInSomeBand(f, j);
    }
  }

  lemma NoPeakInAnyBand(f: seq<int>)
    requires forall j :: BandStart(|f|, 0) <= j < |f| ==> !IsPeak(f, j)
    ensures Peaks(f) == []
  {
    var n := |f|;
    forall c | 0 <= c < OctaveBands ensures BandPeakOf(f, c).None? {
      BandBounds(n, c);
      BandStartMonotone(n, 0, c);
      BandScanFindsFirstMaximum(f, BandStart(n, c), BandEnd(n, c));
    }
    BandPeaksEmpty(f, OctaveBands);
  }

  lemma PeakInSomeBand(f: seq<int>, j: int)
    requires BandStart(|f|, 0) <= j < |f| && IsPeak(f, j)
    ensures Peaks(f) != []
  {
    var n := |f|;
    BandsCover(n, 0, j);
    var d :| 0 <= d < OctaveBands && InBand(n, d, j);
    BandBounds(n, d);
    BandScanFindsFirstMaximum(f, BandStart(n, d), BandEnd(n, d));
    assert BandPeakOf(f, d).Some?;
    BandPeaksEmpty(f, OctaveBands);
    PeaksEmptyIff(f);
  }

  lemma PeaksEmptyIff(f: seq<int>)
    ensures Peaks(f) == [] <==> BandPeaks(f, OctaveBands) == []
  {
    var sorted := SortBy(BandPeaks(f, OctaveBands), Louder(f));
    assert |sorted| == |BandPeaks(f, OctaveBands)|;
  }
}
