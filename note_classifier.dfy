/**
 * The note classifier: `findClosestNote` over the `noteFrequencies` table,
 * and the two small conversions `noteToMidi` and `intensityToVelocity`.
 *
 * The table literals and the comparisons are exact `real`s here; the
 * program compares IEEE doubles (see README, "Left out").
 */
module NoteClassifier {

  /** The keys of `noteFrequencies` in their declaration order, which `for ... in` follows. */
  const NoteNames: seq<string> := ["C", "C#", "D", "D#", "E", "F", "F#", "G", "G#", "A", "A#", "B"]

  /** The number of table entries the scan visits. */
  const Entries: nat := 108

  /** A label is accepted when the closest entry is at most 5 % away. */
  const Tolerance: real := 5.0

  const Unknown: string := "Unknown"

  /** `noteFrequencies`: row `n` belongs to `NoteNames[n]`, column `o` to octave `o`. */
  const NoteFrequencies: seq<seq<real>> := [
    [16.35, 32.7, 65.41, 130.81, 261.63, 523.25, 1046.5, 2093.0, 4186.0],
    [17.32, 34.65, 69.3, 138.59, 277.18, 554.37, 1108.73, 2217.46, 4434.92],
    [18.35, 36.71, 73.42, 146.83, 293.66, 587.33, 1174.66, 2349.32, 4698.63],
    [19.45, 38.89, 77.78, 155.56, 311.13, 622.25, 1244.51, 2489.0, 4978.0],
    [20.6, 41.2, 82.41, 164.81, 329.63, 659.25, 1318.51, 2637.0, 5274.0],
    [21.83, 43.65, 87.31, 174.61, 349.23, 698.46, 1396.91, 2793.83, 5587.65],
    [23.12, 46.25, 92.5, 185.0, 369.99, 739.99, 1479.98, 2959.96, 5919.91],
    [24.5, 49.0, 98.0, 196.0, 392.0, 783.99, 1567.98, 3135.96, 6271.93],
    [25.96, 51.91, 103.83, 207.65, 415.3, 830.61, 1661.22, 3322.44, 6644.88],
    [27.5, 55.0, 110.0, 220.0, 440.0, 880.0, 1760.0, 3520.0, 7040.0],
    [29.14, 58.27, 116.54, 233.08, 466.16, 932.33, 1864.66, 3729.31, 7458.62],
    [30.87, 61.74, 123.47, 246.94, 493.88, 987.77, 1975.53, 3951.0, 7902.13]]

  /**
   * The scan visits the entries name by name and, within a name, octave by
   * octave; entry `k` is name `k / 9`, octave `k % 9`.
   */
  function Reference(k: nat): real
    requires k < Entries
  {
    NoteFrequencies[k / 9][k % 9]
  }

  function Abs(x: real): (r: real)
    ensures r >= 0.0 && (r == x || r == -x)
  {
    if x < 0.0 then -x else x
  }

  /** `Math.abs(frequency - noteFreq)` */
  function Difference(f: real, k: nat): real
    requires k < Entries
  {
    Abs(f - Reference(k))
  }

  /** `(difference / noteFreq) * 100` */
  function Percentage(f: real, k: nat): (r: real)
    requires k < Entries
    ensures r >= 0.0
  {
    TableIsPositive(k);
    Difference(f, k) / Reference(k) * 100.0
  }

  /** The differences to every entry, in scan order. */
  function Differences(f: real): (d: seq<real>)
    ensures |d| == Entries
  {
    seq(Entries, k requires 0 <= k < Entries => Difference(f, k))
  }

  /**
   * The index the scan holds after visiting the first `k` of the
   * differences `d`: a later entry replaces it only when strictly closer.
   */
  function FirstLeast(d: seq<real>, k: nat): (r: nat)
    requires 0 < k <= |d|
    ensures r < k
  {
    if k == 1 then 0
    else
      var c := FirstLeast(d, k - 1);
      if d[k - 1] < d[c] then k - 1 else c
  }

  /** The entry findClosestNote settles on. */
  function Closest(f: real): (k: nat)
    ensures k < Entries
  {
    FirstLeast(Differences(f), Entries)
  }

  /** The digit of an octave, as a template literal prints it. */
  function Digit(o: nat): (c: char)
    requires o < 10
    ensures '0' <= c <= '9'
  {
    ('0' as int + o) as char
  }

  /** `${closestNote}${closestOctave}` */
  function Label(k: nat): (r: string)
    requires k < Entries
    ensures |r| == |NoteNames[k / 9]| + 1 && r[|r| - 1] == Digit(k % 9)
  {
    NoteNames[k / 9] + [Digit(k % 9)]
  }

  /** findClosestNote */
  function ClosestNote(f: real): string
  {
    var k := Closest(f);
    if Percentage(f, k) <= Tolerance then Label(k) else Unknown
  }

  /** findClosestNote: the loop over the names, and for each name the scan of its octaves. */
  method FindClosestNote(frequency: real) returns (name: string)
    ensures name == ClosestNote(frequency)
  {
    var closestNote := "";
    var closestOctave: nat := 0;
    // `minDifference` starts at Infinity: until the first entry is seen it takes no part.
    var seen := false;
    var minDifference := 0.0;
    var percentageOff := 0.0;
    ghost var best: nat := 0;
    for n := 0 to |NoteNames|
      invariant seen <==> n > 0
      invariant seen ==> Holding(frequency, n * 9, best, closestNote, closestOctave, minDifference, percentageOff)
      invariant !seen ==> percentageOff == 0.0
    {
      seen, closestNote, closestOctave, minDifference, percentageOff, best :=
        ScanOctaves(frequency, n, seen, closestNote, closestOctave, minDifference, percentageOff, best);
    }
    ScanSettles(Differences(frequency), best, minDifference);
    if percentageOff <= Tolerance {
      name := closestNote + [Digit(closestOctave)];
    } else {
      name := Unknown;
    }
  }

  /**
   * The `forEach` callback run over the octaves of name `n`, updating the
   * variables of findClosestNote it closes over.
   */
  method ScanOctaves(frequency: real, n: nat, seen0: bool, note0: string, octave0: nat, min0: real, pct0: real, ghost best0: nat)
    returns (seen: bool, closestNote: string, closestOctave: nat, minDifference: real, percentageOff: real, ghost best: nat)
    requires n < |NoteNames|
    requires seen0 <==> n > 0
    requires seen0 ==> Holding(frequency, n * 9, best0, note0, octave0, min0, pct0)
    requires !seen0 ==> pct0 == 0.0
    ensures seen && Holding(frequency, (n + 1) * 9, best, closestNote, closestOctave, minDifference, percentageOff)
  {
    seen, closestNote, closestOctave, minDifference, percentageOff, best := seen0, note0, octave0, min0, pct0, best0;
    for o := 0 to 9
      invariant seen <==> n * 9 + o > 0
      invariant seen ==> Holding(frequency, n * 9 + o, best, closestNote, closestOctave, minDifference, percentageOff)
      invariant !seen ==> percentageOff == 0.0
    {
      var noteFreq := NoteFrequencies[n][o];
      seen, closestNote, closestOctave, minDifference, percentageOff, best :=
        VisitEntry(frequency, n, o, noteFreq, seen, closestNote, closestOctave, minDifference, percentageOff, best);
    }
  }

  /** The `forEach` callback for the frequency `noteFreq` of name `n` in octave `o`. */
  method VisitEntry(frequency: real, n: nat, o: nat, noteFreq: real,
                    seen0: bool, note0: string, octave0: nat, min0: real, pct0: real, ghost best0: nat)
    returns (seen: bool, closestNote: string, closestOctave: nat, minDifference: real, percentageOff: real, ghost best: nat)
    requires n < |NoteNames| && o < 9 && noteFreq == NoteFrequencies[n][o]
    requires seen0 <==> n * 9 + o > 0
    requires seen0 ==> Holding(frequency, n * 9 + o, best0, note0, octave0, min0, pct0)
    requires !seen0 ==> pct0 == 0.0
    ensures seen && Holding(frequency, n * 9 + o + 1, best, closestNote, closestOctave, minDifference, percentageOff)
  {
    closestNote, closestOctave, minDifference, percentageOff, best := note0, octave0, min0, pct0, best0;
    ghost var k := n * 9 + o;
    EntryAt(n, o);
    EntryValues(frequency, n, o);
    var difference := Abs(frequency - noteFreq);
    var percentage := (difference / noteFreq) * 100.0;
    if seen0 {
      ScanStep(Differences(frequency), k, best, minDifference);
    }
    if !seen0 || difference < minDifference {
      minDifference := difference;
      closestNote := NoteNames[n];
      closestOctave := o;
      percentageOff := percentage;
      best := k;
    }
    seen := true;
  }

  /** The variables of findClosestNote after visiting `k > 0` entries, entry `best` being held. */
  ghost predicate Holding(f: real, k: nat, best: nat, name: string, octave: nat, diff: real, pct: real) {
    && k <= Entries
    && Scanned(Differences(f), k, best, diff)
    && name == NoteNames[best / 9] && octave == best % 9
    && pct == Percentage(f, best)
  }

  /**
   * Having visited the first `k > 0` of the differences `d`, the scan holds
   * `best` with difference `diff`: no visited entry is closer, and every
   * visited entry before `best` is strictly farther.
   */
  ghost predicate Scanned(d: seq<real>, k: nat, best: nat, diff: real) {
    && best < k <= |d|
    && diff == d[best]
    && (forall j :: 0 <= j < k ==> diff <= d[j])
    && (forall j :: 0 <= j < best ==> diff < d[j])
  }

  /** One more entry: the held entry changes only to a strictly closer one. */
  lemma ScanStep(d: seq<real>, k: nat, best: nat, diff: real)
    requires Scanned(d, k, best, diff) && k < |d|
    ensures d[k] < diff ==> Scanned(d, k + 1, k, d[k])
    ensures !(d[k] < diff) ==> Scanned(d, k + 1, best, diff)
  {
  }

  /** Once every entry is visited, the held entry is the one `FirstLeast` picks. */
  lemma ScanSettles(d: seq<real>, best: nat, diff: real)
    requires Scanned(d, |d|, best, diff)
    ensures FirstLeast(d, |d|) == best
  {
    FirstLeastIsFirstMinimum(d, |d|);
  }

  /** What findClosestNote computes at row `n`, column `o` is the difference and percentage of entry `n * 9 + o`. */
  lemma EntryValues(f: real, n: nat, o: nat)
    requires n < |NoteNames| && o < 9
    ensures n * 9 + o < Entries && NoteFrequencies[n][o] > 0.0
    ensures Differences(f)[n * 9 + o] == Abs(f - NoteFrequencies[n][o])
    ensures Percentage(f, n * 9 + o) == Abs(f - NoteFrequencies[n][o]) / NoteFrequencies[n][o] * 100.0
  {
    var k := n * 9 + o;
    EntryAt(n, o);
    assert Reference(k) == NoteFrequencies[n][o];
    TableIsPositive(k);
    assert Differences(f)[k] == Difference(f, k);
  }

  /** Entry `n * 9 + o` of the scan is row `n`, column `o` of the table. */
  lemma EntryAt(n: nat, o: nat)
    requires n < |NoteNames| && o < 9
    ensures n * 9 + o < Entries
    ensures (n * 9 + o) / 9 == n && (n * 9 + o) % 9 == o
  {
  }

  /**
   * The scan settles on the first least difference: no entry is closer,
   * and every earlier one is strictly farther.
   */
  lemma {:induction false} FirstLeastIsFirstMinimum(d: seq<real>, k: nat)
    requires 0 < k <= |d|
    ensures forall j :: 0 <= j < k ==> d[FirstLeast(d, k)] <= d[j]
    ensures forall j :: 0 <= j < FirstLeast(d, k) ==> d[FirstLeast(d, k)] < d[j]
  {
    if k > 1 {
      FirstLeastIsFirstMinimum(d, k - 1);
    }
  }

  /**
   * findClosestNote against a declarative reference: if entry `k` is the
   * first entry with the least difference, the result is `k`'s label when
   * `k` is within 5 % and "Unknown" otherwise.
   */
  lemma ClosestNoteIsFirstNearestEntry(f: real, k: nat)
    requires k < Entries
    requires forall j :: 0 <= j < Entries ==> Difference(f, k) <= Difference(f, j)
    requires forall j :: 0 <= j < k ==> Difference(f, k) < Difference(f, j)
    ensures Closest(f) == k
    ensures ClosestNote(f) == if Percentage(f, k) <= Tolerance then Label(k) else Unknown
  {
    ScanSettles(Differences(f), k, Difference(f, k));
  }

  /** The result is either "Unknown" or the label of some table entry. */
  lemma ClosestNoteIsLabelOrUnknown(f: real)
    ensures ClosestNote(f) == Unknown || exists k :: 0 <= k < Entries && ClosestNote(f) == Label(k)
    ensures ClosestNote(f) == Unknown <==> Percentage(f, Closest(f)) > Tolerance
  {
    LabelIsNotUnknown(Closest(f));
  }

  lemma LabelIsNotUnknown(k: nat)
    requires k < Entries
    ensures Label(k) != Unknown
  {
    assert |Label(k)| <= 3;
  }

  /** Distinct entries carry distinct labels. */
  lemma LabelsDiffer(j: nat, k: nat)
    requires j < Entries && k < Entries && j != k
    ensures Label(j) != Label(k)
  {
    if j % 9 == k % 9 {
      var m, n := j / 9, k / 9;
      assert m != n;
      NamesDiffer(m, n);
      if |NoteNames[m]| == |NoteNames[n]| {
        assert Label(j)[..|NoteNames[m]|] == NoteNames[m];
        assert Label(k)[..|NoteNames[n]|] == NoteNames[n];
      }
    } else {
      assert Label(j)[|Label(j)| - 1] != Label(k)[|Label(k)| - 1];
    }
  }

  lemma NamesDiffer(m: nat, n: nat)
    requires m < |NoteNames| && n < |NoteNames| && m != n
    ensures NoteNames[m] != NoteNames[n]
  {
    assert m == 0 || m == 1 || m == 2 || m == 3 || m == 4 || m == 5 || m == 6 || m == 7 || m == 8 || m == 9 || m == 10 || m == 11;
    assert n == 0 || n == 1 || n == 2 || n == 3 || n == 4 || n == 5 || n == 6 || n == 7 || n == 8 || n == 9 || n == 10 || n == 11;
  }

  // ---- The table in rising pitch ----

  /**
   * Position `p` in rising pitch is octave `p / 12`, name `p % 12`
   * (position `p` is MIDI note `p + 12`).
   */
  function PitchFreq(p: nat): real
    requires p < Entries
  {
    NoteFrequencies[p % 12][p / 12]
  }

  /** Where entry `k` of the scan sits in rising pitch. */
  function PitchOf(k: nat): (p: nat)
    requires k < Entries
    ensures p < Entries && p % 12 == k / 9 && p / 12 == k % 9
  {
    (k % 9) * 12 + k / 9
  }

  lemma ReferenceAtPitch(k: nat)
    requires k < Entries
    ensures PitchFreq(PitchOf(k)) == Reference(k)
  {
  }

  lemma NamesRise(n: nat, o: nat)
    requires n < 11 && o < 9
    ensures NoteFrequencies[n][o] < NoteFrequencies[n + 1][o]
  {
    assert n == 0 || n == 1 || n == 2 || n == 3 || n == 4 || n == 5 || n == 6 || n == 7 || n == 8 || n == 9 || n == 10;
    assert o == 0 || o == 1 || o == 2 || o == 3 || o == 4 || o == 5 || o == 6 || o == 7 || o == 8;
  }

  lemma OctaveWraps(o: nat)
    requires o < 8
    ensures NoteFrequencies[11][o] < NoteFrequencies[0][o + 1]
  {
    assert o == 0 || o == 1 || o == 2 || o == 3 || o == 4 || o == 5 || o == 6 || o == 7;
  }

  lemma PitchStep(p: nat)
    requires p + 1 < Entries
    ensures PitchFreq(p) < PitchFreq(p + 1)
  {
    if p % 12 < 11 {
      assert (p + 1) % 12 == p % 12 + 1 && (p + 1) / 12 == p / 12;
      NamesRise(p % 12, p / 12);
    } else {
      assert (p + 1) % 12 == 0 && (p + 1) / 12 == p / 12 + 1;
      OctaveWraps(p / 12);
    }
  }

  /** The table, read in pitch order, rises strictly. */
  lemma PitchRises(p: nat, q: nat)
    requires p < q < Entries
    ensures PitchFreq(p) < PitchFreq(q)
  {
    var s := seq(Entries, i requires 0 <= i < Entries => PitchFreq(i));
    forall i | 0 <= i < |s| - 1 ensures s[i] < s[i + 1] {
      PitchStep(i);
    }
    StepsRise(s, p, q);
  }

  lemma {:induction false} StepsRise(s: seq<real>, p: nat, q: nat)
    requires forall i :: 0 <= i < |s| - 1 ==> s[i] < s[i + 1]
    requires p < q < |s|
    ensures s[p] < s[q]
    decreases q - p
  {
    if p + 1 < q {
      StepsRise(s, p + 1, q);
    }
  }

  /** No two table entries share a frequency. */
  lemma TableIsInjective(j: nat, k: nat)
    requires j < Entries && k < Entries && j != k
    ensures Reference(j) != Reference(k)
  {
    var p, q := PitchOf(j), PitchOf(k);
    assert p != q by {
      assert j == (j / 9) * 9 + j % 9 && k == (k / 9) * 9 + k % 9;
    }
    if p < q {
      PitchRises(p, q);
    } else {
      PitchRises(q, p);
    }
    ReferenceAtPitch(j);
    ReferenceAtPitch(k);
  }

  /** C0, the first entry, is the lowest frequency of the table. */
  lemma LowestEntry(k: nat)
    requires 0 < k < Entries
    ensures Reference(0) < Reference(k)
  {
    TableIsInjective(0, k);
    var p := PitchOf(k);
    if p > 0 {
      PitchRises(0, p);
    }
    ReferenceAtPitch(0);
    ReferenceAtPitch(k);
  }

  lemma TableIsPositive(k: nat)
    requires k < Entries
    ensures Reference(k) >= 16.35
  {
    if k > 0 {
      LowestEntry(k);
    }
  }

  /** A frequency exactly equal to a table value is labelled with that entry. */
  lemma TableValueGetsItsOwnLabel(k: nat)
    requires k < Entries
    ensures ClosestNote(Reference(k)) == Label(k)
  {
    TableValueIsClosest(k);
    TableValueIsOnTarget(k);
  }

  lemma TableValueIsClosest(k: nat)
    requires k < Entries
    ensures Closest(Reference(k)) == k
  {
    EarlierEntriesAreFarther(k);
    ClosestNoteIsFirstNearestEntry(Reference(k), k);
  }

  lemma EarlierEntriesAreFarther(k: nat)
    requires k < Entries
    ensures forall j :: 0 <= j < k ==> Difference(Reference(k), k) < Difference(Reference(k), j)
  {
    forall j | 0 <= j < k ensures Difference(Reference(k), k) < Difference(Reference(k), j) {
      TableIsInjective(j, k);
    }
  }

  lemma TableValueIsOnTarget(k: nat)
    requires k < Entries
    ensures Percentage(Reference(k), k) == 0.0
  {
  }

  /** Nothing at or below 0 Hz is recognised: C0 is nearest, and 100 % or more away. */
  lemma NonPositiveIsUnknown(f: real)
    requires f <= 0.0
    ensures Closest(f) == 0
    ensures ClosestNote(f) == Unknown
  {
    forall j | 0 < j < Entries ensures Difference(f, 0) < Difference(f, j) {
      LowestEntry(j);
    }
    ClosestNoteIsFirstNearestEntry(f, 0);
  }

  // ---- noteToMidi and intensityToVelocity ----

  /**
   * noteToMidi: `rounded` stands for `Math.round(69 + 12 * Math.log2(freq / 440))`,
   * which is only taken for a positive frequency.
   */
  function NoteToMidi(freq: real, rounded: int): (m: int)
    ensures freq <= 0.0 ==> m == 0
    ensures freq > 0.0 ==> m == rounded
  {
    if freq <= 0.0 then 0 else rounded
  }

  /** intensityToVelocity: `scaled` stands for `Math.round(intensity * 127)`. */
  function IntensityToVelocity(scaled: int): (v: int)
    ensures v <= 127 && v <= scaled
    ensures v == 127 || v == scaled
  {
    if scaled < 127 then scaled else 127
  }
}
