/**
 * `createMidiFile`: a Standard MIDI File (format 0, one track, 96 ticks per
 * quarter note) built from the recorded notes. Every delta-time is a single
 * byte masked with `& 0x7F` instead of a variable-length quantity, so gaps and
 * durations of 128 ticks or more wrap around.
 */
module MidiEncoder {
  import opened Wrappers
  import opened Sorting

  type byte = b: int | 0 <= b < 256

  /** A recorded note: `note` is its label ("A4"), `time` its onset in ms since recording started, `duration` in ms. */
  datatype Note = Note(midi: int, velocity: int, time: int, note: string, duration: int)

  /** `MThd`, header length 6, format 0, one track, division 96. */
  const HeaderChunk: seq<byte> :=
    [0x4D, 0x54, 0x68, 0x64, 0x00, 0x00, 0x00, 0x06, 0x00, 0x00, 0x00, 0x01, 0x00, 0x60]
  /** `MTrk` */
  const TrackMagic: seq<byte> := [0x4D, 0x54, 0x72, 0x6B]
  /** Set Tempo meta-event: 500000 microseconds per quarter note (120 BPM). */
  const SetTempo: seq<byte> := [0x00, 0xFF, 0x51, 0x03, 0x07, 0xA1, 0x20]
  /** Program Change on channel 0 to program 0 (piano). */
  const ProgramChange: seq<byte> := [0x00, 0xC0, 0x00]
  /** End of Track meta-event. */
  const EndOfTrack: seq<byte> := [0x00, 0xFF, 0x2F, 0x00]

  /** `x & 0x7F` for an integer `x`: its low seven bits (two's complement for negatives). */
  function Mask7(x: int): (b: byte)
    ensures b < 128
    ensures (x - b) % 128 == 0
    ensures 0 <= x < 128 ==> b == x
  {
    x % 128
  }

  function Max(a: int, b: int): int { if a < b then b else a }

  /**
   * `Math.max(0, Math.floor((time - currentTime) / 10))`: the whole 10 ms
   * steps from the clock to the onset, none for an onset less than 10 ms later.
   */
  function DeltaTicks(time: int, clock: int): (r: int)
    ensures r >= 0
    ensures time - clock < 10 ==> r == 0
    ensures time - clock >= 10 ==> 1 <= r <= time - clock
  {
    Max(0, (time - clock) / 10)
  }

  /** `Math.max(1, Math.floor(duration / 10))`: whole 10 ms steps, at least one. */
  function DurationTicks(duration: int): (r: int)
    ensures r >= 1
    ensures duration < 20 ==> r == 1
    ensures duration >= 1 ==> r <= duration
  {
    Max(1, duration / 10)
  }

  /** `note.velocity || 64`: a missing (zero) velocity falls back to 64. */
  function VelocityOrDefault(v: int): (r: int)
    ensures r != 0
    ensures v != 0 ==> r == v
    ensures v == 0 ==> r == 64
  {
    if v == 0 then 64 else v
  }

  /** The filter of createMidiFile: a valid key number and a positive duration. */
  predicate Emittable(n: Note) { 0 <= n.midi <= 127 && n.duration > 0 }

  function NoteTime(n: Note): int { n.time }

  /** `.filter(Emittable)` */
  function Keep(notes: seq<Note>): (r: seq<Note>)
    ensures |r| <= |notes|
  {
    if notes == [] then []
    else if Emittable(notes[0]) then [notes[0]] + Keep(notes[1..])
    else Keep(notes[1..])
  }

  /** The notes createMidiFile writes: sorted by onset (stable), then filtered. */
  function Emitted(notes: seq<Note>): (r: seq<Note>)
    ensures |r| <= |notes|
  {
    Keep(SortBy(notes, NoteTime))
  }

  /** The eight bytes of one note: note-on after `delta`, note-off after the duration. */
  function NoteBytes(n: Note, clock: int): (r: seq<byte>)
    ensures |r| == 8
  {
    [Mask7(DeltaTicks(n.time, clock)), 0x90, Mask7(n.midi), Mask7(VelocityOrDefault(n.velocity)),
     Mask7(DurationTicks(n.duration)), 0x80, Mask7(n.midi), 0x00]
  }

  /** `currentTime = note.time + duration`: an onset in ms plus a duration in ticks. */
  function NextClock(n: Note): (r: int)
    ensures r > n.time
  {
    n.time + DurationTicks(n.duration)
  }

  /** The value of `currentTime` when note `j` of `e` is written. */
  function ClockBefore(e: seq<Note>, j: nat): int
    requires j <= |e|
  {
    if j == 0 then 0 else NextClock(e[j - 1])
  }

  function NoteEvents(e: seq<Note>, clock: int): (r: seq<byte>)
    ensures |r| == 8 * |e|
  {
    if e == [] then [] else NoteBytes(e[0], clock) + NoteEvents(e[1..], NextClock(e[0]))
  }

  /** The track payload around the note events. */
  function Payload(events: seq<byte>): (r: seq<byte>)
    ensures |r| == 14 + |events|
  {
    SetTempo + ProgramChange + events + EndOfTrack
  }

  /** The header chunk and the track chunk around a payload. */
  function Framing(track: seq<byte>): (r: seq<byte>)
    ensures |r| == 22 + |track|
  {
    HeaderChunk + TrackMagic + BigEndian32(|track|) + track
  }

  /** The four bytes of `n` as an unsigned 32-bit big-endian integer (`n` taken modulo 2^32). */
  function BigEndian32(n: nat): (r: seq<byte>)
    ensures |r| == 4
  {
    [(n / 0x100_0000) % 256, (n / 0x1_0000) % 256, (n / 0x100) % 256, n % 256]
  }

  /** The whole file, or None when there is nothing recorded (the early exit). */
  function MidiFile(notes: seq<Note>): (r: Option<seq<byte>>)
    ensures r.None? <==> notes == []
  {
    if notes == [] then None
    else
      Some(Framing(Payload(NoteEvents(Emitted(notes), 0))))
  }

  lemma NoteEventsUnfold(e: seq<Note>, i: nat, clock: int)
    requires i < |e|
    ensures NoteEvents(e[i..], clock) == NoteBytes(e[i], clock) + NoteEvents(e[i + 1..], NextClock(e[i]))
  {
    assert e[i..][1..] == e[i + 1..];
  }

  /** createMidiFile: the header, the track length and the track, or nothing for an empty recording. */
  method CreateMidiFile(midiNotes: seq<Note>) returns (file: Option<seq<byte>>)
    ensures file == MidiFile(midiNotes)
  {
    if |midiNotes| == 0 {
      assert midiNotes == [];
      return None;
    }
    var notes := Keep(SortBy(midiNotes, NoteTime));
    var trackData := WriteNotes(SetTempo + ProgramChange, notes);
    trackData := trackData + EndOfTrack;
    file := Some(HeaderChunk + TrackMagic + BigEndian32(|trackData|) + trackData);
    assert trackData == Payload(NoteEvents(notes, 0));
  }

  /** The `forEach` of createMidiFile: the track grows note by note while `currentTime` runs along. */
  method WriteNotes(start: seq<byte>, notes: seq<Note>) returns (trackData: seq<byte>)
    ensures trackData == start + NoteEvents(notes, 0)
  {
    trackData := start;
    var currentTime := 0;
    for i := 0 to |notes|
      invariant start + NoteEvents(notes, 0) == trackData + NoteEvents(notes[i..], currentTime)
    {
      var note := notes[i];
      var deltaTime := Max(0, (note.time - currentTime) / 10);
      var duration := Max(1, note.duration / 10);
      assert deltaTime == DeltaTicks(note.time, currentTime) && duration == DurationTicks(note.duration);
      ghost var written := trackData;
      NoteEventsUnfold(notes, i, currentTime);
      trackData := trackData + [Mask7(deltaTime), 0x90, Mask7(note.midi), Mask7(VelocityOrDefault(note.velocity))];
      trackData := trackData + [Mask7(duration), 0x80, Mask7(note.midi), 0x00];
      assert trackData == written + NoteBytes(note, currentTime);
      currentTime := note.time + duration;
    }
    assert notes[|notes|..] == [];
  }

  // ---------------------------------------------------------------------
  // What the filter and the sort keep

  /** The filter keeps every valid note as often as it occurs, and nothing else. */
  lemma {:induction false} KeepCounts(notes: seq<Note>, n: Note)
    ensures multiset(Keep(notes))[n] == if Emittable(n) then multiset(notes)[n] else 0
  {
    if notes != [] {
      KeepCounts(notes[1..], n);
      assert notes == [notes[0]] + notes[1..];
    }
  }

  lemma {:induction false} KeepValid(notes: seq<Note>)
    ensures forall i :: 0 <= i < |Keep(notes)| ==> Emittable(Keep(notes)[i])
  {
    if notes != [] {
      KeepValid(notes[1..]);
    }
  }

  /** Filtering a sequence ordered by onset leaves it ordered. */
  lemma {:induction false} KeepSorted(notes: seq<Note>)
    requires SortedBy(notes, NoteTime)
    ensures SortedBy(Keep(notes), NoteTime)
  {
    if notes != [] {
      var rest := notes[1..];
      assert SortedBy(rest, NoteTime) by {
        forall i, j | 0 <= i < j < |rest| ensures rest[i].time <= rest[j].time {
          assert rest[i] == notes[i + 1] && rest[j] == notes[j + 1];
        }
      }
      KeepSorted(rest);
      if Emittable(notes[0]) {
        assert forall i :: 0 <= i < |rest| ==> notes[0].time <= rest[i].time by {
          forall i | 0 <= i < |rest| ensures notes[0].time <= rest[i].time {
            assert rest[i] == notes[i + 1];
          }
        }
        KeepAbove(rest, notes[0].time);
      }
    }
  }

  /** The filter keeps a lower bound on the onsets. */
  lemma {:induction false} KeepAbove(notes: seq<Note>, t: int)
    requires forall i :: 0 <= i < |notes| ==> t <= notes[i].time
    ensures forall i :: 0 <= i < |Keep(notes)| ==> t <= Keep(notes)[i].time
  {
    if notes != [] {
      KeepAbove(notes[1..], t);
    }
  }

  /** A sequence of valid notes is left as it is by the filter. */
  lemma {:induction false} KeepAllValid(notes: seq<Note>)
    requires forall i :: 0 <= i < |notes| ==> Emittable(notes[i])
    ensures Keep(notes) == notes
  {
    if notes != [] {
      KeepAllValid(notes[1..]);
      assert notes == [notes[0]] + notes[1..];
    }
  }

  /**
   * The notes written are exactly the valid ones of the input (each as often as it
   * occurs), every one of them is valid, and they come in non-decreasing onset order.
   */
  lemma EmittedNotes(notes: seq<Note>)
    ensures forall j :: 0 <= j < |Emitted(notes)| ==> Emittable(Emitted(notes)[j])
    ensures forall i, j :: 0 <= i < j < |Emitted(notes)| ==> Emitted(notes)[i].time <= Emitted(notes)[j].time
    ensures forall n :: multiset(Emitted(notes))[n] == if Emittable(n) then multiset(notes)[n] else 0
  {
    var sorted := SortBy(notes, NoteTime);
    SortByIsSortedPermutation(notes, NoteTime);
    KeepValid(sorted);
    KeepSorted(sorted);
    forall n ensures multiset(Emitted(notes))[n] == if Emittable(n) then multiset(notes)[n] else 0 {
      KeepCounts(sorted, n);
    }
  }

  /** Valid notes already in onset order are written in the order given. */
  lemma ChronologicalNotesWrittenAsGiven(notes: seq<Note>)
    requires forall i :: 0 <= i < |notes| ==> Emittable(notes[i])
    requires forall i, j :: 0 <= i < j < |notes| ==> notes[i].time <= notes[j].time
    ensures Emitted(notes) == notes
  {
    SortBySorted(notes, NoteTime);
    KeepAllValid(notes);
  }

  // ---------------------------------------------------------------------
  // Layout of the file

  /** The eight bytes of note `j` sit at offset 8·j of the note events. */
  lemma {:induction false} NoteEventsAt(e: seq<Note>, clock: int, j: nat)
    requires j < |e|
    ensures NoteEvents(e, clock)[8 * j .. 8 * j + 8] == NoteBytes(e[j], if j == 0 then clock else NextClock(e[j - 1]))
  {
    if j > 0 {
      NoteEventsAt(e[1..], NextClock(e[0]), j - 1);
      var tail := NoteEvents(e[1..], NextClock(e[0]));
      var lo := 8 * (j - 1);
      assert 8 * j == lo + 8;
      assert NoteEvents(e, clock)[lo + 8 .. lo + 16] == tail[lo .. lo + 8];
      assert j - 1 > 0 ==> e[1..][j - 2] == e[j - 1];
    }
  }

  /**
   * The file is the 14-byte header chunk, `MTrk`, the payload length as a big-endian
   * 32-bit integer, and the payload: tempo and program change, eight bytes per written
   * note, End of Track. For k written notes the payload has 14 + 8·k bytes and the
   * file 36 + 8·k.
   */
  lemma MidiFileLayout(notes: seq<Note>)
    requires notes != []
    ensures var b, e := MidiFile(notes).value, Emitted(notes);
      && |b| == 36 + 8 * |e|
      && b[..14] == HeaderChunk
      && b[14..18] == TrackMagic
      && b[18..22] == BigEndian32(14 + 8 * |e|)
      && b[22..32] == SetTempo + ProgramChange
      && b[|b| - 4..] == EndOfTrack
      && forall j :: 0 <= j < |e| ==> b[32 + 8 * j .. 40 + 8 * j] == NoteBytes(e[j], ClockBefore(e, j))
  {
    var b, e := MidiFile(notes).value, Emitted(notes);
    var opening, events := SetTempo + ProgramChange, NoteEvents(e, 0);
    assert b == HeaderChunk + TrackMagic + BigEndian32(14 + 8 * |e|) + (opening + events + EndOfTrack);
    FileParts(HeaderChunk, TrackMagic, BigEndian32(14 + 8 * |e|), opening, events, EndOfTrack);
    EventsInFile(b, e);
  }

  lemma EventsInFile(b: seq<byte>, e: seq<Note>)
    requires |b| == 36 + 8 * |e| && b[32..|b| - 4] == NoteEvents(e, 0)
    ensures forall j :: 0 <= j < |e| ==> b[32 + 8 * j .. 40 + 8 * j] == NoteBytes(e[j], ClockBefore(e, j))
  {
    forall j | 0 <= j < |e| ensures b[32 + 8 * j .. 40 + 8 * j] == NoteBytes(e[j], ClockBefore(e, j)) {
      EventInFile(b, e, j);
    }
  }

  lemma EventInFile(b: seq<byte>, e: seq<Note>, j: nat)
    requires j < |e| && |b| == 36 + 8 * |e| && b[32..|b| - 4] == NoteEvents(e, 0)
    ensures b[32 + 8 * j .. 40 + 8 * j] == NoteBytes(e[j], ClockBefore(e, j))
  {
    var c := ClockBefore(e, j);
    assert c == if j == 0 then 0 else NextClock(e[j - 1]);
    NoteEventsAt(e, 0, j);
    BlockInFile(b, NoteEvents(e, 0), j, NoteBytes(e[j], c));
  }

  /** The eight bytes at `8 * j` of the note bytes sit at `32 + 8 * j` of the file. */
  lemma BlockInFile<T>(b: seq<T>, events: seq<T>, j: nat, x: seq<T>)
    requires |b| == 36 + |events| && b[32..|b| - 4] == events
    requires 8 * j + 8 <= |events| && events[8 * j .. 8 * j + 8] == x
    ensures b[32 + 8 * j .. 40 + 8 * j] == x
  {
    SliceOfSlice(b, 32, |b| - 4, events, 8 * j, 8 * j + 8, x);
  }

  lemma SliceOfSlice<T>(b: seq<T>, lo: nat, hi: nat, mid: seq<T>, i: nat, k: nat, x: seq<T>)
    requires lo <= hi <= |b| && b[lo..hi] == mid && i <= k <= |mid| && mid[i..k] == x
    ensures b[lo + i..lo + k] == x
  {
    var inner, outer := mid[i..k], b[lo + i..lo + k];
    assert |inner| == |outer|;
    forall m | 0 <= m < |inner| ensures inner[m] == outer[m] {
      assert inner[m] == mid[i + m] == b[lo + i + m];
    }
  }

  /** Where each part of `h + m + l + (o + e + t)` lands, for parts of the sizes a file uses. */
  lemma FileParts<T>(h: seq<T>, m: seq<T>, l: seq<T>, o: seq<T>, e: seq<T>, t: seq<T>)
    requires |h| == 14 && |m| == 4 && |l| == 4 && |o| == 10 && |t| == 4
    ensures var b := h + m + l + (o + e + t);
      && b[..14] == h && b[14..18] == m && b[18..22] == l && b[22..32] == o
      && b[32..|b| - 4] == e && b[|b| - 4..] == t
  {
    var b := h + m + l + (o + e + t);
    assert b[..14] == h;
    assert b[14..18] == m;
    assert b[18..22] == l;
    assert b[22..32] == o;
    assert b[32..|b| - 4] == e;
    assert b[|b| - 4..] == t;
  }

  /**
   * The "no notes" exit looks at the unfiltered list: notes that are all filtered
   * out still give a complete 36-byte file with an empty tune.
   */
  lemma AllFilteredOut(notes: seq<Note>)
    requires notes != []
    requires forall i :: 0 <= i < |notes| ==> !Emittable(notes[i])
    ensures Emitted(notes) == []
    ensures |MidiFile(notes).value| == 36
  {
    EmittedNotes(notes);
    forall n ensures multiset(Emitted(notes))[n] == 0 {
      if Emittable(n) {
        assert n !in notes;
      }
    }
    assert multiset(Emitted(notes)) == multiset{};
    MidiFileLayout(notes);
  }

  // ---------------------------------------------------------------------
  // The single-byte delta-times, as written

  /** A gap of 128 ticks (1280 to 1289 ms past `currentTime`) is written as delta 0. */
  lemma GapOf128TicksWrapsToZero(n: Note, clock: int)
    requires 1280 <= n.time - clock < 1290
    ensures NoteBytes(n, clock)[0] == 0
  {
    assert DeltaTicks(n.time, clock) == 128;
  }

  /** A duration of 1280 to 1289 ms is 128 ticks and is written as note-off delta 0. */
  lemma DurationOf128TicksWrapsToZero(n: Note, clock: int)
    requires 1280 <= n.duration < 1290
    ensures NoteBytes(n, clock)[4] == 0
  {
    assert DurationTicks(n.duration) == 128;
  }

  /**
   * `currentTime` adds a duration in ticks to an onset in ms, so a note that starts
   * exactly when the previous one ends still gets a non-zero delta once the previous
   * note lasts 11 ms or more.
   */
  lemma BackToBackNotesGetAGap(prev: Note, next: Note)
    requires 11 <= prev.duration <= 1000
    requires next.time == prev.time + prev.duration
    ensures 0 < NoteBytes(next, NextClock(prev))[0] < 128
  {
    var d := prev.duration;
    assert DurationTicks(d) == d / 10;
    assert next.time - NextClock(prev) == d - d / 10;
    assert 10 <= d - d / 10 < 1280;
  }
}
