# scully2midi, modelled in Dafny

scully2midi listens to a sound in the browser and turns the dominant pitch
into MIDI. On every animation frame, `draw` runs this pipeline:

1. `findPeaks` picks the loudest peak of up to nine octave bands of the
   magnitude spectrum.
2. `findClosestNote` names the frequency of the strongest peak by the
   nearest entry of the `noteFrequencies` table.
3. `noteToMidi` and `intensityToVelocity` turn that frequency and the energy
   there into a MIDI number and a velocity.
4. The recording block of `draw` segments the stream of MIDI numbers into
   notes.

Stopping playback by a click (`mouseClicked` in sketch.js, `togglePlayback`
in sketch_circular_viz.js) hands the recorded notes, the open one included,
to `createMidiFile`. Switching the sound (`loadNewSound`) while it plays
hands on only the notes already committed. That function writes a one-track
Standard MIDI File with single-byte delta-times.

When the sound plays to its end by itself, nothing is exported. `draw` stops
recording because `sound.isPlaying()` is false, but the notes stay. The next
click then takes the start branch of `togglePlayback` (and of `mouseClicked`),
which clears them without writing a file. A sound switch at that point skips
the export too, because it also tests `isPlaying()`. The model has this as
`Recorder.PlaybackEnded`, and `Recorder.ClickAfterEnd` states the loss.

The two sketches carry the same pipeline. The model is written once. Where
they differ, the model follows sketch_circular_viz.js, whose `generateMidi`
flag gates every export. sketch.js behaves as if that flag were always on.

Modules:

- `MidiEncoder` (midi_encoder.dfy): the file as a byte-sequence function
  `MidiFile`. `CreateMidiFile` builds the same bytes the way the program
  does: sort, filter, then a loop that appends eight bytes per note while
  `currentTime` runs along.
- `MidiDecoder` (midi_decoder.dfy): a reader for exactly these files. It is
  the partner of the encoder: written files read back as one message per
  written note.
- `Sorting` (sorting.dfy): the stable sort that `Array.prototype.sort`
  performs with a numeric comparator. It is used both for the notes by onset
  and for the peaks by magnitude.
- `PeakPicker` (peak_picker.dfy): `findPeaks` as nested loops, `FindPeaks`
  and `ScanBand`, proved equal to the function `Peaks`. Lemmas say what that
  result is.
- `NoteClassifier` (note_classifier.dfy): the table with exact `real`
  literals. `findClosestNote` appears as its two nested loops and the
  `forEach` callback, proved equal to the function `ClosestNote`. The module
  also holds `noteToMidi` and `intensityToVelocity`.
- `Segmenter` (recorder.dfy): the class `Recorder`, whose fields are the
  sketch's globals `midiNotes`, `lastNote`, `lastNoteTime`, `startTime`,
  `isRecording` and `generateMidi`. A `playing` field stands for
  `sound.isPlaying()`. The constructor and every method except the step
  `FinalizeLastNote` keep the invariant `Valid()`. `FinalizeLastNote` sets
  `midiNotes` to the flushed notes, gives the draft its closing duration and
  leaves every other field as it was; of `Valid()` it keeps only the log
  part, since the closed draft now has a duration. `Valid()` is:
  - the committed notes have positive durations and strictly rising onsets;
  - an open draft started at `startTime + draft.time`;
  - the draft comes after every committed note.

The nondeterministic inputs are parameters:

- each `millis()` reading is `now`, with a ghost `clock` requiring it never
  to go back;
- the spectrum is a sequence of integers, the byte magnitudes p5's FFT
  reports;
- the rounded peak frequency, the rounded `69 + 12·log2(f/440)` and the
  rounded `intensity·127` are integers handed to `Recorder.Frame`.

`loadNewSound` sets the duration of the open note
(sketch_circular_viz.js:193-195; sketch.js:121-123) but never pushes it, so
the note in progress is lost. A click on stop would have kept it.
`Recorder.SwitchSound` exports the committed notes only, as the code does.
`SwitchLosesDraft` states the difference: the switch writes no file where a
stop writes one, or a file one note shorter.

## Model

| member | source | states |
|---|---|---|
| `MidiEncoder.Mask7` | sketch.js:219-229 | `x & 0x7F` is a byte below 128 congruent to x modulo 128, and the identity on 0..127 |
| `MidiEncoder.MidiFile` | sketch.js:150-154 | there is no file exactly when the unfiltered note list is empty |
| `MidiEncoder.CreateMidiFile` | sketch.js:150-252 | the file built by appending step by step is exactly `MidiFile` of the notes |
| `MidiEncoder.WriteNotes` | sketch.js:211-237 | the `forEach` appends exactly the eight-byte groups of all notes, with `currentTime` starting at 0 and threaded from note to note |
| `MidiEncoder.DeltaTicks` | sketch.js:214 | its value is `max(0, floor((time − currentTime) / 10))`, the whole 10 ms steps to the onset; the ensures bound it: never negative, 0 for an onset less than 10 ms later (or earlier), otherwise between 1 and the gap |
| `MidiEncoder.DurationTicks` | sketch.js:215 | its value is `max(1, floor(duration / 10))`; the ensures bound it: at least 1, exactly 1 below 20 ms, at most the duration when that is positive |
| `MidiEncoder.VelocityOrDefault` | sketch.js:222 | `note.velocity \|\| 64`: a zero velocity becomes 64, any other is kept |
| `MidiEncoder.NextClock` | sketch.js:233 | `currentTime` after a note lies strictly after its onset |
| `MidiEncoder.NoteBytes` | sketch.js:218-231 | one note is exactly eight bytes: note-on after the delta, note-off after the duration |
| `MidiEncoder.NoteEvents` | sketch.js:213-237 | the bytes the `forEach` appends are eight per note; `NoteEventsAt` places each note's bytes and its clock, and `MidiDecoder.ParseNoteEvents` reads them back |
| `MidiEncoder.Emittable` | sketch.js:208 | the filter test 0 ≤ midi ≤ 127 and duration > 0; `KeepCounts` and `KeepValid` state that the filter keeps exactly the notes passing it |
| `MidiEncoder.Payload` | sketch.js:186-240 | the track data is 14 bytes longer than the note events: tempo and program change before them, End of Track after; `MidiFileLayout` gives the bytes |
| `MidiEncoder.Framing` | sketch.js:158-252 | the file is 22 bytes longer than the track data: header chunk, `MTrk` and the length field before it; `MidiFileLayout` gives the bytes and `MidiDecoder.ParseFramedTrack` reads them back |
| `MidiEncoder.BigEndian32` | sketch.js:243-244 | the length field is four bytes; `MidiDecoder.BigEndian32RoundTrip` gives its value |
| `MidiEncoder.Keep` | sketch.js:207-209 | the filter keeps at most the notes it is given; `KeepCounts` states exactly which |
| `MidiEncoder.Emitted` | sketch.js:205-209 | sort then filter write at most the notes recorded; `EmittedNotes` states exactly which and in which order |
| `MidiEncoder.KeepCounts` | sketch.js:207-209 | the filter keeps every note with 0 ≤ midi ≤ 127 and duration > 0, as often as it occurs, and nothing else |
| `MidiEncoder.KeepValid` | sketch.js:207-209 | every note the filter keeps passes the test |
| `MidiEncoder.KeepSorted` | sketch.js:205-209 | filtering a list ordered by onset leaves it ordered |
| `MidiEncoder.KeepAbove` | sketch.js:207-209 | filtering keeps a lower bound on the onsets |
| `MidiEncoder.KeepAllValid` | sketch.js:207-209 | a list of valid notes passes the filter unchanged |
| `MidiEncoder.EmittedNotes` | sketch.js:204-209 | the notes written are the valid ones of the input, with their multiplicities, in non-decreasing onset order |
| `MidiEncoder.ChronologicalNotesWrittenAsGiven` | sketch.js:204-209 | valid notes already in onset order are written in the order given |
| `MidiEncoder.NoteEventsAt` | sketch.js:213-233 | the eight bytes of note j sit at offset 8·j and use the clock left by note j−1 |
| `MidiEncoder.MidiFileLayout` | sketch.js:158-252 | the file is `MThd 00 00 00 06 00 00 00 01 00 60`, `MTrk`, the big-endian length 14 + 8·k, `00 FF 51 03 07 A1 20 00 C0 00`, each note's eight bytes, and `00 FF 2F 00`; its size is 36 + 8·k for k written notes |
| `MidiEncoder.EventsInFile` | sketch.js:213-252 | every written note's bytes sit at offset 32 + 8·j of the file |
| `MidiEncoder.EventInFile` | sketch.js:213-252 | note j's bytes sit at offset 32 + 8·j of the file |
| `MidiEncoder.AllFilteredOut` | sketch.js:150-209 | a non-empty list whose notes are all filtered out still gives a complete 36-byte file with no notes |
| `MidiEncoder.GapOf128TicksWrapsToZero` | sketch.js:214-219 | a gap of 128 ticks is written as delta 0 |
| `MidiEncoder.DurationOf128TicksWrapsToZero` | sketch.js:215-227 | a duration of 128 ticks is written as note-off delta 0 |
| `MidiEncoder.BackToBackNotesGetAGap` | sketch.js:213-233 | because `currentTime` adds ticks to milliseconds, a note starting exactly when the previous one (11 ms to 1 s long) ends still gets a non-zero delta |
| `Sorting.SortBy` | sketch.js:205-206 | the stable insertion sort behind `Array.prototype.sort` with a numeric comparator keeps the length; the lemmas below say the rest |
| `Sorting.SortByIsSortedPermutation` | sketch.js:205-206 | the sort orders by key and is a permutation of its input |
| `Sorting.SortByIsStable` | sketch.js:205-206 | elements with equal keys keep their relative order |
| `Sorting.SortBySorted` | sketch.js:205-206 | an already ordered list is left as it is |
| `MidiDecoder.BigEndian32RoundTrip` | sketch.js:242-250 | the length field reads back as the payload length modulo 2^32 |
| `MidiDecoder.SmallLengthRoundTrip` | sketch.js:242-250 | a payload length below 2^32 reads back unchanged |
| `MidiDecoder.ParseNoteEvents` | sketch.js:213-237 | the note bytes read back as one message per note, in order |
| `MidiDecoder.ParseFramedTrack` | sketch.js:158-252 | the reader accepts the header, length, tempo, program change and End of Track around any note bytes |
| `MidiDecoder.MidiRoundTrip` | sketch.js:150-252 | reading back a written file gives one message per written note, in onset order, while the payload length fits in 32 bits |
| `MidiDecoder.MessagesKeepKeyAndVelocity` | sketch.js:218-231 | for valid notes with velocity 1..127, the key byte is the MIDI number and the velocity byte the velocity |
| `PeakPicker.FindPeaks` | sketch.js:431-472 | the nested loops, sort and slice return exactly `Peaks` of the spectrum |
| `PeakPicker.ScanBand` | sketch.js:446-461 | the inner loop ends with the bin the band scan selects and its value above the threshold, or with 0 and 0 when the band has no peak |
| `PeakPicker.BandStart` | sketch.js:439-444 | the first bin of band b is `floor(N·2^(b−9))`, computed as nine minus b halvings; `BandBounds` places it |
| `PeakPicker.BandEnd` | sketch.js:439-444 | one past the last bin of band b is `floor(N·2^(b−8))`, computed as eight minus b halvings; `BandBounds` places it |
| `PeakPicker.IsPeak` | sketch.js:451-456 | the test of the inner loop: above 30 and strictly above both neighbours, never the first or last bin, whose missing neighbour makes the comparison false |
| `PeakPicker.BandScan` | sketch.js:450-461 | the bin the inner loop holds after a prefix of the band lies in that prefix; `BandScanFindsFirstMaximum` characterises it |
| `PeakPicker.Peaks` | sketch.js:431-472 | findPeaks returns at most three bins; the lemmas below say which |
| `PeakPicker.BandPeaks` | sketch.js:438-466 | the `peaks` array after the band loop holds bins inside the spectrum; `BandPeaksArePeaks`, `BandPeaksRise`, `BandPeaksAreBandMaxima`, `BandPeaksOnePerBand` and `BandPeaksEmpty` say which |
| `PeakPicker.Magnitude` | sketch.js:469 | `frequencies[k]`, the value the comparator reads; `PeaksByMagnitude` and `PeaksAreTheLoudest` state the order it induces |
| `PeakPicker.Louder` | sketch.js:469 | the comparator `frequencies[b] − frequencies[a]` as a sort key, louder first; `PeaksByMagnitude` states that the result is in non-increasing magnitude |
| `PeakPicker.HalveIsDivision` | sketch.js:439-444 | halving k times is integer division by 2^k, so band b spans N / 2^(9−b) up to N / 2^(8−b) |
| `PeakPicker.BandBounds` | sketch.js:438-444 | each band lies inside the spectrum and ends where the next starts |
| `PeakPicker.BandStartMonotone` | sketch.js:438-444 | band starts do not decrease |
| `PeakPicker.BandsDisjoint` | sketch.js:438-444 | an earlier band ends before a later one starts |
| `PeakPicker.OneBand` | sketch.js:438-444 | a bin lies in at most one band |
| `PeakPicker.BandsCover` | sketch.js:438-444 | every bin from the start of band c to the end of the spectrum lies in band c or a later one |
| `PeakPicker.BandScanFindsFirstMaximum` | sketch.js:450-461 | the scan finds nothing exactly when the band has no peak; otherwise it finds a peak (above 30, strictly above both neighbours, never the first or last bin), as large as every peak of the band and strictly larger than those before it |
| `PeakPicker.NewBandPeak` | sketch.js:463-465 | a band's peak is appended, is a peak, and lies in that band only |
| `PeakPicker.NoNewBandPeak` | sketch.js:463-465 | a band without a peak adds nothing |
| `PeakPicker.BandPeaksArePeaks` | sketch.js:438-466 | every pushed bin is a peak at or after the first band's start and before the end of the bands seen |
| `PeakPicker.BandPeaksRise` | sketch.js:438-466 | pushed bins rise strictly |
| `PeakPicker.BandPeaksAreBandMaxima` | sketch.js:438-466 | every pushed bin is the bin its band's scan selects |
| `PeakPicker.BandPeaksOnePerBand` | sketch.js:438-466 | no two pushed bins share a band |
| `PeakPicker.BandPeaksEmpty` | sketch.js:438-466 | nothing is pushed exactly when no band has a peak |
| `PeakPicker.ReorderedBandPeaks` | sketch.js:468-469 | any reordering of the pushed bins keeps them peaks, band maxima, one per band |
| `PeakPicker.PeaksAreBandPeaks` | sketch.js:438-471 | the result has min(3, number of band peaks) bins, each a peak and its band's maximum, no two in one band |
| `PeakPicker.PeaksByMagnitude` | sketch.js:468-471 | the result is ordered by non-increasing magnitude |
| `PeakPicker.PeaksAreTheLoudest` | sketch.js:468-471 | a band peak left out means three were returned, none quieter than it |
| `PeakPicker.PeaksEmptyIff` | sketch.js:468-471 | the result is empty exactly when no bin was pushed |
| `PeakPicker.NoPeakNoResult` | sketch.js:431-472 | the result is empty exactly when no bin from the first band on is a peak |
| `NoteClassifier.FindClosestNote` | sketch_circular_viz.js:86-112 | the loops return exactly `ClosestNote` of the frequency |
| `NoteClassifier.ClosestNote` | sketch_circular_viz.js:86-112 | the label of the first nearest table entry when the frequency is within 5 % of it, otherwise "Unknown"; `ClosestNoteIsFirstNearestEntry` and `ClosestNoteIsLabelOrUnknown` characterise it |
| `NoteClassifier.Difference` | sketch_circular_viz.js:94 | `Math.abs(frequency − noteFreq)`, the distance the scan compares; `FirstLeastIsFirstMinimum` states that the scan keeps the entry with the least one |
| `NoteClassifier.Percentage` | sketch_circular_viz.js:95 | `(difference / noteFreq)·100` is defined (the table is positive) and never negative |
| `NoteClassifier.Differences` | sketch_circular_viz.js:92-95 | the differences in the order the loops visit the entries, one per entry |
| `NoteClassifier.FirstLeast` | sketch_circular_viz.js:97-102 | the held index lies among the entries visited; `FirstLeastIsFirstMinimum` states that it is the first least one |
| `NoteClassifier.Closest` | sketch_circular_viz.js:92-104 | the entry held after all twelve names and nine octaves (108 entries) is a table entry; `FirstLeastIsFirstMinimum` makes it the first nearest, and `ScanSettles` ties the loops to it |
| `NoteClassifier.ScanOctaves` | sketch_circular_viz.js:92-104 | after a name's nine octaves, the variables hold the first entry with the least difference so far, its name, octave, difference and percentage |
| `NoteClassifier.VisitEntry` | sketch_circular_viz.js:93-103 | the callback replaces the held entry only by a strictly closer one, keeping the scan invariant one entry further |
| `NoteClassifier.ScanStep` | sketch_circular_viz.js:97-102 | one more entry keeps the held entry the first least one |
| `NoteClassifier.ScanSettles` | sketch_circular_viz.js:92-104 | a scan that held the first least entry over all entries agrees with `Closest` |
| `NoteClassifier.FirstLeastIsFirstMinimum` | sketch_circular_viz.js:97-102 | the chosen entry has the least absolute difference, and every earlier entry is strictly farther (ties go to the earliest in C..B, octave 0..8 order) |
| `NoteClassifier.ClosestNoteIsFirstNearestEntry` | sketch_circular_viz.js:92-111 | when entry k is the first with the least difference, the result is k's label if k is within 5 %, otherwise "Unknown" |
| `NoteClassifier.ClosestNoteIsLabelOrUnknown` | sketch_circular_viz.js:106-111 | the result is "Unknown" or some entry's label, and "Unknown" exactly when the closest entry is more than 5 % away |
| `NoteClassifier.Label` | sketch_circular_viz.js:107 | a label is the name followed by the octave digit |
| `NoteClassifier.LabelIsNotUnknown` | sketch_circular_viz.js:107-110 | no label reads "Unknown" |
| `NoteClassifier.LabelsDiffer` | sketch_circular_viz.js:107 | different entries have different labels |
| `NoteClassifier.TableIsPositive` | sketch.js:10-27 | every table frequency is at least 16.35 Hz, so the percentage is defined |
| `NoteClassifier.PitchOf` | sketch.js:10-27 | entry k (name k / 9, octave k % 9) has pitch 12·octave + name |
| `NoteClassifier.PitchRises` | sketch.js:10-27 | the table read in pitch order rises strictly |
| `NoteClassifier.TableIsInjective` | sketch.js:10-27 | no two entries share a frequency |
| `NoteClassifier.TableValueIsClosest` | sketch_circular_viz.js:92-104 | a frequency equal to a table value selects that entry |
| `NoteClassifier.TableValueGetsItsOwnLabel` | sketch_circular_viz.js:86-112 | a frequency equal to a table value is labelled with that entry's own name and octave |
| `NoteClassifier.NonPositiveIsUnknown` | sketch_circular_viz.js:86-112 | a frequency at or below 0 is nearest C0 and is "Unknown" |
| `NoteClassifier.NoteToMidi` | sketch.js:30-34 | 0 for a frequency at or below 0; otherwise the rounded pitch number it is given |
| `NoteClassifier.IntensityToVelocity` | sketch.js:37-39 | the smaller of 127 and the scaled intensity |
| `Segmenter.ClampVelocity` | sketch_circular_viz.js:421 | `Math.min(127, Math.max(1, v))` lies in 1..127 and keeps values already in range |
| `Segmenter.Flushed` | sketch_circular_viz.js:630-636 | a stop hands on the committed notes, then at most the closed draft |
| `Segmenter.LogAppend` | sketch_circular_viz.js:405-413 | appending a committed note later than every logged one keeps the log ordered and valid |
| `Segmenter.FlushedIsLog` | sketch_circular_viz.js:630-636 | what a stop flushes is still a log: positive durations, strictly rising onsets |
| `Segmenter.SwitchLosesDraft` | sketch_circular_viz.js:188-203 | a draft open for a positive time becomes the last note of what a stop flushes, with the draft's key, velocity and onset; the file of the committed notes alone, which a switch exports, differs from the stop's: none when nothing was committed, otherwise exactly eight bytes (one note) shorter |
| `Segmenter.LogIsWrittenAsRecorded` | sketch_circular_viz.js:276-281 | a recorded log passes the sort and the filter unchanged |
| `Segmenter.ExportedLogReadsBack` | sketch_circular_viz.js:222-324 | an exported log reads back as one message per recorded note, in recording order, with each note's key and velocity |
| `Segmenter.Recorder.constructor` | sketch_circular_viz.js:1-8 | the globals' initial values: no notes, no draft, times 0, not recording, MIDI generation on |
| `Segmenter.Recorder.Frame` | sketch_circular_viz.js:388-440 | state changes only when recording, playing, freq > 0, the label is not "Unknown" and the MIDI number is in 0..127; then as `Heard` says; the invariant is kept |
| `Segmenter.Recorder.Heard` | sketch_circular_viz.js:402-438 | the state after a recordable frame: the same MIDI number keeps notes and draft; a different one (or no draft) flushes the draft and opens a new one at `now − startTime` with the clamped velocity and `lastNoteTime = now` |
| `Segmenter.Recorder.Segment` | sketch_circular_viz.js:402-438 | the same MIDI number changes nothing; otherwise the draft is committed if its duration is positive, and a new draft opens at `now − startTime` with duration 0 and clamped velocity, with `lastNoteTime = now` |
| `Segmenter.Recorder.Stop` | sketch_circular_viz.js:621-650 | the stop branch: not playing, not recording, the file of the flushed notes exported when there are any and generation is on, notes and draft cleared, the times unchanged |
| `Segmenter.Recorder.Start` | sketch_circular_viz.js:651-669 | the start branch: playing, recording, notes and draft cleared, `startTime = lastNoteTime = now` |
| `Segmenter.Recorder.FinalizeLastNote` | sketch_circular_viz.js:630-636 | the draft is closed at `now` and appended when its duration is positive; the notes remain a log |
| `Segmenter.Recorder.Toggle` | sketch_circular_viz.js:614-676 | stop: not playing, not recording, the file of the flushed notes exported when there are any and generation is on, notes and draft cleared; start: playing, recording, cleared, `startTime = lastNoteTime = now` |
| `Segmenter.Recorder.PlaybackEnded` | sketch_circular_viz.js:388-392 | the sound reaching its end turns `playing` off and changes nothing else; the invariant is kept, so later frames record nothing while the notes and the draft stay |
| `Segmenter.Recorder.ClickAfterEnd` | sketch_circular_viz.js:651-669 | a click after the sound has ended starts a new session: no file is written, the notes and draft recorded before the end are cleared, `startTime = lastNoteTime = now`, the clock reads `now`, and the `generateMidi` flag is kept |
| `Segmenter.Recorder.SwitchSound` | sketch_circular_viz.js:188-203 | while playing: stop and export only the committed notes when there are any and generation is on; in all cases clear notes and draft, leaving `isRecording` as it was |
| `Segmenter.Recorder.SetGenerateMidi` | sketch_circular_viz.js:155-160 | the checkbox sets the flag and nothing else |

## Left out

- Drawing and the user interface: the spectrum, waveform and circular views, the note history and colours, the DOM wiring, the file and preset inputs.
- The `!sound` and mouse-position guards of `mouseClicked` and `togglePlayback`, and the `try`/`catch` around them. The model assumes a loaded sound and a click inside the canvas.
- p5's `FFT.analyze` and `getEnergy`, and the audio context. These are foreign calls, so their results are inputs.
- Floating point. Several values are integer inputs instead:
  - `Math.log2` and the rounding in `noteToMidi`;
  - the rounding of `intensity·127` in `intensityToVelocity`;
  - the bin width and `Math.round(peaks[0]·binWidth)`.
- NaN is not modelled. With no peak the frequency is NaN, and the `freq > 0` guard rejects it; `findClosestNote(NaN)` itself would return "0".
- The classifier compares exact reals, whereas the program compares doubles. This can matter only for a frequency within rounding error of a tie or of the 5 % boundary.
- The asynchronous start. `resume().then(...)` is modelled as running at once.
- The `loadSound` success callbacks. In sketch.js the callback also starts playback and resets `startTime`. It runs at an unpredictable later time, and a start clicked before it fires would see `startTime` move under an open draft.
- The host-endianness trick for the track length (`Uint32Array` then `.reverse()`). It is modelled by its intended effect, a big-endian 32-bit field.
- The in-place sort of `midiNotes` by `createMidiFile`. Every caller clears `midiNotes` right after exporting, so the reordering is never observed.
- Fractional milliseconds. p5's `millis()` returns a fractional value, but `now`, onsets and durations are integers, so `DeltaTicks` and `DurationTicks` floor whole milliseconds only; `BackToBackNotesGetAGap`'s lower bound of 11 ms, for one, is stated for whole-millisecond durations.
- The `Blob`, the download link, the file name, and the console output.
- `MidiDecoder.MidiRoundTrip` and `Segmenter.ExportedLogReadsBack` require a payload shorter than 2^32 bytes. For longer payloads the length field wraps, as `BigEndian32RoundTrip` states.
