/**
 * The note segmenter: the recording block of `draw`, playback start and stop
 * (`mouseClicked` in sketch.js, `togglePlayback` in sketch_circular_viz.js)
 * and the reset in `loadNewSound`. The recorder opens a draft note, keeps it
 * while the MIDI number stays the same, and commits it when a different
 * number arrives or recording stops.
 *
 * `millis()` readings are the `now` parameters; `sound.isPlaying()` is the
 * `playing` field.
 */
module Segmenter {
  import opened Wrappers
  import opened MidiEncoder
  import MidiDecoder
  import NoteClassifier

  /** A draft as a frame opens it: duration 0, a MIDI number, a clamped velocity. */
  predicate Draft(n: Note) {
    n.duration == 0 && 0 <= n.midi <= 127 && 1 <= n.velocity <= 127
  }

  /** A note as the recorder commits it to `midiNotes`. */
  predicate Committed(n: Note) {
    n.duration > 0 && 0 <= n.midi <= 127 && 1 <= n.velocity <= 127
  }

  /** Committed notes in strictly rising onset time. */
  predicate Log(notes: seq<Note>) {
    && (forall i :: 0 <= i < |notes| ==> Committed(notes[i]))
    && (forall i, j :: 0 <= i < j < |notes| ==> notes[i].time < notes[j].time)
  }

  /**
   * The recording globals of a session: the committed notes form a log, a
   * draft (if any) started at `lastNoteTime == startTime + draft.time`, no
   * later than the last clock reading, and after every committed note.
   * There are committed notes only while a draft is open.
   */
  predicate Session(notes: seq<Note>, draft: Option<Note>, lastNoteTime: int, startTime: int, clock: int) {
    && Log(notes)
    && (draft.Some? ==> Draft(draft.value) && lastNoteTime == startTime + draft.value.time && lastNoteTime <= clock)
    && (notes != [] ==> draft.Some? && notes[|notes| - 1].time < draft.value.time)
  }

  /** `Math.min(127, Math.max(1, velocity))` */
  function ClampVelocity(v: int): (r: int)
    ensures 1 <= r <= 127
    ensures 1 <= v <= 127 ==> r == v
    ensures v < 1 ==> r == 1
    ensures v > 127 ==> r == 127
  {
    if v < 1 then 1 else if v > 127 then 127 else v
  }

  /**
   * The notes a stop hands to createMidiFile: the committed ones, then the
   * draft closed at `now` when its duration `now - lastNoteTime` is positive.
   */
  function Flushed(notes: seq<Note>, draft: Option<Note>, lastNoteTime: int, now: int): (r: seq<Note>)
    ensures |notes| <= |r| <= |notes| + 1 && r[..|notes|] == notes
  {
    if draft.Some? && now - lastNoteTime > 0 then notes + [draft.value.(duration := now - lastNoteTime)]
    else notes
  }

  /** A log stays a log when a committed note later than all of it is appended. */
  lemma LogAppend(notes: seq<Note>, n: Note)
    requires Log(notes) && Committed(n)
    requires notes != [] ==> notes[|notes| - 1].time < n.time
    ensures Log(notes + [n])
  {
    var r := notes + [n];
    forall i, j | 0 <= i < j < |r| ensures r[i].time < r[j].time {
      if j == |notes| && i < |notes| - 1 {
        assert notes[i].time < notes[|notes| - 1].time;
      }
    }
  }

  /** What a stop flushes is a log: the closed draft comes after every committed note. */
  lemma FlushedIsLog(notes: seq<Note>, draft: Option<Note>, lastNoteTime: int, startTime: int, clock: int, now: int)
    requires Session(notes, draft, lastNoteTime, startTime, clock)
    ensures Log(Flushed(notes, draft, lastNoteTime, now))
  {
    if draft.Some? && now - lastNoteTime > 0 {
      LogAppend(notes, draft.value.(duration := now - lastNoteTime));
    }
  }

  /**
   * A draft open for a positive time is a note worth keeping: a stop commits
   * it as the last note, with the draft's key, velocity and onset. Switching
   * the sound exports only the committed notes (`MidiFile(notes)`, as
   * `Recorder.SwitchSound` ensures), so this note is lost there: the switch
   * writes no file where the stop writes one, or a file one note (eight
   * bytes) shorter.
   */
  lemma SwitchLosesDraft(notes: seq<Note>, draft: Option<Note>, lastNoteTime: int, startTime: int, clock: int, now: int)
    requires Session(notes, draft, lastNoteTime, startTime, clock)
    requires draft.Some? && now > lastNoteTime
    ensures var flushed := Flushed(notes, draft, lastNoteTime, now);
      && |flushed| == |notes| + 1 && Committed(flushed[|notes|])
      && flushed[|notes|].midi == draft.value.midi && flushed[|notes|].velocity == draft.value.velocity
      && flushed[|notes|].time == draft.value.time && Log(flushed)
    ensures var flushed := Flushed(notes, draft, lastNoteTime, now);
      && MidiFile(flushed).Some? && MidiFile(notes) != MidiFile(flushed)
      && (notes == [] ==> MidiFile(notes).None?)
      && (notes != [] ==> |MidiFile(notes).value| + 8 == |MidiFile(flushed).value|)
  {
    FlushedIsLog(notes, draft, lastNoteTime, startTime, clock, now);
    var flushed := Flushed(notes, draft, lastNoteTime, now);
    LogIsWrittenAsRecorded(flushed);
    MidiFileLayout(flushed);
    if notes != [] {
      LogIsWrittenAsRecorded(notes);
      MidiFileLayout(notes);
    }
  }

  /** A log goes into the MIDI file as recorded: every note passes the filter and sorting keeps the order. */
  lemma LogIsWrittenAsRecorded(notes: seq<Note>)
    requires Log(notes)
    ensures Emitted(notes) == notes
  {
    ChronologicalNotesWrittenAsGiven(notes);
  }

  /**
   * The file exported for a non-empty log reads back as one note message per
   * recorded note, in recording order, each with the note's own key and
   * velocity.
   */
  lemma ExportedLogReadsBack(notes: seq<Note>)
    requires Log(notes) && notes != []
    requires 14 + 8 * |notes| < 0x1_0000_0000
    ensures MidiDecoder.ParseMidi(MidiFile(notes).value) == Some(MidiDecoder.Messages(notes, 0))
    ensures forall j :: 0 <= j < |notes| ==>
      MidiDecoder.Messages(notes, 0)[j].key == notes[j].midi &&
      MidiDecoder.Messages(notes, 0)[j].velocity == notes[j].velocity
  {
    LogIsWrittenAsRecorded(notes);
    MidiDecoder.MidiRoundTrip(notes);
    forall j | 0 <= j < |notes|
      ensures MidiDecoder.Messages(notes, 0)[j].key == notes[j].midi
      ensures MidiDecoder.Messages(notes, 0)[j].velocity == notes[j].velocity
    {
      MidiDecoder.MessagesKeepKeyAndVelocity(notes, 0, j);
      assert Committed(notes[j]);
    }
  }

  class Recorder {
    var midiNotes: seq<Note>
    var lastNote: Option<Note>
    var lastNoteTime: int
    var startTime: int
    var isRecording: bool
    /** `sound.isPlaying()` */
    var playing: bool
    /** The "generate MIDI" checkbox of sketch_circular_viz.js; sketch.js always exports. */
    var generateMidi: bool
    /** The latest `millis()` reading handed to the recorder. */
    ghost var clock: int

    ghost predicate Valid()
      reads this
    {
      Session(midiNotes, lastNote, lastNoteTime, startTime, clock)
    }

    /** The globals' initial values. */
    constructor ()
      ensures Valid()
      ensures midiNotes == [] && lastNote.None? && lastNoteTime == 0 && startTime == 0
      ensures !isRecording && !playing && generateMidi && clock == 0
    {
      midiNotes := [];
      lastNote := None;
      lastNoteTime := 0;
      startTime := 0;
      isRecording := false;
      playing := false;
      generateMidi := true;
      clock := 0;
    }

    /**
     * The recording block of one `draw` frame. `freq` is the rounded peak
     * frequency, `pitch` the rounded `69 + 12 * log2(freq / 440)` and
     * `scaled` the rounded `intensity * 127`. The frame records only while
     * recording and playing, for a positive frequency that has a note name
     * and a MIDI number in 0..127.
     */
    method Frame(now: int, freq: int, pitch: int, scaled: int)
      requires Valid() && clock <= now
      modifies this
      ensures Valid() && clock == now
      ensures isRecording == old(isRecording) && playing == old(playing) && generateMidi == old(generateMidi)
      ensures startTime == old(startTime)
      ensures var name := NoteClassifier.ClosestNote(freq as real);
        var midiNote := NoteClassifier.NoteToMidi(freq as real, pitch);
        if old(isRecording) && old(playing) && freq > 0 && name != NoteClassifier.Unknown && 0 <= midiNote <= 127
        then Heard(old(midiNotes), old(lastNote), old(lastNoteTime), now, midiNote, NoteClassifier.IntensityToVelocity(scaled), name)
        else midiNotes == old(midiNotes) && lastNote == old(lastNote) && lastNoteTime == old(lastNoteTime)
    {
      clock := now;
      var musicalNote := NoteClassifier.FindClosestNote(freq as real);
      if isRecording && playing && freq > 0 && musicalNote != NoteClassifier.Unknown {
        var midiNote := NoteClassifier.NoteToMidi(freq as real, pitch);
        if 0 <= midiNote <= 127 {
          var velocity := NoteClassifier.IntensityToVelocity(scaled);
          Segment(now, midiNote, velocity, musicalNote);
          return;
        }
      }
      assert midiNotes == old(midiNotes) && lastNote == old(lastNote) && lastNoteTime == old(lastNoteTime);
    }

    /**
     * The new state after a frame heard `midiNote`: the same number keeps
     * the draft; a different one (or none open) commits the draft when its
     * duration `now - lastNoteTime` is positive and opens a new draft at
     * `now` with the clamped velocity.
     */
    ghost predicate Heard(notes: seq<Note>, draft: Option<Note>, time: int, now: int, midiNote: int, velocity: int, name: string)
      reads this
    {
      if draft.Some? && draft.value.midi == midiNote then
        midiNotes == notes && lastNote == draft && lastNoteTime == time
      else
        && midiNotes == Flushed(notes, draft, time, now)
        && lastNote == Some(Note(midiNote, ClampVelocity(velocity), now - startTime, name, 0))
        && lastNoteTime == now
    }

    /** The segmenting step of a frame whose note is recordable. */
    method Segment(now: int, midiNote: int, velocity: int, name: string)
      requires Valid() && clock == now && 0 <= midiNote <= 127
      modifies this
      ensures Valid() && clock == now
      ensures isRecording == old(isRecording) && playing == old(playing) && generateMidi == old(generateMidi)
      ensures startTime == old(startTime)
      ensures Heard(old(midiNotes), old(lastNote), old(lastNoteTime), now, midiNote, velocity, name)
    {
      var draft := Note(midiNote, ClampVelocity(velocity), now - startTime, name, 0);
      if lastNote.Some? {
        if lastNote.value.midi != midiNote {
          var duration := now - lastNoteTime;
          if duration > 0 {
            LogAppend(midiNotes, lastNote.value.(duration := duration));
            midiNotes := midiNotes + [lastNote.value.(duration := duration)];
          }
          lastNote := Some(draft);
          lastNoteTime := now;
        }
      } else {
        lastNote := Some(draft);
        lastNoteTime := now;
      }
    }

    /**
     * mouseClicked / togglePlayback. While playing: stop, close the draft,
     * append it when its duration is positive, export when there are notes
     * (and, in sketch_circular_viz.js, MIDI generation is on), then clear the
     * notes and the draft. Otherwise: start a new session at `now`.
     */
    method Toggle(now: int) returns (file: Option<seq<byte>>)
      requires Valid() && clock <= now
      modifies this
      ensures Valid() && clock == now
      ensures midiNotes == [] && lastNote.None? && generateMidi == old(generateMidi)
      ensures playing == !old(playing) && isRecording == !old(playing)
      ensures old(playing) ==>
        var flushed := Flushed(old(midiNotes), old(lastNote), old(lastNoteTime), now);
        && startTime == old(startTime) && lastNoteTime == old(lastNoteTime)
        && file == (if flushed != [] && generateMidi then MidiFile(flushed) else None)
      ensures !old(playing) ==> file.None? && startTime == now && lastNoteTime == now
    {
      if playing {
        file := Stop(now);
      } else {
        Start(now);
        file := None;
      }
    }

    /** The stop branch of togglePlayback. */
    method Stop(now: int) returns (file: Option<seq<byte>>)
      requires Valid() && clock <= now
      modifies this
      ensures Valid() && clock == now
      ensures midiNotes == [] && lastNote.None? && !playing && !isRecording && generateMidi == old(generateMidi)
      ensures startTime == old(startTime) && lastNoteTime == old(lastNoteTime)
      ensures var flushed := Flushed(old(midiNotes), old(lastNote), old(lastNoteTime), now);
        file == (if flushed != [] && generateMidi then MidiFile(flushed) else None)
    {
      ghost var flushed := Flushed(midiNotes, lastNote, lastNoteTime, now);
      clock := now;
      file := None;
      playing := false;
      isRecording := false;
      FinalizeLastNote(now);
      assert midiNotes == flushed;
      if |midiNotes| > 0 && generateMidi {
        file := CreateMidiFile(midiNotes);
      }
      midiNotes := [];
      lastNote := None;
    }

    /** The start branch of togglePlayback: a new session at `now`. */
    method Start(now: int)
      requires Valid() && clock <= now
      modifies this
      ensures Valid() && clock == now
      ensures midiNotes == [] && lastNote.None? && playing && isRecording && generateMidi == old(generateMidi)
      ensures startTime == now && lastNoteTime == now
    {
      clock := now;
      playing := true;
      isRecording := true;
      midiNotes := [];
      lastNote := None;
      startTime := now;
      lastNoteTime := startTime;
    }

    /** Closing the draft at `now` on stop, and keeping it when its duration is positive. */
    method FinalizeLastNote(now: int)
      requires Valid()
      modifies this
      ensures Log(midiNotes)
      ensures midiNotes == Flushed(old(midiNotes), old(lastNote), old(lastNoteTime), now)
      ensures lastNote == if old(lastNote).Some? then Some(old(lastNote).value.(duration := now - lastNoteTime)) else None
      ensures lastNoteTime == old(lastNoteTime) && startTime == old(startTime) && clock == old(clock)
      ensures isRecording == old(isRecording) && playing == old(playing) && generateMidi == old(generateMidi)
    {
      FlushedIsLog(midiNotes, lastNote, lastNoteTime, startTime, clock, now);
      ghost var flushed := Flushed(midiNotes, lastNote, lastNoteTime, now);
      if lastNote.Some? {
        var duration := now - lastNoteTime;
        lastNote := Some(lastNote.value.(duration := duration));
        if duration > 0 {
          midiNotes := midiNotes + [lastNote.value];
        }
      }
      assert midiNotes == flushed;
    }

    /**
     * loadNewSound, up to the asynchronous load. While playing it stops the
     * sound and, when there are committed notes (and MIDI generation is on),
     * sets the draft's duration and exports the committed notes only: the
     * draft is not appended. Then it clears the notes and the draft.
     */
    method SwitchSound(now: int) returns (file: Option<seq<byte>>)
      requires Valid() && clock <= now
      modifies this
      ensures Valid() && clock == now
      ensures midiNotes == [] && lastNote.None? && !playing
      ensures isRecording == old(isRecording) && generateMidi == old(generateMidi)
      ensures startTime == old(startTime) && lastNoteTime == old(lastNoteTime)
      ensures file == if old(playing) && old(midiNotes) != [] && generateMidi then MidiFile(old(midiNotes)) else None
    {
      clock := now;
      file := None;
      if playing {
        playing := false;
        if |midiNotes| > 0 && generateMidi {
          if lastNote.Some? {
            lastNote := Some(lastNote.value.(duration := now - lastNoteTime));
          }
          file := CreateMidiFile(midiNotes);
        }
      }
      midiNotes := [];
      lastNote := None;
    }

    /**
     * The sound plays to its end: `sound.isPlaying()` turns false by itself.
     * Nothing else changes: `isRecording` stays set and the notes and the
     * draft stay, but later frames record nothing, since `draw` also tests
     * `isPlaying()`.
     */
    method PlaybackEnded()
      requires Valid() && playing
      modifies this
      ensures Valid() && !playing
      ensures midiNotes == old(midiNotes) && lastNote == old(lastNote) && lastNoteTime == old(lastNoteTime)
      ensures startTime == old(startTime) && isRecording == old(isRecording) && generateMidi == old(generateMidi)
      ensures clock == old(clock)
    {
      playing := false;
    }

    /**
     * A click after the sound has played to its end takes the start branch
     * of togglePlayback: the notes and the draft recorded before the end are
     * dropped, and no file is written.
     */
    method ClickAfterEnd(now: int) returns (file: Option<seq<byte>>)
      requires Valid() && playing && clock <= now
      modifies this
      ensures Valid() && clock == now && file.None? && midiNotes == [] && lastNote.None?
      ensures playing && isRecording && startTime == now && lastNoteTime == now
      ensures generateMidi == old(generateMidi)
    {
      PlaybackEnded();
      file := Toggle(now);
    }

    /** The "generate MIDI" checkbox of sketch_circular_viz.js. */
    method SetGenerateMidi(on: bool)
      requires Valid()
      modifies this
      ensures Valid() && generateMidi == on
      ensures midiNotes == old(midiNotes) && lastNote == old(lastNote) && lastNoteTime == old(lastNoteTime)
      ensures startTime == old(startTime) && isRecording == old(isRecording) && playing == old(playing)
      ensures clock == old(clock)
    {
      generateMidi := on;
    }
  }
}
