/**
 * A reader for exactly the files createMidiFile writes, used to state what a
 * written file means: which note messages it carries, in which order.
 */
module MidiDecoder {
  import opened Wrappers
  import opened MidiEncoder

  /** One note-on/note-off pair as it stands in the track: all four values are bytes. */
  datatype NoteMessage = NoteMessage(delta: byte, key: byte, velocity: byte, length: byte)

  /** Inverse of BigEndian32. */
  function FromBigEndian32(s: seq<byte>): nat
    requires |s| == 4
  {
    (s[0] as int) * 0x100_0000 + (s[1] as int) * 0x1_0000 + (s[2] as int) * 0x100 + s[3]
  }

  /** The length field holds the payload length modulo 2^32 (the `Uint32Array` conversion). */
  lemma BigEndian32RoundTrip(n: nat)
    ensures FromBigEndian32(BigEndian32(n)) == n % 0x1_0000_0000
  {
    var q0, r0 := n / 0x100, n % 0x100;
    var q1, r1 := q0 / 0x100, q0 % 0x100;
    var q2, r2 := q1 / 0x100, q1 % 0x100;
    var q3, r3 := q2 / 0x100, q2 % 0x100;
    DivUnique(n, 0x1_0000, q1, r1 * 0x100 + r0);
    DivUnique(n, 0x100_0000, q2, r2 * 0x1_0000 + r1 * 0x100 + r0);
    DivUnique(n, 0x1_0000_0000, q3, r3 * 0x100_0000 + r2 * 0x1_0000 + r1 * 0x100 + r0);
    assert BigEndian32(n) == [r3, r2, r1, r0];
  }

  /** Quotient and remainder are the only split of `x` by `d`. */
  lemma DivUnique(x: int, d: int, q: int, r: int)
    requires d > 0 && x == q * d + r && 0 <= r < d
    ensures x / d == q && x % d == r
  {
    var k := x / d;
    assert (q - k) * d == x % d - r;
    if q > k {
      MulAtLeast(q - k, d);
    } else if q < k {
      MulAtLeast(k - q, d);
    }
  }

  lemma MulAtLeast(a: int, d: int)
    requires a >= 1 && d > 0
    ensures a * d >= d
  {
    assert a * d == (a - 1) * d + d;
  }

  /** A length below 2^32 reads back unchanged. */
  lemma SmallLengthRoundTrip(n: nat)
    requires n < 0x1_0000_0000
    ensures FromBigEndian32(BigEndian32(n)) == n
  {
    BigEndian32RoundTrip(n);
  }

  /** The note messages of a run of eight-byte groups; None when a group is malformed. */
  function ParseNotes(body: seq<byte>): Option<seq<NoteMessage>>
    decreases |body|
  {
    if body == [] then Some([])
    else if |body| < 8 || body[1] != 0x90 || body[5] != 0x80 || body[6] != body[2] || body[7] != 0 then None
    else
      match ParseNotes(body[8..])
      case None => None
      case Some(rest) => Some([NoteMessage(body[0], body[2], body[3], body[4])] + rest)
  }

  /** The note messages of a whole file; None unless it has exactly the shape createMidiFile writes. */
  function ParseMidi(b: seq<byte>): Option<seq<NoteMessage>> {
    if Framed(b) then ParseNotes(b[32..|b| - 4]) else None
  }

  /** Header chunk, `MTrk`, a length field equal to the payload length, tempo and program change first, End of Track last. */
  predicate Framed(b: seq<byte>) {
    && |b| >= 36
    && b[..14] == HeaderChunk
    && b[14..18] == TrackMagic
    && FromBigEndian32(b[18..22]) == |b| - 22
    && b[22..32] == SetTempo + ProgramChange
    && b[|b| - 4..] == EndOfTrack
  }

  /** The message written for note `n` while `currentTime` is `clock`. */
  function MessageOf(n: Note, clock: int): NoteMessage {
    NoteMessage(Mask7(DeltaTicks(n.time, clock)), Mask7(n.midi), Mask7(VelocityOrDefault(n.velocity)),
                Mask7(DurationTicks(n.duration)))
  }

  /** The messages of `e`, the running clock starting at `clock`. */
  function Messages(e: seq<Note>, clock: int): (r: seq<NoteMessage>)
    ensures |r| == |e|
  {
    if e == [] then [] else [MessageOf(e[0], clock)] + Messages(e[1..], NextClock(e[0]))
  }

  lemma {:induction false} ParseNoteEvents(e: seq<Note>, clock: int)
    ensures ParseNotes(NoteEvents(e, clock)) == Some(Messages(e, clock))
  {
    if e != [] {
      ParseNoteEvents(e[1..], NextClock(e[0]));
      var events := NoteEvents(e, clock);
      assert events[8..] == NoteEvents(e[1..], NextClock(e[0]));
    }
  }

  /**
   * Round trip: reading back a written file gives one message per written note,
   * in onset order, with the masked delta, key, velocity and duration bytes. It
   * holds while the payload length fits the 32-bit length field.
   */
  lemma MidiRoundTrip(notes: seq<Note>)
    requires notes != []
    requires 14 + 8 * |Emitted(notes)| < 0x1_0000_0000
    ensures ParseMidi(MidiFile(notes).value) == Some(Messages(Emitted(notes), 0))
  {
    var e := Emitted(notes);
    ParseFramedTrack(NoteEvents(e, 0));
    ParseNoteEvents(e, 0);
  }

  /** The reader peels the header, length, tempo, program change and End of Track off a file of this shape. */
  lemma ParseFramedTrack(events: seq<byte>)
    requires 14 + |events| < 0x1_0000_0000
    ensures ParseMidi(Framing(Payload(events))) == ParseNotes(events)
  {
    var opening, length := SetTempo + ProgramChange, BigEndian32(14 + |events|);
    var b := Framing(Payload(events));
    assert b == HeaderChunk + TrackMagic + length + (opening + events + EndOfTrack);
    SmallLengthRoundTrip(14 + |events|);
    FileParts(HeaderChunk, TrackMagic, length, opening, events, EndOfTrack);
    assert Framed(b);
  }

  /** For valid notes the key byte is the MIDI number itself and the velocity 1..127 is kept. */
  lemma {:induction false} MessagesKeepKeyAndVelocity(e: seq<Note>, clock: int, j: nat)
    requires j < |e|
    requires forall i :: 0 <= i < |e| ==> Emittable(e[i]) && 1 <= e[i].velocity <= 127
    ensures Messages(e, clock)[j].key == e[j].midi
    ensures Messages(e, clock)[j].velocity == e[j].velocity
  {
    if j > 0 {
      MessagesKeepKeyAndVelocity(e[1..], NextClock(e[0]), j - 1);
    }
  }
}
