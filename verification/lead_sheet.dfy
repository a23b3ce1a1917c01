/**
 * Lead-sheet assembly (`create_lead_sheet`): the melody file supplies the
 * timing resolution and the melody part, the chord file supplies the
 * chords, and the output part holds the melody's first time and key
 * signatures, every chord at its offset and every melody note or rest at
 * its own offset, in insertion order.
 */
module LeadSheet {
  import opened Wrappers
  import opened XfChord
  import opened ChordExtraction

  /** A time signature, such as 3/4. */
  datatype TimeSignature = TimeSignature(numerator: nat, denominator: nat)

  /** A key signature, as a count of sharps (negative for flats). */
  datatype KeySignature = KeySignature(sharps: int)

  /**
   * An element of a part's `notesAndRests`: a note of some pitch, a chord
   * of several pitches, or a rest, with its length in quarter notes.
   */
  datatype MelodyElement =
    | Note(pitch: nat, quarterLength: real)
    | Chord(pitches: seq<nat>, quarterLength: real)
    | Rest(quarterLength: real)

  /** A melody element and the offset, in quarter notes, at which the parser placed it. */
  datatype MelodyEvent = MelodyEvent(offset: real, element: MelodyElement)

  /**
   * One part of the parsed melody score: the MIDI channel of its
   * instrument (None when it has no instrument or no channel), the time
   * and key signatures it holds, in order, and its notes and rests.
   */
  datatype Part = Part(
    midiChannel: Option<int>,
    timeSignatures: seq<TimeSignature>,
    keySignatures: seq<KeySignature>,
    notesAndRests: seq<MelodyEvent>)

  /** The parsed melody file: its resolution and its parts, partitioned by instrument. */
  datatype MelodyFile = MelodyFile(ticksPerBeat: nat, parts: seq<Part>)

  /** What the output part holds. */
  datatype Item =
    | TimeSigItem(timeSignature: TimeSignature)
    | KeySigItem(keySignature: KeySignature)
    | ChordItem(chord: ChordSymbol)
    | MelodyItem(event: MelodyEvent)

  /** An item inserted into the output part at an offset in quarter notes. */
  datatype Placed = Placed(offset: real, item: Item)

  /** Why generation stops before anything is written. */
  datatype LeadSheetError = MelodyUnreadable | NoMelodyPart

  /** The melody is the part whose instrument is on MIDI channel 1. */
  predicate IsMelodyPart(p: Part) {
    p.midiChannel == Some(1)
  }

  /** The first element of a sequence, if any (`.first()`). */
  function First<T>(s: seq<T>): (r: Option<T>)
    ensures r.None? <==> s == []
    ensures r.Some? ==> r.value == s[0]
  {
    if s == [] then None else Some(s[0])
  }

  /** The first melody part at or after position `i`. */
  function FindMelodyFrom(parts: seq<Part>, i: nat): (r: Option<nat>)
    requires i <= |parts|
    ensures r.Some? ==> i <= r.value < |parts| && IsMelodyPart(parts[r.value])
    ensures r.Some? ==> forall j | i <= j < r.value :: !IsMelodyPart(parts[j])
    ensures r.None? <==> forall j | i <= j < |parts| :: !IsMelodyPart(parts[j])
    decreases |parts| - i
  {
    if i == |parts| then None
    else if IsMelodyPart(parts[i]) then Some(i)
    else FindMelodyFrom(parts, i + 1)
  }

  /** The position of the first part on MIDI channel 1, if any. */
  function FindMelodyPart(parts: seq<Part>): (r: Option<nat>)
    ensures r.Some? ==> r.value < |parts| && IsMelodyPart(parts[r.value])
    ensures r.Some? ==> forall j | 0 <= j < r.value :: !IsMelodyPart(parts[j])
    ensures r.None? <==> forall j | 0 <= j < |parts| :: !IsMelodyPart(parts[j])
  {
    FindMelodyFrom(parts, 0)
  }

  // ---------------------------------------------------------------------
  // The output part
  // ---------------------------------------------------------------------

  /** The time signature, then the key signature, each at offset 0 and only when the part has one. */
  function SignatureItems(part: Part): seq<Placed> {
    (match First(part.timeSignatures) case Some(ts) => [Placed(0.0, TimeSigItem(ts))] case None => [])
    + (match First(part.keySignatures) case Some(ks) => [Placed(0.0, KeySigItem(ks))] case None => [])
  }

  /** How many signatures the melody part contributes. */
  function SignatureCount(part: Part): nat {
    (if part.timeSignatures != [] then 1 else 0) + (if part.keySignatures != [] then 1 else 0)
  }

  /** Every chord, at its own offset. */
  function ChordItems(chords: seq<ChordSymbol>): seq<Placed> {
    if chords == [] then []
    else [Placed(chords[0].offset, ChordItem(chords[0]))] + ChordItems(chords[1..])
  }

  /** Every melody note or rest, at its own offset. */
  function MelodyItems(events: seq<MelodyEvent>): seq<Placed> {
    if events == [] then []
    else [Placed(events[0].offset, MelodyItem(events[0]))] + MelodyItems(events[1..])
  }

  /** The output part, in insertion order: signatures, then chords, then the melody. */
  function Merge(part: Part, chords: seq<ChordSymbol>): seq<Placed> {
    SignatureItems(part) + ChordItems(chords) + MelodyItems(part.notesAndRests)
  }

  /**
   * `create_lead_sheet`: an unreadable melody file or a melody file with
   * no part on channel 1 stops generation before the chord file is read;
   * otherwise the chords are extracted with the melody's resolution and
   * merged with the melody part. A chord file that cannot be read only
   * gives no chords.
   */
  function CreateLeadSheet(valid: string -> bool, melody: Option<MelodyFile>, chordFile: Option<MidiFile>)
    : (r: Result<seq<Placed>, LeadSheetError>)
    ensures melody.None? ==> r == Failure(MelodyUnreadable)
    ensures melody.Some? ==> (r == Failure(NoMelodyPart) <==> FindMelodyPart(melody.value.parts).None?)
    ensures r.Success? <==> melody.Some? && FindMelodyPart(melody.value.parts).Some?
  {
    match melody
    case None => Failure(MelodyUnreadable)
    case Some(m) =>
      match FindMelodyPart(m.parts)
      case None => Failure(NoMelodyPart)
      case Some(i) =>
        var chords := ParseChordsFromMidi(valid, chordFile, m.ticksPerBeat);
        Success(Merge(m.parts[i], chords))
  }

  // ---------------------------------------------------------------------
  // Reading the output part back
  // ---------------------------------------------------------------------

  /** The chords of an output part, in insertion order. */
  function ChordsOf(items: seq<Placed>): seq<ChordSymbol> {
    if items == [] then []
    else (if items[0].item.ChordItem? then [items[0].item.chord] else []) + ChordsOf(items[1..])
  }

  /** The melody events of an output part, in insertion order. */
  function MelodyOf(items: seq<Placed>): seq<MelodyEvent> {
    if items == [] then []
    else (if items[0].item.MelodyItem? then [items[0].item.event] else []) + MelodyOf(items[1..])
  }

  /** Every item sits where it belongs: signatures at 0, chords and notes at their own offsets. */
  predicate AtOwnOffset(p: Placed) {
    match p.item
    case TimeSigItem(_) => p.offset == 0.0
    case KeySigItem(_) => p.offset == 0.0
    case ChordItem(c) => p.offset == c.offset
    case MelodyItem(e) => p.offset == e.offset
  }

  lemma {:induction false} ChordsOfConcat(a: seq<Placed>, b: seq<Placed>)
    ensures ChordsOf(a + b) == ChordsOf(a) + ChordsOf(b)
  {
    if a != [] {
      assert (a + b)[1..] == a[1..] + b;
      ChordsOfConcat(a[1..], b);
    } else {
      assert a + b == b;
    }
  }

  lemma {:induction false} MelodyOfConcat(a: seq<Placed>, b: seq<Placed>)
    ensures MelodyOf(a + b) == MelodyOf(a) + MelodyOf(b)
  {
    if a != [] {
      assert (a + b)[1..] == a[1..] + b;
      MelodyOfConcat(a[1..], b);
    } else {
      assert a + b == b;
    }
  }

  /** Reading the chords back from the chord items gives the chords inserted, and no melody. */
  lemma {:induction false} ChordItemsRoundTrip(chords: seq<ChordSymbol>)
    ensures ChordsOf(ChordItems(chords)) == chords
    ensures MelodyOf(ChordItems(chords)) == []
    ensures |ChordItems(chords)| == |chords|
    ensures forall p | p in ChordItems(chords) :: p.item.ChordItem? && AtOwnOffset(p)
  {
    if chords != [] {
      var head := Placed(chords[0].offset, ChordItem(chords[0]));
      ChordItemsRoundTrip(chords[1..]);
      assert ([head] + ChordItems(chords[1..]))[1..] == ChordItems(chords[1..]);
      assert chords == [chords[0]] + chords[1..];
    }
  }

  /** One item per chord. */
  lemma {:induction false} ChordItemsLength(chords: seq<ChordSymbol>)
    ensures |ChordItems(chords)| == |chords|
  {
    if chords != [] {
      ChordItemsLength(chords[1..]);
    }
  }

  /** One item per note or rest. */
  lemma {:induction false} MelodyItemsLength(events: seq<MelodyEvent>)
    ensures |MelodyItems(events)| == |events|
  {
    if events != [] {
      MelodyItemsLength(events[1..]);
    }
  }

  /** The `j`-th chord item is the `j`-th chord, at its own offset. */
  lemma {:induction false} ChordItemsAt(chords: seq<ChordSymbol>, j: nat)
    requires j < |chords|
    ensures |ChordItems(chords)| == |chords|
    ensures ChordItems(chords)[j] == Placed(chords[j].offset, ChordItem(chords[j]))
  {
    ChordItemsLength(chords);
    if j > 0 {
      ChordItemsAt(chords[1..], j - 1);
    }
  }

  /** The `j`-th melody item is the `j`-th note or rest, at its own offset. */
  lemma {:induction false} MelodyItemsAt(events: seq<MelodyEvent>, j: nat)
    requires j < |events|
    ensures |MelodyItems(events)| == |events|
    ensures MelodyItems(events)[j] == Placed(events[j].offset, MelodyItem(events[j]))
  {
    MelodyItemsLength(events);
    if j > 0 {
      MelodyItemsAt(events[1..], j - 1);
    }
  }

  /** Reading the melody back from the melody items gives the events inserted, and no chords. */
  lemma {:induction false} MelodyItemsRoundTrip(events: seq<MelodyEvent>)
    ensures MelodyOf(MelodyItems(events)) == events
    ensures ChordsOf(MelodyItems(events)) == []
    ensures |MelodyItems(events)| == |events|
    ensures forall p | p in MelodyItems(events) :: p.item.MelodyItem? && AtOwnOffset(p)
  {
    if events != [] {
      var head := Placed(events[0].offset, MelodyItem(events[0]));
      MelodyItemsRoundTrip(events[1..]);
      assert ([head] + MelodyItems(events[1..]))[1..] == MelodyItems(events[1..]);
      assert events == [events[0]] + events[1..];
    }
  }

  /** The signature items are the part's first time and key signatures, at offset 0, and nothing else. */
  lemma SignatureItemsShape(part: Part)
    ensures |SignatureItems(part)| == SignatureCount(part)
    ensures ChordsOf(SignatureItems(part)) == [] && MelodyOf(SignatureItems(part)) == []
    ensures forall p | p in SignatureItems(part) :: (p.item.TimeSigItem? || p.item.KeySigItem?) && AtOwnOffset(p)
    ensures part.timeSignatures != [] ==> SignatureItems(part)[0] == Placed(0.0, TimeSigItem(part.timeSignatures[0]))
    ensures part.keySignatures != [] ==>
      SignatureItems(part)[SignatureCount(part) - 1] == Placed(0.0, KeySigItem(part.keySignatures[0]))
  {
    var t := match First(part.timeSignatures) case Some(ts) => [Placed(0.0, TimeSigItem(ts))] case None => [];
    var k := match First(part.keySignatures) case Some(ks) => [Placed(0.0, KeySigItem(ks))] case None => [];
    ChordsOfConcat(t, k);
    MelodyOfConcat(t, k);
  }

  /**
   * Nothing is dropped: the output part holds the signatures present,
   * every chord and every melody event, each at its own offset; reading
   * the chords and the melody back gives exactly what was inserted.
   */
  lemma MergeContents(part: Part, chords: seq<ChordSymbol>)
    ensures |Merge(part, chords)| == SignatureCount(part) + |chords| + |part.notesAndRests|
    ensures ChordsOf(Merge(part, chords)) == chords
    ensures MelodyOf(Merge(part, chords)) == part.notesAndRests
    ensures forall p | p in Merge(part, chords) :: AtOwnOffset(p)
  {
    var s := SignatureItems(part);
    var c := ChordItems(chords);
    var m := MelodyItems(part.notesAndRests);
    SignatureItemsShape(part);
    ChordItemsRoundTrip(chords);
    MelodyItemsRoundTrip(part.notesAndRests);
    ChordsOfConcat(s, c);
    ChordsOfConcat(s + c, m);
    MelodyOfConcat(s, c);
    MelodyOfConcat(s + c, m);
  }

  /** No item of `items` is a time or key signature. */
  predicate NoSignatures(items: seq<Placed>) {
    forall i | 0 <= i < |items| :: !items[i].item.TimeSigItem? && !items[i].item.KeySigItem?
  }

  lemma {:induction false} ChordAndMelodyItemsNoSignatures(chords: seq<ChordSymbol>, events: seq<MelodyEvent>)
    ensures NoSignatures(ChordItems(chords) + MelodyItems(events))
  {
    ChordItemsRoundTrip(chords);
    MelodyItemsRoundTrip(events);
    var rest := ChordItems(chords) + MelodyItems(events);
    forall i | 0 <= i < |rest|
      ensures !rest[i].item.TimeSigItem? && !rest[i].item.KeySigItem?
    {
      assert rest[i] in ChordItems(chords) || rest[i] in MelodyItems(events);
    }
  }

  /** The signatures come first: the time signature, if any, then the key signature, and none after them. */
  lemma MergeSignaturesFirst(part: Part, chords: seq<ChordSymbol>)
    ensures part.timeSignatures != [] ==> Merge(part, chords)[0] == Placed(0.0, TimeSigItem(part.timeSignatures[0]))
    ensures part.keySignatures != [] ==>
      Merge(part, chords)[SignatureCount(part) - 1] == Placed(0.0, KeySigItem(part.keySignatures[0]))
    ensures NoSignatures(Merge(part, chords)[SignatureCount(part)..])
  {
    SignatureItemsShape(part);
    ChordAndMelodyItemsNoSignatures(chords, part.notesAndRests);
    var s := SignatureItems(part);
    var rest := ChordItems(chords) + MelodyItems(part.notesAndRests);
    assert Merge(part, chords) == s + rest;
    assert Merge(part, chords)[|s|..] == rest;
  }

  /**
   * Insertion order, chords: right after the signatures come the chords,
   * the `j`-th chord at position `j` among them.
   */
  lemma MergeChordOrder(part: Part, chords: seq<ChordSymbol>)
    ensures |Merge(part, chords)| == SignatureCount(part) + |chords| + |part.notesAndRests|
    ensures forall j | 0 <= j < |chords| ::
      Merge(part, chords)[SignatureCount(part) + j] == Placed(chords[j].offset, ChordItem(chords[j]))
  {
    var s := SignatureItems(part);
    var c := ChordItems(chords);
    var m := MelodyItems(part.notesAndRests);
    SignatureItemsShape(part);
    ChordItemsLength(chords);
    MelodyItemsLength(part.notesAndRests);
    assert Merge(part, chords) == s + c + m;
    forall j | 0 <= j < |chords|
      ensures Merge(part, chords)[|s| + j] == Placed(chords[j].offset, ChordItem(chords[j]))
    {
      ChordItemsAt(chords, j);
      assert (s + c + m)[|s| + j] == c[j];
    }
  }

  /**
   * Insertion order, melody: after the signatures and the chords come the
   * notes and rests, in their own order.
   */
  lemma MergeMelodyOrder(part: Part, chords: seq<ChordSymbol>)
    ensures |Merge(part, chords)| == SignatureCount(part) + |chords| + |part.notesAndRests|
    ensures forall j | 0 <= j < |part.notesAndRests| ::
      Merge(part, chords)[SignatureCount(part) + |chords| + j]
        == Placed(part.notesAndRests[j].offset, MelodyItem(part.notesAndRests[j]))
  {
    var s := SignatureItems(part);
    var c := ChordItems(chords);
    var m := MelodyItems(part.notesAndRests);
    SignatureItemsShape(part);
    ChordItemsLength(chords);
    MelodyItemsLength(part.notesAndRests);
    assert Merge(part, chords) == s + c + m;
    forall j | 0 <= j < |m|
      ensures Merge(part, chords)[|s| + |c| + j] == Placed(part.notesAndRests[j].offset, MelodyItem(part.notesAndRests[j]))
    {
      MelodyItemsAt(part.notesAndRests, j);
      assert (s + c + m)[|s| + |c| + j] == m[j];
    }
  }

  // ---------------------------------------------------------------------
  // Properties of `create_lead_sheet`
  // ---------------------------------------------------------------------

  /** Without a part on channel 1 generation stops, whatever the chord file holds. */
  lemma NoMelodyPartAborts(valid: string -> bool, melody: MelodyFile, chordFile1: Option<MidiFile>, chordFile2: Option<MidiFile>)
    requires forall j | 0 <= j < |melody.parts| :: melody.parts[j].midiChannel != Some(1)
    ensures CreateLeadSheet(valid, Some(melody), chordFile1) == Failure(NoMelodyPart)
    ensures CreateLeadSheet(valid, Some(melody), chordFile2) == CreateLeadSheet(valid, Some(melody), chordFile1)
  {
  }

  /**
   * A successful lead sheet merges the first channel-1 part with the
   * chords extracted at the melody file's resolution: its chords are
   * exactly those chords, its melody exactly that part's notes and rests.
   */
  lemma LeadSheetContents(valid: string -> bool, melody: MelodyFile, chordFile: Option<MidiFile>, i: nat)
    requires i < |melody.parts| && IsMelodyPart(melody.parts[i])
    requires forall j | 0 <= j < i :: !IsMelodyPart(melody.parts[j])
    ensures CreateLeadSheet(valid, Some(melody), chordFile).Success?
    ensures ChordsOf(CreateLeadSheet(valid, Some(melody), chordFile).value)
         == ParseChordsFromMidi(valid, chordFile, melody.ticksPerBeat)
    ensures MelodyOf(CreateLeadSheet(valid, Some(melody), chordFile).value) == melody.parts[i].notesAndRests
    ensures |CreateLeadSheet(valid, Some(melody), chordFile).value|
         == SignatureCount(melody.parts[i]) + |ParseChordsFromMidi(valid, chordFile, melody.ticksPerBeat)|
            + |melody.parts[i].notesAndRests|
  {
    var r := FindMelodyPart(melody.parts);
    assert r == Some(i);
    MergeContents(melody.parts[i], ParseChordsFromMidi(valid, chordFile, melody.ticksPerBeat));
  }

  /** An unreadable chord file still gives a lead sheet: the melody part's signatures and notes, with no chords. */
  lemma UnreadableChordFile(valid: string -> bool, melody: MelodyFile, i: nat)
    requires i < |melody.parts| && IsMelodyPart(melody.parts[i])
    requires forall j | 0 <= j < i :: !IsMelodyPart(melody.parts[j])
    ensures CreateLeadSheet(valid, Some(melody), None).Success?
    ensures ChordsOf(CreateLeadSheet(valid, Some(melody), None).value) == []
    ensures |CreateLeadSheet(valid, Some(melody), None).value|
         == SignatureCount(melody.parts[i]) + |melody.parts[i].notesAndRests|
  {
    LeadSheetContents(valid, melody, None, i);
  }

  /** The chord file of the end-to-end example: one XF D chord, 960 ticks in. */
  lemma ExampleChords(valid: string -> bool, msgs: seq<TimedMessage>)
    requires valid("D")
    requires msgs == [TimedMessage(960, SequencerSpecific([0x43, 0x7B, 0x01, 0x32, 0x00]))]
    ensures ExtractChords(valid, 480, msgs) == [ChordSymbol("D", 2.0)]
  {
    var steps := Steps(valid, msgs);
    ExampleSteps(valid, msgs);
    assert TicksAfter(steps, 1) == 960;
    assert Offset(960, 480) == 2.0;
    assert ScanFrom(valid, 480, steps, 1, 960, [ChordSymbol("D", 2.0)]) == [ChordSymbol("D", 2.0)];
  }

  /** The one XF D event becomes one step naming D, 960 ticks in. */
  lemma ExampleSteps(valid: string -> bool, msgs: seq<TimedMessage>)
    requires valid("D")
    requires msgs == [TimedMessage(960, SequencerSpecific([0x43, 0x7B, 0x01, 0x32, 0x00]))]
    ensures Steps(valid, msgs) == [Step(960, Some("D"))]
  {
    DecodeExampleD();
    assert Steps(valid, msgs)[0] == Step(960, Some("D"));
  }

  /**
   * End to end: a melody on channel 1 at 480 ticks per quarter note (after
   * a drum part on channel 10) and a chord file whose XF D chord comes 960
   * ticks in give a lead sheet with the melody's 4/4 time signature, a D
   * at offset 2 and the melody's note.
   */
  lemma EndToEndExample(valid: string -> bool, melody: MelodyFile, chordFile: MidiFile)
    requires valid("D")
    requires melody == MelodyFile(480, [Part(Some(10), [], [], []),
                                        Part(Some(1), [TimeSignature(4, 4)], [], [MelodyEvent(0.0, Note(62, 4.0))])])
    requires chordFile == MidiFile(96, [TimedMessage(960, SequencerSpecific([0x43, 0x7B, 0x01, 0x32, 0x00]))])
    ensures CreateLeadSheet(valid, Some(melody), Some(chordFile))
         == Success([Placed(0.0, TimeSigItem(TimeSignature(4, 4))),
                     Placed(2.0, ChordItem(ChordSymbol("D", 2.0))),
                     Placed(0.0, MelodyItem(MelodyEvent(0.0, Note(62, 4.0))))])
  {
    ExampleChords(valid, chordFile.messages);
    assert FindMelodyPart(melody.parts) == Some(1);
    var d := ChordSymbol("D", 2.0);
    assert ParseChordsFromMidi(valid, Some(chordFile), 480) == [d];
    ExampleMerge(melody.parts[1], d);
  }

  /** Merging the D into the example melody part. */
  lemma ExampleMerge(tune: Part, d: ChordSymbol)
    requires tune == Part(Some(1), [TimeSignature(4, 4)], [], [MelodyEvent(0.0, Note(62, 4.0))])
    requires d == ChordSymbol("D", 2.0)
    ensures Merge(tune, [d]) == [Placed(0.0, TimeSigItem(TimeSignature(4, 4))),
                                 Placed(2.0, ChordItem(d)),
                                 Placed(0.0, MelodyItem(MelodyEvent(0.0, Note(62, 4.0))))]
  {
    assert SignatureItems(tune) == [Placed(0.0, TimeSigItem(TimeSignature(4, 4)))];
    assert ChordItems([d]) == [Placed(2.0, ChordItem(d))] by {
      assert [d][1..] == [];
    }
    var e := MelodyEvent(0.0, Note(62, 4.0));
    assert MelodyItems([e]) == [Placed(0.0, MelodyItem(e))] by {
      assert [e][1..] == [];
    }
  }
}
