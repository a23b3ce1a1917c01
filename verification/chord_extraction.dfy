/**
 * The chord-extraction pipeline of `_parse_chords_from_midi`: one pass over
 * the merged message stream of the chord file that keeps a running tick
 * count, asks the XF decoder or the text recognizer for a chord at every
 * message, and emits each validated chord at `ticks / ticksPerQuarter`
 * quarter notes, where `ticksPerQuarter` is the melody file's resolution.
 */
module ChordExtraction {
  import opened Wrappers
  import opened XfChord
  import TextChord

  /** The meta-event types that carry text. */
  datatype TextKind = Text | Lyrics | Marker | TrackName | OtherText

  /** A decoded message, already classified by the MIDI decoder. */
  datatype Message =
    | SequencerSpecific(data: seq<byte>)
    | TextMeta(kind: TextKind, text: string)
    | OtherMessage

  /** A message of the merged stream and its delta time in ticks. */
  datatype TimedMessage = TimedMessage(delta: nat, msg: Message)

  /** A decoded chord file: its own resolution and its merged message stream. */
  datatype MidiFile = MidiFile(ticksPerBeat: nat, messages: seq<TimedMessage>)

  /** A chord symbol: its figure and its position in quarter notes. */
  datatype ChordSymbol = ChordSymbol(figure: string, offset: real)

  /** Only text, lyrics and marker events are scanned for chords. */
  predicate IsChordTextKind(k: TextKind) {
    k == Text || k == Lyrics || k == Marker
  }

  /**
   * The chord text one message names, if any (`current_chord_text`):
   * sequencer-specific events go to the XF decoder (a non-XF one names
   * nothing), and text, lyrics and marker events to the text recognizer.
   */
  function ChordText(valid: string -> bool, m: Message): (text: Option<string>)
    ensures text.Some? ==> text.value != []
    ensures text.Some? && m.SequencerSpecific? ==> IsXfMetaEvent(m.data) && m.data[2] == XfChordId
    ensures text.Some? && m.TextMeta? ==> IsChordTextKind(m.kind) && valid(text.value)
    ensures m.OtherMessage? ==> text.None?
  {
    match m
    case SequencerSpecific(data) => DecodeXf(data)
    case TextMeta(kind, s) => if IsChordTextKind(kind) then TextChord.RecognizeText(valid, s) else None
    case OtherMessage => None
  }

  /** A track name never names a chord, whatever its text. */
  lemma TrackNameIgnored(valid: string -> bool, s: string)
    ensures ChordText(valid, TextMeta(TrackName, s)) == None
  {
  }

  // ---------------------------------------------------------------------
  // Steps: what the loop needs of each message
  // ---------------------------------------------------------------------

  /**
   * What the loop body reads from one message: its delta time and the
   * chord text it names. Naming the text depends on the message alone, so
   * the loop is a map to steps followed by a fold over them.
   */
  datatype Step = Step(delta: nat, text: Option<string>)

  /** The steps of a merged stream, one per message and in order. */
  function Steps(valid: string -> bool, msgs: seq<TimedMessage>): (steps: seq<Step>)
    ensures |steps| == |msgs|
  {
    seq(|msgs|, i requires 0 <= i < |msgs| => Step(msgs[i].delta, ChordText(valid, msgs[i].msg)))
  }

  // ---------------------------------------------------------------------
  // Ticks
  // ---------------------------------------------------------------------

  /** The absolute tick position after the first `k` steps: the sum of their deltas. */
  function TicksAfter(steps: seq<Step>, k: nat): nat
    requires k <= |steps|
  {
    if k == 0 then 0 else TicksAfter(steps, k - 1) + steps[k - 1].delta
  }

  /** Absolute ticks never decrease along the stream. */
  lemma {:induction false} TicksMonotone(steps: seq<Step>, i: nat, j: nat)
    requires i <= j <= |steps|
    ensures TicksAfter(steps, i) <= TicksAfter(steps, j)
    decreases j - i
  {
    if i < j {
      TicksMonotone(steps, i, j - 1);
    }
  }

  /** Deltas 0, 10, 0, 5 put the messages at ticks 0, 10, 10 and 15. */
  lemma TicksExample(steps: seq<Step>)
    requires |steps| == 4
    requires steps[0].delta == 0 && steps[1].delta == 10 && steps[2].delta == 0 && steps[3].delta == 5
    ensures TicksAfter(steps, 1) == 0 && TicksAfter(steps, 2) == 10
    ensures TicksAfter(steps, 3) == 10 && TicksAfter(steps, 4) == 15
  {
  }

  /** The quarter-note offset of an absolute tick position, in exact arithmetic. */
  function Offset(ticks: nat, ticksPerQuarter: nat): (q: real)
    requires ticksPerQuarter != 0
    ensures q >= 0.0
  {
    ticks as real / ticksPerQuarter as real
  }

  /** 960 ticks at 480 ticks per quarter note are exactly two quarter notes. */
  lemma OffsetExample()
    ensures Offset(960, 480) == 2.0
  {
  }

  /** Later ticks give offsets no smaller. */
  lemma OffsetMonotone(a: nat, b: nat, ticksPerQuarter: nat)
    requires a <= b && ticksPerQuarter != 0
    ensures Offset(a, ticksPerQuarter) <= Offset(b, ticksPerQuarter)
  {
    var t := ticksPerQuarter as real;
    assert Offset(b, ticksPerQuarter) - Offset(a, ticksPerQuarter) == (b - a) as real / t;
  }

  // ---------------------------------------------------------------------
  // Emission
  // ---------------------------------------------------------------------

  /**
   * The chord emitted at `ticks` for a chord text, if any: the text must
   * be non-empty, the validator must accept it when the chord symbol is
   * built, and the division by the resolution must not fail (a zero
   * resolution raises inside the same `try`, so the chord is dropped with
   * a warning).
   */
  function Emit(valid: string -> bool, ticksPerQuarter: nat, ticks: nat, text: Option<string>): (c: Option<ChordSymbol>)
    ensures c.Some? <==> text.Some? && text.value != [] && valid(text.value) && ticksPerQuarter != 0
    ensures c.Some? ==> c.value.figure == text.value && c.value.offset == Offset(ticks, ticksPerQuarter)
  {
    if text.Some? && text.value != [] && valid(text.value) && ticksPerQuarter != 0 then
      Some(ChordSymbol(text.value, Offset(ticks, ticksPerQuarter)))
    else None
  }

  /** The chord the `i`-th step contributes, at the ticks reached after it. */
  function ChordAt(valid: string -> bool, ticksPerQuarter: nat, steps: seq<Step>, i: nat): Option<ChordSymbol>
    requires i < |steps|
  {
    Emit(valid, ticksPerQuarter, TicksAfter(steps, i + 1), steps[i].text)
  }

  /** Reference definition: the chords of the first `k` steps, in stream order. */
  function Collected(valid: string -> bool, ticksPerQuarter: nat, steps: seq<Step>, k: nat): seq<ChordSymbol>
    requires k <= |steps|
  {
    if k == 0 then []
    else Collected(valid, ticksPerQuarter, steps, k - 1) + OptionToSeq(ChordAt(valid, ticksPerQuarter, steps, k - 1))
  }

  // ---------------------------------------------------------------------
  // The loop of main.py:60-129 as a left fold
  // ---------------------------------------------------------------------

  /**
   * The loop from step `i` on, with `ticks` the running total so far and
   * `chords` the list built so far.
   */
  function ScanFrom(valid: string -> bool, ticksPerQuarter: nat, steps: seq<Step>,
                    i: nat, ticks: nat, chords: seq<ChordSymbol>): (r: seq<ChordSymbol>)
    requires i <= |steps|
    ensures |chords| <= |r| <= |chords| + (|steps| - i)
    ensures r[..|chords|] == chords
    decreases |steps| - i
  {
    if i == |steps| then chords
    else
      var now := ticks + steps[i].delta;
      var found := Emit(valid, ticksPerQuarter, now, steps[i].text);
      var r := ScanFrom(valid, ticksPerQuarter, steps, i + 1, now, chords + OptionToSeq(found));
      assert r[..|chords|] == (chords + OptionToSeq(found))[..|chords|];
      r
  }

  /** The whole loop, from no ticks and no chords. */
  function Scan(valid: string -> bool, ticksPerQuarter: nat, steps: seq<Step>): (r: seq<ChordSymbol>)
    ensures |r| <= |steps|
  {
    ScanFrom(valid, ticksPerQuarter, steps, 0, 0, [])
  }

  /** The chords of a merged message stream. */
  function ExtractChords(valid: string -> bool, ticksPerQuarter: nat, msgs: seq<TimedMessage>): (r: seq<ChordSymbol>)
    ensures |r| <= |msgs|
  {
    Scan(valid, ticksPerQuarter, Steps(valid, msgs))
  }

  /**
   * `_parse_chords_from_midi`: a chord file that cannot be opened or parsed
   * gives no chords; otherwise the chords of its messages, timed with the
   * melody file's resolution. The chord file's own resolution only draws
   * a warning.
   */
  function ParseChordsFromMidi(valid: string -> bool, file: Option<MidiFile>, ticksPerQuarter: nat): (r: seq<ChordSymbol>)
    ensures file.None? ==> r == []
    ensures file.Some? ==> |r| <= |file.value.messages|
  {
    match file
    case None => []
    case Some(f) => ExtractChords(valid, ticksPerQuarter, f.messages)
  }

  // ---------------------------------------------------------------------
  // Properties of the fold
  // ---------------------------------------------------------------------

  /** The fold computes the reference definition: the chords of all steps, in order. */
  lemma ScanIsCollected(valid: string -> bool, ticksPerQuarter: nat, steps: seq<Step>)
    ensures Scan(valid, ticksPerQuarter, steps) == Collected(valid, ticksPerQuarter, steps, |steps|)
  {
    ScanInvariant(valid, ticksPerQuarter, steps, 0);
  }

  /** When the loop reaches step `i` with the state the reference prescribes, it ends with the reference result. */
  lemma {:induction false} ScanInvariant(valid: string -> bool, ticksPerQuarter: nat, steps: seq<Step>, i: nat)
    requires i <= |steps|
    ensures ScanFrom(valid, ticksPerQuarter, steps, i, TicksAfter(steps, i), Collected(valid, ticksPerQuarter, steps, i))
         == Collected(valid, ticksPerQuarter, steps, |steps|)
    decreases |steps| - i
  {
    if i < |steps| {
      var now := TicksAfter(steps, i) + steps[i].delta;
      assert now == TicksAfter(steps, i + 1);
      var found := ChordAt(valid, ticksPerQuarter, steps, i);
      var prev := Collected(valid, ticksPerQuarter, steps, i);
      assert Collected(valid, ticksPerQuarter, steps, i + 1) == prev + OptionToSeq(found);
      assert ScanFrom(valid, ticksPerQuarter, steps, i, TicksAfter(steps, i), prev)
          == ScanFrom(valid, ticksPerQuarter, steps, i + 1, now, prev + OptionToSeq(found));
      ScanInvariant(valid, ticksPerQuarter, steps, i + 1);
    }
  }

  /** The positions, among the first `k` steps, of those that contribute a chord. */
  function EmittingIndices(valid: string -> bool, ticksPerQuarter: nat, steps: seq<Step>, k: nat): seq<nat>
    requires k <= |steps|
  {
    if k == 0 then []
    else
      EmittingIndices(valid, ticksPerQuarter, steps, k - 1)
      + (if ChordAt(valid, ticksPerQuarter, steps, k - 1).Some? then [k - 1] else [])
  }

  /** Strictly increasing positions. */
  predicate Increasing(idx: seq<nat>) {
    forall a, b | 0 <= a < b < |idx| :: idx[a] < idx[b]
  }

  /** Chord offsets that never decrease along the list. */
  predicate SortedByOffset(cs: seq<ChordSymbol>) {
    forall a, b | 0 <= a < b < |cs| :: cs[a].offset <= cs[b].offset
  }

  /** Every chord lies at or before `bound`. */
  predicate OffsetsAtMost(cs: seq<ChordSymbol>, bound: real) {
    forall a | 0 <= a < |cs| :: cs[a].offset <= bound
  }

  /**
   * A step names a chord when its text is present, non-empty and accepted
   * by the validator, and the resolution is non-zero.
   */
  predicate NamesChord(valid: string -> bool, ticksPerQuarter: nat, s: Step) {
    s.text.Some? && s.text.value != [] && valid(s.text.value) && ticksPerQuarter != 0
  }

  /**
   * Chord `c` is the one step `i` emits: its text, accepted by the
   * validator, at the ticks reached after the step divided by the
   * resolution.
   */
  predicate EmittedBy(valid: string -> bool, ticksPerQuarter: nat, steps: seq<Step>, i: nat, c: ChordSymbol) {
    && i < |steps|
    && ticksPerQuarter != 0
    && steps[i].text == Some(c.figure)
    && c.figure != []
    && valid(c.figure)
    && c.offset == Offset(TicksAfter(steps, i + 1), ticksPerQuarter)
  }

  /**
   * The collected chords are exactly the chords of the emitting steps,
   * one per step and in stream order: nothing is dropped, reordered or
   * invented.
   */
  lemma {:induction false} CollectedFromSteps(valid: string -> bool, ticksPerQuarter: nat, steps: seq<Step>, k: nat)
    requires k <= |steps|
    ensures |Collected(valid, ticksPerQuarter, steps, k)| == |EmittingIndices(valid, ticksPerQuarter, steps, k)|
    ensures Increasing(EmittingIndices(valid, ticksPerQuarter, steps, k))
    ensures forall j | 0 <= j < |EmittingIndices(valid, ticksPerQuarter, steps, k)| ::
      EmittingIndices(valid, ticksPerQuarter, steps, k)[j] < k &&
      EmittedBy(valid, ticksPerQuarter, steps, EmittingIndices(valid, ticksPerQuarter, steps, k)[j],
                Collected(valid, ticksPerQuarter, steps, k)[j])
    ensures forall i | 0 <= i < k ::
      ChordAt(valid, ticksPerQuarter, steps, i).Some? <==> i in EmittingIndices(valid, ticksPerQuarter, steps, k)
  {
    EmittingIndicesSpec(valid, ticksPerQuarter, steps, k);
    CollectedPairs(valid, ticksPerQuarter, steps, k);
  }

  /** The emitting positions are increasing, below `k`, and exactly the steps that yield a chord. */
  lemma {:induction false} EmittingIndicesSpec(valid: string -> bool, ticksPerQuarter: nat, steps: seq<Step>, k: nat)
    requires k <= |steps|
    ensures Increasing(EmittingIndices(valid, ticksPerQuarter, steps, k))
    ensures forall j | 0 <= j < |EmittingIndices(valid, ticksPerQuarter, steps, k)| ::
      EmittingIndices(valid, ticksPerQuarter, steps, k)[j] < k
    ensures forall i | 0 <= i < k ::
      ChordAt(valid, ticksPerQuarter, steps, i).Some? <==> i in EmittingIndices(valid, ticksPerQuarter, steps, k)
  {
    if k > 0 {
      EmittingIndicesSpec(valid, ticksPerQuarter, steps, k - 1);
      var prevIdx := EmittingIndices(valid, ticksPerQuarter, steps, k - 1);
      var idx := EmittingIndices(valid, ticksPerQuarter, steps, k);
      forall i | 0 <= i < k
        ensures ChordAt(valid, ticksPerQuarter, steps, i).Some? <==> i in idx
      {
        if i < k - 1 {
          assert i in idx <==> i in prevIdx;
        }
      }
    }
  }

  /** The `j`-th collected chord is the one the `j`-th emitting step contributes. */
  lemma {:induction false} CollectedPairs(valid: string -> bool, ticksPerQuarter: nat, steps: seq<Step>, k: nat)
    requires k <= |steps|
    ensures |Collected(valid, ticksPerQuarter, steps, k)| == |EmittingIndices(valid, ticksPerQuarter, steps, k)|
    ensures forall j | 0 <= j < |EmittingIndices(valid, ticksPerQuarter, steps, k)| ::
      EmittedBy(valid, ticksPerQuarter, steps, EmittingIndices(valid, ticksPerQuarter, steps, k)[j],
                Collected(valid, ticksPerQuarter, steps, k)[j])
  {
    if k > 0 {
      CollectedPairs(valid, ticksPerQuarter, steps, k - 1);
      var o := ChordAt(valid, ticksPerQuarter, steps, k - 1);
      var prevIdx := EmittingIndices(valid, ticksPerQuarter, steps, k - 1);
      var prev := Collected(valid, ticksPerQuarter, steps, k - 1);
      var idx := EmittingIndices(valid, ticksPerQuarter, steps, k);
      var cs := Collected(valid, ticksPerQuarter, steps, k);
      assert cs == prev + OptionToSeq(o);
      forall j | 0 <= j < |idx|
        ensures EmittedBy(valid, ticksPerQuarter, steps, idx[j], cs[j])
      {
        if j < |prevIdx| {
          assert idx[j] == prevIdx[j] && cs[j] == prev[j];
        }
      }
    }
  }

  /** A chord placed at `bound` after chords placed no later than it keeps the list sorted. */
  lemma AppendAtBound(prev: seq<ChordSymbol>, o: Option<ChordSymbol>, before: real, bound: real)
    requires SortedByOffset(prev) && OffsetsAtMost(prev, before) && before <= bound
    requires o.Some? ==> o.value.offset == bound
    ensures SortedByOffset(prev + OptionToSeq(o)) && OffsetsAtMost(prev + OptionToSeq(o), bound)
  {
    var cs := prev + OptionToSeq(o);
    forall a | 0 <= a < |cs|
      ensures cs[a].offset <= bound
    {
      if a < |prev| {
        assert cs[a] == prev[a];
      }
    }
    forall a, b | 0 <= a < b < |cs|
      ensures cs[a].offset <= cs[b].offset
    {
      if b < |prev| {
        assert cs[a] == prev[a] && cs[b] == prev[b];
      } else {
        assert cs[a] == prev[a] && cs[b] == o.value;
      }
    }
  }

  /** Chord offsets never decrease, and none lies past the ticks reached so far. */
  lemma {:induction false} CollectedSorted(valid: string -> bool, ticksPerQuarter: nat, steps: seq<Step>, k: nat)
    requires k <= |steps|
    ensures SortedByOffset(Collected(valid, ticksPerQuarter, steps, k))
    ensures ticksPerQuarter != 0 ==>
      OffsetsAtMost(Collected(valid, ticksPerQuarter, steps, k), Offset(TicksAfter(steps, k), ticksPerQuarter))
  {
    if k > 0 {
      CollectedSorted(valid, ticksPerQuarter, steps, k - 1);
      var o := ChordAt(valid, ticksPerQuarter, steps, k - 1);
      var prev := Collected(valid, ticksPerQuarter, steps, k - 1);
      var cs := Collected(valid, ticksPerQuarter, steps, k);
      assert cs == prev + OptionToSeq(o);
      if ticksPerQuarter != 0 {
        var before := Offset(TicksAfter(steps, k - 1), ticksPerQuarter);
        var bound := Offset(TicksAfter(steps, k), ticksPerQuarter);
        TicksMonotone(steps, k - 1, k);
        OffsetMonotone(TicksAfter(steps, k - 1), TicksAfter(steps, k), ticksPerQuarter);
        AppendAtBound(prev, o, before, bound);
      } else {
        assert o == None;
      }
    }
  }

  /**
   * Every chord of the loop comes from its own step, in stream order:
   * the step's text, accepted by the validator, at the step's absolute
   * ticks divided by the resolution; and every step that can emit does.
   */
  lemma ScanChords(valid: string -> bool, ticksPerQuarter: nat, steps: seq<Step>)
    ensures |Scan(valid, ticksPerQuarter, steps)| == |EmittingIndices(valid, ticksPerQuarter, steps, |steps|)|
    ensures Increasing(EmittingIndices(valid, ticksPerQuarter, steps, |steps|))
    ensures forall j | 0 <= j < |Scan(valid, ticksPerQuarter, steps)| ::
      EmittedBy(valid, ticksPerQuarter, steps, EmittingIndices(valid, ticksPerQuarter, steps, |steps|)[j],
                Scan(valid, ticksPerQuarter, steps)[j])
    ensures forall i | 0 <= i < |steps| ::
      ChordAt(valid, ticksPerQuarter, steps, i).Some? <==> i in EmittingIndices(valid, ticksPerQuarter, steps, |steps|)
  {
    ScanIsCollected(valid, ticksPerQuarter, steps);
    CollectedFromSteps(valid, ticksPerQuarter, steps, |steps|);
  }

  /** The loop's chords are sorted by offset. */
  lemma ScanSorted(valid: string -> bool, ticksPerQuarter: nat, steps: seq<Step>)
    ensures SortedByOffset(Scan(valid, ticksPerQuarter, steps))
  {
    ScanIsCollected(valid, ticksPerQuarter, steps);
    CollectedSorted(valid, ticksPerQuarter, steps, |steps|);
  }

  /** A zero resolution makes every division fail: no chord survives. */
  lemma {:induction false} CollectedZeroResolution(valid: string -> bool, steps: seq<Step>, k: nat)
    requires k <= |steps|
    ensures Collected(valid, 0, steps, k) == []
  {
    if k > 0 {
      CollectedZeroResolution(valid, steps, k - 1);
      assert ChordAt(valid, 0, steps, k - 1) == None;
    }
  }

  /** The loop with a zero resolution emits nothing. */
  lemma ZeroResolutionNoChords(valid: string -> bool, steps: seq<Step>)
    ensures Scan(valid, 0, steps) == []
  {
    ScanIsCollected(valid, 0, steps);
    CollectedZeroResolution(valid, steps, |steps|);
  }

  // ---------------------------------------------------------------------
  // Properties of the whole extraction
  // ---------------------------------------------------------------------

  /**
   * Every extracted chord was named by its own message, accepted by the
   * validator, and placed at that message's absolute ticks divided by
   * the melody's resolution; the chords are sorted by offset.
   */
  lemma ExtractedChords(valid: string -> bool, ticksPerQuarter: nat, msgs: seq<TimedMessage>)
    ensures SortedByOffset(ExtractChords(valid, ticksPerQuarter, msgs))
    ensures forall c | c in ExtractChords(valid, ticksPerQuarter, msgs) ::
      exists i | 0 <= i < |msgs| :: EmittedBy(valid, ticksPerQuarter, Steps(valid, msgs), i, c)
  {
    var steps := Steps(valid, msgs);
    ScanChords(valid, ticksPerQuarter, steps);
    ScanSorted(valid, ticksPerQuarter, steps);
    var cs := ExtractChords(valid, ticksPerQuarter, msgs);
    var idx := EmittingIndices(valid, ticksPerQuarter, steps, |steps|);
    forall c | c in cs
      ensures exists i | 0 <= i < |msgs| :: EmittedBy(valid, ticksPerQuarter, steps, i, c)
    {
      var j :| 0 <= j < |cs| && cs[j] == c;
      assert EmittedBy(valid, ticksPerQuarter, steps, idx[j], c);
    }
  }

  /**
   * Message by message: the extracted chords are, in order and one each,
   * exactly those of the messages that name a chord, so no such message is
   * missed and no message contributes twice.
   */
  lemma ChordsMatchMessages(valid: string -> bool, ticksPerQuarter: nat, msgs: seq<TimedMessage>)
    ensures var idx := EmittingIndices(valid, ticksPerQuarter, Steps(valid, msgs), |msgs|);
      && |idx| == |ExtractChords(valid, ticksPerQuarter, msgs)|
      && Increasing(idx)
      && (forall j | 0 <= j < |idx| ::
            EmittedBy(valid, ticksPerQuarter, Steps(valid, msgs), idx[j], ExtractChords(valid, ticksPerQuarter, msgs)[j]))
      && (forall i | 0 <= i < |msgs| ::
            i in idx <==> NamesChord(valid, ticksPerQuarter, Steps(valid, msgs)[i]))
  {
    var steps := Steps(valid, msgs);
    ScanChords(valid, ticksPerQuarter, steps);
    var idx := EmittingIndices(valid, ticksPerQuarter, steps, |steps|);
    forall i | 0 <= i < |msgs|
      ensures i in idx <==> NamesChord(valid, ticksPerQuarter, steps[i])
    {
      assert ChordAt(valid, ticksPerQuarter, steps, i).Some? <==> NamesChord(valid, ticksPerQuarter, steps[i]);
    }
  }

  /** The text a step carries is the chord text its message names. */
  lemma StepText(valid: string -> bool, msgs: seq<TimedMessage>, i: nat)
    requires i < |msgs|
    ensures Steps(valid, msgs)[i].text == ChordText(valid, msgs[i].msg)
    ensures Steps(valid, msgs)[i].delta == msgs[i].delta
  {
  }

  /** A zero melody resolution extracts nothing, whatever the chord file holds. */
  lemma ZeroResolutionNoExtraction(valid: string -> bool, msgs: seq<TimedMessage>)
    ensures ExtractChords(valid, 0, msgs) == []
  {
    ZeroResolutionNoChords(valid, Steps(valid, msgs));
  }

  /** The chord file's own resolution does not affect the result. */
  lemma ChordFileResolutionIgnored(valid: string -> bool, msgs: seq<TimedMessage>, own1: nat, own2: nat, ticksPerQuarter: nat)
    ensures ParseChordsFromMidi(valid, Some(MidiFile(own1, msgs)), ticksPerQuarter)
         == ParseChordsFromMidi(valid, Some(MidiFile(own2, msgs)), ticksPerQuarter)
  {
  }

  /**
   * For a text event the validation when the chord symbol is built
   * repeats the recognizer's own and never rejects: such a chord is lost
   * only to a zero resolution.
   */
  lemma TextChordRevalidated(valid: string -> bool, ticksPerQuarter: nat, ticks: nat, kind: TextKind, s: string)
    requires ChordText(valid, TextMeta(kind, s)).Some? && ticksPerQuarter != 0
    ensures Emit(valid, ticksPerQuarter, ticks, ChordText(valid, TextMeta(kind, s))).Some?
  {
  }
}
