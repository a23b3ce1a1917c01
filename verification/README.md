# Chord extraction and lead-sheet assembly, modelled in Dafny

This project models the part of `main.py` that builds a lead sheet from two MIDI files. The model covers four parts:

- **XF chord decoding** (`XfChord`). A Yamaha XF chord event is carried in a sequencer-specific meta event. It must have the manufacturer/sub-id header `0x43 0x7B` and event id `0x01`. Every `0x7F` separator is removed from the rest of its data. The remaining bytes form a tuple, which is looked up exactly in one fixed dictionary keyed by two- and three-byte tuples.
- **Text chord recognition** (`TextChord`). Text, lyric and marker events are stripped. The first chord-like candidate is then taken with the search regex. The regex is written out as a backtracking matcher that tries the alternatives in Python's preference order. The candidate is kept only if an external chord validator accepts it.
- **The extraction loop** (`ChordExtraction`). It walks the merged message stream once and keeps a running tick total. Each chord is emitted at `ticks / ticks_per_quarter`, using the melody file's resolution. The loop is modelled in two parts: a map from each message to its delta and chord text, then a left fold over those steps. The fold is also connected to a recursive reference definition over prefixes of the message stream.
- **Lead-sheet assembly** (`LeadSheet`). The melody part is the first part on MIDI channel 1; without one, generation stops. The output part holds the melody's first time and key signatures at offset 0, every chord at its offset, and every note and rest at its own offset, in insertion order.

`Wrappers` holds `Option` and `Result`.

Modelling choices:

- The chord validator (music21's `harmony.ChordSymbol`) is a parameter `valid: string -> bool`. The same predicate is used where the recognizer checks a candidate (main.py:114) and where the chord symbol is built (main.py:124). XF chord names also pass through the second check.
- Offsets are exact `real` numbers.
- A resolution of 0 makes the division at main.py:126 raise inside the `try`, so the chord is dropped. The model emits no chord in that case.
- Whitespace for `str.strip` is the ASCII set: tab to carriage return, 0x1C to 0x1F, and space. `\b` uses ASCII word characters: letters, digits and `_`.
- Because of the trailing `\b`, a chord spelled with a final non-word character loses it when the text ends there. `"C#"` yields `"C"` and `"C(add9)"` yields `"C"`. The model keeps this behaviour as written, and lemmas exhibit it.

## Model

| member | source | states |
|---|---|---|
| XfChord.StripSeparators | main.py:78-80 | the chord key holds no 0x7F byte, is no longer than the payload, and keeps every non-separator byte of the payload |
| XfChord.StripConcat | main.py:80 | filtering distributes over concatenation, so the kept bytes stay in payload order |
| XfChord.StripKeepsOtherBytes | main.py:80 | the key has exactly the payload's bytes with all 0x7F removed, counted with multiplicity |
| XfChord.StripIdempotent | main.py:80 | filtering an already filtered key changes nothing |
| XfChord.SeparatorInsensitive | main.py:78-80 | inserting a 0x7F anywhere in the payload leaves the key unchanged |
| XfChord.AsTuple | main.py:80 | a byte string of length two or three without 0x7F corresponds to exactly one tuple key, the one with the same bytes; any other byte string corresponds to none |
| XfChord.LookupChord | main.py:30-48 | a found chord has a key of two or three bytes with no 0x7F, and its name is not empty: no table key holds a separator and no table name is empty |
| XfChord.LookupIsDictGet | main.py:86 | lookup behaves as `dict.get`: a chord is found exactly when a table entry's tuple has the key's bytes, and the result is that entry's name |
| XfChord.KeyArity | main.py:86 | a key of any length other than 2 or 3 never decodes |
| XfChord.ArityMatters | main.py:33-34 | a two-byte key and its three-byte extension are separate entries: (0x23,0x00) is D# and (0x23,0x00,0x35) is D#/G#; an unlisted extension decodes to nothing |
| XfChord.SharedName | main.py:41-47 | two different keys, (0x34,0x00,0x23) and (0x52,0x00,0x23), both name Fm/D# |
| XfChord.DecodeXf | main.py:68-86 | a chord is decoded only from data longer than 2 bytes that starts 0x43 0x7B with event id 0x01, and it is then the table lookup of the filtered key |
| XfChord.NonChordIdIgnored | main.py:76 | an XF event with any id other than 0x01 yields no chord |
| XfChord.LyricAndRubyIgnored | main.py:24-26 | the lyric id 0x20 and the ruby id 0x21 are declared but never decoded: such events yield no chord |
| XfChord.EmptyKeySkipped | main.py:82-83 | XF chord data with no payload, or with only 0x7F bytes after the id, yields no chord |
| XfChord.AllSeparators | main.py:80-82 | a payload of separators only filters to the empty key |
| XfChord.DecodeDependsOnKeyOnly | main.py:78-86 | two chord events whose payloads filter to the same key decode to the same chord |
| XfChord.DecodeSeparatorInsensitive | main.py:78-86 | inserting a 0x7F anywhere after the event id does not change the decoded chord |
| XfChord.DecodeExampleD | main.py:39 | 43 7B 01 32 00 decodes to D, and so does the same event padded with 7F separators |
| XfChord.DecodeExamplesNone | main.py:68-83 | a lyric event, data of length exactly 3, and a wrong header all yield no chord |
| TextChord.Strip | main.py:98 | the stripped text is the slice of the input between its leading and trailing whitespace; it is empty exactly when the input is all whitespace, and otherwise starts and ends with a non-space |
| TextChord.StageEndsSpec | main.py:108 | for each piece of the pattern (accidental, quality alternation, digits, parenthesised group, slash bass), the end positions tried are exactly those where the piece matches, longest first, as Python's greedy matching tries them |
| TextChord.AlternativesMembers | main.py:108 | an alternation of literal tokens reaches exactly the positions where the text from the start position equals one of the tokens |
| TextChord.AlternativesDescending | main.py:108 | when no token is empty and no token is an initial piece of a later one, the alternation's ends come out strictly decreasing, so the first success is the longest |
| TextChord.QualityTokensLongerFirst | main.py:108 | the quality tokens maj, min, m, M, dim, aug, sus, add, -, _ are in that longer-first order: maj and min precede m |
| TextChord.QualityAlternationShape | main.py:108 | the quality alternation tried in the pattern's own order gives the same end positions, in the same order, as "three-letter token, then one-letter token, then nothing" |
| TextChord.EndsComplete | main.py:108 | the end positions the matcher enumerates for the whole chord group are exactly the positions where the group can match |
| TextChord.FirstBoundary | main.py:108 | the chosen end is the first one in preference order that sits on a word boundary |
| TextChord.MatchAtComplete | main.py:108 | a match from a root letter covers a text shaped like the group and ending on a boundary; there is no match exactly when no such end exists or the letter is not A to G |
| TextChord.FirstMatch | main.py:108 | the chosen start is the first whose match succeeds: every earlier start fails, and nothing is chosen only when every start fails |
| TextChord.SearchFrom | main.py:108 | a start the search returns has a match that ends at the returned end, beyond the start and within the text |
| TextChord.SearchLeftmost | main.py:108 | no start before the returned one matches, and the search returns nothing only when no start matches |
| TextChord.Candidate | main.py:108-111 | as `re.search`: the candidate is the match at the leftmost matching position (no earlier position matches), it is non-empty and starts with a letter A to G, and there is none exactly when no position matches |
| TextChord.NoRootNoCandidate | main.py:108-110 | text without an upper-case letter from A to G yields no candidate |
| TextChord.RecognizeText | main.py:98-119 | a chord is returned exactly when the stripped text has a candidate and the validator accepts it; it is then the regex match at the leftmost matching position of the stripped text and starts with a letter A to G; blank text names no chord; a rejection gives no chord rather than an error |
| TextChord.CandidateGm7 | main.py:108 | "Gm7 riff" yields "Gm7" |
| TextChord.CandidateSharpDropped | main.py:108 | "C#" yields "C", because no word boundary follows the '#' at the end of the text |
| TextChord.CandidateGroupDropped | main.py:108 | "C(add9)" yields "C", because no word boundary follows the ')' at the end of the text |
| ChordExtraction.ChordText | main.py:65-119 | a message names a chord only if it is an XF chord event, or a text, lyric or marker event whose candidate the validator accepts; any other message names nothing |
| ChordExtraction.TrackNameIgnored | main.py:92-97 | a track-name event never names a chord |
| ChordExtraction.TicksMonotone | main.py:60-64 | the absolute tick count never decreases along the stream |
| ChordExtraction.TicksExample | main.py:60-64 | deltas 0, 10, 0, 5 give absolute ticks 0, 10, 10, 15: every message counts, including those without a chord |
| ChordExtraction.OffsetExample | main.py:126 | 960 ticks at 480 ticks per quarter note are offset 2.0 |
| ChordExtraction.OffsetMonotone | main.py:126 | later ticks give offsets that are no smaller |
| ChordExtraction.ScanFrom | main.py:60-129 | the loop only appends: the chords found so far remain a prefix, and the result holds the chords found so far plus at most as many new chords as there are messages left to scan |
| ChordExtraction.ScanInvariant | main.py:60-129 | a loop reaching step i with the reference state for i ends with the reference result |
| ChordExtraction.ScanIsCollected | main.py:60-129 | the loop's result equals the reference definition of the chords of all steps, in stream order |
| ChordExtraction.CollectedFromSteps | main.py:62-127 | the chords correspond one to one, in order, to the steps that emit; each chord is its step's accepted text at that step's absolute ticks over the resolution, and every step that can emit does |
| ChordExtraction.EmittingIndicesSpec | main.py:62-127 | the steps that emit are listed in increasing order, and a step is listed exactly when it yields a chord |
| ChordExtraction.CollectedPairs | main.py:62-127 | there are as many chords as emitting steps, and the j-th chord is the one the j-th emitting step yields |
| ChordExtraction.ScanChords | main.py:60-129 | the same correspondence for the loop itself |
| ChordExtraction.AppendAtBound | main.py:122-127 | appending a chord placed at the current ticks, after chords placed no later, keeps the list sorted and bounded by the current offset |
| ChordExtraction.CollectedSorted | main.py:60-64 | chord offsets never decrease and none lies beyond the ticks reached so far |
| ChordExtraction.ScanSorted | main.py:60-127 | the extracted chords are sorted by offset |
| ChordExtraction.CollectedZeroResolution | main.py:123-129 | with zero ticks per quarter note every division fails and nothing is collected |
| ChordExtraction.ZeroResolutionNoChords | main.py:123-129 | the loop with a zero resolution emits no chord |
| ChordExtraction.ZeroResolutionNoExtraction | main.py:123-129 | a zero melody resolution extracts nothing from any chord file |
| ChordExtraction.ExtractChords | main.py:60-132 | no more chords than messages are extracted |
| ChordExtraction.ExtractedChords | main.py:60-132 | every extracted chord was named by its own message, accepted by the validator, and placed at that message's absolute ticks over the melody's resolution; the chords are sorted by offset |
| ChordExtraction.ChordsMatchMessages | main.py:60-129 | message by message: the chords appear in message order, one per message whose chord text is present, non-empty and accepted (with a non-zero resolution), each at that message's absolute ticks over the resolution; every such message gives a chord and no other message does |
| ChordExtraction.ParseChordsFromMidi | main.py:50-58 | a chord file that cannot be opened or parsed gives the empty list; otherwise no more chords than messages |
| ChordExtraction.ChordFileResolutionIgnored | main.py:54-55 | the chord file's own resolution does not change the result: a mismatch only warns |
| ChordExtraction.TextChordRevalidated | main.py:112-127 | a chord from a text event always passes the second validation, so only a zero resolution can drop it |
| LeadSheet.FindMelodyFrom | main.py:151 | the search returns the first part at or after the start whose instrument is on channel 1, or nothing when no such part exists |
| LeadSheet.FindMelodyPart | main.py:151 | the melody part is the first part on channel 1; there is none exactly when no part is on channel 1 |
| LeadSheet.CreateLeadSheet | main.py:140-159 | an unreadable melody file or one with no part on channel 1 stops generation with that error; otherwise a lead sheet results |
| LeadSheet.SignatureItemsShape | main.py:164-174 | the signature items are the part's first time signature and then its first key signature, each at offset 0 and only when present |
| LeadSheet.ChordItemsRoundTrip | main.py:178-179 | reading the chords back from the inserted chord items gives exactly the extracted chords, each at its own offset |
| LeadSheet.MelodyItemsRoundTrip | main.py:180-181 | reading the melody back from the inserted items gives exactly the part's notes and rests, each at its own offset |
| LeadSheet.MergeContents | main.py:168-181 | nothing is dropped: size = signatures present + chords + notes and rests, the chords and the melody read back unchanged, and every item sits at its own offset |
| LeadSheet.MergeSignaturesFirst | main.py:172-181 | the time signature, then the key signature, come first; no signature item appears after them |
| LeadSheet.MergeChordOrder | main.py:178-179 | right after the signatures the chords appear in the order given, the j-th chord at position j among them, each at its own offset |
| LeadSheet.MergeMelodyOrder | main.py:180-181 | after the signatures and the chords, the notes, chords and rests of the melody appear in their own order, each at its own offset |
| LeadSheet.NoMelodyPartAborts | main.py:151-154 | with no part on channel 1 generation stops, whatever the chord file holds |
| LeadSheet.LeadSheetContents | main.py:149-181 | a lead sheet merges the first channel-1 part with the chords extracted at the melody file's resolution: exactly those chords and exactly that part's notes and rests |
| LeadSheet.UnreadableChordFile | main.py:56-58 | an unreadable chord file still gives a lead sheet of the melody's signatures and notes, with no chords |
| LeadSheet.ExampleChords | main.py:62-127 | a chord file with one XF D event 960 ticks in gives a D at offset 2 at 480 ticks per quarter note |
| LeadSheet.EndToEndExample | main.py:134-181 | a melody on channel 1 after a drum part, and that chord file, give a lead sheet of the 4/4 time signature, the D at offset 2 and the melody's note |

## Left out

- Decoding MIDI files and merging their tracks (`mido.MidiFile`, `mido.merge_tracks`) belong to an outside library. The model takes the merged stream as a sequence of messages that are already classified, each with its delta time. A file that cannot be read is `None`.
- Parsing the melody into a score and partitioning it by instrument (`converter.parse`, `partitionByInstrument`) are also outside the model. A part is given as its channel, signatures and timed notes and rests. A part without an instrument, or without a channel, has channel `None`.
- The two ways of reading the melody file (the resolution and the score) are one input here. A failure of either is `MelodyUnreadable`.
- The validator `harmony.ChordSymbol` is a parameter. A chord symbol is modelled as its figure and offset only.
- Stream internals are left out: music21's ordering of a part by offset, the `id` labels and the wrapping into a `Score`. The output is the list of insertions in order.
- MusicXML writing, directory creation, the command-line interface (`check_chords_in_file`, `run_lead_sheet_generation`, `main`) and every `print` are left out. `debug_mode` affects only printing.
- `sys.exit(1)` becomes a `Failure` value.
- Floating-point rounding of the offset division is replaced by exact rational arithmetic.
- `str.strip` and `\w` are modelled for ASCII only; Unicode whitespace and word characters are left out.
- Python truthiness of the time and key signature objects is modelled as presence.
