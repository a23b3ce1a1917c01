/**
 * The Yamaha XF chord decoder: recognises XF chord events carried in the
 * sequencer-specific meta event (FF 7F) of a Standard MIDI File and maps
 * their payload, through a static table, to a chord name.
 */
module XfChord {
  import opened Wrappers

  /** One byte of a meta event's data. */
  type byte = x: int | 0 <= x < 0x100

  /** Manufacturer id (Yamaha) and sub-id that open every XF meta event. */
  const XfMetaHeader: seq<byte> := [0x43, 0x7B]

  /** Event ids that follow the header. Only chord events are decoded. */
  const XfChordId: byte := 0x01
  const XfLyricId: byte := 0x20
  const XfRubyId: byte := 0x21

  /** The terminator/separator byte removed from a chord payload. */
  const Separator: byte := 0x7F

  /** A byte that can stand in a chord key: anything but the separator. */
  type KeyByte = b: byte | b != 0x7F

  /** A chord name; the table holds no empty one. */
  type ChordName = s: string | s != "" witness "C"

  /** A key of the chord table: a tuple of two or three key bytes. */
  datatype XfTuple = Pair(a: KeyByte, b: KeyByte) | Triple(a: KeyByte, b: KeyByte, c: KeyByte)

  /** The bytes of a tuple, in order. */
  function Bytes(t: XfTuple): seq<byte> {
    match t
    case Pair(a, b) => [a, b]
    case Triple(a, b, c) => [a, b, c]
  }

  /**
   * `tuple(key)` when it can be a table key: the one tuple with these
   * bytes, and none for any length but two or three or for bytes holding
   * the separator, which no key contains.
   */
  function AsTuple(key: seq<byte>): (t: Option<XfTuple>)
    ensures t.Some? ==> Bytes(t.value) == key
    ensures t.None? <==> (|key| != 2 && |key| != 3) || Separator in key
    ensures forall u :: Bytes(u) == key ==> t == Some(u)
  {
    if Separator in key then None
    else if |key| == 2 then Some(Pair(key[0], key[1]))
    else if |key| == 3 then Some(Triple(key[0], key[1], key[2]))
    else None
  }

  /**
   * Chord names keyed by the separator-free payload bytes: one dictionary
   * whose keys are tuples of two or three bytes, in the program's own
   * order. The table is reverse-engineered and incomplete.
   */
  const XfChordMap: map<XfTuple, ChordName> := map[
    Pair(0x31, 0x22) := "C#m7", Pair(0x26, 0x02) := "Fm7", Pair(0x27, 0x13) := "F#add9",
    Pair(0x35, 0x0A) := "G#7#9", Pair(0x31, 0x08) := "C#sus4", Pair(0x35, 0x13) := "G#add9",
    Pair(0x23, 0x13) := "D#add9", Pair(0x23, 0x00) := "D#", Pair(0x27, 0x00) := "F#",
    Triple(0x23, 0x13, 0x27) := "D#add9/F#", Triple(0x23, 0x00, 0x35) := "D#/G#",
    Pair(0x27, 0x0A) := "F#7#9", Pair(0x26, 0x00) := "Fm", Triple(0x35, 0x13, 0x37) := "G#add9/A#",
    Pair(0x31, 0x0A) := "C#7#9", Triple(0x27, 0x0A, 0x22) := "F#7#9/C#", Pair(0x35, 0x00) := "G#",
    Triple(0x35, 0x00, 0x37) := "G#/A#", Pair(0x27, 0x08) := "F#sus4",
    Pair(0x35, 0x02) := "G#m7", Pair(0x36, 0x13) := "Aadd9", Pair(0x44, 0x0A) := "E7#9",
    Pair(0x37, 0x08) := "A#sus4", Triple(0x32, 0x13, 0x31) := "Dm7/C#", Pair(0x32, 0x00) := "D",
    Pair(0x45, 0x00) := "F", Pair(0x36, 0x00) := "A", Pair(0x27, 0x02) := "F#m7",
    Triple(0x34, 0x00, 0x23) := "Fm/D#", Pair(0x34, 0x00) := "Fm", Pair(0x31, 0x00) := "C#",
    Triple(0x36, 0x13, 0x41) := "Aadd9/C#", Triple(0x34, 0x13, 0x23) := "Fmadd9/D#",
    Triple(0x23, 0x13, 0x22) := "D#add9/C#", Triple(0x23, 0x00, 0x27) := "D#/F#",
    Pair(0x44, 0x13) := "Eadd9", Pair(0x32, 0x08) := "Dsus4", Pair(0x31, 0x13) := "C#add9",
    Pair(0x36, 0x0A) := "A7#9", Pair(0x32, 0x0A) := "D7#9",
    Triple(0x52, 0, 35) := "Fm/D#", Triple(0x52, 19, 35) := "Fmadd9/D#"
  ]

  /** The payload with every separator byte removed, order preserved. */
  function StripSeparators(payload: seq<byte>): (key: seq<byte>)
    ensures Separator !in key
    ensures |key| <= |payload|
    ensures forall b | b in payload && b != Separator :: b in key
  {
    if payload == [] then []
    else if payload[0] == Separator then StripSeparators(payload[1..])
    else
      assert payload == [payload[0]] + payload[1..];
      [payload[0]] + StripSeparators(payload[1..])
  }

  /** Does `data` open with the XF header and carry an event id? */
  predicate IsXfMetaEvent(data: seq<byte>) {
    |data| > 2 && data[..2] == XfMetaHeader
  }

  /**
   * Exact-match lookup of a whole key, as `dict.get` on the tuple of its
   * bytes: a key absent from the table, of any length, yields no chord.
   */
  function LookupChord(key: seq<byte>): (name: Option<string>)
    ensures name.Some? ==> (|key| == 2 || |key| == 3) && Separator !in key && name.value != ""
  {
    match AsTuple(key)
    case None => None
    case Some(t) =>
      if t in XfChordMap then Some(XfChordMap[t])
      else None
  }

  /** The chord-event key of XF event data: the bytes after header and id, separators removed. */
  function XfKey(data: seq<byte>): (key: seq<byte>)
    requires |data| > 2
    ensures Separator !in key && |key| <= |data| - 3
  {
    StripSeparators(data[3..])
  }

  /**
   * The chord carried by the data of a sequencer-specific meta event, if
   * any: only XF chord events (header, then id 0x01) are decoded, and an
   * empty or unknown key yields no chord.
   */
  function DecodeXf(data: seq<byte>): (chord: Option<string>)
    ensures chord.Some? ==> IsXfMetaEvent(data) && data[2] == XfChordId
    ensures chord.Some? ==> 5 <= |data| && chord.value != ""
    ensures chord.Some? ==> LookupChord(XfKey(data)) == chord
    ensures IsXfMetaEvent(data) && data[2] == XfChordId ==> chord == LookupChord(XfKey(data))
  {
    if !IsXfMetaEvent(data) then None
    else if data[2] != XfChordId then None
    else
      var key := XfKey(data);
      if key == [] then None
      else LookupChord(key)
  }

  // ---------------------------------------------------------------------
  // Properties of the table
  // ---------------------------------------------------------------------

  /**
   * Lookup is `dict.get` over the table's entries: a chord is found exactly
   * when some entry's tuple has the key's bytes, and it is that entry's name.
   */
  lemma LookupIsDictGet(key: seq<byte>)
    ensures LookupChord(key).Some? ==>
      exists t | t in XfChordMap :: Bytes(t) == key && XfChordMap[t] == LookupChord(key).value
    ensures forall t | t in XfChordMap && Bytes(t) == key :: LookupChord(key) == Some(XfChordMap[t])
  {
    if LookupChord(key).Some? {
      var t := AsTuple(key).value;
      assert Bytes(t) == key && t in XfChordMap;
    }
  }

  /** A key of any length other than two or three never decodes. */
  lemma KeyArity(key: seq<byte>)
    requires |key| < 2 || 3 < |key|
    ensures LookupChord(key) == None
  {
  }

  /** (0x23, 0x00, 0x36) extends a listed pair but is itself not listed. */
  lemma UnlistedTriple(t: XfTuple)
    requires t == Triple(0x23, 0x00, 0x36)
    ensures t !in XfChordMap
  {
  }

  /** A two-byte key and its three-byte extension are distinct entries. */
  lemma ArityMatters()
    ensures LookupChord([0x23, 0x00]) == Some("D#")
    ensures LookupChord([0x23, 0x00, 0x35]) == Some("D#/G#")
    ensures LookupChord([0x23, 0x00, 0x36]) == None
  {
    UnlistedTriple(Triple(0x23, 0x00, 0x36));
  }

  /** Two different keys name the same chord, Fm/D#. */
  lemma SharedName()
    ensures LookupChord([0x34, 0x00, 0x23]) == Some("Fm/D#")
    ensures LookupChord([0x52, 0x00, 0x23]) == Some("Fm/D#")
  {
  }

  // ---------------------------------------------------------------------
  // Properties of separator removal
  // ---------------------------------------------------------------------

  /** Separator removal distributes over concatenation. */
  lemma {:induction false} StripConcat(a: seq<byte>, b: seq<byte>)
    ensures StripSeparators(a + b) == StripSeparators(a) + StripSeparators(b)
  {
    if a == [] {
      assert a + b == b;
    } else {
      assert (a + b)[1..] == a[1..] + b;
      StripConcat(a[1..], b);
    }
  }

  /** The key holds exactly the payload's non-separator bytes, with their multiplicities. */
  lemma {:induction false} StripKeepsOtherBytes(payload: seq<byte>)
    ensures multiset(StripSeparators(payload)) == multiset(payload)[Separator := 0]
  {
    if payload != [] {
      StripKeepsOtherBytes(payload[1..]);
      assert payload == [payload[0]] + payload[1..];
      assert multiset(payload) == multiset{payload[0]} + multiset(payload[1..]);
    }
  }

  /** Removing separators a second time changes nothing. */
  lemma {:induction false} StripIdempotent(payload: seq<byte>)
    ensures StripSeparators(StripSeparators(payload)) == StripSeparators(payload)
  {
    if payload != [] {
      StripIdempotent(payload[1..]);
      if payload[0] != Separator {
        var rest := StripSeparators(payload[1..]);
        assert ([payload[0]] + rest)[1..] == rest;
      }
    }
  }

  /** Inserting a separator byte anywhere in a payload leaves its key unchanged. */
  lemma SeparatorInsensitive(a: seq<byte>, b: seq<byte>)
    ensures StripSeparators(a + [Separator] + b) == StripSeparators(a + b)
  {
    var sep: seq<byte> := [Separator];
    assert StripSeparators(sep) == [] by {
      assert sep[1..] == [];
    }
    calc {
      StripSeparators(a + sep + b);
      { StripConcat(a + sep, b); }
      StripSeparators(a + sep) + StripSeparators(b);
      { StripConcat(a, sep); }
      StripSeparators(a) + StripSeparators(b);
      { StripConcat(a, b); }
      StripSeparators(a + b);
    }
  }

  /** Payloads with equal keys decode alike, whatever separators they carry. */
  lemma DecodeDependsOnKeyOnly(head: seq<byte>, p: seq<byte>, q: seq<byte>)
    requires |head| == 3
    requires StripSeparators(p) == StripSeparators(q)
    ensures DecodeXf(head + p) == DecodeXf(head + q)
  {
    assert (head + p)[..2] == head[..2] && (head + q)[..2] == head[..2];
    assert (head + p)[3..] == p && (head + q)[3..] == q;
  }

  /** Adding a separator byte to an XF chord payload does not change what it decodes to. */
  lemma DecodeSeparatorInsensitive(data: seq<byte>, i: nat)
    requires 3 <= i <= |data|
    ensures DecodeXf(data[..i] + [Separator] + data[i..]) == DecodeXf(data)
  {
    var head := data[..3];
    var a := data[3..i];
    var b := data[i..];
    assert data[..i] + [Separator] + data[i..] == head + (a + [Separator] + b);
    assert data == head + (a + b);
    SeparatorInsensitive(a, b);
    DecodeDependsOnKeyOnly(head, a + [Separator] + b, a + b);
  }

  // ---------------------------------------------------------------------
  // The event gate
  // ---------------------------------------------------------------------

  /** Lyric and ruby events (and any id other than the chord id) never yield a chord. */
  lemma NonChordIdIgnored(data: seq<byte>)
    requires IsXfMetaEvent(data) && data[2] != XfChordId
    ensures DecodeXf(data) == None
  {
  }

  /** The lyric and ruby ids are declared but never decoded: such events yield no chord. */
  lemma LyricAndRubyIgnored(data: seq<byte>)
    requires IsXfMetaEvent(data) && (data[2] == XfLyricId || data[2] == XfRubyId)
    ensures DecodeXf(data) == None
  {
    NonChordIdIgnored(data);
  }

  /** An XF chord event whose payload is empty or all separators yields no chord. */
  lemma {:induction false} EmptyKeySkipped(data: seq<byte>)
    requires |data| >= 3
    requires forall i | 3 <= i < |data| :: data[i] == Separator
    ensures DecodeXf(data) == None
  {
    AllSeparators(data[3..]);
  }

  lemma {:induction false} AllSeparators(payload: seq<byte>)
    requires forall i | 0 <= i < |payload| :: payload[i] == Separator
    ensures StripSeparators(payload) == []
  {
    if payload != [] {
      AllSeparators(payload[1..]);
    }
  }

  /** The chord event for D decodes, with or without separators around its bytes. */
  lemma DecodeExampleD()
    ensures DecodeXf([0x43, 0x7B, 0x01, 0x32, 0x00]) == Some("D")
    ensures DecodeXf([0x43, 0x7B, 0x01, 0x32, 0x7F, 0x00, 0x7F]) == Some("D")
  {
    var plain: seq<byte> := [0x43, 0x7B, 0x01, 0x32, 0x00];
    var padded: seq<byte> := [0x43, 0x7B, 0x01, 0x32, 0x7F, 0x00, 0x7F];
    assert plain[..2] == XfMetaHeader && padded[..2] == XfMetaHeader;
    KeyOfD(plain, padded);
    assert LookupChord([0x32, 0x00]) == Some("D");
  }

  lemma KeyOfD(plain: seq<byte>, padded: seq<byte>)
    requires plain == [0x43, 0x7B, 0x01, 0x32, 0x00]
    requires padded == [0x43, 0x7B, 0x01, 0x32, 0x7F, 0x00, 0x7F]
    ensures XfKey(plain) == [0x32, 0x00] && XfKey(padded) == [0x32, 0x00]
  {
    var key: seq<byte> := [0x32, 0x00];
    assert plain[3..] == key;
    assert StripSeparators(key) == key by {
      assert key[1..] == [0x00];
      assert key[1..][1..] == [];
    }
    assert padded[3..] == key[..1] + [Separator] + (key[1..] + [Separator]);
    SeparatorInsensitive(key[..1], key[1..] + [Separator]);
    assert key[..1] + (key[1..] + [Separator]) == key + [Separator];
    SeparatorInsensitive(key, []);
    assert key + [Separator] + [] == key + [Separator];
    assert key + [] == key;
  }

  /** A lyric event, a bare header with id, and a wrong header all yield no chord. */
  lemma DecodeExamplesNone()
    ensures DecodeXf([0x43, 0x7B, 0x20, 0x32, 0x00]) == None
    ensures DecodeXf([0x43, 0x7B, 0x01]) == None
    ensures DecodeXf([0x43, 0x7C, 0x01, 0x32, 0x00]) == None
  {
    var bare: seq<byte> := [0x43, 0x7B, 0x01];
    assert bare[3..] == [];
    var wrong: seq<byte> := [0x43, 0x7C, 0x01, 0x32, 0x00];
    assert wrong[..2] != XfMetaHeader by { assert wrong[..2][1] == 0x7C; }
  }
}
