/**
 * The text chord recognizer: trims a text, lyric or marker annotation,
 * searches it for one chord-like substring the way Python's `re.search`
 * does with the pattern of main.py:108, and keeps the substring only when
 * the chord-symbol validator accepts it.
 *
 * The pattern is, after a prefix of non-root characters,
 *   root [A-G], accidental [b#]?, quality (maj|min|m|M|dim|aug|sus|add|-|_)?,
 *   digits [0-9]*, group (\(.*\))?, bass (/[A-G][b#]?)?, then \b.
 * A backtracking matcher tries the optional and repeated parts in a fixed
 * preference order; the model lists, for each starting root letter, every
 * end position the pattern can reach in exactly that order, and takes the
 * first one that lies on a word boundary.
 */
module TextChord {
  import opened Wrappers

  // ---------------------------------------------------------------------
  // Character classes
  // ---------------------------------------------------------------------

  predicate IsRootLetter(c: char) { 'A' <= c <= 'G' }

  predicate IsAccidental(c: char) { c == 'b' || c == '#' }

  predicate IsDigit(c: char) { '0' <= c <= '9' }

  /** Python's `\w`, restricted to ASCII: letters, digits and underscore. */
  predicate IsWordChar(c: char) {
    ('a' <= c <= 'z') || ('A' <= c <= 'Z') || IsDigit(c) || c == '_'
  }

  /** The ASCII characters Python's `str.isspace` accepts: 9-13, 28-31 and the space. */
  predicate IsSpace(c: char) {
    c == ' ' || (9 <= c as int <= 13) || (28 <= c as int <= 31)
  }

  // ---------------------------------------------------------------------
  // str.strip()
  // ---------------------------------------------------------------------

  /** The number of whitespace characters that open `s`. */
  function LeadingSpace(s: string): (n: nat)
    ensures n <= |s|
    ensures forall i | 0 <= i < n :: IsSpace(s[i])
    ensures n < |s| ==> !IsSpace(s[n])
  {
    if s == [] || !IsSpace(s[0]) then 0 else 1 + LeadingSpace(s[1..])
  }

  /** The number of whitespace characters that close `s`. */
  function TrailingSpace(s: string): (n: nat)
    ensures n <= |s|
    ensures forall i | |s| - n <= i < |s| :: IsSpace(s[i])
    ensures n < |s| ==> !IsSpace(s[|s| - n - 1])
  {
    if s == [] || !IsSpace(s[|s| - 1]) then 0 else 1 + TrailingSpace(s[..|s| - 1])
  }

  /** `s` with surrounding whitespace removed. */
  function Strip(s: string): (r: string)
    ensures |r| <= |s|
    ensures r == [] <==> forall i | 0 <= i < |s| :: IsSpace(s[i])
    ensures r != [] ==> !IsSpace(r[0]) && !IsSpace(r[|r| - 1])
    ensures LeadingSpace(s) + |r| <= |s| && r == s[LeadingSpace(s)..LeadingSpace(s) + |r|]
    ensures forall k | LeadingSpace(s) + |r| <= k < |s| :: IsSpace(s[k])
  {
    var i := LeadingSpace(s);
    var n := TrailingSpace(s[i..]);
    s[i..|s| - n]
  }

  // ---------------------------------------------------------------------
  // The pattern, one stage at a time
  // ---------------------------------------------------------------------

  /** The parts of the pattern that follow the root letter, in pattern order. */
  datatype Stage = Accidental | Quality | Digits | Group | Bass

  const ChordPattern: seq<Stage> := [Accidental, Quality, Digits, Group, Bass]

  /** The quality alternatives, in the order the pattern lists them. */
  const QualityTokens: seq<string> := ["maj", "min", "m", "M", "dim", "aug", "sus", "add", "-", "_"]

  /** The strings a single stage matches. */
  predicate StageShape(st: Stage, s: string) {
    match st
    case Accidental => |s| <= 1 && (|s| == 1 ==> IsAccidental(s[0]))
    case Quality => s == [] || s in QualityTokens
    case Digits => forall i | 0 <= i < |s| :: IsDigit(s[i])
    case Group =>
      s == [] ||
      (2 <= |s| && s[0] == '(' && s[|s| - 1] == ')' && forall i | 1 <= i < |s| - 1 :: s[i] != '\n')
    case Bass =>
      s == [] ||
      (2 <= |s| <= 3 && s[0] == '/' && IsRootLetter(s[1]) && (|s| == 3 ==> IsAccidental(s[2])))
  }

  /** Strictly decreasing: every stage prefers the longest match. */
  predicate Descending(ps: seq<nat>) {
    forall i, j | 0 <= i < j < |ps| :: ps[i] > ps[j]
  }

  lemma DescendingCons(x: nat, ps: seq<nat>)
    requires Descending(ps)
    requires forall e | e in ps :: e < x
    ensures Descending([x] + ps)
  {
    var xs := [x] + ps;
    forall i, j | 0 <= i < j < |xs|
      ensures xs[i] > xs[j]
    {
      assert xs[j] == ps[j - 1];
      if i > 0 {
        assert xs[i] == ps[i - 1];
      } else {
        assert ps[j - 1] in ps;
      }
    }
  }

  lemma DescendingAppend(a: seq<nat>, b: seq<nat>)
    requires Descending(a) && Descending(b)
    requires forall x, y | x in a && y in b :: x > y
    ensures Descending(a + b)
  {
    var ab := a + b;
    forall i, j | 0 <= i < j < |ab|
      ensures ab[i] > ab[j]
    {
      if j < |a| {
        assert ab[i] == a[i] && ab[j] == a[j];
      } else if i >= |a| {
        assert ab[i] == b[i - |a|] && ab[j] == b[j - |a|];
      } else {
        assert ab[i] == a[i] && ab[j] == b[j - |a|];
        assert a[i] in a && b[j - |a|] in b;
      }
    }
  }

  /** `[hi, hi - 1, ..., lo]`. */
  function CountDown(hi: nat, lo: nat): (ps: seq<nat>)
    requires lo <= hi
    ensures |ps| == hi - lo + 1
    ensures forall k | 0 <= k < |ps| :: ps[k] == hi - k
    ensures forall e :: e in ps <==> lo <= e <= hi
    decreases hi - lo
  {
    if hi == lo then [lo] else [hi] + CountDown(hi - 1, lo)
  }

  /** The length of the run of digits that starts at `p`. */
  function DigitRun(t: string, p: nat): (n: nat)
    requires p <= |t|
    ensures p + n <= |t|
    ensures forall i | p <= i < p + n :: IsDigit(t[i])
    ensures p + n < |t| ==> !IsDigit(t[p + n])
    decreases |t| - p
  {
    if p < |t| && IsDigit(t[p]) then 1 + DigitRun(t, p + 1) else 0
  }

  /** The first position at or after `p` that holds a newline, or `|t|`. */
  function LineEnd(t: string, p: nat): (e: nat)
    requires p <= |t|
    ensures p <= e <= |t|
    ensures forall i | p <= i < e :: t[i] != '\n'
    ensures e < |t| ==> t[e] == '\n'
    decreases |t| - p
  {
    if p == |t| || t[p] == '\n' then p else LineEnd(t, p + 1)
  }

  /** The positions just after each `)` in `t[lo..hi]`, farthest first. */
  function CloseParens(t: string, lo: nat, hi: nat): (ps: seq<nat>)
    requires lo <= hi <= |t|
    ensures Descending(ps)
    ensures forall e | e in ps :: lo < e <= hi
    ensures forall e :: e in ps <==> lo < e <= hi && t[e - 1] == ')'
    decreases hi - lo
  {
    if hi == lo then []
    else if t[hi - 1] == ')' then
      var rest := CloseParens(t, lo, hi - 1);
      DescendingCons(hi, rest);
      [hi] + rest
    else CloseParens(t, lo, hi - 1)
  }

  /** Does the text continue at `p` with `tok`, character by character? */
  predicate OccursAt(t: string, p: nat, tok: string) {
    p + |tok| <= |t| && forall i | 0 <= i < |tok| :: t[p + i] == tok[i]
  }

  /** `[p + |tok|]` when the alternative `tok` occurs at `p`, else `[]`. */
  function TryToken(t: string, p: nat, tok: string): (ps: seq<nat>)
    requires p <= |t|
  {
    if OccursAt(t, p, tok) then [p + |tok|] else []
  }

  /** The ends of the alternatives of `toks` that occur at `p`, in list order. */
  function Alternatives(t: string, p: nat, toks: seq<string>): seq<nat>
    requires p <= |t|
    decreases |toks|
  {
    if toks == [] then [] else TryToken(t, p, toks[0]) + Alternatives(t, p, toks[1..])
  }

  /**
   * The quality alternation as the pattern writes it: the alternatives that
   * occur at `p`, in pattern order, then the empty quality.
   */
  function QualityAlternation(t: string, p: nat): seq<nat>
    requires p <= |t|
  {
    Alternatives(t, p, QualityTokens) + [p]
  }

  /**
   * Every position one stage can reach from `p`, in the order a
   * backtracking matcher tries them (see StageEndsSpec).
   */
  function StageEnds(t: string, st: Stage, p: nat): (ends: seq<nat>)
    requires p <= |t|
    ensures p in ends
    ensures forall e | e in ends :: p <= e <= |t|
  {
    match st
    case Accidental =>
      if p < |t| && IsAccidental(t[p]) then [p + 1, p] else [p]
    case Quality =>
      // the alternation in its compact form, see QualityAlternationShape
      LongQuality(t, p) + ShortQuality(t, p) + [p]
    case Digits =>
      CountDown(p + DigitRun(t, p), p)
    case Group =>
      if p < |t| && t[p] == '(' then CloseParens(t, p + 1, LineEnd(t, p + 1)) + [p] else [p]
    case Bass =>
      if p + 1 < |t| && t[p] == '/' && IsRootLetter(t[p + 1]) then
        (if p + 2 < |t| && IsAccidental(t[p + 2]) then [p + 3, p + 2] else [p + 2]) + [p]
      else [p]
  }

  /**
   * Each stage lists exactly the ends of the pieces of its shape that start
   * at `p`, longest first: the accidental, digits, group and bass are
   * greedy, and the quality alternation happens to try longer tokens first.
   */
  lemma StageEndsSpec(t: string, st: Stage, p: nat)
    requires p <= |t|
    ensures Descending(StageEnds(t, st, p))
    ensures forall e :: e in StageEnds(t, st, p) <==> p <= e <= |t| && StageShape(st, t[p..e])
  {
    match st
    case Accidental =>
      AccidentalSpec(t, p);
    case Quality =>
      QualitySpec(t, p);
    case Digits =>
      DigitsSpec(t, p);
    case Group =>
      if p < |t| && t[p] == '(' {
        DescendingAppend(CloseParens(t, p + 1, LineEnd(t, p + 1)), [p]);
        GroupSpec(t, p);
      }
    case Bass =>
      BassSpec(t, p);
  }

  lemma AccidentalSpec(t: string, p: nat)
    requires p <= |t|
    ensures Descending(StageEnds(t, Accidental, p))
    ensures forall e :: e in StageEnds(t, Accidental, p) <==> p <= e <= |t| && StageShape(Accidental, t[p..e])
  {
    forall e | p < e <= |t|
      ensures StageShape(Accidental, t[p..e]) <==> e == p + 1 && IsAccidental(t[p])
    {
      assert t[p..e][0] == t[p];
    }
  }

  lemma BassSpec(t: string, p: nat)
    requires p <= |t|
    ensures Descending(StageEnds(t, Bass, p))
    ensures forall e :: e in StageEnds(t, Bass, p) <==> p <= e <= |t| && StageShape(Bass, t[p..e])
  {
    forall e | p < e <= |t|
      ensures StageShape(Bass, t[p..e]) <==>
        (p + 1 < |t| && t[p] == '/' && IsRootLetter(t[p + 1])) &&
        (e == p + 2 || (e == p + 3 && IsAccidental(t[p + 2])))
    {
      var s := t[p..e];
      assert s[0] == t[p];
      if |s| >= 2 {
        assert s[1] == t[p + 1];
      }
      if |s| >= 3 {
        assert s[2] == t[p + 2];
      }
    }
  }

  /** Is `a b c` one of the three-letter alternatives? */
  predicate IsLongQuality(a: char, b: char, c: char) {
    || (a == 'm' && b == 'a' && c == 'j')
    || (a == 'm' && b == 'i' && c == 'n')
    || (a == 'd' && b == 'i' && c == 'm')
    || (a == 'a' && b == 'u' && c == 'g')
    || (a == 's' && b == 'u' && c == 's')
    || (a == 'a' && b == 'd' && c == 'd')
  }

  /** The three-letter alternatives that occur at `p`: at most one. */
  function LongQuality(t: string, p: nat): seq<nat>
    requires p <= |t|
  {
    if p + 3 <= |t| && IsLongQuality(t[p], t[p + 1], t[p + 2]) then [p + 3] else []
  }

  /** The one-character alternatives that occur at `p`: at most one. */
  function ShortQuality(t: string, p: nat): seq<nat>
    requires p <= |t|
  {
    if p < |t| && t[p] in "mM-_" then [p + 1] else []
  }

  /** `a` is an initial piece of `b`. */
  predicate IsPrefix(a: string, b: string) {
    |a| <= |b| && b[..|a|] == a
  }

  /**
   * No alternative is empty, and none is an initial piece of a later one:
   * of two alternatives that both occur, the earlier is the longer.
   */
  predicate LongerFirst(toks: seq<string>) {
    && (forall k | 0 <= k < |toks| :: |toks[k]| > 0)
    && (forall i, j | 0 <= i < j < |toks| :: !IsPrefix(toks[i], toks[j]))
  }

  /** Occurring character by character is the same as the slice equalling the token. */
  lemma OccursAtSlice(t: string, p: nat, tok: string)
    requires p + |tok| <= |t|
    ensures OccursAt(t, p, tok) <==> t[p..p + |tok|] == tok
  {
    if OccursAt(t, p, tok) {
      assert forall i | 0 <= i < |tok| :: t[p..p + |tok|][i] == tok[i];
    }
  }

  /** Two pieces that both start at `p`: the shorter is an initial piece of the longer. */
  lemma SameStart(t: string, p: nat, a: string, b: string)
    requires p + |a| <= |t| && t[p..p + |a|] == a
    requires p + |b| <= |t| && t[p..p + |b|] == b
    ensures IsPrefix(a, b) || |b| < |a|
  {
    if |a| <= |b| {
      assert b[..|a|] == a;
    }
  }

  /** The alternation reaches exactly the ends of the alternatives found at `p`. */
  lemma {:induction false} AlternativesMembers(t: string, p: nat, toks: seq<string>, e: int)
    requires p <= |t|
    ensures e in Alternatives(t, p, toks) <==> p <= e <= |t| && t[p..e] in toks
    decreases |toks|
  {
    if toks != [] {
      var tok := toks[0];
      AlternativesMembers(t, p, toks[1..], e);
      assert toks == [tok] + toks[1..];
      if p <= e <= |t| && t[p..e] == tok {
        OccursAtSlice(t, p, tok);
      } else if e in TryToken(t, p, tok) {
        OccursAtSlice(t, p, tok);
      }
    }
  }

  /** Longer-first alternatives are tried longest first, all beyond `p`. */
  lemma {:induction false} AlternativesDescending(t: string, p: nat, toks: seq<string>)
    requires p <= |t|
    requires LongerFirst(toks)
    ensures Descending(Alternatives(t, p, toks))
    ensures forall e | e in Alternatives(t, p, toks) :: e > p
    decreases |toks|
  {
    if toks != [] {
      var tok, rest := toks[0], toks[1..];
      LongerFirstTail(toks);
      AlternativesDescending(t, p, rest);
      var later := Alternatives(t, p, rest);
      if OccursAt(t, p, tok) {
        forall e | e in later
          ensures e < p + |tok|
        {
          LaterIsShorter(t, p, toks, e);
        }
        DescendingCons(p + |tok|, later);
      } else {
        assert Alternatives(t, p, toks) == later;
      }
    }
  }

  /** Dropping the first token keeps the order longer-first. */
  lemma LongerFirstTail(toks: seq<string>)
    requires toks != [] && LongerFirst(toks)
    ensures LongerFirst(toks[1..])
  {
    var rest := toks[1..];
    forall i, j | 0 <= i < j < |rest|
      ensures !IsPrefix(rest[i], rest[j])
    {
      assert rest[i] == toks[i + 1] && rest[j] == toks[j + 1];
    }
  }

  /** When the first alternative occurs, every later one that occurs ends before it. */
  lemma LaterIsShorter(t: string, p: nat, toks: seq<string>, e: int)
    requires p <= |t| && toks != [] && LongerFirst(toks)
    requires OccursAt(t, p, toks[0]) && e in Alternatives(t, p, toks[1..])
    ensures e < p + |toks[0]|
  {
    var tok, rest := toks[0], toks[1..];
    OccursAtSlice(t, p, tok);
    AlternativesMembers(t, p, rest, e);
    var k :| 0 <= k < |rest| && rest[k] == t[p..e];
    assert toks[k + 1] == rest[k];
    SameStart(t, p, tok, rest[k]);
  }

  /** Two strictly decreasing lists with the same members are the same list. */
  lemma {:induction false} DescendingUnique(a: seq<nat>, b: seq<nat>)
    requires Descending(a) && Descending(b)
    requires forall e :: e in a <==> e in b
    ensures a == b
    decreases |a|
  {
    if a == [] {
      HeadIsMember(b);
    } else {
      assert b != [] by {
        assert a[0] in a;
      }
      assert a[0] in b && b[0] in a;
      assert a[0] == b[0];
      forall e
        ensures e in a[1..] <==> e in b[1..]
      {
        if e in a[1..] {
          assert e < a[0];
          assert e in b;
        }
        if e in b[1..] {
          assert e < b[0];
          assert e in a;
        }
      }
      DescendingUnique(a[1..], b[1..]);
      assert a == [a[0]] + a[1..] && b == [b[0]] + b[1..];
    }
  }

  /** The head of a non-empty list is one of its members. */
  lemma HeadIsMember(s: seq<nat>)
    ensures s != [] ==> s[0] in s
  {
  }

  /** `maj` and `min` come before `m`; no other token starts another. */
  lemma QualityTokensLongerFirst()
    ensures LongerFirst(QualityTokens)
  {
    var q := QualityTokens;
    forall i, j | 0 <= i < j < |q|
      ensures !IsPrefix(q[i], q[j])
    {
      if |q[i]| <= |q[j]| {
        assert q[j][..|q[i]|] != q[i] by {
          if |q[i]| == |q[j]| {
            assert q[j][..|q[i]|] == q[j];
          } else {
            assert q[j][..1] == [q[j][0]];
          }
        }
      }
    }
  }

  /**
   * The alternation as the pattern writes it and the compact form the stage
   * uses are the same list: the only alternatives that can both occur are
   * `maj` or `min` with `m`, and those are written longest first.
   */
  lemma QualityAlternationShape(t: string, p: nat)
    requires p <= |t|
    ensures QualityAlternation(t, p) == LongQuality(t, p) + ShortQuality(t, p) + [p]
  {
    QualityAlternationOrder(t, p);
    QualitySpec(t, p);
    QualityAlternationMembers(t, p);
    DescendingUnique(QualityAlternation(t, p), LongQuality(t, p) + ShortQuality(t, p) + [p]);
  }

  /** The alternation's ends, the empty quality last, strictly decrease. */
  lemma QualityAlternationOrder(t: string, p: nat)
    requires p <= |t|
    ensures Descending(QualityAlternation(t, p))
  {
    QualityTokensLongerFirst();
    AlternativesDescending(t, p, QualityTokens);
    DescendingAppend(Alternatives(t, p, QualityTokens), [p]);
  }

  /** The alternation reaches exactly the ends of quality-shaped pieces. */
  lemma QualityAlternationMembers(t: string, p: nat)
    requires p <= |t|
    ensures forall e :: e in QualityAlternation(t, p) <==> p <= e <= |t| && StageShape(Quality, t[p..e])
  {
    forall e: int
      ensures e in Alternatives(t, p, QualityTokens) + [p] <==> p <= e <= |t| && (t[p..e] == [] || t[p..e] in QualityTokens)
    {
      OptionalAlternative(t, p, QualityTokens, e);
    }
  }

  /** An optional alternation also reaches `p` itself, by matching nothing. */
  lemma OptionalAlternative(t: string, p: nat, toks: seq<string>, e: int)
    requires p <= |t|
    ensures e in Alternatives(t, p, toks) + [p] <==> p <= e <= |t| && (t[p..e] == [] || t[p..e] in toks)
  {
    AlternativesMembers(t, p, toks, e);
  }

  lemma QualityTokenAt(t: string, p: nat, e: nat)
    requires p < e <= |t|
    ensures t[p..e] in QualityTokens <==>
      (e == p + 3 && LongQuality(t, p) != []) || (e == p + 1 && ShortQuality(t, p) != [])
  {
    var s := t[p..e];
    if e == p + 1 {
      assert s == [t[p]];
    } else if e == p + 3 {
      assert s == [t[p], t[p + 1], t[p + 2]];
      assert s in QualityTokens <==> s in ["maj", "min", "dim", "aug", "sus", "add"];
    } else {
      assert forall k | 0 <= k < |QualityTokens| :: |QualityTokens[k]| == 1 || |QualityTokens[k]| == 3;
    }
  }

  lemma QualitySpec(t: string, p: nat)
    requires p <= |t|
    ensures Descending(LongQuality(t, p) + ShortQuality(t, p) + [p])
    ensures forall e :: e in LongQuality(t, p) + ShortQuality(t, p) + [p] <==>
      p <= e <= |t| && StageShape(Quality, t[p..e])
  {
    var q := LongQuality(t, p) + ShortQuality(t, p) + [p];
    forall e
      ensures e in q <==> p <= e <= |t| && StageShape(Quality, t[p..e])
    {
      if p < e <= |t| {
        QualityTokenAt(t, p, e);
      }
    }
  }

  lemma DigitsSpec(t: string, p: nat)
    requires p <= |t|
    ensures forall e :: p <= e <= p + DigitRun(t, p) <==> p <= e <= |t| && StageShape(Digits, t[p..e])
  {
    var n := DigitRun(t, p);
    forall e | p <= e <= |t|
      ensures e <= p + n <==> StageShape(Digits, t[p..e])
    {
      var s := t[p..e];
      assert forall i | 0 <= i < |s| :: s[i] == t[p + i];
      if e > p + n {
        assert s[n] == t[p + n];
      }
    }
  }

  lemma GroupSpec(t: string, p: nat)
    requires p < |t| && t[p] == '('
    ensures forall e :: e in CloseParens(t, p + 1, LineEnd(t, p + 1)) + [p] <==> p <= e <= |t| && StageShape(Group, t[p..e])
  {
    forall e: int
      ensures e in CloseParens(t, p + 1, LineEnd(t, p + 1)) + [p] <==> p <= e <= |t| && StageShape(Group, t[p..e])
    {
      GroupEndAt(t, p, e);
    }
    assert forall e: int :: e in CloseParens(t, p + 1, LineEnd(t, p + 1)) + [p] ==> p <= e <= |t| && StageShape(Group, t[p..e]);
    assert forall e: int :: p <= e <= |t| && StageShape(Group, t[p..e]) ==> e in CloseParens(t, p + 1, LineEnd(t, p + 1)) + [p];
  }

  /** One end of the group stage: either no group, or a group closed on a ')' on the same line. */
  lemma GroupEndAt(t: string, p: nat, e: int)
    requires p < |t| && t[p] == '('
    ensures e in CloseParens(t, p + 1, LineEnd(t, p + 1)) + [p] <==> p <= e <= |t| && StageShape(Group, t[p..e])
  {
    CloseOrNone(t, p, e);
    if p + 2 <= e <= |t| {
      GroupShapeAt(t, p, e);
    } else if p <= e <= |t| {
      NoShortGroup(t, p, e);
    }
  }

  /** The group stage ends on `p` or just after a ')' on the same line. */
  lemma CloseOrNone(t: string, p: nat, e: int)
    requires p < |t|
    ensures e in CloseParens(t, p + 1, LineEnd(t, p + 1)) + [p]
        <==> e == p || (p + 1 < e <= LineEnd(t, p + 1) && t[e - 1] == ')')
  {
  }

  /** No group is a single character. */
  lemma NoShortGroup(t: string, p: nat, e: nat)
    requires p <= e <= p + 1 && e <= |t|
    ensures StageShape(Group, t[p..e]) <==> e == p
  {
  }

  /** A group from `p` to `e` closes on a ')' and reaches no further than the end of the line. */
  lemma GroupShapeAt(t: string, p: nat, e: nat)
    requires p < |t| && t[p] == '(' && p + 2 <= e <= |t|
    ensures StageShape(Group, t[p..e]) <==> t[e - 1] == ')' && e <= LineEnd(t, p + 1)
  {
    var g := t[p..e];
    var l := LineEnd(t, p + 1);
    assert g[0] == '(' && g[|g| - 1] == t[e - 1];
    assert forall i | 1 <= i < |g| - 1 :: g[i] == t[p + i];
    if StageShape(Group, g) && l < e {
      if l < e - 1 {
        assert g[l - p] == t[l] == '\n';
      } else {
        assert t[l] == '\n';
      }
    }
  }

  // ---------------------------------------------------------------------
  // Chaining the stages
  // ---------------------------------------------------------------------

  /**
   * Can `t[p..e]` be split into consecutive pieces, one per stage of
   * `stages`, each of the stage's shape?
   */
  ghost predicate Shaped(t: string, stages: seq<Stage>, p: nat, e: nat)
    decreases |stages|
  {
    p <= e <= |t| &&
    if stages == [] then p == e
    else exists m | p <= m <= e :: StageShape(stages[0], t[p..m]) && Shaped(t, stages[1..], m, e)
  }

  /**
   * Every position the stages can reach from `p`, in backtracking order:
   * all continuations of the first stage's preferred choice, then those of
   * its next choice, and so on.
   */
  function Ends(t: string, stages: seq<Stage>, p: nat): (ends: seq<nat>)
    requires p <= |t|
    ensures ends != []
    ensures forall e | e in ends :: p <= e <= |t|
    decreases |stages|, 0
  {
    if stages == [] then [p]
    else ThenAll(t, stages[1..], StageEnds(t, stages[0], p), p)
  }

  /** The concatenated continuations, through `stages`, of every position in `ps`. */
  function ThenAll(t: string, stages: seq<Stage>, ps: seq<nat>, lo: nat): (ends: seq<nat>)
    requires forall q | q in ps :: lo <= q <= |t|
    ensures ps != [] ==> ends != []
    ensures forall e | e in ends :: lo <= e <= |t|
    decreases |stages|, |ps| + 1
  {
    if ps == [] then []
    else
      assert ps[0] in ps;
      assert forall q | q in ps[1..] :: q in ps;
      Ends(t, stages, ps[0]) + ThenAll(t, stages, ps[1..], lo)
  }

  /** The positions `Ends` lists are exactly those the stages can reach. */
  lemma {:induction false} EndsComplete(t: string, stages: seq<Stage>, p: nat, e: nat)
    requires p <= |t|
    ensures e in Ends(t, stages, p) <==> Shaped(t, stages, p, e)
    decreases |stages|, 0
  {
    if stages != [] {
      var first := StageEnds(t, stages[0], p);
      StageEndsSpec(t, stages[0], p);
      ThenAllComplete(t, stages[1..], first, p, e);
      if Shaped(t, stages, p, e) {
        var m :| p <= m <= e && StageShape(stages[0], t[p..m]) && Shaped(t, stages[1..], m, e);
        assert m in first;
      }
    }
  }

  lemma {:induction false} ThenAllComplete(t: string, stages: seq<Stage>, ps: seq<nat>, lo: nat, e: nat)
    requires forall q | q in ps :: lo <= q <= |t|
    ensures e in ThenAll(t, stages, ps, lo) <==> exists q | q in ps :: Shaped(t, stages, q, e)
    decreases |stages|, |ps| + 1
  {
    if ps != [] {
      assert ps[0] in ps;
      assert forall q | q in ps[1..] :: q in ps;
      EndsComplete(t, stages, ps[0], e);
      ThenAllComplete(t, stages, ps[1..], lo, e);
      if exists q | q in ps :: Shaped(t, stages, q, e) {
        var q :| q in ps && Shaped(t, stages, q, e);
        if q != ps[0] {
          assert q in ps[1..];
        }
      }
    }
  }

  // ---------------------------------------------------------------------
  // Word boundary and the first acceptable end
  // ---------------------------------------------------------------------

  /** Python's `\b` at position `e`: exactly one neighbour is a word character. */
  predicate IsBoundary(t: string, e: nat) {
    (0 < e <= |t| && IsWordChar(t[e - 1])) != (e < |t| && IsWordChar(t[e]))
  }

  /** The index of the first position in `ends` that lies on a word boundary. */
  function FirstBoundary(t: string, ends: seq<nat>): (k: Option<nat>)
    ensures k.Some? ==> k.value < |ends| && IsBoundary(t, ends[k.value])
    ensures k.Some? ==> forall i | 0 <= i < k.value :: !IsBoundary(t, ends[i])
    ensures k.None? ==> forall e | e in ends :: !IsBoundary(t, e)
  {
    if ends == [] then None
    else if IsBoundary(t, ends[0]) then Some(0)
    else
      match FirstBoundary(t, ends[1..])
      case None => None
      case Some(k) => Some(k + 1)
  }

  /**
   * The end of the chord the pattern matches when its root is the letter
   * at `p`, if any: the first end, in backtracking order, on a word boundary.
   */
  function MatchAt(t: string, p: nat): (m: Option<nat>)
    requires p <= |t|
    ensures m.Some? ==> p < |t| && IsRootLetter(t[p]) && p < m.value <= |t| && IsBoundary(t, m.value)
  {
    if p < |t| && IsRootLetter(t[p]) then
      var ends := Ends(t, ChordPattern, p + 1);
      match FirstBoundary(t, ends)
      case None => None
      case Some(k) =>
        assert ends[k] in ends;
        Some(ends[k])
    else None
  }

  /**
   * A match from `p` exists exactly when some chord-shaped text after the
   * root letter ends on a word boundary.
   */
  lemma MatchAtComplete(t: string, p: nat)
    requires p <= |t|
    ensures MatchAt(t, p).Some? ==> Shaped(t, ChordPattern, p + 1, MatchAt(t, p).value)
    ensures MatchAt(t, p).None? <==>
      !(p < |t| && IsRootLetter(t[p])) ||
      forall e | p + 1 <= e <= |t| :: !(Shaped(t, ChordPattern, p + 1, e) && IsBoundary(t, e))
  {
    if p < |t| && IsRootLetter(t[p]) {
      var ends := Ends(t, ChordPattern, p + 1);
      forall e | p + 1 <= e <= |t|
        ensures e in ends <==> Shaped(t, ChordPattern, p + 1, e)
      {
        EndsComplete(t, ChordPattern, p + 1, e);
      }
      match FirstBoundary(t, ends)
      case None =>
      case Some(k) =>
        assert ends[k] in ends;
    }
  }

  /** The match, if any, from every start position of `t`, in order. */
  function StartMatches(t: string): (ms: seq<Option<nat>>)
    ensures |ms| == |t| + 1
  {
    seq(|t| + 1, q requires 0 <= q <= |t| => MatchAt(t, q))
  }

  /** The first start at or after `p` whose match succeeds, with that match's end. */
  function FirstMatch(ms: seq<Option<nat>>, p: nat): (r: Option<(nat, nat)>)
    requires p <= |ms|
    ensures r.Some? ==> p <= r.value.0 < |ms| && ms[r.value.0] == Some(r.value.1)
    ensures r.Some? ==> forall q | p <= q < r.value.0 :: ms[q].None?
    ensures r.None? ==> forall q | p <= q < |ms| :: ms[q].None?
    decreases |ms| - p
  {
    if p == |ms| then None
    else
      match ms[p]
      case Some(e) => Some((p, e))
      case None => FirstMatch(ms, p + 1)
  }

  /**
   * `re.search` from `p`: the first root position at or after `p` from
   * which the pattern matches, with the end of that match.
   */
  function SearchFrom(t: string, p: nat): (r: Option<(nat, nat)>)
    requires p <= |t|
    ensures r.Some? ==> p <= r.value.0 < r.value.1 <= |t| && MatchAt(t, r.value.0) == Some(r.value.1)
  {
    var r := FirstMatch(StartMatches(t), p);
    if r.Some? then
      assert StartMatches(t)[r.value.0] == MatchAt(t, r.value.0);
      r
    else r
  }

  /** The search finds the leftmost match, and finds none only when there is none. */
  lemma SearchLeftmost(t: string, p: nat)
    requires p <= |t|
    ensures SearchFrom(t, p).Some? ==> forall q | p <= q < SearchFrom(t, p).value.0 :: MatchAt(t, q).None?
    ensures SearchFrom(t, p).None? ==> forall q | p <= q <= |t| :: MatchAt(t, q).None?
  {
    var ms := StartMatches(t);
    assert forall q | 0 <= q <= |t| :: ms[q] == MatchAt(t, q);
  }

  /** `match.group(1)` of main.py:108, when the pattern matches. */
  function Candidate(t: string): (c: Option<string>)
    ensures c.Some? ==> c.value != [] && IsRootLetter(c.value[0])
    ensures c.Some? ==>
      exists p | 0 <= p < |t| ::
        && MatchAt(t, p).Some?
        && c.value == t[p..MatchAt(t, p).value]
        && forall q | 0 <= q < p :: MatchAt(t, q).None?
    ensures c.None? <==> forall p | 0 <= p <= |t| :: MatchAt(t, p).None?
  {
    SearchLeftmost(t, 0);
    match SearchFrom(t, 0)
    case None => None
    case Some((p, e)) => Some(t[p..e])
  }

  /** A text without an upper-case letter from A to G never yields a candidate. */
  lemma NoRootNoCandidate(t: string)
    requires forall i | 0 <= i < |t| :: !IsRootLetter(t[i])
    ensures Candidate(t) == None
  {
  }

  /**
   * The chord a text, lyric or marker annotation names, if any: the trimmed
   * text's leftmost regex match, kept only when the validator accepts it.
   * Blank text names no chord.
   */
  function RecognizeText(valid: string -> bool, text: string): (chord: Option<string>)
    ensures chord.Some? ==> valid(chord.value) && Candidate(Strip(text)) == chord
    ensures chord.None? <==> Candidate(Strip(text)).None? || !valid(Candidate(Strip(text)).value)
    ensures chord.Some? ==> chord.value != [] && IsRootLetter(chord.value[0])
    ensures chord.Some? ==>
      exists p | 0 <= p < |Strip(text)| ::
        && MatchAt(Strip(text), p).Some?
        && chord.value == Strip(text)[p..MatchAt(Strip(text), p).value]
        && forall q | 0 <= q < p :: MatchAt(Strip(text), q).None?
    ensures (forall i | 0 <= i < |text| :: IsSpace(text[i])) ==> chord.None?
  {
    var s := Strip(text);
    if s == "" then None
    else
      match Candidate(s)
      case None => None
      case Some(c) => if valid(c) then Some(c) else None
  }

  // ---------------------------------------------------------------------
  // Worked examples
  // ---------------------------------------------------------------------

  /** A stage that cannot advance from `p` is passed over. */
  lemma EndsSkip(t: string, stages: seq<Stage>, p: nat)
    requires p <= |t| && stages != [] && StageEnds(t, stages[0], p) == [p]
    ensures Ends(t, stages, p) == Ends(t, stages[1..], p)
  {
    var ps: seq<nat> := [p];
    assert ThenAll(t, stages[1..], ps[1..], p) == [];
  }

  /** The first end the stages try follows each stage's first choice. */
  lemma EndsHead(t: string, stages: seq<Stage>, p: nat)
    requires p <= |t| && stages != []
    ensures var first := StageEnds(t, stages[0], p);
      first[0] in first && Ends(t, stages, p)[0] == Ends(t, stages[1..], first[0])[0]
  {
  }

  /** Stages that cannot advance from `p` are passed over. */
  lemma {:induction false} SkipStuck(t: string, stages: seq<Stage>, n: nat, p: nat)
    requires p <= |t| && n <= |stages|
    requires forall k | 0 <= k < n :: StageEnds(t, stages[k], p) == [p]
    ensures Ends(t, stages, p) == Ends(t, stages[n..], p)
    decreases n
  {
    if n > 0 {
      EndsSkip(t, stages, p);
      var rest := stages[1..];
      forall k | 0 <= k < n - 1
        ensures StageEnds(t, rest[k], p) == [p]
      {
        assert rest[k] == stages[k + 1];
      }
      SkipStuck(t, rest, n - 1, p);
      assert rest[n - 1..] == stages[n..];
    }
  }

  /** Stages none of which can advance from `p` reach only `p`. */
  lemma StuckEnds(t: string, stages: seq<Stage>, p: nat)
    requires p <= |t|
    requires forall k | 0 <= k < |stages| :: StageEnds(t, stages[k], p) == [p]
    ensures Ends(t, stages, p) == [p]
  {
    SkipStuck(t, stages, |stages|, p);
    assert stages[|stages|..] == [];
  }

  /** A stage with two choices: all continuations of the first, then of the second. */
  lemma EndsTwo(t: string, stages: seq<Stage>, p: nat, a: nat, b: nat)
    requires p <= |t| && stages != [] && StageEnds(t, stages[0], p) == [a, b]
    requires a <= |t| && b <= |t|
    ensures Ends(t, stages, p) == Ends(t, stages[1..], a) + Ends(t, stages[1..], b)
  {
    var rest, ps := stages[1..], StageEnds(t, stages[0], p);
    var bs: seq<nat> := [b];
    assert ps[1..] == bs && bs[1..] == [];
    assert ThenAll(t, rest, bs, p) == Ends(t, rest, b) + ThenAll(t, rest, [], p);
    assert ThenAll(t, rest, ps, p) == Ends(t, rest, a) + ThenAll(t, rest, bs, p);
  }

  /** "Gm7 riff" yields "Gm7": the trailing prose is cut at the word boundary. */
  lemma CandidateGm7(t: string)
    requires t == "Gm7 riff"
    ensures Candidate(t) == Some("Gm7")
  {
    Gm7Ends(t);
    assert IsBoundary(t, 3);
    assert MatchAt(t, 0) == Some(3);
    assert SearchFrom(t, 0) == Some((0, 3));
    assert t[0..3] == "Gm7";
  }

  /** The first end tried after the G of "Gm7 riff" takes the m and the 7. */
  lemma Gm7Ends(t: string)
    requires t == "Gm7 riff"
    ensures Ends(t, ChordPattern, 1)[0] == 3
  {
    var cp := ChordPattern;
    Gm7Stages(t);
    SkipStuck(t, cp[3..], 2, 3);
    assert cp[3..][2..] == [];
    assert cp[2..][1..] == cp[3..] && cp[1..][1..] == cp[2..];
    EndsHead(t, cp[2..], 2);
    EndsHead(t, cp[1..], 1);
    EndsHead(t, cp, 1);
  }

  lemma Gm7Stages(t: string)
    requires t == "Gm7 riff"
    ensures StageEnds(t, Accidental, 1) == [1]
    ensures StageEnds(t, Quality, 1)[0] == 2
    ensures StageEnds(t, Digits, 2)[0] == 3
    ensures StageEnds(t, Group, 3) == [3]
    ensures StageEnds(t, Bass, 3) == [3]
  {
    assert t[1] == 'm' && t[2] == '7' && t[3] == ' ';
    assert LongQuality(t, 1) == [];
    assert DigitRun(t, 2) == 1 by {
      assert DigitRun(t, 3) == 0;
    }
  }

  /**
   * "C#" yields "C": the sharp is tried first, but no word boundary follows
   * a '#' at the end of the text, so the matcher backtracks and drops it.
   */
  lemma CandidateSharpDropped(t: string)
    requires t == "C#"
    ensures Candidate(t) == Some("C")
  {
    SharpDroppedMatch(t);
    assert SearchFrom(t, 0) == Some((0, 1));
    assert t[0..1] == "C";
  }

  /** From the C of "C#", the match ends after the C. */
  lemma SharpDroppedMatch(t: string)
    requires t == "C#"
    ensures MatchAt(t, 0) == Some(1)
  {
    SharpDroppedEnds(t);
    var ends: seq<nat> := [2, 1];
    assert |t| == 2 && t[0] == 'C' && t[1] == '#';
    assert !IsWordChar(t[1]) && IsWordChar(t[0]);
    assert !IsBoundary(t, 2) && IsBoundary(t, 1);
    assert FirstBoundary(t, ends[1..]) == Some(0);
    assert FirstBoundary(t, ends) == Some(1);
  }


  lemma SharpDroppedEnds(t: string)
    requires t == "C#"
    ensures Ends(t, ChordPattern, 1) == [2, 1]
  {
    var cp := ChordPattern;
    assert StageEnds(t, Accidental, 1) == [2, 1];
    EndsTwo(t, cp, 1, 2, 1);
    SharpDroppedRest(t, 2);
    SharpDroppedRest(t, 1);
  }

  /** Nothing after the accidental can start at the '#' of "C#" or at its end. */
  lemma SharpDroppedRest(t: string, p: nat)
    requires t == "C#" && 1 <= p <= 2
    ensures Ends(t, ChordPattern[1..], p) == [p]
  {
    assert t[1] == '#';
    assert DigitRun(t, p) == 0;
    var rest := ChordPattern[1..];
    assert forall k | 0 <= k < |rest| :: StageEnds(t, rest[k], p) == [p];
    StuckEnds(t, rest, p);
  }

  /**
   * "C(add9)" yields "C": the parenthesised group is tried first, but no
   * word boundary follows its closing parenthesis at the end of the text.
   */
  lemma CandidateGroupDropped(t: string)
    requires t == "C(add9)"
    ensures Candidate(t) == Some("C")
  {
    GroupDroppedMatch(t);
    assert SearchFrom(t, 0) == Some((0, 1));
    assert t[0..1] == "C";
  }

  /** From the C of "C(add9)", the match ends after the C. */
  lemma GroupDroppedMatch(t: string)
    requires t == "C(add9)"
    ensures MatchAt(t, 0) == Some(1)
  {
    GroupDroppedEnds(t);
    var ends: seq<nat> := [7, 1];
    assert !IsBoundary(t, 7) && IsBoundary(t, 1);
    assert FirstBoundary(t, ends[1..]) == Some(0);
    assert FirstBoundary(t, ends) == Some(1);
  }


  lemma GroupDroppedEnds(t: string)
    requires t == "C(add9)"
    ensures Ends(t, ChordPattern, 1) == [7, 1]
  {
    var cp := ChordPattern;
    GroupDroppedFront(t);
    GroupDroppedStage(t);
    EndsTwo(t, cp[3..], 1, 7, 1);
    assert cp[3..][1..] == cp[4..];
    GroupDroppedBass(t, 7);
    GroupDroppedBass(t, 1);
  }

  /** The accidental, quality and digits stages cannot start at the '(' of "C(add9)". */
  lemma GroupDroppedFront(t: string)
    requires t == "C(add9)"
    ensures Ends(t, ChordPattern, 1) == Ends(t, ChordPattern[3..], 1)
  {
    assert t[1] == '(';
    assert LongQuality(t, 1) == [];
    assert DigitRun(t, 1) == 0;
    SkipStuck(t, ChordPattern, 3, 1);
  }

  /** No bass follows the '(' or the end of "C(add9)". */
  lemma GroupDroppedBass(t: string, p: nat)
    requires t == "C(add9)" && (p == 1 || p == 7)
    ensures Ends(t, ChordPattern[4..], p) == [p]
  {
    assert StageEnds(t, Bass, p) == [p];
    StuckEnds(t, ChordPattern[4..], p);
  }

  lemma GroupDroppedStage(t: string)
    requires t == "C(add9)"
    ensures StageEnds(t, Group, 1) == [7, 1]
  {
    assert LineEnd(t, 2) == 7;
    assert CloseParens(t, 2, 7) == [7];
  }
}
