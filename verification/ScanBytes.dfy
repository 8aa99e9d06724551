/** The scanner of core_state.c on bytes: the numbers it accepts, written over character codes, and what the texts
    are that core_init_state chooses among. */
module ScanBytes {
  import opened ScanGrammar
  import opened Scanner
  import opened StateBench

  // ----- the grammar over character codes

  /** 0 to 9 */
  predicate ByteDigits(b: Block) { forall i :: 0 <= i < |b| ==> 0x30 <= b[i] <= 0x39 }

  /** The text behind an optional + or -. */
  function ByteUnsigned(b: Block): Block { if b != [] && (b[0] == 0x2B || b[0] == 0x2D) then b[1..] else b }

  /** [+-]? [0-9]+ */
  predicate ByteInt(b: Block) { ByteUnsigned(b) != [] && ByteDigits(ByteUnsigned(b)) }

  predicate BytePointAt(u: Block, k: nat) {
    k < |u| && ByteDigits(u[..k]) && u[k] == 0x2E && ByteDigits(u[k + 1..])
  }

  /** [+-]? [0-9]* . [0-9]* */
  ghost predicate ByteFloat(b: Block) { exists k: nat :: BytePointAt(ByteUnsigned(b), k) }

  ghost predicate ByteExponentAt(b: Block, k: nat) {
    && k + 2 < |b| && ByteFloat(b[..k]) && (b[k] == 0x65 || b[k] == 0x45)
    && (b[k + 1] == 0x2B || b[k + 1] == 0x2D) && ByteDigits(b[k + 2..])
  }

  /** a float, then [eE] [+-] [0-9]+ */
  ghost predicate ByteScientific(b: Block) { exists k: nat :: ByteExponentAt(b, k) }

  ghost predicate ByteNumber(b: Block) { ByteInt(b) || ByteFloat(b) || ByteScientific(b) }

  /** No continuation makes the text a number. */
  ghost predicate Hopeless(b: Block) { forall z: Block :: !ByteNumber(b + z) }

  // ----- it is the grammar of symbols

  lemma ClassifyMeans(c: bv8)
    ensures Classify(c) == Digit <==> 0x30 <= c <= 0x39
    ensures Classify(c) == Sign <==> c == 0x2B || c == 0x2D
    ensures Classify(c) == Dot <==> c == 0x2E
    ensures Classify(c) == Exp <==> c == 0x65 || c == 0x45
    ensures Classify(c) == Comma <==> c == 0x2C
    ensures Classify(c) == Nul <==> c == 0
  {
  }

  lemma TextSlice(b: Block, i: nat, j: nat)
    requires i <= j <= |b|
    ensures Text(b[i..j]) == Text(b)[i..j]
  {
  }

  lemma DigitsAgree(b: Block)
    ensures AllDigits(Text(b)) <==> ByteDigits(b)
  {
    forall i | 0 <= i < |b| ensures Text(b)[i] == Digit <==> 0x30 <= b[i] <= 0x39 {
      ClassifyMeans(b[i]);
    }
  }

  lemma UnsignedAgree(b: Block)
    ensures Unsigned(Text(b)) == Text(ByteUnsigned(b))
  {
    if b != [] {
      ClassifyMeans(b[0]);
      assert Text(b[1..]) == Text(b)[1..];
    }
  }

  lemma IntAgree(b: Block)
    ensures IsInt(Text(b)) <==> ByteInt(b)
  {
    UnsignedAgree(b);
    DigitsAgree(ByteUnsigned(b));
  }

  lemma PointAgree(u: Block, k: nat)
    ensures PointAt(Text(u), k) <==> BytePointAt(u, k)
  {
    if k < |u| {
      ClassifyMeans(u[k]);
      DigitsAgree(u[..k]);
      DigitsAgree(u[k + 1..]);
      assert Text(u[..k]) == Text(u)[..k] && Text(u[k + 1..]) == Text(u)[k + 1..];
    }
  }

  lemma FloatAgree(b: Block)
    ensures IsFloat(Text(b)) <==> ByteFloat(b)
  {
    UnsignedAgree(b);
    forall k: nat ensures PointAt(Text(ByteUnsigned(b)), k) <==> BytePointAt(ByteUnsigned(b), k) {
      PointAgree(ByteUnsigned(b), k);
    }
  }

  lemma ExponentAgree(b: Block, k: nat)
    ensures ExponentAt(Text(b), k) <==> ByteExponentAt(b, k)
  {
    if k + 2 < |b| {
      ClassifyMeans(b[k]);
      ClassifyMeans(b[k + 1]);
      FloatAgree(b[..k]);
      DigitsAgree(b[k + 2..]);
      assert Text(b[..k]) == Text(b)[..k] && Text(b[k + 2..]) == Text(b)[k + 2..];
    }
  }

  lemma ScientificAgree(b: Block)
    ensures IsScientific(Text(b)) <==> ByteScientific(b)
  {
    forall k: nat ensures ExponentAt(Text(b), k) <==> ByteExponentAt(b, k) {
      ExponentAgree(b, k);
    }
  }

  lemma NumberAgree(b: Block)
    ensures IsNumber(Text(b)) <==> ByteNumber(b)
  {
    IntAgree(b);
    FloatAgree(b);
    ScientificAgree(b);
  }

  // ----- every symbol has a byte

  function ByteOf(s: Symbol): (c: bv8)
    ensures Classify(c) == s
  {
    match s
    case Nul => 0
    case Comma => 0x2C
    case Digit => 0x30
    case Sign => 0x2B
    case Dot => 0x2E
    case Exp => 0x65
    case Other => 0x54
  }

  function Spell(z: seq<Symbol>): (b: Block)
    ensures Text(b) == z
  {
    seq(|z|, i requires 0 <= i < |z| => ByteOf(z[i]))
  }

  lemma TextAppend(a: Block, b: Block)
    ensures Text(a + b) == Text(a) + Text(b)
  {
  }

  lemma Continues(b: Block, z: Block)
    requires ByteNumber(b + z)
    ensures Viable(Text(b))
  {
    NumberAgree(b + z);
    TextAppend(b, z);
  }

  lemma Spelled(b: Block, z: seq<Symbol>)
    requires IsNumber(Text(b) + z)
    ensures ByteNumber(b + Spell(z))
  {
    TextAppend(b, Spell(z));
    NumberAgree(b + Spell(z));
  }

  lemma HopelessAgree(b: Block)
    ensures Hopeless(b) <==> !Viable(Text(b))
  {
    if z: Block :| ByteNumber(b + z) {
      Continues(b, z);
    }
    if Viable(Text(b)) {
      var z :| IsNumber(Text(b) + z);
      Spelled(b, z);
    }
  }

  // ----- the machine decides it

  /** The state the machine is in after a text of bytes says which of these numbers the text is, and INVALID that
      none can come of it. */
  lemma BytesDecided(b: Block)
    ensures Run(Text(b)) == INT <==> ByteInt(b)
    ensures Run(Text(b)) == FLOAT <==> ByteFloat(b)
    ensures Run(Text(b)) == SCIENTIFIC <==> ByteScientific(b)
    ensures Run(Text(b)) == INVALID <==> Hopeless(b)
  {
    ModeMeans(Text(b), INT);
    ModeMeans(Text(b), FLOAT);
    ModeMeans(Text(b), SCIENTIFIC);
    InvalidMeansHopeless(Text(b));
    IntAgree(b);
    FloatAgree(b);
    ScientificAgree(b);
    HopelessAgree(b);
  }

  /** A byte inside a token. */
  lemma InsideToken(b: Block, k: Token, i: nat)
    requires IsToken(Text(b), k) && k.start <= i < k.stop
    ensures b[i] != 0x2C && b[i] != 0 && !Hopeless(b[k.start..i])
  {
    var w := Text(b)[k.start..k.stop];
    assert w[i - k.start] == Text(b)[i];
    ClassifyMeans(b[i]);
    TextSlice(b, k.start, i);
    BytesDecided(b[k.start..i]);
  }

  /** The same for every token of a block: its bytes hold no comma and no NUL, its mode is what they are, and behind
      it comes a comma, which is skipped, or the NUL, or, if it is hopeless, the rest of the text. */
  lemma TokenOfBytes(b: Block, k: Token)
    requires IsToken(Text(b), k)
    ensures k.start <= k.stop < |b|
    ensures forall i :: k.start <= i < k.stop ==> b[i] != 0x2C && b[i] != 0
    ensures var w := b[k.start..k.stop];
      && (k.mode == INT <==> ByteInt(w)) && (k.mode == FLOAT <==> ByteFloat(w))
      && (k.mode == SCIENTIFIC <==> ByteScientific(w)) && (k.mode == INVALID <==> Hopeless(w))
    ensures forall i :: k.start <= i < k.stop ==> !Hopeless(b[k.start..i])
    ensures if k.mode == INVALID then k.next == k.stop
      else if b[k.stop] == 0x2C then k.next == k.stop + 1 else b[k.stop] == 0 && k.next == k.stop
  {
    TextSlice(b, k.start, k.stop);
    BytesDecided(b[k.start..k.stop]);
    ClassifyMeans(b[k.stop]);
    forall i | k.start <= i < k.stop ensures b[i] != 0x2C && b[i] != 0 && !Hopeless(b[k.start..i]) {
      InsideToken(b, k, i);
    }
  }

  // ----- the texts of core_init_state

  lemma IntPatterns(k: nat)
    requires k < 4
    ensures ByteInt(INTPAT[k])
  {
  }

  lemma FloatPatterns(k: nat)
    requires k < 4
    ensures ByteFloat(FLOATPAT[k])
  {
    var b := FLOATPAT[k];
    var at := if k == 0 then 2 else if k == 1 then 0 else if k == 2 then 3 else 1;
    assert BytePointAt(ByteUnsigned(b), at);
  }

  lemma ScientificBytes(b: Block, m: Block, point: nat)
    requires |m| + 2 < |b| && b[..|m|] == m && BytePointAt(ByteUnsigned(m), point)
    requires b[|m|] == 0x65 && (b[|m| + 1] == 0x2B || b[|m| + 1] == 0x2D) && ByteDigits(b[|m| + 2..])
    ensures ByteScientific(b)
  {
    assert ByteExponentAt(b, |m|);
  }

  lemma FirstScientific()
    ensures ByteScientific(SCIPAT[0])
  {
    ScientificBytes(SCIPAT[0], [0x35, 0x2E, 0x35, 0x30, 0x30], 1);
  }

  lemma SecondScientific()
    ensures ByteScientific(SCIPAT[1])
  {
    ScientificBytes(SCIPAT[1], [0x2D, 0x2E, 0x31, 0x32, 0x33], 0);
  }

  lemma LastScientific()
    ensures ByteScientific(SCIPAT[3])
  {
    ScientificBytes(SCIPAT[3], [0x2B, 0x30, 0x2E, 0x36], 1);
  }

  lemma ScientificPatterns(k: nat)
    requires k < 4 && k != 2
    ensures ByteScientific(SCIPAT[k])
  {
    var b := SCIPAT[k];
    var ok := ByteScientific(b);
    if k == 0 {
      assert ok by { FirstScientific(); }
    } else if k == 1 {
      assert ok by { SecondScientific(); }
    } else {
      assert ok by { LastScientific(); }
    }
  }

  /** A text with a hopeless beginning is hopeless. */
  lemma BadBeginning(b: Block, n: nat)
    requires n <= |b| && Run(Text(b[..n])) == INVALID
    ensures Hopeless(b)
  {
    assert b == b[..n] + b[n..];
    TextAppend(b[..n], b[n..]);
    InvalidStays(Text(b[..n]), Text(b[n..]));
    BytesDecided(b);
  }

  lemma RunByte(b: Block, n: nat)
    requires n < |b|
    ensures Run(Text(b[..n + 1])) == Step(Run(Text(b[..n])), Classify(b[n]))
  {
    assert b[..n + 1] == b[..n] + [b[n]];
    TextAppend(b[..n], [b[n]]);
    assert Text([b[n]]) == [Classify(b[n])];
    RunLast(Text(b[..n]), Classify(b[n]));
  }

  lemma RunsFour(b: Block)
    requires |b| >= 4
    ensures Run(Text(b[..1])) == Step(START, Classify(b[0]))
    ensures Run(Text(b[..2])) == Step(Run(Text(b[..1])), Classify(b[1]))
    ensures Run(Text(b[..3])) == Step(Run(Text(b[..2])), Classify(b[2]))
    ensures Run(Text(b[..4])) == Step(Run(Text(b[..3])), Classify(b[3]))
  {
    assert Text(b[..0]) == [];
    RunByte(b, 0);
    RunByte(b, 1);
    RunByte(b, 2);
    RunByte(b, 3);
  }

  /** -87e+832 has no point, so the machine gives up at its e. */
  lemma NoPoint()
    ensures Hopeless(SCIPAT[2])
  {
    RunsFour(SCIPAT[2]);
    BadBeginning(SCIPAT[2], 4);
  }

  /** 34.0e-T^ fails at its T only. */
  lemma LateError(b: Block)
    requires b == ERRPAT[3]
    ensures Hopeless(b)
  {
    RunsFour(b);
    RunByte(b, 4);
    RunByte(b, 5);
    RunByte(b, 6);
    BadBeginning(b, 7);
  }

  lemma ErrorPatterns(k: nat)
    requires k < 4
    ensures Hopeless(ERRPAT[k])
  {
    var b := ERRPAT[k];
    if k == 3 {
      LateError(b);
    } else {
      RunsFour(b);
      BadBeginning(b, if k == 0 then 1 else 2);
    }
  }

  /** What core_init_state picks for a seed: an integer for its low three bits 0 to 2, a float for 3 and 4, a text that
      can never be a number for 7; and for 5 and 6 a number with exponent, unless the next two bits are 2: that text
      has no point and can never be a number either. */
  lemma PatternMeans(seed: nat)
    ensures seed % 8 < 3 <==> ByteInt(Pattern(seed))
    ensures seed % 8 == 3 || seed % 8 == 4 <==> ByteFloat(Pattern(seed))
    ensures (seed % 8 == 5 || seed % 8 == 6) && seed / 8 % 4 != 2 <==> ByteScientific(Pattern(seed))
    ensures seed % 8 == 7 || ((seed % 8 == 5 || seed % 8 == 6) && seed / 8 % 4 == 2) <==> Hopeless(Pattern(seed))
  {
    var k := seed / 8 % 4;
    BytesDecided(Pattern(seed));
    if seed % 8 < 3 {
      IntPatterns(k);
    } else if seed % 8 < 5 {
      FloatPatterns(k);
    } else if seed % 8 < 7 && k != 2 {
      ScientificPatterns(k);
    } else if seed % 8 < 7 {
      NoPoint();
    } else {
      ErrorPatterns(k);
    }
  }
}
