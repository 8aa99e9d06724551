/** The number scanner of core_state.c as a language: which texts each state of the machine means. */
module ScanGrammar {

  /** What the machine distinguishes among bytes. */
  datatype Symbol = Nul | Comma | Digit | Sign | Dot | Exp | Other

  datatype Mode = START | INVALID | S1 | S2 | INT | FLOAT | EXPONENT | SCIENTIFIC

  /** The switch of core_state_transition. */
  function Step(m: Mode, c: Symbol): Mode {
    match m
    case START => if c == Digit then INT else if c == Sign then S1 else if c == Dot then FLOAT else INVALID
    case S1 => if c == Digit then INT else if c == Dot then FLOAT else INVALID
    case INT => if c == Dot then FLOAT else if c != Digit then INVALID else INT
    case FLOAT => if c == Exp then S2 else if c != Digit then INVALID else FLOAT
    case S2 => if c == Sign then EXPONENT else INVALID
    case EXPONENT => if c == Digit then SCIENTIFIC else INVALID
    case SCIENTIFIC => if c != Digit then INVALID else SCIENTIFIC
    case INVALID => INVALID
  }

  /** The mode after a text. */
  function Run(w: seq<Symbol>): Mode {
    if w == [] then START else Step(Run(w[..|w| - 1]), w[|w| - 1])
  }

  // ----- the grammar

  predicate AllDigits(w: seq<Symbol>) { forall i :: 0 <= i < |w| ==> w[i] == Digit }

  /** The text behind an optional sign. */
  function Unsigned(w: seq<Symbol>): seq<Symbol> { if w != [] && w[0] == Sign then w[1..] else w }

  /** [+-]? d+ */
  predicate IsInt(w: seq<Symbol>) { Unsigned(w) != [] && AllDigits(Unsigned(w)) }

  predicate PointAt(u: seq<Symbol>, k: nat) {
    k < |u| && AllDigits(u[..k]) && u[k] == Dot && AllDigits(u[k + 1..])
  }

  /** [+-]? d* . d* */
  ghost predicate IsFloat(w: seq<Symbol>) { exists k: nat :: PointAt(Unsigned(w), k) }

  ghost predicate ExponentAt(w: seq<Symbol>, k: nat) {
    k + 2 < |w| && IsFloat(w[..k]) && w[k] == Exp && w[k + 1] == Sign && AllDigits(w[k + 2..])
  }

  /** a float, then [eE] [+-] d+ */
  ghost predicate IsScientific(w: seq<Symbol>) { exists k: nat :: ExponentAt(w, k) }

  // ----- reading the grammar from the right

  lemma DigitsStep(u: seq<Symbol>, c: Symbol)
    ensures AllDigits(u + [c]) <==> AllDigits(u) && c == Digit
  {
    var v := u + [c];
    assert v[|u|] == c && forall i :: 0 <= i < |u| ==> v[i] == u[i];
  }

  lemma IntStep(w: seq<Symbol>, c: Symbol)
    ensures IsInt(w + [c]) <==> c == Digit && (w == [] || w == [Sign] || IsInt(w))
  {
    var v := w + [c];
    if w == [] {
      assert v == [c];
    } else {
      assert Unsigned(v) == Unsigned(w) + [c];
      DigitsStep(Unsigned(w), c);
      assert Unsigned(w) == [] <==> w == [Sign];
    }
  }

  lemma PointStep(u: seq<Symbol>, c: Symbol, k: nat)
    ensures PointAt(u + [c], k) <==> (k == |u| && c == Dot && AllDigits(u)) || (k < |u| && PointAt(u, k) && c == Digit)
  {
    var v := u + [c];
    if k < |u| {
      assert v[..k] == u[..k] && v[k + 1..] == u[k + 1..] + [c];
      DigitsStep(u[k + 1..], c);
    } else if k == |u| {
      assert v[..k] == u && v[k + 1..] == [];
    }
  }

  lemma FloatStep(w: seq<Symbol>, c: Symbol)
    ensures IsFloat(w + [c]) <==> (c == Dot && AllDigits(Unsigned(w))) || (c == Digit && IsFloat(w))
  {
    var v, u := w + [c], Unsigned(w);
    if w == [] && c == Sign {
      assert Unsigned(v) == [];
      assert forall k: nat :: !PointAt([], k);
    } else {
      assert Unsigned(v) == u + [c];
      forall k: nat
        ensures PointAt(u + [c], k) <==> (k == |u| && c == Dot && AllDigits(u)) || (k < |u| && PointAt(u, k) && c == Digit)
      {
        PointStep(u, c, k);
      }
      assert PointAt(u + [c], |u|) <==> c == Dot && AllDigits(u);
    }
  }

  lemma ExponentStep(w: seq<Symbol>, c: Symbol, k: nat)
    ensures ExponentAt(w + [c], k) <==>
      (c == Digit && ((k + 2 == |w| && IsFloat(w[..k]) && w[k] == Exp && w[k + 1] == Sign) || ExponentAt(w, k)))
  {
    var v := w + [c];
    if k + 2 < |v| {
      assert v[..k] == w[..k] && v[k + 2..] == w[k + 2..] + [c];
      DigitsStep(w[k + 2..], c);
    }
  }

  /** A float and an exponent letter. */
  ghost predicate IsMantissa(w: seq<Symbol>) {
    |w| >= 1 && IsFloat(w[..|w| - 1]) && w[|w| - 1] == Exp
  }

  /** A float, an exponent letter and its sign. */
  ghost predicate IsOpenExponent(w: seq<Symbol>) {
    |w| >= 2 && IsMantissa(w[..|w| - 1]) && w[|w| - 1] == Sign
  }

  lemma ScientificStep(w: seq<Symbol>, c: Symbol)
    ensures IsScientific(w + [c]) <==> c == Digit && (IsOpenExponent(w) || IsScientific(w))
  {
    forall k: nat
      ensures ExponentAt(w + [c], k) <==>
        (c == Digit && ((k + 2 == |w| && IsFloat(w[..k]) && w[k] == Exp && w[k + 1] == Sign) || ExponentAt(w, k)))
    {
      ExponentStep(w, c, k);
    }
    if |w| >= 2 {
      var k: nat := |w| - 2;
      assert w[..|w| - 1][..k] == w[..k];
      assert ExponentAt(w + [c], k) <==> c == Digit && (IsOpenExponent(w) || ExponentAt(w, k));
    }
    if c == Digit && IsScientific(w) {
      var k: nat :| ExponentAt(w, k);
      assert ExponentAt(w + [c], k);
    }
  }

  /** The text each mode stands for. */
  ghost predicate Means(m: Mode, w: seq<Symbol>) {
    match m
    case START => w == []
    case S1 => w == [Sign]
    case INT => IsInt(w)
    case FLOAT => IsFloat(w)
    case S2 => IsMantissa(w)
    case EXPONENT => IsOpenExponent(w)
    case SCIENTIFIC => IsScientific(w)
    case INVALID => true
  }

  /** How the languages of numbers without exponent grow by one symbol; half of the machine's table, read
      off the grammar ... */
  lemma PlainLanguage(w: seq<Symbol>, c: Symbol)
    ensures !Means(START, w + [c])
    ensures Means(S1, w + [c]) <==> Means(START, w) && c == Sign
    ensures Means(INT, w + [c]) <==> c == Digit && (Means(START, w) || Means(S1, w) || Means(INT, w))
    ensures Means(FLOAT, w + [c]) <==>
      (c == Dot && (Means(START, w) || Means(S1, w) || Means(INT, w))) || (c == Digit && Means(FLOAT, w))
  {
    IntStep(w, c);
    FloatStep(w, c);
    PrefixStep(w, c);
    NoDigits(w);
  }

  /** What stands before a point: nothing, a sign, or an integer. */
  lemma NoDigits(w: seq<Symbol>)
    ensures AllDigits(Unsigned(w)) <==> w == [] || w == [Sign] || IsInt(w)
  {
    assert Unsigned(w) == [] <==> w == [] || w == [Sign];
  }

  /** ... and how those with an exponent do, the other half. */
  lemma MantissaLanguage(w: seq<Symbol>, c: Symbol)
    ensures Means(S2, w + [c]) <==> c == Exp && Means(FLOAT, w)
    ensures Means(EXPONENT, w + [c]) <==> c == Sign && Means(S2, w)
  {
    PrefixStep(w, c);
  }

  lemma ScientificLanguage(w: seq<Symbol>, c: Symbol)
    ensures Means(SCIENTIFIC, w + [c]) <==> c == Digit && (Means(EXPONENT, w) || Means(SCIENTIFIC, w))
  {
    ScientificStep(w, c);
  }

  lemma PrefixStep(w: seq<Symbol>, c: Symbol)
    ensures w + [c] == [Sign] <==> w == [] && c == Sign
    ensures IsMantissa(w + [c]) <==> c == Exp && IsFloat(w)
    ensures IsOpenExponent(w + [c]) <==> c == Sign && IsMantissa(w)
  {
    var v := w + [c];
    assert v[..|v| - 1] == w && v[|v| - 1] == c;
    assert w == [] ==> v == [c];
  }

  /** On this text every mode but INVALID is reached exactly on its language. */
  ghost predicate Decides(w: seq<Symbol>) {
    forall m: Mode :: m != INVALID ==> (Run(w) == m <==> Means(m, w))
  }

  lemma RunLast(w: seq<Symbol>, c: Symbol)
    ensures Run(w + [c]) == Step(Run(w), c)
  {
    assert (w + [c])[..|w + [c]| - 1] == w;
  }

  /** The modes of a number without exponent. */
  lemma PlainStep(w: seq<Symbol>, c: Symbol, m: Mode)
    requires Decides(w) && (m == START || m == S1 || m == INT || m == FLOAT)
    ensures Run(w + [c]) == m <==> Means(m, w + [c])
  {
    RunLast(w, c);
    PlainLanguage(w, c);
  }

  /** The modes of the exponent. */
  lemma ExponentModeStep(w: seq<Symbol>, c: Symbol, m: Mode)
    requires Decides(w) && (m == S2 || m == EXPONENT)
    ensures Run(w + [c]) == m <==> Means(m, w + [c])
  {
    RunLast(w, c);
    MantissaLanguage(w, c);
  }

  lemma ScientificModeStep(w: seq<Symbol>, c: Symbol)
    requires Decides(w)
    ensures Run(w + [c]) == SCIENTIFIC <==> Means(SCIENTIFIC, w + [c])
  {
    RunLast(w, c);
    ScientificLanguage(w, c);
  }

  lemma {:induction false} DecidesAll(w: seq<Symbol>)
    ensures Decides(w)
    decreases |w|
  {
    if w == [] {
      EmptyText();
    } else {
      var v, c := w[..|w| - 1], w[|w| - 1];
      assert w == v + [c];
      DecidesAll(v);
      forall m: Mode | m != INVALID ensures Run(w) == m <==> Means(m, w) {
        if m == S2 || m == EXPONENT {
          ExponentModeStep(v, c, m);
        } else if m == SCIENTIFIC {
          ScientificModeStep(v, c);
        } else {
          PlainStep(v, c, m);
        }
      }
    }
  }

  /** The machine decides the grammar: every mode but INVALID is reached on exactly its language. */
  lemma ModeMeans(w: seq<Symbol>, m: Mode)
    requires m != INVALID
    ensures Run(w) == m <==> Means(m, w)
  {
    DecidesAll(w);
  }

  lemma EmptyText()
    ensures !IsInt([]) && !IsFloat([]) && !IsMantissa([]) && !IsOpenExponent([]) && !IsScientific([])
  {
    assert forall k: nat :: !PointAt([], k);
  }

  // ----- INVALID: nothing can come of it

  ghost predicate IsNumber(w: seq<Symbol>) { IsInt(w) || IsFloat(w) || IsScientific(w) }

  /** Some continuation makes the text a number. */
  ghost predicate Viable(w: seq<Symbol>) { exists z: seq<Symbol> :: IsNumber(w + z) }

  lemma {:induction false} InvalidStays(w: seq<Symbol>, z: seq<Symbol>)
    requires Run(w) == INVALID
    ensures Run(w + z) == INVALID
    decreases |z|
  {
    if z == [] {
      assert w + z == w;
    } else {
      var y, c := z[..|z| - 1], z[|z| - 1];
      InvalidStays(w, y);
      assert (w + z)[..|w + z| - 1] == w + y;
    }
  }

  function Completion(m: Mode): seq<Symbol> {
    match m
    case START => [Digit]
    case S1 => [Digit]
    case S2 => [Sign, Digit]
    case EXPONENT => [Digit]
    case _ => []
  }

  lemma CompletionRuns(w: seq<Symbol>)
    requires Run(w) != INVALID
    ensures var m := Run(w + Completion(Run(w))); m == INT || m == FLOAT || m == SCIENTIFIC
  {
    var z := Completion(Run(w));
    if z == [] {
      assert w + z == w;
    } else if z == [Digit] {
      RunLast(w, Digit);
    } else {
      RunLast(w, Sign);
      RunLast(w + [Sign], Digit);
      assert w + z == w + [Sign] + [Digit];
    }
  }

  /** INVALID is reached exactly when no continuation can be a number any more. */
  lemma InvalidMeansHopeless(w: seq<Symbol>)
    ensures Run(w) == INVALID <==> !Viable(w)
  {
    if Run(w) == INVALID {
      forall z: seq<Symbol> ensures !IsNumber(w + z) {
        InvalidStays(w, z);
        ModeMeans(w + z, INT);
        ModeMeans(w + z, FLOAT);
        ModeMeans(w + z, SCIENTIFIC);
      }
    } else {
      var z := Completion(Run(w));
      CompletionRuns(w);
      ModeMeans(w + z, INT);
      ModeMeans(w + z, FLOAT);
      ModeMeans(w + z, SCIENTIFIC);
      assert IsNumber(w + z);
    }
  }
}
