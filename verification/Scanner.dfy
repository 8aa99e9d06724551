/** core_state_transition and the scans of core_bench_state over a byte block. */
module Scanner {
  import opened ScanGrammar

  function Classify(c: bv8): Symbol {
    if c == 0 then Nul
    else if c == 0x2C then Comma
    else if 0x30 <= c <= 0x39 then Digit
    else if c == 0x2B || c == 0x2D then Sign
    else if c == 0x2E then Dot
    else if c == 0x45 || c == 0x65 then Exp
    else Other
  }

  function Text(block: seq<bv8>): (t: seq<Symbol>)
    ensures |t| == |block| && forall i :: 0 <= i < |block| ==> t[i] == Classify(block[i])
  {
    seq(|block|, i requires 0 <= i < |block| => Classify(block[i]))
  }

  /** Where the text ends: its first NUL. */
  ghost predicate EndsAt(t: seq<Symbol>, z: nat) {
    z < |t| && t[z] == Nul && forall i :: 0 <= i < z ==> t[i] != Nul
  }

  /** One token: its text, the mode it ends in, and where the next one begins. */
  datatype Token = Token(start: nat, stop: nat, next: nat, mode: Mode)

  predicate Plain(w: seq<Symbol>) { Nul !in w && Comma !in w }

  /** The token at p: the text up to a separator, or up to the first symbol that makes it hopeless. */
  ghost predicate IsToken(t: seq<Symbol>, k: Token) {
    && k.start <= k.stop <= k.next <= |t| && k.stop < |t|
    && Plain(t[k.start..k.stop]) && k.mode == Run(t[k.start..k.stop])
    && (forall i :: k.start <= i < k.stop ==> Run(t[k.start..i]) != INVALID)
    && (if k.mode == INVALID then k.next == k.stop
        else if t[k.stop] == Comma then k.next == k.stop + 1
        else k.next == k.stop && t[k.stop] == Nul)
  }

  /** A token is the longest viable text up to a separator, or the shortest hopeless one. */
  lemma TokenMeans(t: seq<Symbol>, k: Token)
    requires IsToken(t, k)
    ensures var w := t[k.start..k.stop];
      && (forall m: Mode :: m != INVALID ==> (k.mode == m <==> Means(m, w)))
      && (k.mode == INVALID <==> !Viable(w))
      && (forall i :: k.start <= i < k.stop ==> Viable(t[k.start..i]))
  {
    var w := t[k.start..k.stop];
    InvalidMeansHopeless(w);
    forall m: Mode | m != INVALID ensures k.mode == m <==> Means(m, w) {
      ModeMeans(w, m);
    }
    forall i | k.start <= i < k.stop ensures Viable(t[k.start..i]) {
      InvalidMeansHopeless(t[k.start..i]);
    }
  }

  type Counts = map<Mode, nat>

  ghost predicate Total(c: Counts) { forall m: Mode :: m in c }

  function Bump(c: Counts, m: Mode): Counts
    requires m in c
  {
    c[m := c[m] + 1]
  }

  /** What one symbol adds to transition_count[x]: one for leaving x, except that leaving SCIENTIFIC
      is booked on INVALID, as is leaving START for INVALID. */
  function Booked(m: Mode, c: Symbol, x: Mode): nat {
    if x == INVALID then (if Step(m, c) == INVALID && (m == START || m == SCIENTIFIC) then 1 else 0)
    else if x == SCIENTIFIC then 0
    else if m == x && Step(m, c) != x then 1 else 0
  }

  function BookedIn(w: seq<Symbol>, x: Mode): nat {
    if w == [] then 0 else BookedIn(w[..|w| - 1], x) + Booked(Run(w[..|w| - 1]), w[|w| - 1], x)
  }

  lemma SliceStep(t: seq<Symbol>, p: nat, q: nat)
    requires p <= q < |t|
    ensures t[p..q + 1] == t[p..q] + [t[q]] && t[p..q + 1][..q - p] == t[p..q]
  {
  }

  /** The switch as the source writes it, with its counting. */
  method Switch(mode: Mode, c: Symbol, counts0: Counts) returns (next: Mode, counts: Counts)
    requires Total(counts0) && mode != INVALID
    ensures next == Step(mode, c) && Total(counts)
    ensures forall x: Mode :: counts[x] == counts0[x] + Booked(mode, c, x)
  {
    counts := counts0;
    match mode {
      case START =>
        if c == Digit {
          next := INT;
        } else if c == Sign {
          next := S1;
        } else if c == Dot {
          next := FLOAT;
        } else {
          next := INVALID;
          counts := Bump(counts, INVALID);
        }
        counts := Bump(counts, START);
      case S1 =>
        if c == Digit {
          next := INT;
        } else if c == Dot {
          next := FLOAT;
        } else {
          next := INVALID;
        }
        counts := Bump(counts, S1);
      case INT =>
        next := INT;
        if c == Dot {
          next := FLOAT;
          counts := Bump(counts, INT);
        } else if c != Digit {
          next := INVALID;
          counts := Bump(counts, INT);
        }
      case FLOAT =>
        next := FLOAT;
        if c == Exp {
          next := S2;
          counts := Bump(counts, FLOAT);
        } else if c != Digit {
          next := INVALID;
          counts := Bump(counts, FLOAT);
        }
      case S2 =>
        next := if c == Sign then EXPONENT else INVALID;
        counts := Bump(counts, S2);
      case EXPONENT =>
        next := if c == Digit then SCIENTIFIC else INVALID;
        counts := Bump(counts, EXPONENT);
      case SCIENTIFIC =>
        next := SCIENTIFIC;
        if c != Digit {
          next := INVALID;
          counts := Bump(counts, INVALID);
        }
    }
  }

  /** One symbol of a token that began at p. */
  method NextSymbol(t: seq<Symbol>, p: nat, str: nat, mode0: Mode, counts1: Counts, ghost counts0: Counts)
    returns (mode: Mode, counts: Counts)
    requires p <= str < |t| && mode0 == Run(t[p..str]) && mode0 != INVALID
    requires Total(counts0) && Total(counts1) && forall x: Mode :: counts1[x] == counts0[x] + BookedIn(t[p..str], x)
    ensures mode == Run(t[p..str + 1])
    ensures Total(counts) && forall x: Mode :: counts[x] == counts0[x] + BookedIn(t[p..str + 1], x)
  {
    SliceStep(t, p, str);
    mode, counts := Switch(mode0, t[str], counts1);
  }

  /** core_state_transition on the text t from position p. */
  method Transition(t: seq<Symbol>, p: nat, counts0: Counts, ghost z: nat)
    returns (k: Token, counts: Counts)
    requires EndsAt(t, z) && p < z && Total(counts0)
    ensures IsToken(t, k) && k.start == p && p < k.next <= z
    ensures Total(counts)
    ensures forall x: Mode :: counts[x] == counts0[x] + BookedIn(t[p..k.stop], x)
  {
    var str, mode := p, START;
    counts := counts0;
    while t[str] != Nul && mode != INVALID
      invariant p <= str <= z && Plain(t[p..str]) && mode == Run(t[p..str])
      invariant forall i :: p <= i < str ==> Run(t[p..i]) != INVALID
      invariant Total(counts) && forall x: Mode :: counts[x] == counts0[x] + BookedIn(t[p..str], x)
      decreases z - str
    {
      if t[str] == Comma {
        return Token(p, str, str + 1, mode), counts;
      }
      mode, counts := NextSymbol(t, p, str, mode, counts, counts0);
      str := str + 1;
    }
    k := Token(p, str, str, mode);
  }

  /** Tokens that follow one another without a gap, from 0 to the end of the text. */
  ghost predicate Tiles(t: seq<Symbol>, ks: seq<Token>, p: nat) {
    && (forall i :: 0 <= i < |ks| ==> IsToken(t, ks[i]) && ks[i].start < ks[i].next)
    && (ks != [] ==> ks[0].start == 0)
    && (forall i :: 0 < i < |ks| ==> ks[i].start == ks[i - 1].next)
    && p == if ks == [] then 0 else ks[|ks| - 1].next
  }

  function Ended(ks: seq<Token>, m: Mode): nat {
    if ks == [] then 0 else Ended(ks[..|ks| - 1], m) + (if ks[|ks| - 1].mode == m then 1 else 0)
  }

  /** What the texts of the tokens book on transition_count[x]. */
  function BookedBy(t: seq<Symbol>, ks: seq<Token>, x: Mode): nat
    requires forall k :: k in ks ==> k.start <= k.stop <= |t|
  {
    if ks == [] then 0
    else
      var k := ks[|ks| - 1];
      BookedBy(t, ks[..|ks| - 1], x) + BookedIn(t[k.start..k.stop], x)
  }

  function Sum(c: Counts): nat
    requires forall m: Mode :: m in c
  {
    c[START] + c[INVALID] + c[S1] + c[S2] + c[INT] + c[FLOAT] + c[EXPONENT] + c[SCIENTIFIC]
  }

  function None(m: Mode): nat { 0 }

  function Zero(): (c: Counts)
    ensures Total(c) && forall m: Mode :: c[m] == 0
  {
    map m: Mode :: None(m)
  }

  lemma TilesGrow(t: seq<Symbol>, ks: seq<Token>, p: nat, k: Token)
    requires Tiles(t, ks, p) && IsToken(t, k) && k.start == p < k.next
    ensures Tiles(t, ks + [k], k.next)
  {
    var ls := ks + [k];
    assert forall i :: 0 <= i < |ks| ==> ls[i] == ks[i];
    assert ls[|ks|] == k;
  }

  lemma EndedGrows(ks: seq<Token>, k: Token, m: Mode)
    ensures Ended(ks + [k], m) == Ended(ks, m) + (if k.mode == m then 1 else 0)
  {
    assert (ks + [k])[..|ks|] == ks;
  }

  /** Two tokens of one text that begin together are the same. */
  lemma TokenUnique(t: seq<Symbol>, k: Token, l: Token)
    requires IsToken(t, k) && IsToken(t, l) && k.start == l.start
    ensures k == l
  {
  }

  lemma {:induction false} NextGrows(t: seq<Symbol>, ks: seq<Token>, z: nat, i: nat, j: nat)
    requires Tiles(t, ks, z) && i <= j < |ks|
    ensures ks[i].next <= ks[j].next && ks[i].start < ks[j].next
    decreases j
  {
    if i < j {
      NextGrows(t, ks, z, i, j - 1);
    }
  }

  lemma PrefixIsAll(t: seq<Symbol>, ks: seq<Token>, ls: seq<Token>, z: nat)
    requires Tiles(t, ks, z) && Tiles(t, ls, z) && ls <= ks
    ensures ks == ls
  {
    if |ls| < |ks| {
      NextGrows(t, ks, z, |ls|, |ks| - 1);
    }
  }

  lemma {:induction false} SameAt(t: seq<Symbol>, ks: seq<Token>, ls: seq<Token>, z: nat, i: nat)
    requires Tiles(t, ks, z) && Tiles(t, ls, z) && i < |ks| && i < |ls|
    ensures ks[i] == ls[i]
  {
    if i > 0 {
      SameAt(t, ks, ls, z, i - 1);
    }
    TokenUnique(t, ks[i], ls[i]);
  }

  /** The tiling of a text is determined by the text. */
  lemma TilesUnique(t: seq<Symbol>, ks: seq<Token>, ls: seq<Token>, z: nat)
    requires Tiles(t, ks, z) && Tiles(t, ls, z)
    ensures ks == ls
  {
    forall i | 0 <= i < |ks| && i < |ls| ensures ks[i] == ls[i] {
      SameAt(t, ks, ls, z, i);
    }
    if |ls| <= |ks| {
      PrefixIsAll(t, ks, ls, z);
    } else {
      PrefixIsAll(t, ls, ks, z);
    }
  }

  /** final_counts agrees with the tokens met since it was final0. */
  ghost predicate Tallied(final0: Counts, final: Counts, ks: seq<Token>) {
    && Total(final0) && Total(final)
    && (forall m: Mode :: final[m] == final0[m] + Ended(ks, m))
    && Sum(final) == Sum(final0) + |ks|
  }

  lemma TallyGrows(final0: Counts, final: Counts, ks: seq<Token>, k: Token)
    requires Tallied(final0, final, ks)
    ensures Tallied(final0, Bump(final, k.mode), ks + [k])
  {
    forall m: Mode ensures Ended(ks + [k], m) == Ended(ks, m) + (if k.mode == m then 1 else 0) {
      EndedGrows(ks, k, m);
    }
    SumBump(final, k.mode);
  }

  lemma SumBump(c: Counts, m: Mode)
    requires Total(c)
    ensures Sum(Bump(c, m)) == Sum(c) + 1
  {
  }

  ghost predicate Tracked(t: seq<Symbol>, track0: Counts, track: Counts, ks: seq<Token>) {
    && Total(track0) && Total(track)
    && (forall k :: k in ks ==> k.start <= k.stop <= |t|)
    && (forall x: Mode :: track[x] == track0[x] + BookedBy(t, ks, x))
  }

  lemma TrackGrows(t: seq<Symbol>, track0: Counts, track1: Counts, track: Counts, ks: seq<Token>, k: Token)
    requires Tracked(t, track0, track1, ks) && Total(track) && k.start <= k.stop <= |t|
    requires forall x: Mode :: track[x] == track1[x] + BookedIn(t[k.start..k.stop], x)
    ensures Tracked(t, track0, track, ks + [k])
  {
    assert (ks + [k])[..|ks|] == ks;
  }

  /** One of the two scans of core_bench_state: calls of core_state_transition up to the NUL. */
  method Scan(t: seq<Symbol>, final0: Counts, track0: Counts, ghost z: nat)
    returns (final: Counts, track: Counts, ghost ks: seq<Token>)
    requires EndsAt(t, z) && Total(final0) && Total(track0)
    ensures Tiles(t, ks, z)
    ensures Tracked(t, track0, track, ks)
    ensures Tallied(final0, final, ks)
    ensures forall ls :: Tiles(t, ls, z) ==> Tallied(final0, final, ls) && Tracked(t, track0, track, ls)
  {
    var p := 0;
    final, track, ks := final0, track0, [];
    while t[p] != Nul
      invariant 0 <= p <= z && Tiles(t, ks, p) && Tracked(t, track0, track, ks) && Tallied(final0, final, ks)
      decreases z - p
    {
      ghost var was := track;
      var k;
      k, track := Transition(t, p, track, z);
      TrackGrows(t, track0, was, track, ks, k);
      TilesGrow(t, ks, p, k);
      TallyGrows(final0, final, ks, k);
      final := Bump(final, k.mode);
      ks := ks + [k];
      p := k.next;
    }
    forall ls | Tiles(t, ls, z) ensures ls == ks {
      TilesUnique(t, ls, ks, z);
    }
  }
}
