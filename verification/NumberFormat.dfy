/** The number-recognising state machine of CoreMark and the formats it
    recognises. */
module NumberFormat {

  datatype CoreState = Start | Invalid | S1 | S2 | Int | Float | Exponent | Scientific

  const COMMA: bv8 := 44
  const PLUS: bv8 := 43
  const MINUS: bv8 := 45
  const DOT: bv8 := 46
  const UPPER_E: bv8 := 69
  const LOWER_E: bv8 := 101
  const ZERO: bv8 := 48
  const NINE: bv8 := 57

  predicate IsDigit(c: bv8) { ZERO <= c <= NINE }
  predicate IsSign(c: bv8) { c == PLUS || c == MINUS }
  predicate IsE(c: bv8) { c == UPPER_E || c == LOWER_E }

  function Delta(s: CoreState, c: bv8): CoreState {
    match s
    case Start => if IsDigit(c) then Int else if IsSign(c) then S1 else if c == DOT then Float else Invalid
    case S1 => if IsDigit(c) then Int else if c == DOT then Float else Invalid
    case Int => if c == DOT then Float else if IsDigit(c) then Int else Invalid
    case Float => if IsE(c) then S2 else if IsDigit(c) then Float else Invalid
    case S2 => if IsSign(c) then Exponent else Invalid
    case Exponent => if IsDigit(c) then Scientific else Invalid
    case Scientific => if IsDigit(c) then Scientific else Invalid
    case Invalid => Invalid
  }

  type Word = seq<bv8>

  /** The state behind a word. */
  function Run(w: Word): CoreState {
    if w == [] then Start else Delta(Run(w[..|w| - 1]), w[|w| - 1])
  }

  // ----- the formats ------------------------------------------------------------------------

  predicate Digits(w: Word) { forall i | 0 <= i < |w| :: IsDigit(w[i]) }

  function SignLength(w: Word): (k: nat)
    ensures k <= |w|
  {
    if w != [] && IsSign(w[0]) then 1 else 0
  }

  /** [+-]?d+ */
  predicate IsInt(w: Word) { |w| > SignLength(w) && Digits(w[SignLength(w)..]) }

  /** [+-]?d*.d* with the point at position d */
  predicate FloatAt(w: Word, d: nat) {
    SignLength(w) <= d < |w| && w[d] == DOT && Digits(w[SignLength(w)..d]) && Digits(w[d + 1..])
  }

  predicate IsFloat(w: Word) { exists d | 0 <= d < |w| :: FloatAt(w, d) }

  /** a float, [eE][+-], and digits behind position m */
  predicate SciAt(w: Word, m: nat) {
    m + 2 < |w| && IsFloat(w[..m]) && IsE(w[m]) && IsSign(w[m + 1]) && Digits(w[m + 2..])
  }

  /** [+-]?d*.d*[eE][+-]d+ */
  predicate IsScientific(w: Word) { exists m | 0 <= m < |w| :: SciAt(w, m) }

  predicate IsNumber(w: Word) { IsInt(w) || IsFloat(w) || IsScientific(w) }

  // ----- each state is a language ----------------------------------------------------------------

  /** The words that lead to a state, written out without the machine. */
  ghost predicate Leads(w: Word, s: CoreState) {
    match s
    case Start => w == []
    case S1 => |w| == 1 && IsSign(w[0])
    case Int => IsInt(w)
    case Float => IsFloat(w)
    case S2 => w != [] && IsFloat(w[..|w| - 1]) && IsE(w[|w| - 1])
    case Exponent => |w| >= 2 && IsFloat(w[..|w| - 2]) && IsE(w[|w| - 2]) && IsSign(w[|w| - 1])
    case Scientific => IsScientific(w)
    case Invalid => false
  }

  lemma DigitsEnd(w: Word, c: bv8)
    ensures Digits(w + [c]) <==> Digits(w) && IsDigit(c)
  {
    assert forall i | 0 <= i < |w| :: (w + [c])[i] == w[i];
    assert (w + [c])[|w|] == c;
  }

  lemma IntStep(w: Word, c: bv8)
    ensures IsInt(w + [c]) <==> IsDigit(c) && (w == [] || Leads(w, S1) || IsInt(w))
  {
    var v := w + [c];
    if w == [] {
    } else {
      assert SignLength(v) == SignLength(w);
      var k := SignLength(w);
      assert v[k..] == w[k..] + [c];
      DigitsEnd(w[k..], c);
    }
  }

  lemma FloatStep(w: Word, c: bv8)
    ensures IsFloat(w + [c]) <==>
      (c == DOT && (w == [] || Leads(w, S1) || IsInt(w))) || (IsDigit(c) && IsFloat(w))
  {
    var v := w + [c];
    if IsFloat(v) {
      var d :| 0 <= d < |v| && FloatAt(v, d);
      FloatStepAt(w, c, d);
    }
    if c == DOT && (w == [] || Leads(w, S1) || IsInt(w)) {
      FloatStepAt(w, c, |w|);
    }
    if IsDigit(c) && IsFloat(w) {
      var d :| 0 <= d < |w| && FloatAt(w, d);
      FloatStepAt(w, c, d);
    }
  }

  lemma FloatStepAt(w: Word, c: bv8, d: nat)
    requires d <= |w|
    ensures d < |w| ==> (FloatAt(w + [c], d) <==> IsDigit(c) && FloatAt(w, d))
    ensures d == |w| ==> (FloatAt(w + [c], d) <==> c == DOT && (w == [] || Leads(w, S1) || IsInt(w)))
  {
    var v := w + [c];
    if d < |w| {
      assert SignLength(v) == SignLength(w);
      var k := SignLength(w);
      assert k <= d ==> v[k..d] == w[k..d];
      assert v[d + 1..] == w[d + 1..] + [c];
      DigitsEnd(w[d + 1..], c);
    } else {
      assert v[d + 1..] == [];
      if w != [] {
        assert SignLength(v) == SignLength(w);
        assert v[SignLength(w)..d] == w[SignLength(w)..];
      }
    }
  }

  lemma SciStep(w: Word, c: bv8)
    ensures IsScientific(w + [c]) <==> IsDigit(c) && (Leads(w, Exponent) || IsScientific(w))
  {
    var v := w + [c];
    if IsScientific(v) {
      var m :| 0 <= m < |v| && SciAt(v, m);
      SciStepAt(w, c, m);
    }
    if IsDigit(c) && Leads(w, Exponent) {
      SciStepAt(w, c, |w| - 2);
    }
    if IsDigit(c) && IsScientific(w) {
      var m :| 0 <= m < |w| && SciAt(w, m);
      SciStepAt(w, c, m);
    }
  }

  lemma SciStepAt(w: Word, c: bv8, m: nat)
    ensures m + 2 < |w| ==> (SciAt(w + [c], m) <==> IsDigit(c) && SciAt(w, m))
    ensures m + 2 == |w| ==> (SciAt(w + [c], m) <==> IsDigit(c) && Leads(w, Exponent))
    ensures m + 2 > |w| ==> !SciAt(w + [c], m)
  {
    var v := w + [c];
    if m + 2 <= |w| {
      assert v[..m] == w[..m];
      assert v[m + 2..] == w[m + 2..] + [c];
      DigitsEnd(w[m + 2..], c);
    }
  }

  /** The machine computes the languages: a word leads to a state exactly when it
      has that state's format. */
  lemma {:induction false} RunLeads(w: Word)
    ensures forall s | s != Invalid :: Run(w) == s <==> Leads(w, s)
    decreases |w|
  {
    hide IsInt, IsFloat, IsScientific;
    if w == [] {
      EmptyWord();
    } else {
      var v, c := w[..|w| - 1], w[|w| - 1];
      assert w == v + [c];
      RunLeads(v);
      IntStep(v, c);
      FloatStep(v, c);
      SciStep(v, c);
      forall s | s != Invalid ensures Run(w) == s <==> Leads(w, s) {
        StepLeads(v, c, s);
      }
    }
  }

  lemma EmptyWord()
    ensures !IsInt([]) && !IsFloat([]) && !IsScientific([])
  {
  }

  lemma StepLeads(v: Word, c: bv8, s: CoreState)
    requires s != Invalid && forall r | r != Invalid :: Run(v) == r <==> Leads(v, r)
    requires IsInt(v + [c]) <==> IsDigit(c) && (v == [] || Leads(v, S1) || IsInt(v))
    requires IsFloat(v + [c]) <==> (c == DOT && (v == [] || Leads(v, S1) || IsInt(v))) || (IsDigit(c) && IsFloat(v))
    requires IsScientific(v + [c]) <==> IsDigit(c) && (Leads(v, Exponent) || IsScientific(v))
    ensures Delta(Run(v), c) == s <==> Leads(v + [c], s)
  {
    hide IsInt, IsFloat, IsScientific, Run;
    var w := v + [c];
    assert w[..|w| - 1] == v;
    assert |w| >= 2 ==> w[..|w| - 2] == v[..|v| - 1] && w[|w| - 2] == v[|v| - 1];
    assert Leads(v, Start) <==> v == [];
    assert Leads(v, Int) <==> IsInt(v);
    assert Leads(v, Float) <==> IsFloat(v);
    assert Leads(v, Scientific) <==> IsScientific(v);
    assert Run(v) == Start <==> v == [];
    assert (Run(v) == S1 <==> Leads(v, S1)) && (Run(v) == S2 <==> Leads(v, S2));
    assert Run(v) == Exponent <==> Leads(v, Exponent);
  }

  /** Exactly the integers, floats and scientific numbers are recognised as such. */
  lemma Recognises(w: Word)
    ensures Run(w) == Int <==> IsInt(w)
    ensures Run(w) == Float <==> IsFloat(w)
    ensures Run(w) == Scientific <==> IsScientific(w)
  {
    hide IsInt, IsFloat, IsScientific;
    RunLeads(w);
    assert (Run(w) == Int <==> Leads(w, Int)) && (Run(w) == Float <==> Leads(w, Float));
    assert Run(w) == Scientific <==> Leads(w, Scientific);
  }

  lemma {:induction false} InvalidStays(w: Word, v: Word)
    requires Run(w) == Invalid
    ensures Run(w + v) == Invalid
    decreases |v|
  {
    if v == [] {
      assert w + v == w;
    } else {
      InvalidStays(w, v[..|v| - 1]);
      assert (w + v)[..|w + v| - 1] == w + v[..|v| - 1];
    }
  }

  /** How to complete a word that is still good. */
  function Completion(s: CoreState): Word {
    match s
    case Start | S1 | Exponent => [ZERO]
    case S2 => [PLUS, ZERO]
    case _ => []
  }

  lemma RunEnd(w: Word, c: bv8)
    ensures Run(w + [c]) == Delta(Run(w), c)
  {
    assert (w + [c])[..|w|] == w;
  }

  /** Invalid exactly when no continuation is a number. */
  lemma InvalidIffHopeless(w: Word)
    ensures Run(w) == Invalid <==> forall v :: !IsNumber(w + v)
  {
    hide IsInt, IsFloat, IsScientific;
    if Run(w) == Invalid {
      forall v ensures !IsNumber(w + v) {
        InvalidStays(w, v);
        Recognises(w + v);
      }
    } else {
      var v := Completion(Run(w));
      assert w + [] == w && w + [PLUS, ZERO] == w + [PLUS] + [ZERO];
      RunEnd(w, ZERO);
      RunEnd(w, PLUS);
      RunEnd(w + [PLUS], ZERO);
      Recognises(w + v);
      assert IsNumber(w + v);
    }
  }
}
