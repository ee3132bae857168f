/**
 * get_label in extract_data.py: the binary stress label that a recording's
 * file name carries in its third '-'-separated field, the emotion code.
 * Codes 4 to 8 are "stressed" (1), codes 1 to 3 "neutral" (0); any other
 * code, a name with fewer than three fields and a third field that is not an
 * integer literal all give None.
 */
module EmotionLabel {
  import opened Wrappers
  import PyStr
  import PyInt

  /** The two exceptions get_label catches. */
  datatype PyError = IndexError | ValueError

  /** The label of the emotion codes 4 to 8. */
  const Stressed: int := 1

  /** The label of the emotion codes 1 to 3. */
  const Neutral: int := 0

  /**
   * `int(filename.split('-')[2])`: the emotion code, or the exception the
   * expression raises. The field holds no '-', so a code is never negative.
   */
  function EmotionCode(filename: string): (r: Result<int, PyError>)
    ensures r.Success? ==> r.value >= 0
  {
    var fields := PyStr.Split(filename, '-');
    if |fields| < 3 then Failure(IndexError)
    else
      match PyInt.ParseInt(fields[2])
      case None => Failure(ValueError)
      case Some(code) => Success(code)
  }

  /** The membership tests of get_label: the label an emotion code stands for, if any. */
  function LabelOfCode(code: int): (r: Option<int>)
    ensures r == Some(Stressed) <==> 4 <= code <= 8
    ensures r == Some(Neutral) <==> 1 <= code <= 3
    ensures r == None <==> !(1 <= code <= 8)
  {
    if code in [4, 5, 6, 7, 8] then Some(Stressed)
    else if code in [1, 2, 3] then Some(Neutral)
    else None
  }

  /** `get_label(filename)`: total on strings, and always None, 0 or 1. */
  function GetLabel(filename: string): (r: Option<int>)
    ensures r == None || r == Some(Neutral) || r == Some(Stressed)
  {
    var code := EmotionCode(filename);
    if code.Success? then LabelOfCode(code.value) else None
  }

  /**
   * The shape of a file name whose third field is `t`: two fields `a` and
   * `b`, then `t`, then either nothing or further fields starting with '-'
   * (`a-b-t` followed by `rest`).
   */
  predicate HasThirdField(filename: string, a: string, b: string, t: string, rest: string)
  {
    && '-' !in a && '-' !in b && '-' !in t
    && (rest == [] || rest[0] == '-')
    && filename == a + "-" + (b + "-" + (t + rest))
  }

  /** In such a name, splitting on '-' yields at least three fields, and the third is `t`. */
  lemma ThirdFieldOf(filename: string, a: string, b: string, t: string, rest: string)
    requires HasThirdField(filename, a, b, t, rest)
    ensures |PyStr.Split(filename, '-')| >= 3 && PyStr.Split(filename, '-')[2] == t
  {
    PyStr.ThirdPiece(a, b, t, rest, '-');
  }

  /**
   * The label is decided by how int() reads the third field: 1 for the codes
   * 4 to 8, 0 for the codes 1 to 3, None for any other integer, and None
   * (from the ValueError) when the field is not an integer literal.
   */
  lemma LabelFromThirdField(filename: string, a: string, b: string, t: string, rest: string)
    requires HasThirdField(filename, a, b, t, rest)
    ensures PyInt.ParseInt(t).None? ==> EmotionCode(filename) == Failure(ValueError) && GetLabel(filename) == None
    ensures PyInt.ParseInt(t).Some? ==> EmotionCode(filename) == Success(PyInt.ParseInt(t).value)
    ensures PyInt.ParseInt(t).Some? && 4 <= PyInt.ParseInt(t).value <= 8 ==> GetLabel(filename) == Some(Stressed)
    ensures PyInt.ParseInt(t).Some? && 1 <= PyInt.ParseInt(t).value <= 3 ==> GetLabel(filename) == Some(Neutral)
    ensures PyInt.ParseInt(t).Some? && !(1 <= PyInt.ParseInt(t).value <= 8) ==> GetLabel(filename) == None
  {
    ThirdFieldOf(filename, a, b, t, rest);
    assert PyStr.Split(filename, '-')[2] == t;
    match PyInt.ParseInt(t)
    case None =>
      assert EmotionCode(filename) == Failure(ValueError);
    case Some(code) =>
      assert EmotionCode(filename) == Success(code);
      assert GetLabel(filename) == LabelOfCode(code);
  }

  /** Only the third field matters: the first two fields and any fields after the third can be anything. */
  lemma OnlyThirdFieldMatters(f1: string, a1: string, b1: string, rest1: string,
                              f2: string, a2: string, b2: string, rest2: string, t: string)
    requires HasThirdField(f1, a1, b1, t, rest1)
    requires HasThirdField(f2, a2, b2, t, rest2)
    ensures EmotionCode(f1) == EmotionCode(f2)
    ensures GetLabel(f1) == GetLabel(f2)
  {
    ThirdFieldOf(f1, a1, b1, t, rest1);
    ThirdFieldOf(f2, a2, b2, t, rest2);
  }

  /**
   * The IndexError happens exactly when the name has fewer than two '-', so
   * fewer than three fields; it is caught and the label is None.
   */
  lemma TooFewFields(filename: string)
    ensures EmotionCode(filename) == Failure(IndexError) <==> multiset(filename)['-'] < 2
    ensures multiset(filename)['-'] < 2 ==> GetLabel(filename) == None
  {
    PyStr.SplitLength(filename, '-');
  }

  /**
   * Every name with at least two '-' has the shape a-b-t followed by nothing
   * or by '-' and more, so with TooFewFields the lemmas about a third field
   * cover every name.
   */
  lemma HasSomeThirdField(filename: string)
    requires multiset(filename)['-'] >= 2
    ensures exists a, b, t, rest :: HasThirdField(filename, a, b, t, rest)
  {
    var fs := PyStr.Split(filename, '-');
    PyStr.SplitLength(filename, '-');
    PyStr.JoinSplit(filename, '-');
    PyStr.JoinThree(fs, '-');
    assert HasThirdField(filename, fs[0], fs[1], fs[2], PyStr.AfterThird(fs, '-'));
  }

  /**
   * A third field holding anything but whitespace, digits, '+' and '_' is
   * not an integer literal: the ValueError is caught and the label is None.
   */
  lemma NonIntegerThirdField(filename: string, a: string, b: string, t: string, rest: string, i: nat)
    requires HasThirdField(filename, a, b, t, rest)
    requires i < |t| && !(PyInt.IsSpace(t[i]) || PyInt.IsDecimal(t[i]) || t[i] == '+' || t[i] == '_')
    ensures EmotionCode(filename) == Failure(ValueError)
    ensures GetLabel(filename) == None
  {
    LabelFromThirdField(filename, a, b, t, rest);
    if PyInt.ParseInt(t).Some? {
      PyInt.AcceptedCharacters(t, i);
    }
  }

  /** A third field without a digit, the empty field included, gives None. */
  lemma DigitlessThirdField(filename: string, a: string, b: string, t: string, rest: string)
    requires HasThirdField(filename, a, b, t, rest)
    requires forall i :: 0 <= i < |t| ==> !PyInt.IsDecimal(t[i])
    ensures EmotionCode(filename) == Failure(ValueError)
    ensures GetLabel(filename) == None
  {
    PyInt.NeedsADigit(t);
    LabelFromThirdField(filename, a, b, t, rest);
  }

  /**
   * With exactly three fields the third keeps the file extension, so it is
   * not an integer literal and the label is None.
   */
  lemma ExtensionStaysInThirdField(filename: string, a: string, b: string, stem: string)
    requires '-' !in a && '-' !in b && '-' !in stem
    requires filename == a + "-" + (b + "-" + (stem + ".wav"))
    ensures GetLabel(filename) == None
  {
    var t := stem + ".wav";
    assert t + [] == t;
    assert t[|stem|] == '.';
    PyInt.NotDecimal('.');
    NonIntegerThirdField(filename, a, b, t, [], |stem|);
  }

  /**
   * The third field written as a number in any of the ways int() accepts it
   * (surrounding whitespace, a '+', leading zeros) labels the file by that
   * number: 1 for 4 to 8, 0 for 1 to 3, None otherwise.
   */
  lemma LabelOfWrittenCode(filename: string, a: string, b: string, rest: string,
                           w1: string, plus: bool, z: nat, code: nat, w2: string)
    requires PyInt.AllSpace(w1) && PyInt.AllSpace(w2)
    requires z + |PyInt.DecimalString(code)| <= PyInt.MaxStrDigits
    requires HasThirdField(filename, a, b, w1 + (if plus then "+" else "") + PyInt.Zeros(z) + PyInt.DecimalString(code) + w2, rest)
    ensures GetLabel(filename)
            == if 4 <= code <= 8 then Some(Stressed) else if 1 <= code <= 3 then Some(Neutral) else None
  {
    var t := w1 + (if plus then "+" else "") + PyInt.Zeros(z) + PyInt.DecimalString(code) + w2;
    PyInt.PaddedNumberParses(w1, plus, z, code, w2);
    LabelFromThirdField(filename, a, b, t, rest);
  }

  /** A code written with more than 4300 digits, leading zeros included, exceeds int()'s limit: None. */
  lemma OverlongCode(filename: string, a: string, b: string, ds: string, rest: string)
    requires HasThirdField(filename, a, b, ds, rest)
    requires |ds| > PyInt.MaxStrDigits && PyInt.AllDecimal(ds)
    ensures EmotionCode(filename) == Failure(ValueError)
    ensures GetLabel(filename) == None
  {
    PyInt.DecimalRun(ds);
    PyInt.TooManyDigits([], [], ds, []);
    assert [] + [] + ds + [] == ds;
    LabelFromThirdField(filename, a, b, ds, rest);
  }

  /** A third field of plain digits, at most 4300 of them, is the code those digits denote. */
  lemma LabelOfDigits(filename: string, a: string, b: string, ds: string, rest: string)
    requires HasThirdField(filename, a, b, ds, rest)
    requires 0 < |ds| <= PyInt.MaxStrDigits && PyInt.AllDecimal(ds)
    ensures EmotionCode(filename) == Success(PyInt.DecimalValue(ds))
    ensures GetLabel(filename) == LabelOfCode(PyInt.DecimalValue(ds))
  {
    PyInt.DecimalRun(ds);
    PyInt.LiteralParses([], [], ds, []);
    assert [] + [] + ds + [] == ds;
    LabelFromThirdField(filename, a, b, ds, rest);
  }

  /** A name in the seven-field layout of the recordings with emotion code 06 is stressed. */
  lemma StressedExample()
    ensures GetLabel("03-01-06-01-02-01-12.wav") == Some(Stressed)
  {
    assert HasThirdField("03-01-06-01-02-01-12.wav", "03", "01", "06", "-01-02-01-12.wav");
    LabelOfDigits("03-01-06-01-02-01-12.wav", "03", "01", "06", "-01-02-01-12.wav");
    assert PyInt.DecimalValue("06") == 6;
  }

  /** A name with emotion code 02 is neutral. */
  lemma NeutralExample()
    ensures GetLabel("03-01-02-01-01-01-01.wav") == Some(Neutral)
  {
    assert HasThirdField("03-01-02-01-01-01-01.wav", "03", "01", "02", "-01-01-01-01.wav");
    LabelOfDigits("03-01-02-01-01-01-01.wav", "03", "01", "02", "-01-01-01-01.wav");
    assert PyInt.DecimalValue("02") == 2;
  }

  /** A name with three fields keeps ".wav" in the third: no label. */
  lemma ThreeFieldExample()
    ensures GetLabel("a-b-06.wav") == None
  {
    ExtensionStaysInThirdField("a-b-06.wav", "a", "b", "06");
  }

  /** A name without '-' has no third field: no label. */
  lemma NoFieldExample()
    ensures GetLabel("recording.wav") == None
  {
    PyStr.SplitWithoutSeparator("recording.wav", '-');
  }
}
