/**
 * Rendering of shapes for diagnostics (`ViewShape`) and the reshape check
 * that carries the diagnostic (`ValidView`). Numbers are rendered the way a
 * template literal renders a non-negative integer literal: decimal digits,
 * no leading zeros. A parser for the rendered form shows that the diagnostic
 * names both shapes unambiguously.
 */
module ShapeFormat {
  import opened Wrappers
  import opened Shapes

  predicate IsDigit(c: char)
  {
    '0' <= c <= '9'
  }

  function DigitChar(d: nat): (c: char)
    requires d < 10
    ensures IsDigit(c)
  {
    (d + '0' as int) as char
  }

  function DigitValue(c: char): nat
    requires IsDigit(c)
  {
    c as int - '0' as int
  }

  /** Decimal rendering of a dimension, as `${X}` produces it. */
  function NatToString(n: nat): (r: string)
    ensures |r| > 0
    ensures forall i :: 0 <= i < |r| ==> IsDigit(r[i])
    ensures r[0] == '0' ==> n == 0
    decreases n
  {
    if n < 10 then [DigitChar(n)] else NatToString(n / 10) + [DigitChar(n % 10)]
  }

  /** `ViewShape<Shape, acc>`: appends each dimension to the accumulator, with a
      ", " separator unless the accumulator is still the opening "[", and closes
      with "]". */
  function ViewShapeFrom(s: Shape, acc: string): string
    decreases |s|
  {
    if |s| == 0 then acc + "]"
    else ViewShapeFrom(s[1..], acc + (if acc == "[" then "" else ", ") + NatToString(s[0]))
  }

  /** `ViewShape<Shape>` with its default accumulator "[". */
  function ViewShape(s: Shape): string
  {
    ViewShapeFrom(s, "[")
  }

  /** Reference: the dimensions in decimal, separated by ", ". */
  function Join(s: Shape): string
    decreases |s|
  {
    if |s| == 0 then ""
    else if |s| == 1 then NatToString(s[0])
    else NatToString(s[0]) + ", " + Join(s[1..])
  }

  /** Once past the opening bracket, each further dimension is preceded by ", ". */
  lemma {:induction false} ViewShapeFromSeparated(s: Shape, acc: string)
    requires acc != "["
    ensures ViewShapeFrom(s, acc) == if s == [] then acc + "]" else acc + ", " + Join(s) + "]"
    decreases |s|
  {
    if s != [] {
      var acc' := acc + ", " + NatToString(s[0]);
      assert |acc'| > 1;
      ViewShapeFromSeparated(s[1..], acc');
      if |s| > 1 {
        assert acc' + ", " + Join(s[1..]) + "]" == acc + ", " + (NatToString(s[0]) + ", " + Join(s[1..])) + "]";
      }
    }
  }

  /** `ViewShape([])` is "[]" and otherwise the bracketed, comma-separated
      dimensions, with no separator before the first and none trailing. */
  lemma ViewShapeIsBracketedJoin(s: Shape)
    ensures ViewShape(s) == "[" + Join(s) + "]"
  {
    if s != [] {
      var acc := "[" + NatToString(s[0]);
      assert |acc| > 1;
      assert ("[" + "") + NatToString(s[0]) == acc;
      assert ViewShape(s) == ViewShapeFrom(s[1..], acc);
      ViewShapeFromSeparated(s[1..], acc);
      if |s| > 1 {
        assert acc + ", " + Join(s[1..]) + "]" == "[" + (NatToString(s[0]) + ", " + Join(s[1..])) + "]";
      }
    }
  }

  // ---------------------------------------------------------------------------
  // Reading a rendered shape back
  // ---------------------------------------------------------------------------

  /** Reads the longest run of leading digits onto `acc`; returns the value and the rest. */
  function ParseDigitsFrom(s: string, acc: nat): (r: (nat, string))
    ensures |r.1| <= |s|
    ensures |s| > 0 && IsDigit(s[0]) ==> |r.1| < |s|
    decreases |s|
  {
    if |s| > 0 && IsDigit(s[0]) then ParseDigitsFrom(s[1..], acc * 10 + DigitValue(s[0]))
    else (acc, s)
  }

  /** Reads "d, d, ..., d]" (one or more numbers); returns the numbers and the rest after "]". */
  function ParseElements(s: string): Option<(Shape, string)>
    decreases |s|
  {
    if |s| == 0 || !IsDigit(s[0]) then None
    else
      var (n, rest) := ParseDigitsFrom(s, 0);
      if |rest| >= 1 && rest[0] == ']' then Some(([n], rest[1..]))
      else if |rest| >= 2 && rest[0] == ',' && rest[1] == ' ' then
        match ParseElements(rest[2..])
        case None => None
        case Some((ns, tail)) => Some(([n] + ns, tail))
      else None
  }

  /** Reads a rendered shape at the front of `s`; returns it and the rest. */
  function ParseShapePrefix(s: string): Option<(Shape, string)>
  {
    if |s| >= 2 && s[0] == '[' && s[1] == ']' then Some(([], s[2..]))
    else if |s| >= 1 && s[0] == '[' then ParseElements(s[1..])
    else None
  }

  /** Reads a string that is exactly one rendered shape. */
  function ParseShape(s: string): Option<Shape>
  {
    match ParseShapePrefix(s)
    case Some((sh, rest)) => if rest == "" then Some(sh) else None
    case None => None
  }

  /** One digit read onto the accumulator. */
  lemma ParseDigitStep(c: char, rest: string, acc: nat)
    requires IsDigit(c)
    ensures ParseDigitsFrom([c] + rest, acc) == ParseDigitsFrom(rest, acc * 10 + DigitValue(c))
  {
    assert ([c] + rest)[0] == c;
    assert ([c] + rest)[1..] == rest;
  }

  lemma DigitRoundTrip(d: nat)
    requires d < 10
    ensures DigitValue(DigitChar(d)) == d
  {
  }

  /** Reading the digits of a rendered number continues with the number as accumulator. */
  lemma {:induction false} ParseNatToString(n: nat, rest: string)
    ensures ParseDigitsFrom(NatToString(n) + rest, 0) == ParseDigitsFrom(rest, n)
    decreases n
  {
    var q, d := n / 10, n % 10;
    var c := DigitChar(d);
    DigitRoundTrip(d);
    if n < 10 {
      assert NatToString(n) == [c];
      ParseDigitStep(c, rest, 0);
    } else {
      var w := NatToString(q);
      assert NatToString(n) == w + [c];
      assert NatToString(n) + rest == w + ([c] + rest);
      ParseNatToString(q, [c] + rest);
      ParseDigitStep(c, rest, q);
      assert q * 10 + d == n;
    }
  }

  /** A rendered number followed by a non-digit reads back as that number. */
  lemma NatToStringRoundTrip(n: nat, rest: string)
    requires rest == [] || !IsDigit(rest[0])
    ensures ParseDigitsFrom(NatToString(n) + rest, 0) == (n, rest)
  {
    ParseNatToString(n, rest);
  }

  /** The last number of a rendered list is read, and reading stops after the "]". */
  lemma ParseElementsLast(n: nat, tail: string)
    ensures ParseElements(NatToString(n) + ("]" + tail)) == Some(([n], tail))
  {
    var w := NatToString(n) + ("]" + tail);
    assert IsDigit(w[0]);
    NatToStringRoundTrip(n, "]" + tail);
    assert ("]" + tail)[1..] == tail;
  }

  /** A number followed by ", " is put in front of the numbers read after it. */
  lemma ParseElementsMore(n: nat, r: string)
    ensures ParseElements(NatToString(n) + (", " + r)) ==
            match ParseElements(r)
            case None => None
            case Some((ns, tail)) => Some(([n] + ns, tail))
  {
    var w := NatToString(n) + (", " + r);
    assert IsDigit(w[0]);
    NatToStringRoundTrip(n, ", " + r);
    assert (", " + r)[2..] == r;
  }

  /** Reading back the joined dimensions and the closing bracket recovers them. */
  lemma {:induction false} ParseJoin(s: Shape, tail: string)
    requires s != []
    ensures ParseElements(Join(s) + "]" + tail) == Some((s, tail))
    decreases |s|
  {
    if |s| == 1 {
      assert Join(s) + "]" + tail == NatToString(s[0]) + ("]" + tail);
      ParseElementsLast(s[0], tail);
      assert s == [s[0]];
    } else {
      var r := Join(s[1..]) + "]" + tail;
      assert Join(s) + "]" + tail == NatToString(s[0]) + (", " + r);
      ParseElementsMore(s[0], r);
      ParseJoin(s[1..], tail);
      assert [s[0]] + s[1..] == s;
    }
  }

  /** Reading back a rendered shape recovers it, whatever follows it. */
  lemma ParseViewShapePrefix(s: Shape, tail: string)
    ensures ParseShapePrefix(ViewShape(s) + tail) == Some((s, tail))
  {
    ViewShapeIsBracketedJoin(s);
    var w := ViewShape(s) + tail;
    if s == [] {
      assert w == "[]" + tail;
      assert w[2..] == tail;
    } else {
      assert w == "[" + (Join(s) + "]" + tail);
      assert w[1] == NatToString(s[0])[0];
      assert w[1..] == Join(s) + "]" + tail;
      ParseJoin(s, tail);
    }
  }

  /** The rendering can be read back, so no two shapes render alike. */
  lemma ViewShapeRoundTrip(s: Shape)
    ensures ParseShape(ViewShape(s)) == Some(s)
  {
    ParseViewShapePrefix(s, "");
    assert ViewShape(s) + "" == ViewShape(s);
  }

  lemma ViewShapeInjective(a: Shape, b: Shape)
    ensures ViewShape(a) == ViewShape(b) <==> a == b
  {
    ViewShapeRoundTrip(a);
    ViewShapeRoundTrip(b);
  }

  // ---------------------------------------------------------------------------
  // ValidView and its diagnostic
  // ---------------------------------------------------------------------------

  const ViewErrorPrefix: string := "Cannot convert tensor of shape "
  const ViewErrorInfix: string := " to "

  /** The diagnostic of a rejected reshape. */
  function ViewError(from: Shape, to: Shape): string
  {
    ViewErrorPrefix + ViewShape(from) + ViewErrorInfix + ViewShape(to)
  }

  /** Recovers the two shapes named by a reshape diagnostic. */
  function ParseViewError(m: string): Option<(Shape, Shape)>
  {
    if |m| >= |ViewErrorPrefix| && m[..|ViewErrorPrefix|] == ViewErrorPrefix then
      match ParseShapePrefix(m[|ViewErrorPrefix|..])
      case None => None
      case Some((from, rest)) =>
        if |rest| >= |ViewErrorInfix| && rest[..|ViewErrorInfix|] == ViewErrorInfix then
          match ParseShape(rest[|ViewErrorInfix|..])
          case None => None
          case Some(to) => Some((from, to))
        else None
    else None
  }

  /** The diagnostic names both shapes unambiguously. */
  lemma ViewErrorRoundTrip(from: Shape, to: Shape)
    ensures ParseViewError(ViewError(from, to)) == Some((from, to))
  {
    var m := ViewError(from, to);
    var rest := ViewErrorInfix + ViewShape(to);
    assert m == ViewErrorPrefix + (ViewShape(from) + rest);
    assert m[..|ViewErrorPrefix|] == ViewErrorPrefix;
    assert m[|ViewErrorPrefix|..] == ViewShape(from) + rest;
    ParseViewShapePrefix(from, rest);
    assert rest[..|ViewErrorInfix|] == ViewErrorInfix;
    assert rest[|ViewErrorInfix|..] == ViewShape(to);
    ViewShapeRoundTrip(to);
  }

  /** `ValidView<Shape, View>`: None (the type `unknown`, accepted) when the
      element counts agree, otherwise the diagnostic. */
  function ValidView(shape: Shape, view: Shape): (r: Option<string>)
    ensures r.None? <==> Product(shape) == Product(view)
  {
    MulTupleIsProduct(shape);
    MulTupleIsProduct(view);
    if MulTuple(shape) == MulTuple(view) then None
    else Some(ViewError(shape, view))
  }

  /** A rejection is the diagnostic, and both shapes can be read back from it. */
  lemma ValidViewDiagnostic(shape: Shape, view: Shape)
    requires ValidView(shape, view).Some?
    ensures ValidView(shape, view).value ==
            "Cannot convert tensor of shape " + ViewShape(shape) + " to " + ViewShape(view)
    ensures ParseViewError(ValidView(shape, view).value) == Some((shape, view))
  {
    ViewErrorRoundTrip(shape, view);
  }
}
