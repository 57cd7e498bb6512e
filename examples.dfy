/** The example handles declared at the end of index.ts, and a few more
    worked instances of the shape algebra. */
module Examples {
  import opened Wrappers
  import opened Shapes
  import opened ShapeFormat
  import opened Tensors

  /** `ones([1, 2]).squeeze()` has shape `[2]`. */
  lemma SqueezeOnesExample()
    ensures Squeeze(Ones([1, 2])) == Tensor([2], DefaultParams())
  {
    SqueezeCons([1, 2]);
    SqueezeCons([2]);
    assert [1, 2][1..] == [2];
  }

  /** `zeros([2, 1, 5])` holds 10 elements, as does its squeeze `[2, 5]`. */
  lemma ZerosExample()
    ensures Zeros([2, 1, 5]).shape == [2, 1, 5]
    ensures MulTuple([2, 1, 5]) == 10
    ensures Squeeze(Zeros([2, 1, 5])).shape == [2, 5]
  {
    MulTupleIsProduct([2, 1, 5]);
  }

  /** `ones([4, 4]).view([2, 2, 2, 2])` is accepted. */
  lemma ViewExample()
    ensures View(Ones([4, 4]), [2, 2, 2, 2]) == Ok(Tensor([2, 2, 2, 2], DefaultParams()))
  {
    assert Product([4]) == 4;
    assert Product([2, 2]) == 4;
    assert Product([2, 2, 2]) == 8;
  }

  /** A square shape with a one-digit side renders as "[d, d]". */
  lemma RenderSquare(d: nat)
    requires d < 10
    ensures ViewShape([d, d]) == "[" + [DigitChar(d)] + ", " + [DigitChar(d)] + "]"
  {
    assert [d, d][1..] == [d];
    ViewShapeIsBracketedJoin([d, d]);
  }

  /** Viewing a one-digit square as a square of another size is rejected. */
  lemma RejectSquare(d: nat, e: nat)
    requires d < 10 && e < 10 && d * d != e * e
    ensures View(Ones([d, d]), [e, e]) ==
            Err("Cannot convert tensor of shape [" + [DigitChar(d)] + ", " + [DigitChar(d)] +
                "] to [" + [DigitChar(e)] + ", " + [DigitChar(e)] + "]")
  {
    assert Product([d, d]) == d * d by { assert [d, d][1..] == [d]; assert Product([d]) == d; }
    assert Product([e, e]) == e * e by { assert [e, e][1..] == [e]; assert Product([e]) == e; }
    RenderSquare(d);
    RenderSquare(e);
  }

  /** `ones([4, 4]).view([3, 3])` is rejected with the diagnostic naming both shapes. */
  lemma ViewRejectedExample()
    ensures View(Ones([4, 4]), [3, 3]) == Err("Cannot convert tensor of shape [4, 4] to [3, 3]")
  {
    RejectSquare(4, 3);
    SquareMessage(DigitChar(4), DigitChar(3));
  }

  lemma SquareMessage(c: char, k: char)
    requires c == '4' && k == '3'
    ensures "Cannot convert tensor of shape [" + [c] + ", " + [c] + "] to [" + [k] + ", " + [k] + "]" ==
            "Cannot convert tensor of shape [4, 4] to [3, 3]"
  {
  }

  /** `stack([haha, asdf], 2)` with `haha = ones([4, 4]).view([2, 2, 2, 2])` and
      `asdf = ones([1, 2]).squeeze()` is the first shape, `[2, 2, 2, 2]`, although
      the second tensor has shape `[2]`. */
  lemma StackExample()
    ensures View(Ones([4, 4]), [2, 2, 2, 2]).Ok?
    ensures Stack([View(Ones([4, 4]), [2, 2, 2, 2]).value, Squeeze(Ones([1, 2]))], 2) == Some([2, 2, 2, 2])
  {
    assert Product([4]) == 4;
    assert Product([2, 2]) == 4;
    assert Product([2, 2, 2]) == 8;
  }

  /** Shape inference follows the first element only: a ragged literal is not rejected. */
  lemma TensorToShapeExample()
    ensures TensorToShape([Arr([Num(1), Num(2)]), Arr([Num(3), Num(4)]), Arr([Num(5), Num(6)])]) == Some([3, 2])
    ensures TensorToShape([Arr([Num(1), Num(2)]), Arr([Num(3)])]) == Some([2, 2])
    ensures TensorToShape([]) == None
    ensures TensorToShape([Other, Num(1)]) == None
    ensures TensorToShape([Arr([]), Arr([Num(1)])]) == None
  {
    assert [] + [3] == [3] && [3] + [2] == [3, 2];
    assert [] + [2] == [2] && [2] + [2] == [2, 2];
  }

  lemma ViewShapeExample()
    ensures ViewShape([]) == "[]"
    ensures ViewShape([7]) == "[7]"
    ensures ViewShape([2, 10, 3]) == "[2, 10, 3]"
  {
  }
}
