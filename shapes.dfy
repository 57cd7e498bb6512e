/**
 * The shape algebra of the typed tensor: element counts (`Math.MulTuple`),
 * removal of unit dimensions (`SqueezeShape`) and shape inference from nested
 * array literals (`TensorToShape`). The source computes each of these as a
 * tail-recursive conditional type with an accumulator; each is modelled here
 * with that accumulator and proved against a plain reference definition.
 */
module Shapes {
  import opened Wrappers

  /** A tensor shape: one size per dimension, rank = length. */
  type Shape = seq<nat>

  /** Reference element count: the product of all dimensions, 1 for rank 0. */
  function Product(s: Shape): nat
  {
    if s == [] then 1 else s[0] * Product(s[1..])
  }

  /** `Math.MulTuple<A, acc>`: multiplies the accumulator by each dimension in turn. */
  function MulTupleFrom(s: Shape, acc: nat): (r: nat)
    ensures r == acc * Product(s)
    decreases |s|
  {
    if |s| == 0 then acc
    else
      var r := MulTupleFrom(s[1..], acc * s[0]);
      assert acc * s[0] * Product(s[1..]) == acc * (s[0] * Product(s[1..]));
      r
  }

  /** `Math.MulTuple<A>` with its default accumulator 1. */
  function MulTuple(s: Shape): (r: nat)
    ensures r == Product(s)
  {
    MulTupleFrom(s, 1)
  }

  /** The accumulator form computes the plain product; the empty shape counts 1
      and a leading dimension multiplies the count of the rest. */
  lemma MulTupleIsProduct(s: Shape)
    ensures MulTuple(s) == Product(s)
    ensures s == [] ==> MulTuple(s) == 1
    ensures s != [] ==> MulTuple(s) == s[0] * MulTuple(s[1..])
  {
  }

  /** The element count of a concatenation is the product of the counts. */
  lemma {:induction false} ProductAppend(s: Shape, t: Shape)
    ensures Product(s + t) == Product(s) * Product(t)
  {
    if s == [] {
      assert s + t == t;
    } else {
      assert (s + t)[1..] == s[1..] + t;
      ProductAppend(s[1..], t);
      assert Product(s + t) == s[0] * (Product(s[1..]) * Product(t));
    }
  }

  /** A shape holds no elements exactly when one of its dimensions is 0. */
  lemma {:induction false} ProductZero(s: Shape)
    ensures Product(s) == 0 <==> 0 in s
  {
    if s != [] {
      ProductZero(s[1..]);
      assert s == [s[0]] + s[1..];
      assert 0 in s <==> s[0] == 0 || 0 in s[1..];
    }
  }

  // ---------------------------------------------------------------------------
  // SqueezeShape
  // ---------------------------------------------------------------------------

  /** `SqueezeShape<Shape, Acc>`: walks the shape, dropping every dimension equal
      to 1 and appending every other one to the accumulator. */
  function SqueezeShapeFrom(s: Shape, acc: Shape): (r: Shape)
    ensures |acc| <= |r| <= |acc| + |s|
    ensures r[..|acc|] == acc
    decreases |s|
  {
    if |s| == 0 then acc
    else if s[0] == 1 then SqueezeShapeFrom(s[1..], acc)
    else SqueezeShapeFrom(s[1..], acc + [s[0]])
  }

  /** `SqueezeShape<Shape>` with its default empty accumulator. */
  function SqueezeShape(s: Shape): Shape
  {
    SqueezeShapeFrom(s, [])
  }

  /** `q` can be obtained from `s` by deleting some elements, keeping the order. */
  predicate IsSubsequence(q: Shape, s: Shape)
    decreases |s|
  {
    q == [] ||
    (s != [] && ((q[0] == s[0] && IsSubsequence(q[1..], s[1..])) || IsSubsequence(q, s[1..])))
  }

  /** The accumulator only ever receives a prefix: the squeeze of the rest is appended to it. */
  lemma {:induction false} SqueezeFromAcc(s: Shape, acc: Shape)
    ensures SqueezeShapeFrom(s, acc) == acc + SqueezeShape(s)
    decreases |s|
  {
    if |s| == 0 {
    } else if s[0] == 1 {
      SqueezeFromAcc(s[1..], acc);
      SqueezeFromAcc(s[1..], []);
    } else {
      SqueezeFromAcc(s[1..], acc + [s[0]]);
      SqueezeFromAcc(s[1..], [s[0]]);
      assert [] + [s[0]] == [s[0]];
      assert (acc + [s[0]]) + SqueezeShape(s[1..]) == acc + ([s[0]] + SqueezeShape(s[1..]));
    }
  }

  /** One step of the squeeze: a leading 1 vanishes, any other leading dimension stays in front. */
  lemma SqueezeCons(s: Shape)
    requires s != []
    ensures SqueezeShape(s) == (if s[0] == 1 then [] else [s[0]]) + SqueezeShape(s[1..])
  {
    if s[0] != 1 {
      SqueezeFromAcc(s[1..], [s[0]]);
      assert [] + [s[0]] == [s[0]];
    }
  }

  /** Squeezing distributes over concatenation. */
  lemma {:induction false} SqueezeAppend(s: Shape, t: Shape)
    ensures SqueezeShape(s + t) == SqueezeShape(s) + SqueezeShape(t)
  {
    if s == [] {
      assert s + t == t;
    } else {
      assert (s + t)[0] == s[0] && (s + t)[1..] == s[1..] + t;
      SqueezeCons(s + t);
      SqueezeCons(s);
      SqueezeAppend(s[1..], t);
    }
  }

  /** No dimension of size 1 is left after squeezing. */
  lemma {:induction false} SqueezeNoOnes(s: Shape)
    ensures 1 !in SqueezeShape(s)
  {
    if s != [] {
      SqueezeCons(s);
      SqueezeNoOnes(s[1..]);
    }
  }

  /** The squeezed shape keeps the surviving dimensions in their original order. */
  lemma {:induction false} SqueezeIsSubsequence(s: Shape)
    ensures IsSubsequence(SqueezeShape(s), s)
  {
    if s != [] {
      SqueezeCons(s);
      SqueezeIsSubsequence(s[1..]);
      var q := SqueezeShape(s);
      if s[0] == 1 {
        SqueezeNoOnes(s[1..]);
        assert q == [] || q[0] != s[0];
      } else {
        assert q[0] == s[0] && q[1..] == SqueezeShape(s[1..]);
      }
    }
  }

  /** Every dimension other than 1 is kept, as many times as it occurs; all 1s go. */
  lemma {:induction false} SqueezeMultiset(s: Shape)
    ensures multiset(SqueezeShape(s)) == multiset(s)[1 := 0]
  {
    if s != [] {
      SqueezeCons(s);
      SqueezeMultiset(s[1..]);
      assert s == [s[0]] + s[1..];
    }
  }

  /** A dimension survives the squeeze exactly when it occurs and is not 1. */
  lemma SqueezeMembership(s: Shape, x: nat)
    ensures x in SqueezeShape(s) <==> x in s && x != 1
  {
    SqueezeMultiset(s);
    assert x in SqueezeShape(s) <==> multiset(SqueezeShape(s))[x] > 0;
    assert x in s <==> multiset(s)[x] > 0;
  }

  /** Squeezing never changes the element count. */
  lemma {:induction false} SqueezeProduct(s: Shape)
    ensures Product(SqueezeShape(s)) == Product(s)
  {
    if s != [] {
      SqueezeCons(s);
      SqueezeProduct(s[1..]);
      ProductAppend(if s[0] == 1 then [] else [s[0]], SqueezeShape(s[1..]));
    }
  }

  /** A shape is left unchanged by the squeeze exactly when it has no dimension 1. */
  lemma {:induction false} SqueezeFixedPoint(s: Shape)
    ensures SqueezeShape(s) == s <==> 1 !in s
  {
    if s != [] {
      SqueezeCons(s);
      SqueezeFixedPoint(s[1..]);
      assert s == [s[0]] + s[1..];
      if s[0] == 1 {
        SqueezeLength(s[1..]);
      }
    }
  }

  /** The squeezed shape is never longer than the input. */
  lemma {:induction false} SqueezeLength(s: Shape)
    ensures |SqueezeShape(s)| <= |s|
  {
    if s != [] {
      SqueezeCons(s);
      SqueezeLength(s[1..]);
    }
  }

  /** Squeezing twice is the same as squeezing once. */
  lemma SqueezeIdempotent(s: Shape)
    ensures SqueezeShape(SqueezeShape(s)) == SqueezeShape(s)
  {
    SqueezeNoOnes(s);
    SqueezeFixedPoint(SqueezeShape(s));
  }

  /** Elements of a subsequence are drawn, with multiplicity, from the sequence. */
  lemma {:induction false} SubsequenceMultiset(q: Shape, s: Shape)
    requires IsSubsequence(q, s)
    ensures multiset(q) <= multiset(s)
    decreases |s|
  {
    if q != [] {
      assert s == [s[0]] + s[1..];
      if q[0] == s[0] && IsSubsequence(q[1..], s[1..]) {
        SubsequenceMultiset(q[1..], s[1..]);
        assert q == [q[0]] + q[1..];
      } else {
        SubsequenceMultiset(q, s[1..]);
      }
    }
  }

  /** Dropping the 1s distributes over multiset union. */
  lemma DropOnesUnion(a: multiset<nat>, b: multiset<nat>)
    ensures (a + b)[1 := 0] == a[1 := 0] + b[1 := 0]
  {
  }

  /** Splitting off a first element that is kept on both sides. */
  lemma DropOnesMatch(q: Shape, s: Shape)
    requires q != [] && s != [] && q[0] == s[0] && q[0] != 1
    requires multiset(q) == multiset(s)[1 := 0]
    ensures multiset(q[1..]) == multiset(s[1..])[1 := 0]
  {
    assert q == [q[0]] + q[1..];
    assert s == [s[0]] + s[1..];
    DropOnesUnion(multiset{s[0]}, multiset(s[1..]));
    assert multiset{s[0]}[1 := 0] == multiset{s[0]};
    var m := multiset(s[1..])[1 := 0];
    assert multiset{q[0]} + multiset(q[1..]) == multiset{q[0]} + m;
    assert (multiset{q[0]} + multiset(q[1..])) - multiset{q[0]} == multiset(q[1..]);
    assert (multiset{q[0]} + m) - multiset{q[0]} == m;
  }

  /** A leading 1 does not contribute once the 1s are dropped. */
  lemma DropOnesSkip(s: Shape)
    requires s != [] && s[0] == 1
    ensures multiset(s)[1 := 0] == multiset(s[1..])[1 := 0]
  {
    assert s == [s[0]] + s[1..];
    DropOnesUnion(multiset{s[0]}, multiset(s[1..]));
    assert multiset{s[0]}[1 := 0] == multiset{};
  }

  /** A selection that skips a leading dimension other than 1 keeps fewer copies of it. */
  lemma DropOnesMissing(q: Shape, s: Shape)
    requires s != [] && s[0] != 1
    requires IsSubsequence(q, s[1..])
    ensures multiset(q)[s[0]] < multiset(s)[1 := 0][s[0]]
  {
    SubsequenceMultiset(q, s[1..]);
    assert s == [s[0]] + s[1..];
    assert multiset(s)[s[0]] == multiset(s[1..])[s[0]] + 1;
  }

  /** The three properties above determine the squeeze: any order-preserving
      selection from `s` without 1s that keeps every other dimension is it. */
  lemma {:induction false} SqueezeUnique(q: Shape, s: Shape)
    requires 1 !in q
    requires IsSubsequence(q, s)
    requires multiset(q) == multiset(s)[1 := 0]
    ensures q == SqueezeShape(s)
    decreases |s|
  {
    if s == [] {
      assert multiset(q) == multiset{};
    } else {
      SqueezeCons(s);
      if q != [] && q[0] == s[0] && IsSubsequence(q[1..], s[1..]) {
        DropOnesMatch(q, s);
        assert 1 !in q[1..];
        SqueezeUnique(q[1..], s[1..]);
        assert q == [q[0]] + q[1..];
      } else if s[0] == 1 {
        DropOnesSkip(s);
        SqueezeUnique(q, s[1..]);
      } else {
        DropOnesMissing(q, s);
        assert false;
      }
    }
  }

  // ---------------------------------------------------------------------------
  // TensorToShape
  // ---------------------------------------------------------------------------

  /** A value inside an array literal handed to `TypedTensor.tensor`: a number,
      a nested array, or anything else (a string, a boolean, an object). */
  datatype Nested = Num(value: int) | Other | Arr(items: seq<Nested>)

  /** `TensorToShape<T, Shape>`: follows the first element of each array,
      recording the array's length at every level; succeeds when that first
      element is a number and yields `never` (None) otherwise, which includes
      an empty array (its first element is `undefined`). */
  function TensorToShapeFrom(t: seq<Nested>, shape: Shape): Option<Shape>
    decreases Arr(t)
  {
    if |t| > 0 && t[0].Arr? then TensorToShapeFrom(t[0].items, shape + [|t|])
    else if |t| > 0 && t[0].Num? then Some(shape + [|t|])
    else None
  }

  /** `TensorToShape<T>` with its default empty accumulator. */
  function TensorToShape(t: seq<Nested>): Option<Shape>
  {
    TensorToShapeFrom(t, [])
  }

  /** Reference: the array reached by following the first element `k` times. */
  function Descend(t: seq<Nested>, k: nat): Option<seq<Nested>>
    decreases k
  {
    if k == 0 then Some(t)
    else if |t| > 0 && t[0].Arr? then Descend(t[0].items, k - 1)
    else None
  }

  /** The array `k` levels down the first-element path exists and starts with a number. */
  predicate EndsInNumberAt(t: seq<Nested>, k: nat)
  {
    Descend(t, k).Some? && |Descend(t, k).value| > 0 && Descend(t, k).value[0].Num?
  }

  /** The accumulator is a prefix of the result. */
  lemma {:induction false} TensorToShapeFromAcc(t: seq<Nested>, shape: Shape)
    ensures TensorToShapeFrom(t, shape) ==
            (if TensorToShape(t).Some? then Some(shape + TensorToShape(t).value) else None)
    decreases Arr(t)
  {
    if |t| > 0 && t[0].Arr? {
      TensorToShapeFromAcc(t[0].items, shape + [|t|]);
      TensorToShapeFromAcc(t[0].items, [|t|]);
      assert [] + [|t|] == [|t|];
      if TensorToShape(t[0].items).Some? {
        var v := TensorToShape(t[0].items).value;
        assert (shape + [|t|]) + v == shape + ([|t|] + v);
      }
    } else if |t| > 0 && t[0].Num? {
      assert [] + [|t|] == [|t|];
    }
  }

  /** Soundness: an inferred shape has one entry per level of the first-element
      path, each the length of the array at that level, and the path ends at a
      number. */
  lemma {:induction false} TensorToShapeSound(t: seq<Nested>)
    requires TensorToShape(t).Some?
    ensures |TensorToShape(t).value| > 0
    ensures EndsInNumberAt(t, |TensorToShape(t).value| - 1)
    ensures forall k :: 0 <= k < |TensorToShape(t).value| ==>
              Descend(t, k).Some? && TensorToShape(t).value[k] == |Descend(t, k).value|
    decreases Arr(t)
  {
    var r := TensorToShape(t).value;
    if !t[0].Arr? {
      assert [] + [|t|] == [|t|];
    } else {
      var items := t[0].items;
      TensorToShapeFromAcc(items, [|t|]);
      TensorToShapeSound(items);
      var r' := TensorToShape(items).value;
      assert r == [|t|] + r';
      assert Descend(t, |r| - 1) == Descend(items, |r'| - 1);
      forall k | 0 <= k < |r|
        ensures Descend(t, k).Some? && r[k] == |Descend(t, k).value|
      {
        if k > 0 {
          assert Descend(t, k) == Descend(items, k - 1);
        }
      }
    }
  }

  /** Completeness: whenever the first-element path reaches an array starting
      with a number, inference succeeds with one entry per level down to it. */
  lemma {:induction false} TensorToShapeComplete(t: seq<Nested>, n: nat)
    requires EndsInNumberAt(t, n)
    ensures TensorToShape(t).Some? && |TensorToShape(t).value| == n + 1
    decreases n
  {
    if n == 0 {
      assert [] + [|t|] == [|t|];
    } else {
      assert |t| > 0 && t[0].Arr?;
      var items := t[0].items;
      assert [] + [|t|] == [|t|];
      TensorToShapeComplete(items, n - 1);
      TensorToShapeFromAcc(items, [|t|]);
    }
  }

  /** Inference fails exactly when no level of the first-element path starts with a number. */
  lemma TensorToShapeFails(t: seq<Nested>)
    ensures TensorToShape(t).None? <==> forall n: nat :: !EndsInNumberAt(t, n)
  {
    if TensorToShape(t).Some? {
      TensorToShapeSound(t);
    } else {
      forall n: nat ensures !EndsInNumberAt(t, n) {
        if EndsInNumberAt(t, n) {
          TensorToShapeComplete(t, n);
        }
      }
    }
  }
}
