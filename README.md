# typenet tensor shapes, modelled in Dafny

typenet's `index.ts` is a compile-time shape checker for tensors. A `TypedTensor<Shape, Params>`
carries its shape (a tuple of dimension sizes) and a parameter record (`requires_grad`, `device`,
`dtype`) in its type. Every operation is a recursive conditional type that computes the type of
the resulting handle. Invalid reshapes are refused with a readable diagnostic. The class is
declared with no bodies, so the types are the whole behaviour.

This project models those types as pure Dafny functions over values. It has two layers.

- **Shape algebra** (`Shapes`, `ShapeFormat`):
  - `MulTuple`: the element count, computed with its accumulator.
  - `SqueezeShape`: removes every dimension equal to 1.
  - `TensorToShape`: infers a shape from a nested array literal, by following the first element.
  - `ViewShape`: renders a shape as `[a, b, c]`.
  - `ValidView`: the reshape check that carries the diagnostic
    `Cannot convert tensor of shape … to …`.

  Each of `MulTuple`, `SqueezeShape`, `TensorToShape` and `ViewShape` is written with the source's accumulator. Each is proved equal to a plain
  reference definition or characterised completely. The rendering is proved readable back
  by a parser, so a diagnostic determines both of the shapes it names.
- **Tensor handle** (`Tensors`):
  - A `Tensor(shape, params)` datatype.
  - The record override `Merge`.
  - The factories `ones`, `zeros`, `randn` and `tensor`.
  - The attribute transitions `gpu`, `cpu`, `dtype`, `requires_grad` and `no_grad`.
  - The shape transitions `view`, `squeeze` and `stack`.

`Examples` restates the example handles at the end of `index.ts` as lemmas.

Files:
- `wrappers.dfy`: `Option` and `Result`.
- `shapes.dfy`: element count, squeeze and shape inference.
- `shape_format.dfy`: rendering, parsing and `ValidView`.
- `tensors.dfy`: the handle.
- `examples.dfy`: the examples.

Modelling decisions:
- Dimensions are `nat`. The source never checks that a dimension is positive, so the model has
  no invalid-shape error.
- The type-level `never` becomes `None`. A rejected `view` argument becomes `Err(message)`.
- Numbers are rendered in decimal without leading zeros, which is how a template literal
  renders a non-negative integer literal.

In some places the code is narrower than a tensor library usually is. The model follows the code there:
- `stack` (index.ts:147-155) returns the first tensor's shape. It returns a shape, not a
  handle. It ignores `dim` and never compares the shapes of the inputs. An empty list gives
  `never`. No stricter stacking is modelled.
- `TensorToShape` (index.ts:77-84) looks only at the first element of each array. A ragged
  literal such as `[[1, 2], [3]]` is accepted with shape `[2, 2]`. An empty array gives
  `never`, and so does an array whose first element is neither a number nor an array.
- `DType` has only `float32` and `float64` (index.ts:42).
- Every attribute transition keeps the other two attributes, because `Merge` keeps every key
  that the override does not name.

## Model

| member | source | states |
|---|---|---|
| Shapes.MulTuple | index.ts:24-33 | `MulTuple<A>` with its default accumulator 1: the element count equals the product of the dimensions |
| Shapes.MulTupleFrom | index.ts:24-33 | the accumulator form yields the accumulator times the product of the dimensions |
| Shapes.MulTupleIsProduct | index.ts:24-33 | `MulTuple` is the plain product: 1 for the empty shape, `x * MulTuple(xs)` for `[x, ...xs]` |
| Shapes.ProductAppend | index.ts:24-33 | the element count of a concatenation is the product of the two counts |
| Shapes.ProductZero | index.ts:24-33 | the element count is 0 exactly when some dimension is 0 |
| Shapes.SqueezeShapeFrom | index.ts:86-95 | the body follows the empty-shape and `X extends 1` branches; the contract says the result starts with the accumulator and grows by at most the length of the input; SqueezeFromAcc characterises it |
| Shapes.SqueezeShape | index.ts:86-95 | `SqueezeShape<Shape>` with its empty accumulator; no contract of its own; SqueezeNoOnes, SqueezeIsSubsequence, SqueezeMultiset and SqueezeUnique characterise it |
| Shapes.SqueezeFromAcc | index.ts:86-95 | the squeeze with accumulator `acc` is `acc` followed by the squeeze from an empty accumulator |
| Shapes.SqueezeCons | index.ts:86-95 | a leading 1 is dropped; any other leading dimension stays in front of the squeezed rest |
| Shapes.SqueezeAppend | index.ts:86-95 | squeezing distributes over concatenation |
| Shapes.SqueezeNoOnes | index.ts:86-95 | the result contains no dimension equal to 1 |
| Shapes.SqueezeIsSubsequence | index.ts:86-95 | the result is a subsequence of the input, so the order is kept |
| Shapes.SqueezeMultiset | index.ts:86-95 | every dimension other than 1 is kept as often as it occurs, and every 1 is removed |
| Shapes.SqueezeMembership | index.ts:86-95 | a value is in the result iff it is in the input and is not 1 |
| Shapes.SqueezeProduct | index.ts:86-95 | squeezing never changes the element count |
| Shapes.SqueezeFixedPoint | index.ts:86-95 | the squeeze leaves a shape unchanged iff the shape has no dimension 1 |
| Shapes.SqueezeLength | index.ts:86-95 | the result is never longer than the input |
| Shapes.SqueezeIdempotent | index.ts:86-95 | squeezing twice equals squeezing once |
| Shapes.SqueezeUnique | index.ts:86-95 | any order-preserving selection without 1s that keeps every other dimension is the squeeze |
| Shapes.TensorToShapeFrom | index.ts:77-84 | no contract of its own; the body follows the three branches (`T[0]` an array, a number, anything else); TensorToShapeFromAcc characterises it |
| Shapes.TensorToShape | index.ts:77-84 | `TensorToShape<T>` with its empty accumulator; no contract of its own; TensorToShapeSound, TensorToShapeComplete and TensorToShapeFails characterise it |
| Shapes.TensorToShapeFromAcc | index.ts:77-84 | the accumulated shape is a prefix of the result, and failure does not depend on it |
| Shapes.TensorToShapeSound | index.ts:77-84 | an inferred shape has one entry per level of the first-element path; each entry is the length of the array at that level; the path ends at a number |
| Shapes.TensorToShapeComplete | index.ts:77-84 | whenever the first-element path reaches an array that starts with a number, inference succeeds with one entry per level |
| Shapes.TensorToShapeFails | index.ts:77-84 | inference gives `never` iff no level of the first-element path starts with a number |
| ShapeFormat.NatToString | index.ts:69 | a dimension renders as a non-empty string of digits with no leading zero |
| ShapeFormat.NatToStringRoundTrip | index.ts:69 | a rendered dimension followed by a non-digit reads back as that dimension |
| ShapeFormat.ViewShapeFrom | index.ts:59-71 | no contract of its own; the body follows the empty-shape branch and the `acc extends "["` separator choice; ViewShapeFromSeparated characterises it |
| ShapeFormat.ViewShape | index.ts:59-71 | `ViewShape<Shape>` with its accumulator "["; no contract of its own; ViewShapeIsBracketedJoin and ViewShapeRoundTrip characterise it |
| ShapeFormat.ViewShapeFromSeparated | index.ts:59-71 | once the accumulator is past "[", each further dimension is preceded by ", " and the result is closed by "]" |
| ShapeFormat.ViewShapeIsBracketedJoin | index.ts:59-71 | `ViewShape([])` is "[]"; otherwise it is "[", the dimensions joined by ", ", then "]", with no leading or trailing separator |
| ShapeFormat.ParseViewShapePrefix | index.ts:59-71 | a rendered shape at the front of any string reads back as that shape and the rest of the string |
| ShapeFormat.ViewShapeRoundTrip | index.ts:59-71 | parsing the rendering of a shape gives back the shape |
| ShapeFormat.ViewShapeInjective | index.ts:59-71 | two shapes render alike iff they are equal |
| ShapeFormat.ViewError | index.ts:75 | the diagnostic template; no contract of its own; ViewErrorRoundTrip characterises it |
| ShapeFormat.ViewErrorRoundTrip | index.ts:75 | both shapes can be read back from the reshape diagnostic |
| ShapeFormat.ValidView | index.ts:73-75 | the view is accepted iff the two element counts are equal |
| ShapeFormat.ValidViewDiagnostic | index.ts:73-75 | a rejection is exactly "Cannot convert tensor of shape " + rendering of the old shape + " to " + rendering of the new shape, and both shapes can be read back from it |
| Tensors.Merge | index.ts:36-40 | no contract of its own; each key named by the override takes the override's value and every other key keeps the record's; MergeEmpty, MergeThen, MergeIdempotent and the per-field ensures of the five transitions characterise it |
| Tensors.MergeEmpty | index.ts:36-40 | merging with an override that has no keys changes nothing |
| Tensors.MergeThen | index.ts:36-40 | merging two overrides in turn equals merging the second laid over the first |
| Tensors.MergeIdempotent | index.ts:36-40 | merging the same override twice equals merging it once |
| Tensors.DefaultParams | index.ts:53-57 | the defaults are requires_grad = false, device = cpu, dtype = float32 |
| Tensors.Ones | index.ts:101-103 | the handle has the given shape and the default parameters |
| Tensors.Zeros | index.ts:105-107 | the handle has the given shape and the default parameters |
| Tensors.Randn | index.ts:109-111 | the handle has the given shape and the default parameters |
| Tensors.FromValue | index.ts:113-115 | defined iff the first-element path ends at a number; the shape then has one entry per level, each the length of the array at that level; the parameters are the defaults |
| Tensors.ToGpu | index.ts:117-120 | the shape is kept, device becomes gpu, and the other parameters are kept |
| Tensors.ToCpu | index.ts:122-125 | the shape is kept, device becomes cpu, and the other parameters are kept |
| Tensors.WithDType | index.ts:127-129 | the shape is kept, dtype becomes the argument, and the other parameters are kept |
| Tensors.RequiresGrad | index.ts:131-134 | the shape is kept, requires_grad becomes true, and the other parameters are kept |
| Tensors.NoGrad | index.ts:136-139 | the shape is kept, requires_grad becomes false, and the other parameters are kept |
| Tensors.DeviceRoundTrip | index.ts:117-125 | moving a handle to the other device and back gives the same handle |
| Tensors.AttributeTransitionsIdempotent | index.ts:117-139 | repeating any of the five attribute transitions equals applying it once |
| Tensors.AttributeTransitionLastWins | index.ts:117-139 | of two transitions of the same field (cpu/gpu, two dtypes, requires_grad/no_grad) the last one wins |
| Tensors.AttributeTransitionsCommute | index.ts:117-139 | every pair of transitions of different fields commutes: each of gpu and cpu with dtype, requires_grad and no_grad; each of requires_grad and no_grad with dtype |
| Tensors.View | index.ts:141-143 | accepted iff the element counts agree; the result then has exactly the requested shape and the same parameters; otherwise the error is the diagnostic naming both shapes |
| Tensors.ViewErrorNamesShapes | index.ts:141-143 | both shapes can be read back from a rejected view's message |
| Tensors.ViewBack | index.ts:141-143 | viewing back to the original shape is always accepted and gives back the original handle |
| Tensors.ViewCompose | index.ts:141-143 | a view of a view is accepted iff the direct view is, and then the two agree |
| Tensors.Squeeze | index.ts:145 | the parameters are kept; the shape has no 1s, keeps the order and every other dimension, and has the same element count |
| Tensors.SqueezeTwice | index.ts:145 | squeezing a handle twice equals squeezing it once |
| Tensors.SqueezeViewBack | index.ts:141-145 | a squeezed handle can always be viewed back to the original shape, giving the original handle |
| Tensors.Stack | index.ts:147-155 | defined iff the list is non-empty, and then the result is the first tensor's shape |
| Tensors.StackIgnoresDimAndRest | index.ts:147-155 | the result depends neither on `dim` nor on the tensors after the first |
| Examples.SqueezeOnesExample | index.ts:158 | `ones([1, 2]).squeeze()` has shape `[2]` and the default parameters |
| Examples.ZerosExample | index.ts:159 | `zeros([2, 1, 5])` has 10 elements and squeezes to `[2, 5]` |
| Examples.ViewExample | index.ts:161 | `ones([4, 4]).view([2, 2, 2, 2])` is accepted |
| Examples.ViewRejectedExample | index.ts:73-75 | `ones([4, 4]).view([3, 3])` is rejected with "Cannot convert tensor of shape [4, 4] to [3, 3]" |
| Examples.StackExample | index.ts:161-163 | `stack([haha, asdf], 2)` is `[2, 2, 2, 2]` even though the second shape is `[2]` |
| Examples.TensorToShapeExample | index.ts:77-84 | regular and ragged literals, an empty array and a non-numeric leaf |
| Examples.ViewShapeExample | index.ts:59-71 | renderings of rank 0, rank 1 and a multi-digit dimension |

## Left out

- The `hotscript` library (index.ts:1, index.ts:14-22) is not part of this model. `Math.Mul` is
  plain multiplication of unbounded naturals. `Math.Add` is never used.
- `zeroWidthSpace` and `ErrorMessage` (index.ts:3-7) are unused. `Clean` (index.ts:9-11) is an
  identity on records. Neither has behaviour to model.
- The optional `dims` field of `TensorParams` (index.ts:50) has no operation, so `Params` omits it.
- TypeScript typing subtleties have no value-level counterpart:
  - shapes containing the wide `number` or `any` (`ShapeType = any[]`, index.ts:43);
  - `extends` as subtyping rather than equality of literals;
  - JavaScript's floating-point numbers. Negative, fractional or very large dimensions and the
    exponent notation `${X}` uses for large numbers are not modelled.
- FromValue: a literal whose shape is `never` gives `None`. In the source, `TypedTensor.tensor` still returns a handle `TypedTensor<never>` whose methods type-check (index.ts:113-115). The model does not carry a `never`-shaped handle through later operations.
- MulTuple, SqueezeShape, TensorToShape and ViewShape recurse without a bound. TypeScript stops instantiating recursive types after about 1000 levels and reports an excessively deep type instead of a result. The model always computes a result. No realistic shape or literal is that deep.
- The factories have no bodies in the source. No fill values, random numbers, buffers or
  device transfers exist, so none are modelled. A handle is only its shape and parameters.
