/**
 * The `TypedTensor` handle: a shape together with a parameter record. Every
 * operation returns a new handle; attribute transitions override one field
 * of the record through `Merge`, shape transitions consult the shape algebra.
 * Only shapes and parameters exist in the source; no tensor data is modelled.
 */
module Tensors {
  import opened Wrappers
  import opened Shapes
  import opened ShapeFormat

  datatype Device = Cpu | Gpu
  datatype DType = Float32 | Float64

  /** `TensorParams` (without the optional, unused `dims`). */
  datatype Params = Params(requires_grad: bool, device: Device, dtype: DType)

  /** The second argument of `Merge<A, B>`: the keys it has, with their values. */
  datatype Patch = Patch(requires_grad: Option<bool>, device: Option<Device>, dtype: Option<DType>)

  /** `Merge<A, B>`: keeps A's value for every key B does not have, B's value otherwise. */
  function Merge(a: Params, b: Patch): Params
  {
    Params(
      if b.requires_grad.Some? then b.requires_grad.value else a.requires_grad,
      if b.device.Some? then b.device.value else a.device,
      if b.dtype.Some? then b.dtype.value else a.dtype)
  }

  /** Merging `p` and then `q` is merging with `q` laid over `p`. */
  function Then(p: Patch, q: Patch): Patch
  {
    Patch(
      if q.requires_grad.Some? then q.requires_grad else p.requires_grad,
      if q.device.Some? then q.device else p.device,
      if q.dtype.Some? then q.dtype else p.dtype)
  }

  const EmptyPatch: Patch := Patch(None, None, None)

  lemma MergeEmpty(a: Params)
    ensures Merge(a, EmptyPatch) == a
  {
  }

  lemma MergeThen(a: Params, p: Patch, q: Patch)
    ensures Merge(Merge(a, p), q) == Merge(a, Then(p, q))
  {
  }

  lemma MergeIdempotent(a: Params, p: Patch)
    ensures Merge(Merge(a, p), p) == Merge(a, p)
  {
  }

  /** `DefaultParams`. */
  function DefaultParams(): (r: Params)
    ensures !r.requires_grad && r.device == Cpu && r.dtype == Float32
  {
    Params(false, Cpu, Float32)
  }

  /** `TypedTensor<Shape, Params>`. */
  datatype Tensor = Tensor(shape: Shape, params: Params)

  // ---------------------------------------------------------------------------
  // Factories
  // ---------------------------------------------------------------------------

  function Ones(shape: Shape): (r: Tensor)
    ensures r.shape == shape
    ensures !r.params.requires_grad && r.params.device == Cpu && r.params.dtype == Float32
  {
    Tensor(shape, DefaultParams())
  }

  function Zeros(shape: Shape): (r: Tensor)
    ensures r.shape == shape
    ensures !r.params.requires_grad && r.params.device == Cpu && r.params.dtype == Float32
  {
    Tensor(shape, DefaultParams())
  }

  function Randn(shape: Shape): (r: Tensor)
    ensures r.shape == shape
    ensures !r.params.requires_grad && r.params.device == Cpu && r.params.dtype == Float32
  {
    Tensor(shape, DefaultParams())
  }

  /** `TypedTensor.tensor(value)`: the shape inferred from the array literal;
      None where the inferred shape is `never`. */
  function FromValue(value: seq<Nested>): (r: Option<Tensor>)
    ensures r.Some? <==> exists n: nat :: EndsInNumberAt(value, n)
    ensures r.Some? ==>
              r.value.params == DefaultParams() &&
              |r.value.shape| > 0 &&
              EndsInNumberAt(value, |r.value.shape| - 1) &&
              forall k :: 0 <= k < |r.value.shape| ==>
                Descend(value, k).Some? && r.value.shape[k] == |Descend(value, k).value|
  {
    TensorToShapeFails(value);
    match TensorToShape(value)
    case None => None
    case Some(shape) =>
      TensorToShapeSound(value);
      Some(Tensor(shape, DefaultParams()))
  }

  // ---------------------------------------------------------------------------
  // Attribute transitions
  // ---------------------------------------------------------------------------

  function ToGpu(t: Tensor): (r: Tensor)
    ensures r.shape == t.shape
    ensures r.params.device == Gpu
    ensures r.params.requires_grad == t.params.requires_grad && r.params.dtype == t.params.dtype
  {
    Tensor(t.shape, Merge(t.params, Patch(None, Some(Gpu), None)))
  }

  function ToCpu(t: Tensor): (r: Tensor)
    ensures r.shape == t.shape
    ensures r.params.device == Cpu
    ensures r.params.requires_grad == t.params.requires_grad && r.params.dtype == t.params.dtype
  {
    Tensor(t.shape, Merge(t.params, Patch(None, Some(Cpu), None)))
  }

  /** `dtype(d)`. */
  function WithDType(t: Tensor, d: DType): (r: Tensor)
    ensures r.shape == t.shape
    ensures r.params.dtype == d
    ensures r.params.requires_grad == t.params.requires_grad && r.params.device == t.params.device
  {
    Tensor(t.shape, Merge(t.params, Patch(None, None, Some(d))))
  }

  /** `requires_grad()`. */
  function RequiresGrad(t: Tensor): (r: Tensor)
    ensures r.shape == t.shape
    ensures r.params.requires_grad
    ensures r.params.device == t.params.device && r.params.dtype == t.params.dtype
  {
    Tensor(t.shape, Merge(t.params, Patch(Some(true), None, None)))
  }

  /** `no_grad()`. */
  function NoGrad(t: Tensor): (r: Tensor)
    ensures r.shape == t.shape
    ensures !r.params.requires_grad
    ensures r.params.device == t.params.device && r.params.dtype == t.params.dtype
  {
    Tensor(t.shape, Merge(t.params, Patch(Some(false), None, None)))
  }

  /** Moving a tensor back to where it was gives back the same handle. */
  lemma DeviceRoundTrip(t: Tensor)
    ensures t.params.device == Cpu ==> ToCpu(ToGpu(t)) == t
    ensures t.params.device == Gpu ==> ToGpu(ToCpu(t)) == t
  {
  }

  /** Repeating a transition changes nothing more. */
  lemma AttributeTransitionsIdempotent(t: Tensor, d: DType)
    ensures ToGpu(ToGpu(t)) == ToGpu(t) && ToCpu(ToCpu(t)) == ToCpu(t)
    ensures WithDType(WithDType(t, d), d) == WithDType(t, d)
    ensures RequiresGrad(RequiresGrad(t)) == RequiresGrad(t) && NoGrad(NoGrad(t)) == NoGrad(t)
  {
  }

  /** The last transition of a field wins. */
  lemma AttributeTransitionLastWins(t: Tensor, d: DType, e: DType)
    ensures ToGpu(ToCpu(t)) == ToGpu(t) && ToCpu(ToGpu(t)) == ToCpu(t)
    ensures WithDType(WithDType(t, d), e) == WithDType(t, e)
    ensures NoGrad(RequiresGrad(t)) == NoGrad(t) && RequiresGrad(NoGrad(t)) == RequiresGrad(t)
  {
  }

  /** Transitions of different fields commute, for every pair of them. */
  lemma AttributeTransitionsCommute(t: Tensor, d: DType)
    ensures ToGpu(WithDType(t, d)) == WithDType(ToGpu(t), d)
    ensures ToCpu(WithDType(t, d)) == WithDType(ToCpu(t), d)
    ensures RequiresGrad(ToGpu(t)) == ToGpu(RequiresGrad(t))
    ensures RequiresGrad(ToCpu(t)) == ToCpu(RequiresGrad(t))
    ensures NoGrad(ToGpu(t)) == ToGpu(NoGrad(t))
    ensures NoGrad(ToCpu(t)) == ToCpu(NoGrad(t))
    ensures RequiresGrad(WithDType(t, d)) == WithDType(RequiresGrad(t), d)
    ensures NoGrad(WithDType(t, d)) == WithDType(NoGrad(t), d)
  {
  }

  // ---------------------------------------------------------------------------
  // Shape transitions
  // ---------------------------------------------------------------------------

  /** `view(v)`: accepted exactly when the element counts agree, yielding shape
      `v` with the same parameters; otherwise the diagnostic of `ValidView`. */
  function View(t: Tensor, v: Shape): (r: Result<Tensor>)
    ensures r.Ok? <==> Product(t.shape) == Product(v)
    ensures r.Ok? ==> r.value.shape == v && r.value.params == t.params
    ensures r.Err? ==>
              r.message == "Cannot convert tensor of shape " + ViewShape(t.shape) + " to " + ViewShape(v)
  {
    match ValidView(t.shape, v)
    case None => Ok(Tensor(v, t.params))
    case Some(m) => Err(m)
  }

  /** A rejected view names both shapes, and they can be read back from its message. */
  lemma ViewErrorNamesShapes(t: Tensor, v: Shape)
    requires View(t, v).Err?
    ensures ParseViewError(View(t, v).message) == Some((t.shape, v))
  {
    ValidViewDiagnostic(t.shape, v);
  }

  /** Viewing back to the original shape is always accepted. */
  lemma ViewBack(t: Tensor, v: Shape)
    requires View(t, v).Ok?
    ensures View(View(t, v).value, t.shape) == Ok(t)
  {
  }

  /** A view of a view is accepted exactly when a direct view is, and then
      agrees with it (a rejection names the intermediate shape instead). */
  lemma ViewCompose(t: Tensor, a: Shape, b: Shape)
    requires View(t, a).Ok?
    ensures View(View(t, a).value, b).Ok? <==> View(t, b).Ok?
    ensures View(t, b).Ok? ==> View(View(t, a).value, b) == View(t, b)
  {
  }

  /** `squeeze()`: drops every dimension 1, keeps the parameters. */
  function Squeeze(t: Tensor): (r: Tensor)
    ensures r.params == t.params
    ensures 1 !in r.shape
    ensures IsSubsequence(r.shape, t.shape)
    ensures multiset(r.shape) == multiset(t.shape)[1 := 0]
    ensures Product(r.shape) == Product(t.shape)
  {
    SqueezeNoOnes(t.shape);
    SqueezeIsSubsequence(t.shape);
    SqueezeMultiset(t.shape);
    SqueezeProduct(t.shape);
    Tensor(SqueezeShape(t.shape), t.params)
  }

  lemma SqueezeTwice(t: Tensor)
    ensures Squeeze(Squeeze(t)) == Squeeze(t)
  {
    SqueezeIdempotent(t.shape);
  }

  /** A squeezed tensor can always be viewed back to its original shape. */
  lemma SqueezeViewBack(t: Tensor)
    ensures View(Squeeze(t), t.shape) == Ok(t)
  {
  }

  /** `TypedTensor.stack(tensors, dim)`: the shape of the first tensor, whatever
      `dim` is and whatever the other tensors' shapes are; `never` (None) for
      an empty list. */
  function Stack(tensors: seq<Tensor>, dim: int): (r: Option<Shape>)
    ensures r.Some? <==> |tensors| > 0
    ensures r.Some? ==> r.value == tensors[0].shape
  {
    if |tensors| > 0 then Some(tensors[0].shape) else None
  }

  /** The result of `stack` depends neither on `dim` nor on the tensors after the first. */
  lemma StackIgnoresDimAndRest(t: Tensor, rest: seq<Tensor>, rest': seq<Tensor>, dim: int, dim': int)
    ensures Stack([t] + rest, dim) == Stack([t] + rest', dim') == Some(t.shape)
  {
  }
}
