/** Tensors as the operators see them: sizes, strides, a flat storage and an
    element type, with the framework helpers the operators call on them
    (`numel`, `is_contiguous`, `canUse32BitIndexMath`, `resize_`). */
module Tensors {
  import opened MixedRadix

  /** Identifier of an element type (float, half, bool, ...). */
  type ScalarType = nat

  /** A tensor view. `defined` is false for the framework's undefined tensor;
      `data` is the storage the view indexes through its strides. */
  datatype Tensor<T> = Tensor(
    defined: bool,
    sizes: seq<nat>,
    strides: seq<nat>,
    data: seq<T>,
    scalarType: ScalarType)

  function Numel<T>(t: Tensor<T>): nat
  {
    Product(t.sizes)
  }

  /** Storage position of the `i`-th element in row-major logical order. */
  function StorageIndex<T>(t: Tensor<T>, i: nat): nat
    requires |t.strides| == |t.sizes| && i < Numel(t)
  {
    Dot(Digits(t.sizes, i), t.strides)
  }

  /** Every element of the view lies inside the storage. */
  predicate WellFormed<T>(t: Tensor<T>)
  {
    && |t.strides| == |t.sizes|
    && forall i :: 0 <= i < Numel(t) ==> StorageIndex(t, i) < |t.data|
  }

  /** The `i`-th element of the view in row-major logical order. */
  function ElementAt<T>(t: Tensor<T>, i: nat): T
    requires WellFormed(t) && i < Numel(t)
  {
    t.data[StorageIndex(t, i)]
  }

  /** The framework's `is_contiguous`: an empty tensor is contiguous; otherwise
      the strides must be the row-major ones (strides of extent-1 dimensions are
      free). */
  predicate IsContiguous<T>(t: Tensor<T>)
  {
    |t.strides| == |t.sizes| && (Numel(t) == 0 || ContiguousFrom(t.sizes, t.strides, 1))
  }

  const MaxInt32: nat := 0x7fff_ffff

  /** The framework's 32-bit indexability test: fewer elements than INT32_MAX and
      the storage position of the last element below INT32_MAX. */
  predicate CanUse32BitIndexMath<T>(t: Tensor<T>)
  {
    && |t.strides| == |t.sizes|
    && Numel(t) < MaxInt32
    && (Numel(t) == 0 || StorageIndex(t, Numel(t) - 1) < MaxInt32)
  }

  /** The `i`-th element of a contiguous view sits at storage position `i`. */
  lemma ContiguousStorageIndex<T>(t: Tensor<T>, i: nat)
    requires IsContiguous(t) && i < Numel(t)
    ensures StorageIndex(t, i) == i
  {
    ContiguousDot(t.sizes, t.strides, 1, i);
  }

  /** `resize_` to `sizes` in the contiguous memory format: the strides become the
      contiguous ones, the storage keeps its contents and grows (with `fill`
      standing for uninitialised memory) when it is too small. */
  function Resize<T>(t: Tensor<T>, sizes: seq<nat>, fill: T): (r: Tensor<T>)
    ensures r.sizes == sizes && r.strides == ContiguousStrides(sizes)
    ensures |r.data| == if |t.data| >= Product(sizes) then |t.data| else Product(sizes)
    ensures r.data[..|t.data|] == t.data || |r.data| == |t.data|
    ensures r.defined && r.scalarType == t.scalarType
  {
    var data := if |t.data| >= Product(sizes) then t.data
                else t.data + seq(Product(sizes) - |t.data|, _ => fill);
    Tensor(true, sizes, ContiguousStrides(sizes), data, t.scalarType)
  }

  /** A resized tensor is contiguous and its storage holds all its elements. */
  lemma ResizeWellFormed<T>(t: Tensor<T>, sizes: seq<nat>, fill: T)
    ensures IsContiguous(Resize(t, sizes, fill))
    ensures WellFormed(Resize(t, sizes, fill))
  {
    var r := Resize(t, sizes, fill);
    if Product(sizes) > 0 {
      ContiguousStridesAreContiguous(sizes, 1);
      forall i | 0 <= i < Numel(r)
        ensures StorageIndex(r, i) < |r.data|
      {
        ContiguousStorageIndex(r, i);
      }
    }
  }
}
