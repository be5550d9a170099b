/** Tensors as the pipeline's records hold them: a dense array (a dtype, a
    shape and its elements in row-major order) or a ragged array whose outer
    dimensions are uniform and whose innermost rows vary in length. */
module Tensors {

  /** Element types a field may carry. */
  datatype DType = Int | Bool | Str

  /** One tensor element. */
  datatype Atom = I(i: int) | B(b: bool) | S(s: string)

  /** The "empty" element of a dtype: 0, False or the empty string. */
  function Zero(d: DType): Atom {
    match d
    case Int => I(0)
    case Bool => B(false)
    case Str => S("")
  }

  function Min(a: nat, b: nat): nat {
    if a <= b then a else b
  }

  lemma ConcatAssoc<T>(a: seq<T>, b: seq<T>, c: seq<T>)
    ensures a + (b + c) == (a + b) + c
  {
  }

  /** Number of elements of a dense shape. */
  function Product(dims: seq<nat>): nat {
    if dims == [] then 1 else dims[0] * Product(dims[1..])
  }

  lemma {:induction false} ProductSnoc(dims: seq<nat>, x: nat)
    ensures Product(dims + [x]) == Product(dims) * x
  {
    if dims != [] {
      assert (dims + [x])[1..] == dims[1..] + [x];
      ProductSnoc(dims[1..], x);
    }
  }

  datatype TensorData =
    | Dense(dtype: DType, shape: seq<nat>, flat: seq<Atom>)
    | Ragged(dtype: DType, outer: seq<nat>, rows: seq<seq<Atom>>)

  /** The storage matches the declared dimensions. */
  predicate Consistent(t: TensorData) {
    match t
    case Dense(_, shape, flat) => |flat| == Product(shape)
    case Ragged(_, outer, rows) => |rows| == Product(outer)
  }

  type Tensor = t: TensorData | Consistent(t) witness Dense(Int, [], [I(0)])

  /** A rank-0 tensor. */
  function Scalar(d: DType, a: Atom): (t: Tensor)
    ensures t.Dense? && t.shape == [] && t.flat == [a]
  {
    Dense(d, [], [a])
  }

  /** A dense tensor with a leading (sequence) axis. */
  predicate HasLeadingAxis(t: Tensor) {
    t.Dense? && |t.shape| >= 1
  }

  /** Length of the leading axis. */
  function Lead(t: Tensor): nat
    requires HasLeadingAxis(t)
  {
    t.shape[0]
  }

  /** Shape of one entry along the leading axis. */
  function Inner(t: Tensor): seq<nat>
    requires HasLeadingAxis(t)
  {
    t.shape[1..]
  }

  // ---------------------------------------------------------------------
  // Rows along the leading axis
  // ---------------------------------------------------------------------

  /** Every row has exactly w entries. */
  predicate Uniform<T>(rs: seq<seq<T>>, w: nat) {
    forall i :: 0 <= i < |rs| ==> |rs[i]| == w
  }

  function Flatten<T>(rs: seq<seq<T>>): seq<T> {
    if rs == [] then [] else rs[0] + Flatten(rs[1..])
  }

  /** Cuts s into n consecutive pieces of w entries each. */
  function Chunks<T>(s: seq<T>, w: nat, n: nat): (rs: seq<seq<T>>)
    requires |s| == n * w
    ensures |rs| == n && Uniform(rs, w)
    ensures Flatten(rs) == s
  {
    if n == 0 then []
    else
      assert |s[w..]| == (n - 1) * w;
      [s[..w]] + Chunks(s[w..], w, n - 1)
  }

  lemma {:induction false} FlattenLength<T>(rs: seq<seq<T>>, w: nat)
    requires Uniform(rs, w)
    ensures |Flatten(rs)| == |rs| * w
  {
    if rs != [] {
      FlattenLength(rs[1..], w);
    }
  }

  lemma {:induction false} FlattenAppend<T>(a: seq<seq<T>>, b: seq<seq<T>>)
    ensures Flatten(a + b) == Flatten(a) + Flatten(b)
  {
    if a == [] {
      assert a + b == b;
    } else {
      assert (a + b)[1..] == a[1..] + b;
      FlattenAppend(a[1..], b);
    }
  }

  /** Chunks undoes Flatten on uniform rows. */
  lemma {:induction false} ChunksOfFlatten<T>(rs: seq<seq<T>>, w: nat)
    requires Uniform(rs, w)
    ensures |Flatten(rs)| == |rs| * w
    ensures Chunks(Flatten(rs), w, |rs|) == rs
  {
    FlattenLength(rs, w);
    if rs != [] {
      ChunksOfFlatten(rs[1..], w);
      var s := Flatten(rs);
      assert s[..w] == rs[0];
      assert s[w..] == Flatten(rs[1..]);
    }
  }

  /** The rows of a tensor along its leading axis, each flattened. */
  function Rows(t: Tensor): (rs: seq<seq<Atom>>)
    requires HasLeadingAxis(t)
    ensures |rs| == Lead(t) && Uniform(rs, Product(Inner(t)))
    ensures Flatten(rs) == t.flat
  {
    Chunks(t.flat, Product(t.shape[1..]), t.shape[0])
  }

  /** The dense tensor whose leading-axis rows are rs. */
  function FromRows(d: DType, inner: seq<nat>, rs: seq<seq<Atom>>): (t: Tensor)
    requires Uniform(rs, Product(inner))
    ensures HasLeadingAxis(t) && t.dtype == d
    ensures Lead(t) == |rs| && Inner(t) == inner
  {
    var shape := [|rs|] + inner;
    assert shape[1..] == inner;
    FlattenLength(rs, Product(inner));
    Dense(d, shape, Flatten(rs))
  }

  lemma RowsOfFromRows(d: DType, inner: seq<nat>, rs: seq<seq<Atom>>)
    requires Uniform(rs, Product(inner))
    ensures Rows(FromRows(d, inner, rs)) == rs
  {
    ChunksOfFlatten(rs, Product(inner));
  }

  lemma FromRowsOfRows(t: Tensor)
    requires HasLeadingAxis(t)
    ensures FromRows(t.dtype, Inner(t), Rows(t)) == t
  {
    assert [t.shape[0]] + t.shape[1..] == t.shape;
  }

  /** k rows of the dtype's empty element. */
  function ZeroRows(d: DType, w: nat, k: nat): (rs: seq<seq<Atom>>)
    ensures |rs| == k && Uniform(rs, w)
    ensures forall i, j :: 0 <= i < k && 0 <= j < w ==> rs[i][j] == Zero(d)
  {
    seq(k, _ => seq(w, _ => Zero(d)))
  }

  /** Every element of the rows is the dtype's empty element. */
  predicate AllZero(d: DType, rs: seq<seq<Atom>>) {
    forall i, j :: 0 <= i < |rs| && 0 <= j < |rs[i]| ==> rs[i][j] == Zero(d)
  }
}
