/** Length reconciliation along the innermost axis: trim_and_pad_tensor and
    ragged_to_tensor. */
module Reshape {
  import opened Tensors
  import opened Records

  /** A tensor of rank at least one: a ragged tensor, or a dense one with a shape. */
  predicate HasInnerAxis(t: Tensor) {
    t.Ragged? || |t.shape| >= 1
  }

  /** Every dimension but the innermost. */
  function OuterDims(t: Tensor): seq<nat>
    requires HasInnerAxis(t)
  {
    if t.Ragged? then t.outer else t.shape[..|t.shape| - 1]
  }

  /** The innermost rows, in row-major order of the outer dimensions. */
  function InnerRows(t: Tensor): (rs: seq<seq<Atom>>)
    requires HasInnerAxis(t)
    ensures |rs| == Product(OuterDims(t))
    ensures t.Dense? ==> Uniform(rs, t.shape[|t.shape| - 1]) && Flatten(rs) == t.flat
  {
    if t.Ragged? then t.rows
    else
      var n := |t.shape| - 1;
      assert t.shape == t.shape[..n] + [t.shape[n]];
      ProductSnoc(t.shape[..n], t.shape[n]);
      Chunks(t.flat, t.shape[n], Product(t.shape[..n]))
  }

  /** The dense tensor of outer dimensions outer whose innermost rows, w long, are rs. */
  function FromInnerRows(d: DType, outer: seq<nat>, w: nat, rs: seq<seq<Atom>>): (t: Tensor)
    requires |rs| == Product(outer) && Uniform(rs, w)
    ensures t.Dense? && t.dtype == d && t.shape == outer + [w]
    ensures OuterDims(t) == outer && InnerRows(t) == rs
  {
    ProductSnoc(outer, w);
    ChunksOfFlatten(rs, w);
    var t: Tensor := Dense(d, outer + [w], Flatten(rs));
    assert t.shape[..|t.shape| - 1] == outer;
    t
  }

  /** One innermost row cut, or right-padded with pad, to exactly maxLen entries. */
  function PadRow(row: seq<Atom>, maxLen: nat, pad: Atom): (r: seq<Atom>)
    ensures |r| == maxLen
    ensures forall j :: 0 <= j < maxLen ==> r[j] == if j < |row| then row[j] else pad
  {
    if |row| >= maxLen then row[..maxLen] else row + seq(maxLen - |row|, _ => pad)
  }

  function PadRows(rows: seq<seq<Atom>>, maxLen: nat, pad: Atom): (rs: seq<seq<Atom>>)
    ensures |rs| == |rows| && Uniform(rs, maxLen)
    ensures forall i :: 0 <= i < |rows| ==> rs[i] == PadRow(rows[i], maxLen, pad)
  {
    seq(|rows|, i requires 0 <= i < |rows| => PadRow(rows[i], maxLen, pad))
  }

  /** trim_and_pad_tensor(t, max_len, pad_id): every innermost row gets
      exactly max_len entries, its own first ones and then pad_id; the outer
      dimensions are kept. A rank-0 tensor, or one whose elements are not
      integers, cannot be padded with an integer id. */
  function TrimAndPadTensor(t: Tensor, maxLen: nat, padId: int): (r: Result<Tensor>)
    ensures r.Ok? <==> HasInnerAxis(t) && t.dtype == Int
    ensures r.Err? ==> r.error == InvalidArgument
    ensures r.Ok? ==> r.value.Dense? && r.value.dtype == Int
    ensures r.Ok? ==> r.value.shape == OuterDims(t) + [maxLen]
    ensures r.Ok? ==>
      |InnerRows(r.value)| == |InnerRows(t)| &&
      forall i, j :: 0 <= i < |InnerRows(t)| && 0 <= j < maxLen ==>
        InnerRows(r.value)[i][j] == if j < |InnerRows(t)[i]| then InnerRows(t)[i][j] else I(padId)
  {
    if !HasInnerAxis(t) || t.dtype != Int then Err(InvalidArgument)
    else
      var rows := InnerRows(t);
      Ok(FromInnerRows(Int, OuterDims(t), maxLen, PadRows(rows, maxLen, I(padId))))
  }

  /** Padding a row that already has maxLen entries changes nothing. */
  lemma PadRowFixed(row: seq<Atom>, maxLen: nat, pad: Atom)
    requires |row| == maxLen
    ensures PadRow(row, maxLen, pad) == row
  {
  }

  /** trim_and_pad_tensor is idempotent. */
  lemma TrimAndPadIdempotent(t: Tensor, maxLen: nat, padId: int)
    requires TrimAndPadTensor(t, maxLen, padId).Ok?
    ensures TrimAndPadTensor(TrimAndPadTensor(t, maxLen, padId).value, maxLen, padId)
         == TrimAndPadTensor(t, maxLen, padId)
  {
    var u := TrimAndPadTensor(t, maxLen, padId).value;
    var rows := InnerRows(u);
    forall i | 0 <= i < |rows| ensures PadRows(rows, maxLen, I(padId))[i] == rows[i] {
      PadRowFixed(rows[i], maxLen, I(padId));
    }
    assert PadRows(rows, maxLen, I(padId)) == rows;
    assert OuterDims(u) == OuterDims(t);
  }

  /** Zero-padding a row to any width and then trimming/padding with 0
      is the same as trimming/padding the row itself. */
  lemma PadRowAfterZeroPad(row: seq<Atom>, w: nat, maxLen: nat)
    requires |row| <= w
    ensures PadRow(PadRow(row, w, I(0)), maxLen, I(0)) == PadRow(row, maxLen, I(0))
  {
  }

  /** A ragged tensor and its dense form padded with zeros give the same
      result when the pad id is 0. */
  lemma RaggedAndDenseAgree(outer: seq<nat>, rows: seq<seq<Atom>>, w: nat, maxLen: nat)
    requires |rows| == Product(outer)
    requires forall i :: 0 <= i < |rows| ==> |rows[i]| <= w
    ensures TrimAndPadTensor(Ragged(Int, outer, rows), maxLen, 0)
         == TrimAndPadTensor(FromInnerRows(Int, outer, w, PadRows(rows, w, I(0))), maxLen, 0)
  {
    var dense := FromInnerRows(Int, outer, w, PadRows(rows, w, I(0)));
    var lhs := PadRows(rows, maxLen, I(0));
    var rhs := PadRows(PadRows(rows, w, I(0)), maxLen, I(0));
    forall i | 0 <= i < |rows| ensures lhs[i] == rhs[i] {
      PadRowAfterZeroPad(rows[i], w, maxLen);
    }
    assert lhs == rhs;
  }

  // ---------------------------------------------------------------------
  // ragged_to_tensor
  // ---------------------------------------------------------------------

  /** Length of the longest row (0 for no rows). */
  function MaxLen(rows: seq<seq<Atom>>): (m: nat)
    ensures forall i :: 0 <= i < |rows| ==> |rows[i]| <= m
    ensures rows != [] ==> exists i :: 0 <= i < |rows| && |rows[i]| == m
  {
    if rows == [] then 0
    else
      var rest := MaxLen(rows[1..]);
      assert forall i :: 1 <= i < |rows| ==> rows[i] == rows[1..][i - 1];
      if |rows[0]| >= rest then |rows[0]| else rest
  }

  /** RaggedTensor.to_tensor: the innermost rows right-padded with the
      dtype's zero to the declared bound, or to the longest row when the
      bound is not declared. */
  function ToDense(t: Tensor, bound: Option<nat>): (r: Tensor)
    requires t.Ragged?
    ensures r.Dense? && r.dtype == t.dtype
    ensures r.shape == t.outer + [if bound.Some? then bound.value else MaxLen(t.rows)]
    ensures InnerRows(r) == PadRows(t.rows, if bound.Some? then bound.value else MaxLen(t.rows), Zero(t.dtype))
  {
    var w := if bound.Some? then bound.value else MaxLen(t.rows);
    FromInnerRows(t.dtype, t.outer, w, PadRows(t.rows, w, Zero(t.dtype)))
  }

  /** With a declared bound, to_tensor is trim_and_pad_tensor with pad id 0. */
  lemma ToDenseIsTrimAndPad(t: Tensor, bound: nat)
    requires t.Ragged? && t.dtype == Int
    ensures TrimAndPadTensor(t, bound, 0) == Ok(ToDense(t, Some(bound)))
  {
  }

  /** Without a bound no row is cut: each row is its own entries followed by zeros. */
  lemma ToDenseKeepsRows(t: Tensor, i: nat)
    requires t.Ragged? && i < |t.rows|
    ensures InnerRows(ToDense(t, None))[i][..|t.rows[i]|] == t.rows[i]
  {
    var w := MaxLen(t.rows);
    assert |t.rows[i]| <= w;
  }

  /** ragged_to_tensor(feature_shapes): each named field that is ragged is
      made dense; named dense fields and unnamed fields pass through. */
  function RaggedToTensor(rec: Record, featureShapes: map<string, Option<nat>>): (r: Result<Record>)
    ensures r.Ok? <==> featureShapes.Keys <= rec.Keys
    ensures r.Err? ==> r.error == KeyError
    ensures r.Ok? ==> r.value.Keys == rec.Keys
    ensures r.Ok? ==> forall k :: k in rec && (k !in featureShapes || rec[k].Dense?) ==> r.value[k] == rec[k]
    ensures r.Ok? ==> forall k :: k in featureShapes && rec[k].Ragged? ==>
      r.value[k] == ToDense(rec[k], featureShapes[k])
    ensures r.Ok? ==> forall k :: k in featureShapes ==> r.value[k].Dense?
  {
    if !(featureShapes.Keys <= rec.Keys) then Err(KeyError)
    else
      var dense: Record := map k | k in rec ::
        if k in featureShapes && rec[k].Ragged? then ToDense(rec[k], featureShapes[k]) else rec[k];
      Ok(dense)
  }
}
