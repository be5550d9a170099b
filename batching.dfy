/** The batch assembler batch(global_batch_size, is_training, pad_example_fn,
    repeat): records are stacked into batches of exactly global_batch_size;
    in training the short remainder of each pass is dropped and passes repeat
    forever, in evaluation it is filled with pad examples and there is one
    pass; an explicit repeat count fixes the number of passes either way. */
module Batching {
  import opened Tensors
  import opened Records

  // ---------------------------------------------------------------------
  // Records of a dataset and the pad example
  // ---------------------------------------------------------------------

  /** Every field is a dense tensor of the declared dtype and shape. */
  predicate Conforms(rec: Record, spec: Signature) {
    rec.Keys == spec.Keys &&
    forall k :: k in spec ==> rec[k].Dense? && rec[k].dtype == spec[k].dtype && rec[k].shape == spec[k].shape
  }

  predicate AllConform(recs: seq<Record>, spec: Signature) {
    forall i :: 0 <= i < |recs| ==> Conforms(recs[i], spec)
  }

  function ZeroTensor(f: FieldSpec): (t: Tensor)
    ensures t.Dense? && t.dtype == f.dtype && t.shape == f.shape
    ensures forall j :: 0 <= j < |t.flat| ==> t.flat[j] == Zero(f.dtype)
  {
    Dense(f.dtype, f.shape, seq(Product(f.shape), _ => Zero(f.dtype)))
  }

  /** default_pad_example_fn: a record of the dataset's element spec whose
      every element is empty: 0, False or the empty string. */
  function DefaultPadExample(spec: Signature): (pad: Record)
    ensures Conforms(pad, spec)
    ensures forall k, j :: k in spec && 0 <= j < |pad[k].flat| ==> pad[k].flat[j] == Zero(spec[k].dtype)
  {
    map k | k in spec :: ZeroTensor(spec[k])
  }

  /** m copies of the pad example. */
  function Pads<T>(pad: T, m: nat): (ps: seq<T>)
    ensures |ps| == m && forall i :: 0 <= i < m ==> ps[i] == pad
  {
    seq(m, _ => pad)
  }

  // ---------------------------------------------------------------------
  // Stacking a group into a batch
  // ---------------------------------------------------------------------

  /** Field k of a record as one row of its batch. A record that does not
      conform to the spec contributes a row of zeros; a conforming dataset
      never has one. */
  function FieldRow(rec: Record, f: FieldSpec, k: string): (row: seq<Atom>)
    ensures |row| == Product(f.shape)
  {
    if k in rec && rec[k].Dense? && rec[k].shape == f.shape then rec[k].flat
    else seq(Product(f.shape), _ => Zero(f.dtype))
  }

  /** Field k of every record of the group, one row per record. */
  function Column(g: seq<Record>, f: FieldSpec, k: string): (rs: seq<seq<Atom>>)
    ensures |rs| == |g| && Uniform(rs, Product(f.shape))
    ensures forall i :: 0 <= i < |g| ==> rs[i] == FieldRow(g[i], f, k)
  {
    seq(|g|, i requires 0 <= i < |g| => FieldRow(g[i], f, k))
  }

  /** A batch of n records of the spec: each field gains a leading axis of length n. */
  predicate IsBatch(b: Record, spec: Signature, n: nat) {
    b.Keys == spec.Keys &&
    forall k :: k in spec ==>
      HasLeadingAxis(b[k]) && b[k].dtype == spec[k].dtype && Inner(b[k]) == spec[k].shape && Lead(b[k]) == n
  }

  /** The batch of a group: field k stacks the group's field k along a new leading axis. */
  function Stack(g: seq<Record>, spec: Signature): Record {
    map k | k in spec :: FromRows(spec[k].dtype, spec[k].shape, Column(g, spec[k], k))
  }

  /** Stacking n records gives a batch of n: every field of the spec gains
      a leading axis of length n over the field's declared shape. */
  lemma StackShape(g: seq<Record>, spec: Signature)
    ensures IsBatch(Stack(g, spec), spec, |g|)
  {
  }

  /** Row i of a batch, as a record of the spec. */
  function Unstack(b: Record, spec: Signature, n: nat, i: nat): (rec: Record)
    requires IsBatch(b, spec, n) && i < n
    ensures Conforms(rec, spec)
  {
    map k | k in spec :: Dense(spec[k].dtype, spec[k].shape, Rows(b[k])[i])
  }

  /** Row i of field k of a stacked batch is field k of record i. */
  lemma StackRow(g: seq<Record>, spec: Signature, i: nat, k: string)
    requires AllConform(g, spec) && i < |g| && k in spec
    ensures IsBatch(Stack(g, spec), spec, |g|)
    ensures Rows(Stack(g, spec)[k])[i] == g[i][k].flat
  {
    StackShape(g, spec);
    var col := Column(g, spec[k], k);
    RowsOfFromRows(spec[k].dtype, spec[k].shape, col);
    assert Conforms(g[i], spec);
  }

  /** Stacking loses nothing: row i of the batch is the group's record i. */
  lemma UnstackStack(g: seq<Record>, spec: Signature, i: nat)
    requires AllConform(g, spec) && i < |g|
    ensures IsBatch(Stack(g, spec), spec, |g|)
    ensures Unstack(Stack(g, spec), spec, |g|, i) == g[i]
  {
    StackShape(g, spec);
    var u := Unstack(Stack(g, spec), spec, |g|, i);
    assert Conforms(g[i], spec);
    forall k | k in spec ensures u[k] == g[i][k] {
      StackRow(g, spec, i, k);
    }
    assert u.Keys == g[i].Keys;
  }

  /** f applied to every element, in order. */
  function MapSeq<A, B>(xs: seq<A>, f: A -> B): (ys: seq<B>)
    ensures |ys| == |xs|
  {
    if xs == [] then [] else MapSeq(xs[..|xs| - 1], f) + [f(xs[|xs| - 1])]
  }

  lemma {:induction false} MapSeqAt<A, B>(xs: seq<A>, f: A -> B, j: nat)
    requires j < |xs|
    ensures MapSeq(xs, f)[j] == f(xs[j])
  {
    var init := xs[..|xs| - 1];
    if j < |init| {
      MapSeqAt(init, f, j);
    }
  }

  lemma MapSeqSnoc<A, B>(xs: seq<A>, x: A, f: A -> B)
    ensures MapSeq(xs + [x], f) == MapSeq(xs, f) + [f(x)]
  {
    assert (xs + [x])[..|xs|] == xs;
  }

  function Stacker(spec: Signature): seq<Record> -> Record {
    g => Stack(g, spec)
  }

  /** The batches of a sequence of groups, one per group. */
  function StackAll(gs: seq<seq<Record>>, spec: Signature): (out: seq<Record>)
    ensures |out| == |gs|
  {
    MapSeq(gs, Stacker(spec))
  }

  lemma StackAllAt(gs: seq<seq<Record>>, spec: Signature, j: nat)
    requires j < |gs|
    ensures StackAll(gs, spec)[j] == Stack(gs[j], spec)
  {
    MapSeqAt(gs, Stacker(spec), j);
  }

  lemma StackAllSnoc(gs: seq<seq<Record>>, g: seq<Record>, spec: Signature)
    ensures StackAll(gs + [g], spec) == StackAll(gs, spec) + [Stack(g, spec)]
  {
    MapSeqSnoc(gs, g, Stacker(spec));
  }

  // ---------------------------------------------------------------------
  // One pass
  // ---------------------------------------------------------------------

  /** The groups of one pass over xs: consecutive runs of bs elements; a
      short last run is dropped in training and filled with the pad example
      in evaluation. */
  function Groups<T>(xs: seq<T>, bs: nat, isTraining: bool, pad: T): (gs: seq<seq<T>>)
    requires bs > 0
    decreases |xs|
  {
    if |xs| >= bs then [xs[..bs]] + Groups(xs[bs..], bs, isTraining, pad)
    else if isTraining || xs == [] then []
    else [xs + Pads(pad, bs - |xs|)]
  }

  /** The batches of one pass over recs. */
  function EpochBatches(recs: seq<Record>, spec: Signature, bs: nat, isTraining: bool): (out: seq<Record>)
    requires bs > 0
  {
    StackAll(Groups(recs, bs, isTraining, DefaultPadExample(spec)), spec)
  }

  lemma MulSucc(m: nat, b: nat)
    ensures (m + 1) * b == m * b + b
  {
  }

  /** A pass yields floor(|xs| / bs) groups in training and ceil(|xs| / bs)
      in evaluation. */
  lemma {:induction false} GroupsCount<T>(xs: seq<T>, bs: nat, isTraining: bool, pad: T)
    requires bs > 0
    ensures var n := |Groups(xs, bs, isTraining, pad)|;
      if isTraining then n * bs <= |xs| < n * bs + bs
      else n * bs - bs < |xs| <= n * bs
    decreases |xs|
  {
    if |xs| >= bs {
      GroupsCount(xs[bs..], bs, isTraining, pad);
      MulSucc(|Groups(xs[bs..], bs, isTraining, pad)|, bs);
    }
  }

  /** j * bs, counted out group by group. */
  function Base(j: nat, bs: nat): nat {
    if j == 0 then 0 else Base(j - 1, bs) + bs
  }

  lemma {:induction false} BaseIsProduct(j: nat, bs: nat)
    ensures Base(j, bs) == j * bs
  {
    if j > 0 {
      BaseIsProduct(j - 1, bs);
      MulSucc(j - 1, bs);
    }
  }

  /** Element i of group j, with the group's offset counted out by Base. */
  lemma {:induction false} GroupAt<T>(xs: seq<T>, bs: nat, isTraining: bool, pad: T, j: nat, i: nat)
    requires bs > 0 && j < |Groups(xs, bs, isTraining, pad)| && i < bs
    ensures var g := Groups(xs, bs, isTraining, pad)[j];
      |g| == bs &&
      (Base(j, bs) + i < |xs| ==> g[i] == xs[Base(j, bs) + i]) &&
      (Base(j, bs) + i >= |xs| ==> !isTraining && g[i] == pad)
    decreases |xs|
  {
    if |xs| >= bs && j > 0 {
      GroupAt(xs[bs..], bs, isTraining, pad, j - 1, i);
    }
  }

  /** Every group has bs elements; element i of group j is element
      j * bs + i of the pass, or the pad example past its end, which only
      evaluation has. */
  lemma GroupsContent<T>(xs: seq<T>, bs: nat, isTraining: bool, pad: T, j: nat, i: nat)
    requires bs > 0 && j < |Groups(xs, bs, isTraining, pad)| && i < bs
    ensures var g := Groups(xs, bs, isTraining, pad)[j];
      |g| == bs &&
      (j * bs + i < |xs| ==> g[i] == xs[j * bs + i]) &&
      (j * bs + i >= |xs| ==> !isTraining && g[i] == pad)
  {
    BaseIsProduct(j, bs);
    GroupAt(xs, bs, isTraining, pad, j, i);
  }

  /** Groups of a conforming pass conform, pads included. */
  lemma GroupConforms(recs: seq<Record>, spec: Signature, bs: nat, isTraining: bool, j: nat)
    requires bs > 0 && AllConform(recs, spec)
    requires j < |Groups(recs, bs, isTraining, DefaultPadExample(spec))|
    ensures var g := Groups(recs, bs, isTraining, DefaultPadExample(spec))[j];
      |g| == bs && AllConform(g, spec)
  {
    var g := Groups(recs, bs, isTraining, DefaultPadExample(spec))[j];
    GroupAt(recs, bs, isTraining, DefaultPadExample(spec), j, 0);
    forall i | 0 <= i < bs ensures Conforms(g[i], spec) {
      GroupAt(recs, bs, isTraining, DefaultPadExample(spec), j, i);
    }
  }

  /** A pass yields floor(|recs| / bs) batches in training and
      ceil(|recs| / bs) in evaluation. */
  lemma EpochCount(recs: seq<Record>, spec: Signature, bs: nat, isTraining: bool)
    requires bs > 0
    ensures var n := |EpochBatches(recs, spec, bs, isTraining)|;
      if isTraining then n * bs <= |recs| < n * bs + bs
      else n * bs - bs < |recs| <= n * bs
  {
    GroupsCount(recs, bs, isTraining, DefaultPadExample(spec));
  }

  /** Every batch of a pass stacks bs records of the spec. */
  lemma EpochShape(recs: seq<Record>, spec: Signature, bs: nat, isTraining: bool, j: nat)
    requires bs > 0 && j < |EpochBatches(recs, spec, bs, isTraining)|
    ensures IsBatch(EpochBatches(recs, spec, bs, isTraining)[j], spec, bs)
  {
    var gs := Groups(recs, bs, isTraining, DefaultPadExample(spec));
    StackAllAt(gs, spec, j);
    StackShape(gs[j], spec);
    GroupAt(recs, bs, isTraining, DefaultPadExample(spec), j, 0);
  }

  /** Row i of batch j is record j * bs + i of the pass, or the pad example
      past the end (only in evaluation, since training drops the remainder). */
  lemma EpochContent(recs: seq<Record>, spec: Signature, bs: nat, isTraining: bool, j: nat, i: nat)
    requires bs > 0 && AllConform(recs, spec)
    requires j < |EpochBatches(recs, spec, bs, isTraining)| && i < bs
    ensures IsBatch(EpochBatches(recs, spec, bs, isTraining)[j], spec, bs)
    ensures var b := EpochBatches(recs, spec, bs, isTraining)[j];
      (j * bs + i < |recs| ==> Unstack(b, spec, bs, i) == recs[j * bs + i]) &&
      (j * bs + i >= |recs| ==> !isTraining && Unstack(b, spec, bs, i) == DefaultPadExample(spec))
  {
    var gs := Groups(recs, bs, isTraining, DefaultPadExample(spec));
    StackAllAt(gs, spec, j);
    GroupConforms(recs, spec, bs, isTraining, j);
    GroupsContent(recs, bs, isTraining, DefaultPadExample(spec), j, i);
    UnstackStack(gs[j], spec, i);
  }

  // ---------------------------------------------------------------------
  // Repetition
  // ---------------------------------------------------------------------

  /** Number of passes: the explicit repeat count when given, otherwise
      unbounded (None) in training and one in evaluation. */
  function Passes(isTraining: bool, repeat: Option<nat>): Option<nat> {
    if repeat.Some? then repeat else if isTraining then None else Some(1)
  }

  /** The pass's batches, p times over. */
  function RepeatSeq(epoch: seq<Record>, p: nat): (out: seq<Record>)
    ensures |out| == p * |epoch|
  {
    if p == 0 then [] else epoch + RepeatSeq(epoch, p - 1)
  }

  /** Batch t of pass c of the repeated stream is batch t of the pass. */
  lemma {:induction false} RepeatSeqAt(epoch: seq<Record>, p: nat, c: nat, t: nat)
    requires c < p && t < |epoch|
    ensures c * |epoch| + t < p * |epoch|
    ensures RepeatSeq(epoch, p)[c * |epoch| + t] == epoch[t]
  {
    MulSucc(p - 1, |epoch|);
    if c > 0 {
      MulSucc(c - 1, |epoch|);
      RepeatSeqAt(epoch, p - 1, c - 1, t);
    }
  }

  /** The first m batches of the repeated stream cycle through the pass. */
  lemma RepeatCycles(epoch: seq<Record>, p: nat, m: nat)
    requires m <= p * |epoch|
    ensures forall j :: 0 <= j < m ==> RepeatSeq(epoch, p)[..m][j] == epoch[j % |epoch|]
  {
    forall j | 0 <= j < m ensures RepeatSeq(epoch, p)[..m][j] == epoch[j % |epoch|] {
      DivBound(j, p, |epoch|);
      RepeatSeqAt(epoch, p, j / |epoch|, j % |epoch|);
    }
  }

  /** j < p * n puts j in pass j / n, at position j % n. */
  lemma DivBound(j: nat, p: nat, n: nat)
    requires 0 < n && j < p * n
    ensures j / n < p && j == (j / n) * n + j % n && j % n < n
  {
    if j / n >= p {
      MulMono(j / n, p, n);
    }
  }

  lemma MulMono(a: nat, b: nat, n: nat)
    requires a >= b
    ensures a * n >= b * n
  {
  }

  /** batch(...) observed for its first `limit` batches: the batches of
      one pass, repeated for the number of passes; a non-positive batch size
      is rejected. */
  function Batched(recs: seq<Record>, spec: Signature, bs: nat, isTraining: bool, repeat: Option<nat>, limit: nat)
    : (r: Result<seq<Record>>)
    ensures r.Ok? <==> bs > 0
    ensures r.Err? ==> r.error == InvalidArgument
  {
    if bs == 0 then Err(InvalidArgument)
    else
      var epoch := EpochBatches(recs, spec, bs, isTraining);
      var passes := Passes(isTraining, repeat);
      var all := RepeatSeq(epoch, if passes.Some? then passes.value else limit);
      Ok(all[..Min(limit, |all|)])
  }

  /** The stream cycles through the pass: batch j is batch j mod |pass|;
      without an explicit repeat count, training yields every batch asked
      for (given a non-empty pass) and evaluation yields exactly one pass;
      with a count of p passes, at most p passes. */
  lemma BatchedStream(recs: seq<Record>, spec: Signature, bs: nat, isTraining: bool, repeat: Option<nat>, limit: nat)
    requires bs > 0
    ensures var epoch := EpochBatches(recs, spec, bs, isTraining);
      var out := Batched(recs, spec, bs, isTraining, repeat, limit).value;
      (forall j :: 0 <= j < |out| ==> out[j] == epoch[j % |epoch|]) &&
      (repeat.None? && isTraining ==> |out| == if epoch == [] then 0 else limit) &&
      (repeat.None? && !isTraining ==> |out| == Min(limit, |epoch|)) &&
      (repeat.Some? ==> |out| == Min(limit, repeat.value * |epoch|))
  {
    var epoch := EpochBatches(recs, spec, bs, isTraining);
    var passes := Passes(isTraining, repeat);
    var p := if passes.Some? then passes.value else limit;
    var all := RepeatSeq(epoch, p);
    var out := Batched(recs, spec, bs, isTraining, repeat, limit).value;
    assert out == all[..Min(limit, |all|)];
    RepeatCycles(epoch, p, Min(limit, |all|));
    if repeat.None? && isTraining && epoch != [] {
      MulMono(|epoch|, 1, limit);
    }
  }

  /** Every batch of the stream stacks bs records of the spec. */
  lemma BatchedShape(recs: seq<Record>, spec: Signature, bs: nat, isTraining: bool, repeat: Option<nat>, limit: nat, j: nat)
    requires Batched(recs, spec, bs, isTraining, repeat, limit).Ok?
    requires j < |Batched(recs, spec, bs, isTraining, repeat, limit).value|
    ensures IsBatch(Batched(recs, spec, bs, isTraining, repeat, limit).value[j], spec, bs)
  {
    var epoch := EpochBatches(recs, spec, bs, isTraining);
    BatchedStream(recs, spec, bs, isTraining, repeat, limit);
    EpochShape(recs, spec, bs, isTraining, j % |epoch|);
  }

  // ---------------------------------------------------------------------
  // The assembler as it runs
  // ---------------------------------------------------------------------

  /** One pass of the assembler: records are copied into a buffer of bs
      slots; a full buffer is stacked into a batch and emptied; at the end a
      partly filled buffer is dropped in training and topped up with pad
      examples in evaluation. */
  method BatchEpoch(recs: seq<Record>, spec: Signature, bs: nat, isTraining: bool) returns (out: seq<Record>)
    requires bs > 0
    ensures out == EpochBatches(recs, spec, bs, isTraining)
  {
    var pad := DefaultPadExample(spec);
    var buffer := new Record[bs](_ => pad);
    var n := 0;
    out := [];
    var i := 0;
    ghost var start := 0;
    ghost var groups: seq<seq<Record>> := [];
    assert recs[start..] == recs;
    while i < |recs|
      invariant 0 <= n < bs && start + n == i <= |recs|
      invariant buffer[..n] == recs[start..i]
      invariant groups + Groups(recs[start..], bs, isTraining, pad) == Groups(recs, bs, isTraining, pad)
      invariant out == StackAll(groups, spec)
    {
      buffer[n] := recs[i];
      n := n + 1;
      i := i + 1;
      assert buffer[..n] == recs[start..i];
      if n == bs {
        assert buffer[..] == recs[start..start + bs];
        CloseStep(recs, bs, isTraining, pad, start, groups);
        StackAllSnoc(groups, buffer[..], spec);
        out := out + [Stack(buffer[..], spec)];
        groups := groups + [buffer[..]];
        n := 0;
        start := i;
      }
    }
    FinishStep(recs, bs, isTraining, pad, start, groups);
    if !isTraining && n > 0 {
      ghost var last := recs[start..];
      assert buffer[..n] == last;
      PadBuffer(buffer, n, pad);
      assert bs - n == bs - (|recs| - start);
      ghost var g := buffer[..];
      assert g == last + Pads(pad, bs - (|recs| - start));
      assert groups + [g] == Groups(recs, bs, isTraining, pad);
      StackAllSnoc(groups, g, spec);
      out := out + [Stack(buffer[..], spec)];
      assert out == StackAll(groups + [g], spec);
    }
  }

  /** Fills slots n.. of the buffer with the pad example. */
  method PadBuffer<T>(buffer: array<T>, n: nat, pad: T)
    requires n <= buffer.Length
    modifies buffer
    ensures buffer[..] == old(buffer[..n]) + Pads(pad, buffer.Length - n)
  {
    var m := n;
    while m < buffer.Length
      invariant n <= m <= buffer.Length
      invariant buffer[..n] == old(buffer[..n])
      invariant forall t :: n <= t < m ==> buffer[t] == pad
    {
      buffer[m] := pad;
      m := m + 1;
    }
  }

  /** Closing a full run of elements start .. start + bs moves the rest of
      the pass past them. */
  lemma CloseStep<T>(xs: seq<T>, bs: nat, isTraining: bool, pad: T, start: nat, groups: seq<seq<T>>)
    requires bs > 0 && start + bs <= |xs|
    requires groups + Groups(xs[start..], bs, isTraining, pad) == Groups(xs, bs, isTraining, pad)
    ensures (groups + [xs[start..start + bs]]) + Groups(xs[start + bs..], bs, isTraining, pad)
         == Groups(xs, bs, isTraining, pad)
  {
    var rest := xs[start..];
    assert rest[..bs] == xs[start..start + bs] && rest[bs..] == xs[start + bs..];
    ConcatAssoc(groups, [rest[..bs]], Groups(rest[bs..], bs, isTraining, pad));
  }

  /** Fewer than bs elements left: the pass ends with them padded
      (evaluation) or dropped (training). */
  lemma FinishStep<T>(xs: seq<T>, bs: nat, isTraining: bool, pad: T, start: nat, groups: seq<seq<T>>)
    requires bs > 0 && start <= |xs| < start + bs
    requires groups + Groups(xs[start..], bs, isTraining, pad) == Groups(xs, bs, isTraining, pad)
    ensures if !isTraining && start < |xs|
      then groups + [xs[start..] + Pads(pad, bs - (|xs| - start))] == Groups(xs, bs, isTraining, pad)
      else groups == Groups(xs, bs, isTraining, pad)
  {
    if isTraining || start == |xs| {
      assert groups + [] == groups;
    }
  }

  /** batch(...) as it runs: one pass through the buffer, then the passes
      replayed and the first `limit` batches taken. */
  method Batch(recs: seq<Record>, spec: Signature, bs: nat, isTraining: bool, repeat: Option<nat>, limit: nat)
    returns (r: Result<seq<Record>>)
    ensures r == Batched(recs, spec, bs, isTraining, repeat, limit)
  {
    if bs == 0 {
      return Err(InvalidArgument);
    }
    var epoch := BatchEpoch(recs, spec, bs, isTraining);
    var passes := Passes(isTraining, repeat);
    var all := RepeatSeq(epoch, if passes.Some? then passes.value else limit);
    return Ok(all[..Min(limit, |all|)]);
  }
}
