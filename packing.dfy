/** Batch-shape transforms along the leading axis: trim_to_batch,
    pad_to_batch and the greedy packer pack_to_batch. */
module Packing {
  import opened Tensors
  import opened Records

  // ---------------------------------------------------------------------
  // trim_to_batch
  // ---------------------------------------------------------------------

  /** Every field has a leading axis. */
  predicate AllLeading(rec: Record) {
    forall k :: k in rec ==> HasLeadingAxis(rec[k])
  }

  function TrimField(t: Tensor, bs: nat): (r: Tensor)
    requires HasLeadingAxis(t)
    ensures HasLeadingAxis(r) && r.dtype == t.dtype && Inner(r) == Inner(t)
    ensures Lead(r) == Min(Lead(t), bs)
    ensures Rows(r) == Rows(t)[..Min(Lead(t), bs)]
  {
    var rows := Rows(t)[..Min(Lead(t), bs)];
    RowsOfFromRows(t.dtype, Inner(t), rows);
    FromRows(t.dtype, Inner(t), rows)
  }

  /** trim_to_batch(batch_size): every field keeps its first batch_size
      entries; slicing a scalar field fails. */
  function TrimToBatch(rec: Record, bs: nat): (r: Result<Record>)
    ensures r.Ok? <==> AllLeading(rec)
    ensures r.Err? ==> r.error == InvalidArgument
    ensures r.Ok? ==> r.value.Keys == rec.Keys && AllLeading(r.value)
    ensures r.Ok? ==> forall k :: k in rec ==>
      r.value[k].dtype == rec[k].dtype && Inner(r.value[k]) == Inner(rec[k]) &&
      Lead(r.value[k]) == Min(Lead(rec[k]), bs) &&
      Rows(r.value[k]) == Rows(rec[k])[..Lead(r.value[k])]
  {
    if !AllLeading(rec) then Err(InvalidArgument)
    else
      var trimmed: Record := map k | k in rec :: TrimField(rec[k], bs);
      Ok(trimmed)
  }

  /** Trimming a field no longer than bs changes nothing. */
  lemma TrimFieldShort(t: Tensor, bs: nat)
    requires HasLeadingAxis(t) && Lead(t) <= bs
    ensures TrimField(t, bs) == t
  {
    assert Rows(t)[..Lead(t)] == Rows(t);
    FromRowsOfRows(t);
  }

  /** A record already no longer than batch_size passes through trim_to_batch unchanged. */
  lemma TrimShortIsIdentity(rec: Record, bs: nat)
    requires AllLeading(rec)
    requires forall k :: k in rec ==> Lead(rec[k]) <= bs
    ensures TrimToBatch(rec, bs) == Ok(rec)
  {
    var trimmed: Record := map k | k in rec :: TrimField(rec[k], bs);
    forall k | k in rec ensures trimmed[k] == rec[k] {
      TrimFieldShort(rec[k], bs);
    }
    assert trimmed == rec;
  }

  // ---------------------------------------------------------------------
  // pad_to_batch
  // ---------------------------------------------------------------------

  function PadField(t: Tensor, bs: nat): (r: Tensor)
    requires HasLeadingAxis(t) && Lead(t) <= bs
    ensures HasLeadingAxis(r) && r.dtype == t.dtype && Inner(r) == Inner(t) && Lead(r) == bs
    ensures Rows(r)[..Lead(t)] == Rows(t)
    ensures AllZero(t.dtype, Rows(r)[Lead(t)..])
  {
    var rows := Rows(t) + ZeroRows(t.dtype, Product(Inner(t)), bs - Lead(t));
    RowsOfFromRows(t.dtype, Inner(t), rows);
    assert rows[..Lead(t)] == Rows(t);
    FromRows(t.dtype, Inner(t), rows)
  }

  /** pad_to_batch(batch_size) on one record: each field is its own entries
      followed by zero entries up to batch_size; a scalar field, or one
      already longer than batch_size, cannot be padded. */
  function PadToBatch(rec: Record, bs: nat): (r: Result<Record>)
    ensures r.Ok? <==> AllLeading(rec) && forall k :: k in rec ==> Lead(rec[k]) <= bs
    ensures r.Err? ==> r.error == InvalidArgument
    ensures r.Ok? ==> r.value.Keys == rec.Keys && AllLeading(r.value)
    ensures r.Ok? ==> forall k :: k in rec ==>
      r.value[k].dtype == rec[k].dtype && Inner(r.value[k]) == Inner(rec[k]) &&
      Lead(r.value[k]) == bs &&
      Rows(r.value[k])[..Lead(rec[k])] == Rows(rec[k]) &&
      AllZero(rec[k].dtype, Rows(r.value[k])[Lead(rec[k])..])
  {
    if !(AllLeading(rec) && forall k :: k in rec ==> Lead(rec[k]) <= bs) then Err(InvalidArgument)
    else
      var padded: Record := map k | k in rec :: PadField(rec[k], bs);
      Ok(padded)
  }

  /** Trimming a padded record back to each field's old length gives the record back. */
  lemma PadThenTrimRestores(rec: Record, bs: nat, k: string)
    requires PadToBatch(rec, bs).Ok? && k in rec
    ensures TrimField(PadToBatch(rec, bs).value[k], Lead(rec[k])) == rec[k]
  {
    var p := PadToBatch(rec, bs).value[k];
    assert Rows(TrimField(p, Lead(rec[k]))) == Rows(rec[k]);
    FromRowsOfRows(rec[k]);
    FromRowsOfRows(TrimField(p, Lead(rec[k])));
  }

  // ---------------------------------------------------------------------
  // pack_to_batch: the greedy grouping
  // ---------------------------------------------------------------------

  /** The signature the packer keeps: per field, the dtype and the shape of
      one entry along the leading axis. */
  function SigOf(rec: Record): (sig: Signature)
    ensures sig.Keys <= rec.Keys
    ensures forall k :: k in sig <==> k in rec && HasLeadingAxis(rec[k])
  {
    map k | k in rec && HasLeadingAxis(rec[k]) :: FieldSpec(rec[k].dtype, Inner(rec[k]))
  }

  /** Same fields as sig, each with a leading axis, sig's dtype and sig's entry shape. */
  predicate SameSignature(rec: Record, sig: Signature) {
    rec.Keys == sig.Keys &&
    forall k :: k in sig ==>
      HasLeadingAxis(rec[k]) && rec[k].dtype == sig[k].dtype && Inner(rec[k]) == sig[k].shape
  }

  predicate AllSignature(g: seq<Record>, sig: Signature) {
    forall i :: 0 <= i < |g| ==> SameSignature(g[i], sig)
  }

  /** A record the packer can place: it has the signature and no field is longer than bs. */
  predicate Placeable(rec: Record, sig: Signature, bs: nat) {
    SameSignature(rec, sig) && forall k :: k in sig ==> Lead(rec[k]) <= bs
  }

  predicate AllPlaceable(recs: seq<Record>, sig: Signature, bs: nat) {
    forall i :: 0 <= i < |recs| ==> Placeable(recs[i], sig, bs)
  }

  /** The input pack_to_batch accepts: every field of every record has a
      leading axis, the records share the first one's signature, and none
      is longer than bs. */
  predicate Packable(recs: seq<Record>, bs: nat) {
    recs == [] || AllPlaceable(recs, SigOf(recs[0]), bs)
  }

  /** The rows field k of a record contributes: none when the field is
      missing or has no leading axis. */
  function FieldRows(rec: Record, k: string): (rs: seq<seq<Atom>>)
    ensures k in rec && HasLeadingAxis(rec[k]) ==> rs == Rows(rec[k])
  {
    if k in rec && HasLeadingAxis(rec[k]) then Rows(rec[k]) else []
  }

  /** The rows of field k of a group of records, one record after another. */
  function GroupRows(g: seq<Record>, k: string): seq<seq<Atom>> {
    if g == [] then [] else GroupRows(g[..|g| - 1], k) + FieldRows(g[|g| - 1], k)
  }

  lemma GroupRowsSnoc(g: seq<Record>, rec: Record, k: string)
    ensures GroupRows(g + [rec], k) == GroupRows(g, k) + FieldRows(rec, k)
  {
    assert (g + [rec])[..|g|] == g;
  }

  /** Every row of a group's field has the signature's entry size. */
  lemma {:induction false} GroupRowsUniform(g: seq<Record>, sig: Signature, k: string)
    requires AllSignature(g, sig) && k in sig
    ensures Uniform(GroupRows(g, k), Product(sig[k].shape))
  {
    if g != [] {
      GroupRowsUniform(g[..|g| - 1], sig, k);
    }
  }

  /** No field of the group holds more than bs rows. */
  predicate GroupFits(g: seq<Record>, sig: Signature, bs: nat) {
    forall k :: k in sig ==> |GroupRows(g, k)| <= bs
  }

  /** The packer's open buffers while it holds group g: per field of sig,
      the rows taken so far. */
  function Buffers(g: seq<Record>, sig: Signature): (buffer: map<string, seq<seq<Atom>>>)
    ensures buffer.Keys == sig.Keys
  {
    map k | k in sig :: GroupRows(g, k)
  }

  /** Appending a record's rows to the open buffers. */
  function Push(buffer: map<string, seq<seq<Atom>>>, rec: Record): map<string, seq<seq<Atom>>> {
    map k | k in buffer :: buffer[k] + FieldRows(rec, k)
  }

  lemma BuffersSnoc(g: seq<Record>, rec: Record, sig: Signature)
    ensures Buffers(g + [rec], sig) == Push(Buffers(g, sig), rec)
  {
    forall k | k in sig ensures Buffers(g + [rec], sig)[k] == Push(Buffers(g, sig), rec)[k] {
      GroupRowsSnoc(g, rec, k);
    }
  }

  /** The buffers have room for rec: in every field, the rows held plus rec's rows are at most bs. */
  predicate Room(buffer: map<string, seq<seq<Atom>>>, rec: Record, bs: nat) {
    forall k :: k in buffer ==> |buffer[k]| + |FieldRows(rec, k)| <= bs
  }

  /** rec can join group g: in every field, what g holds plus rec's rows is at most bs. */
  predicate Fits(g: seq<Record>, rec: Record, sig: Signature, bs: nat) {
    forall k :: k in sig ==> |GroupRows(g, k)| + |FieldRows(rec, k)| <= bs
  }

  /** The packer's test on its buffers is the grouping's test on the open group. */
  lemma RoomIsFits(g: seq<Record>, rec: Record, sig: Signature, bs: nat)
    ensures Room(Buffers(g, sig), rec, bs) <==> Fits(g, rec, sig, bs)
  {
  }

  /** The greedy grouping: the open group cur takes each record that fits;
      one that does not fit in some field closes cur and opens the next group. */
  function GroupsFrom(recs: seq<Record>, cur: seq<Record>, sig: Signature, bs: nat): seq<seq<Record>>
    decreases |recs|
  {
    if recs == [] then (if cur == [] then [] else [cur])
    else if Fits(cur, recs[0], sig, bs) then GroupsFrom(recs[1..], cur + [recs[0]], sig, bs)
    else [cur] + GroupsFrom(recs[1..], [recs[0]], sig, bs)
  }

  /** A group that is well formed: non-empty, of the signature, within bs rows. */
  predicate WellFormed(g: seq<Record>, sig: Signature, bs: nat) {
    g != [] && AllSignature(g, sig) && GroupFits(g, sig, bs)
  }

  predicate AllWellFormed(gs: seq<seq<Record>>, sig: Signature, bs: nat) {
    gs == [] || (WellFormed(gs[0], sig, bs) && AllWellFormed(gs[1..], sig, bs))
  }

  lemma TailPlaceable(recs: seq<Record>, sig: Signature, bs: nat)
    requires recs != [] && AllPlaceable(recs, sig, bs)
    ensures Placeable(recs[0], sig, bs) && AllPlaceable(recs[1..], sig, bs)
  {
    forall i | 0 <= i < |recs| - 1 ensures Placeable(recs[1..][i], sig, bs) {
      assert recs[1..][i] == recs[i + 1];
    }
  }

  /** Taking a record that fits keeps the open group well formed. */
  lemma JoinKeepsFit(cur: seq<Record>, rec: Record, sig: Signature, bs: nat)
    requires AllSignature(cur, sig) && Placeable(rec, sig, bs) && Fits(cur, rec, sig, bs)
    ensures WellFormed(cur + [rec], sig, bs)
  {
    forall k | k in sig ensures |GroupRows(cur + [rec], k)| <= bs {
      GroupRowsSnoc(cur, rec, k);
    }
  }

  /** One step of the grouping: the next record joins the open group when
      it fits and otherwise closes it. */
  lemma StepGroups(recs: seq<Record>, i: nat, cur: seq<Record>, sig: Signature, bs: nat)
    requires i < |recs|
    ensures GroupsFrom(recs[i..], cur, sig, bs) ==
      if Fits(cur, recs[i], sig, bs) then GroupsFrom(recs[i + 1..], cur + [recs[i]], sig, bs)
      else [cur] + GroupsFrom(recs[i + 1..], [recs[i]], sig, bs)
  {
    assert recs[i..][0] == recs[i] && recs[i..][1..] == recs[i + 1..];
  }

  /** An empty open group has room for any placeable record. */
  lemma EmptyFits(rec: Record, sig: Signature, bs: nat)
    requires Placeable(rec, sig, bs)
    ensures Fits([], rec, sig, bs)
  {
  }

  /** A placeable record alone is a well-formed group. */
  lemma SingleFits(rec: Record, sig: Signature, bs: nat)
    requires Placeable(rec, sig, bs)
    ensures WellFormed([rec], sig, bs)
  {
    forall k | k in sig ensures |GroupRows([rec], k)| <= bs {
      GroupRowsSnoc([], rec, k);
    }
  }

  /** Every group the packer closes is well formed. */
  lemma {:induction false} GroupsWellFormed(recs: seq<Record>, cur: seq<Record>, sig: Signature, bs: nat)
    requires AllPlaceable(recs, sig, bs) && AllSignature(cur, sig) && GroupFits(cur, sig, bs)
    ensures AllWellFormed(GroupsFrom(recs, cur, sig, bs), sig, bs)
    decreases |recs|
  {
    if recs == [] {
      if cur != [] {
        assert [cur][1..] == [];
      }
    } else {
      var rec := recs[0];
      TailPlaceable(recs, sig, bs);
      if Fits(cur, rec, sig, bs) {
        JoinKeepsFit(cur, rec, sig, bs);
        GroupsWellFormed(recs[1..], cur + [rec], sig, bs);
      } else {
        EmptyFits(rec, sig, bs);
        SingleFits(rec, sig, bs);
        GroupsWellFormed(recs[1..], [rec], sig, bs);
        var rest := GroupsFrom(recs[1..], [rec], sig, bs);
        assert ([cur] + rest)[1..] == rest;
      }
    }
  }

  /** The batch a closed group becomes: each field is the group's rows
      followed by zero rows up to bs. */
  function FillField(rows: seq<seq<Atom>>, f: FieldSpec, bs: nat): (t: Tensor)
    requires Uniform(rows, Product(f.shape)) && |rows| <= bs
    ensures HasLeadingAxis(t) && t.dtype == f.dtype && Inner(t) == f.shape && Lead(t) == bs
    ensures Rows(t)[..|rows|] == rows && AllZero(f.dtype, Rows(t)[|rows|..])
  {
    var all := rows + ZeroRows(f.dtype, Product(f.shape), bs - |rows|);
    RowsOfFromRows(f.dtype, f.shape, all);
    assert all[..|rows|] == rows;
    FromRows(f.dtype, f.shape, all)
  }

  /** Buffers the packer can flush: one per field of sig, each of rows of
      the field's entry size and at most bs of them. */
  predicate Flushable(buffer: map<string, seq<seq<Atom>>>, sig: Signature, bs: nat) {
    buffer.Keys == sig.Keys &&
    forall k :: k in sig ==> Uniform(buffer[k], Product(sig[k].shape)) && |buffer[k]| <= bs
  }

  /** The batch the buffers become when flushed. */
  function Flush(buffer: map<string, seq<seq<Atom>>>, sig: Signature, bs: nat): (b: Record)
    requires Flushable(buffer, sig, bs)
    ensures b.Keys == sig.Keys
  {
    map k | k in sig :: FillField(buffer[k], sig[k], bs)
  }

  lemma GroupFlushable(g: seq<Record>, sig: Signature, bs: nat)
    requires AllSignature(g, sig) && GroupFits(g, sig, bs)
    ensures Flushable(Buffers(g, sig), sig, bs)
  {
    forall k | k in sig ensures Uniform(GroupRows(g, k), Product(sig[k].shape)) {
      GroupRowsUniform(g, sig, k);
    }
  }

  /** The batch a closed group becomes. */
  function Fill(g: seq<Record>, sig: Signature, bs: nat): (b: Record)
    requires AllSignature(g, sig) && GroupFits(g, sig, bs)
    ensures b.Keys == sig.Keys
  {
    GroupFlushable(g, sig, bs);
    Flush(Buffers(g, sig), sig, bs)
  }

  /** Each field of a packed batch has the signature's dtype and entry shape
      and exactly bs rows: the group's rows, record after record, then zero rows. */
  lemma FillContent(g: seq<Record>, sig: Signature, bs: nat, k: string)
    requires AllSignature(g, sig) && GroupFits(g, sig, bs) && k in sig
    ensures var t := Fill(g, sig, bs)[k];
      HasLeadingAxis(t) && t.dtype == sig[k].dtype && Inner(t) == sig[k].shape && Lead(t) == bs &&
      Rows(t)[..|GroupRows(g, k)|] == GroupRows(g, k) &&
      AllZero(sig[k].dtype, Rows(t)[|GroupRows(g, k)|..])
  {
    GroupRowsUniform(g, sig, k);
  }

  function FillAll(gs: seq<seq<Record>>, sig: Signature, bs: nat): (out: seq<Record>)
    requires AllWellFormed(gs, sig, bs)
    ensures |out| == |gs|
  {
    if gs == [] then [] else [Fill(gs[0], sig, bs)] + FillAll(gs[1..], sig, bs)
  }

  /** The j-th packed batch is the j-th group, filled. */
  lemma {:induction false} FillAllAt(gs: seq<seq<Record>>, sig: Signature, bs: nat, j: nat)
    requires AllWellFormed(gs, sig, bs) && j < |gs|
    ensures WellFormed(gs[j], sig, bs) && FillAll(gs, sig, bs)[j] == Fill(gs[j], sig, bs)
  {
    if j > 0 {
      FillAllAt(gs[1..], sig, bs, j - 1);
    }
  }

  /** An accepted dataset packs into its groups, each filled. */
  lemma PackIsFillAll(recs: seq<Record>, bs: nat)
    requires recs != [] && Packable(recs, bs)
    ensures (GroupsWellFormed(recs, [], SigOf(recs[0]), bs);
      Pack(recs, bs) == Ok(FillAll(GroupsFrom(recs, [], SigOf(recs[0]), bs), SigOf(recs[0]), bs)))
  {
  }

  lemma {:induction false} FillAllSnoc(gs: seq<seq<Record>>, g: seq<Record>, sig: Signature, bs: nat)
    requires AllWellFormed(gs, sig, bs) && WellFormed(g, sig, bs)
    ensures AllWellFormed(gs + [g], sig, bs)
    ensures FillAll(gs + [g], sig, bs) == FillAll(gs, sig, bs) + [Fill(g, sig, bs)]
  {
    var gs' := gs + [g];
    if gs == [] {
      assert gs' == [g] && gs'[1..] == [];
    } else {
      assert gs'[0] == gs[0] && gs'[1..] == gs[1..] + [g];
      FillAllSnoc(gs[1..], g, sig, bs);
      ConcatAssoc([Fill(gs[0], sig, bs)], FillAll(gs[1..], sig, bs), [Fill(g, sig, bs)]);
    }
  }

  /** pack_to_batch(batch_size) over a whole (finite) dataset. */
  function Pack(recs: seq<Record>, bs: nat): (r: Result<seq<Record>>)
    ensures r.Ok? <==> Packable(recs, bs)
    ensures r.Err? ==> r.error == InvalidArgument
  {
    if recs == [] then Ok([])
    else if !Packable(recs, bs) then Err(InvalidArgument)
    else
      var sig := SigOf(recs[0]);
      GroupsWellFormed(recs, [], sig, bs);
      Ok(FillAll(GroupsFrom(recs, [], sig, bs), sig, bs))
  }

  // ---------------------------------------------------------------------
  // pack_to_batch: what the grouping guarantees
  // ---------------------------------------------------------------------

  /** Records are placed whole and in arrival order: the groups, read one
      after another, are the open group followed by the input. */
  lemma {:induction false} GroupsKeepOrder(recs: seq<Record>, cur: seq<Record>, sig: Signature, bs: nat)
    ensures Flatten(GroupsFrom(recs, cur, sig, bs)) == cur + recs
    decreases |recs|
  {
    if recs == [] {
      if cur != [] {
        assert Flatten([cur]) == cur + Flatten<Record>([]);
      }
    } else {
      var rec := recs[0];
      assert recs == [rec] + recs[1..];
      if Fits(cur, rec, sig, bs) {
        GroupsKeepOrder(recs[1..], cur + [rec], sig, bs);
        ConcatAssoc(cur, [rec], recs[1..]);
      } else {
        GroupsKeepOrder(recs[1..], [rec], sig, bs);
        var rest := GroupsFrom(recs[1..], [rec], sig, bs);
        assert GroupsFrom(recs, cur, sig, bs) == [cur] + rest;
        assert ([cur] + rest)[1..] == rest;
        assert Flatten([cur] + rest) == cur + Flatten(rest);
      }
    }
  }

  /** A non-empty open group is the start of the first group. */
  lemma {:induction false} FirstGroupStartsWith(recs: seq<Record>, cur: seq<Record>, sig: Signature, bs: nat)
    requires cur != []
    ensures |GroupsFrom(recs, cur, sig, bs)| > 0
    ensures GroupsFrom(recs, cur, sig, bs)[0] != []
    ensures GroupsFrom(recs, cur, sig, bs)[0][0] == cur[0]
    decreases |recs|
  {
    if recs != [] && Fits(cur, recs[0], sig, bs) {
      FirstGroupStartsWith(recs[1..], cur + [recs[0]], sig, bs);
    }
  }

  /** A batch is closed only when the next record does not fit: between two
      consecutive groups, the later one's first record overflows at least
      one field of the earlier one. */
  lemma {:induction false} GroupsAreGreedy(recs: seq<Record>, cur: seq<Record>, sig: Signature, bs: nat, j: nat)
    requires j + 1 < |GroupsFrom(recs, cur, sig, bs)|
    ensures var gs := GroupsFrom(recs, cur, sig, bs);
      gs[j + 1] != [] && !Fits(gs[j], gs[j + 1][0], sig, bs)
    decreases |recs|
  {
    var rec := recs[0];
    if Fits(cur, rec, sig, bs) {
      GroupsAreGreedy(recs[1..], cur + [rec], sig, bs, j);
    } else {
      FirstGroupStartsWith(recs[1..], [rec], sig, bs);
      if j > 0 {
        GroupsAreGreedy(recs[1..], [rec], sig, bs, j - 1);
      }
    }
  }

  /** Every packed batch has the first record's fields, each with its dtype
      and entry shape and exactly bs entries; each field holds its group's
      rows, record after record, then zero rows; and the groups, read one
      after another, are the input in order. */
  lemma PackContent(recs: seq<Record>, bs: nat, j: nat, k: string)
    requires recs != [] && Pack(recs, bs).Ok?
    requires j < |Pack(recs, bs).value|
    ensures var sig := SigOf(recs[0]);
      var gs := GroupsFrom(recs, [], sig, bs);
      var t := Pack(recs, bs).value[j];
      Flatten(gs) == recs &&
      j < |gs| && WellFormed(gs[j], sig, bs) &&
      t == Fill(gs[j], sig, bs) &&
      t.Keys == recs[0].Keys &&
      (k in recs[0] ==>
        HasLeadingAxis(t[k]) && t[k].dtype == recs[0][k].dtype && Inner(t[k]) == Inner(recs[0][k]) &&
        Lead(t[k]) == bs &&
        Rows(t[k])[..|GroupRows(gs[j], k)|] == GroupRows(gs[j], k) &&
        AllZero(recs[0][k].dtype, Rows(t[k])[|GroupRows(gs[j], k)|..]))
  {
    var sig := SigOf(recs[0]);
    var gs := GroupsFrom(recs, [], sig, bs);
    GroupsWellFormed(recs, [], sig, bs);
    GroupsKeepOrder(recs, [], sig, bs);
    FillAllAt(gs, sig, bs, j);
    assert [] + recs == recs;
    assert Placeable(recs[0], sig, bs);
    if k in recs[0] {
      FillContent(gs[j], sig, bs, k);
    }
  }

  /** A record of signature sig, once trimmed, is placeable under sig. */
  lemma TrimmedPlaceable(rec: Record, sig: Signature, bs: nat)
    requires SameSignature(rec, sig)
    ensures TrimToBatch(rec, bs).Ok? && Placeable(TrimToBatch(rec, bs).value, sig, bs)
  {
  }

  /** A record of signature sig has signature sig. */
  lemma SigOfSame(rec: Record, sig: Signature)
    requires SameSignature(rec, sig)
    ensures SigOf(rec) == sig
  {
  }

  /** Packing the output of trim_to_batch never fails on a dataset whose
      records share a signature. */
  lemma TrimThenPackAccepted(recs: seq<Record>, trimmed: seq<Record>, bs: nat)
    requires recs != [] && |trimmed| == |recs|
    requires forall i :: 0 <= i < |recs| ==> SameSignature(recs[i], SigOf(recs[0]))
    requires forall i :: 0 <= i < |recs| ==> TrimToBatch(recs[i], bs) == Ok(trimmed[i])
    ensures Pack(trimmed, bs).Ok?
  {
    var sig := SigOf(recs[0]);
    forall i | 0 <= i < |trimmed| ensures Placeable(trimmed[i], sig, bs) {
      TrimmedPlaceable(recs[i], sig, bs);
    }
    SigOfSame(trimmed[0], sig);
  }

  /** A single placeable record is packed into a batch of its own. */
  lemma PackSingle(t: Record, bs: nat)
    requires Placeable(t, SigOf(t), bs)
    ensures WellFormed([t], SigOf(t), bs)
    ensures Pack([t], bs) == Ok([Fill([t], SigOf(t), bs)])
  {
    var sig := SigOf(t);
    EmptyFits(t, sig, bs);
    SingleFits(t, sig, bs);
    var single: seq<Record> := [t];
    var none: seq<Record> := [];
    assert single[1..] == none && none + single == single;
    assert GroupsFrom(single, none, sig, bs) == GroupsFrom(none, single, sig, bs);
    assert GroupsFrom(single, none, sig, bs) == [single];
    assert Packable(single, bs);
    var packed := FillAll([single], sig, bs);
    assert packed[0] == Fill(single, sig, bs);
    assert packed == [Fill(single, sig, bs)];
  }

  /** Buffer rows already bs long are flushed without zero rows. */
  lemma FillFieldFull(rows: seq<seq<Atom>>, f: FieldSpec, bs: nat)
    requires Uniform(rows, Product(f.shape)) && |rows| == bs
    ensures FillField(rows, f, bs) == FromRows(f.dtype, f.shape, rows)
  {
    assert rows + ZeroRows(f.dtype, Product(f.shape), 0) == rows;
  }

  /** A record whose every field has exactly bs entries fills its batch by itself. */
  lemma FillFullSingle(t: Record, sig: Signature, bs: nat)
    requires Placeable(t, sig, bs)
    requires forall k :: k in t ==> Lead(t[k]) == bs
    ensures WellFormed([t], sig, bs) && Fill([t], sig, bs) == t
  {
    SingleFits(t, sig, bs);
    var b := Fill([t], sig, bs);
    forall k | k in t ensures b[k] == t[k] {
      GroupRowsSnoc([], t, k);
      assert [] + [t] == [t];
      assert GroupRows([t], k) == Rows(t[k]);
      assert Buffers([t], sig)[k] == Rows(t[k]);
      assert b[k] == FillField(Rows(t[k]), sig[k], bs);
      FillFieldFull(Rows(t[k]), sig[k], bs);
      FromRowsOfRows(t[k]);
      assert t[k].dtype == sig[k].dtype && Inner(t[k]) == sig[k].shape;
      assert b[k] == t[k];
    }
    assert b.Keys == t.Keys;
    assert b == t;
  }

  /** A record whose every field is at least bs long comes out of
      trim_to_batch then pack_to_batch as one batch: its first bs entries. */
  lemma TrimThenPackOne(rec: Record, bs: nat)
    requires AllLeading(rec)
    requires forall k :: k in rec ==> Lead(rec[k]) >= bs
    ensures TrimToBatch(rec, bs).Ok?
    ensures Pack([TrimToBatch(rec, bs).value], bs) == Ok([TrimToBatch(rec, bs).value])
  {
    var t := TrimToBatch(rec, bs).value;
    assert Placeable(t, SigOf(t), bs);
    PackSingle(t, bs);
    FillFullSingle(t, SigOf(t), bs);
  }

  // ---------------------------------------------------------------------
  // pack_to_batch: the buffer that runs it
  // ---------------------------------------------------------------------

  /** The packer takes a record that fits into its open buffers. */
  lemma JoinStep(recs: seq<Record>, i: nat, cur: seq<Record>, sig: Signature, bs: nat)
    requires i < |recs| && AllPlaceable(recs, sig, bs)
    requires AllSignature(cur, sig) && Fits(cur, recs[i], sig, bs)
    ensures WellFormed(cur + [recs[i]], sig, bs)
    ensures GroupsFrom(recs[i..], cur, sig, bs) == GroupsFrom(recs[i + 1..], cur + [recs[i]], sig, bs)
    ensures Buffers(cur + [recs[i]], sig) == Push(Buffers(cur, sig), recs[i])
  {
    StepGroups(recs, i, cur, sig, bs);
    JoinKeepsFit(cur, recs[i], sig, bs);
    BuffersSnoc(cur, recs[i], sig);
  }

  /** The packer closes its open group on a record that does not fit. */
  lemma CloseStep(recs: seq<Record>, i: nat, cur: seq<Record>, sig: Signature, bs: nat)
    requires i < |recs| && AllPlaceable(recs, sig, bs)
    requires AllSignature(cur, sig) && GroupFits(cur, sig, bs) && !Fits(cur, recs[i], sig, bs)
    ensures WellFormed(cur, sig, bs) && WellFormed([recs[i]], sig, bs)
    ensures Flushable(Buffers(cur, sig), sig, bs)
    ensures GroupsFrom(recs[i..], cur, sig, bs) == [cur] + GroupsFrom(recs[i + 1..], [recs[i]], sig, bs)
  {
    StepGroups(recs, i, cur, sig, bs);
    EmptyFits(recs[i], sig, bs);
    SingleFits(recs[i], sig, bs);
    GroupFlushable(cur, sig, bs);
  }

  /** pack_to_batch as it runs: one open buffer per field, filled record by
      record; a record that does not fit in some field flushes the buffer,
      zero-filled to bs rows, and starts a new one; the last buffer is
      flushed at the end. */
  method PackToBatch(recs: seq<Record>, bs: nat) returns (r: Result<seq<Record>>)
    ensures r == Pack(recs, bs)
  {
    if recs == [] {
      return Ok([]);
    }
    if !Packable(recs, bs) {
      return Err(InvalidArgument);
    }
    var sig := SigOf(recs[0]);
    GroupsWellFormed(recs, [], sig, bs);
    ghost var groups := GroupsFrom(recs, [], sig, bs);
    var out: seq<Record> := [];
    var buffer := Buffers([], sig);
    var count := 0;
    ghost var closed: seq<seq<Record>> := [];
    ghost var cur: seq<Record> := [];
    var i := 0;
    assert recs[i..] == recs;
    while i < |recs|
      invariant 0 <= i <= |recs|
      invariant count == |cur| && AllSignature(cur, sig) && GroupFits(cur, sig, bs)
      invariant buffer == Buffers(cur, sig)
      invariant closed + GroupsFrom(recs[i..], cur, sig, bs) == groups
      invariant AllWellFormed(closed, sig, bs)
      invariant out == FillAll(closed, sig, bs)
    {
      var rec := recs[i];
      RoomIsFits(cur, rec, sig, bs);
      if Room(buffer, rec, bs) {
        JoinStep(recs, i, cur, sig, bs);
        buffer := Push(buffer, rec);
        cur := cur + [rec];
        count := count + 1;
      } else {
        CloseStep(recs, i, cur, sig, bs);
        var batch := Flush(buffer, sig, bs);
        FillAllSnoc(closed, cur, sig, bs);
        ghost var rest := GroupsFrom(recs[i + 1..], [rec], sig, bs);
        ConcatAssoc(closed, [cur], rest);
        out := out + [batch];
        closed := closed + [cur];
        buffer := Buffers([rec], sig);
        cur := [rec];
        count := 1;
      }
      i := i + 1;
    }
    assert recs[i..] == [];
    if count > 0 {
      GroupFlushable(cur, sig, bs);
      var batch := Flush(buffer, sig, bs);
      FillAllSnoc(closed, cur, sig, bs);
      out := out + [batch];
      closed := closed + [cur];
    } else {
      assert closed + [] == closed;
    }
    assert closed == groups;
    PackIsFillAll(recs, bs);
    return Ok(out);
  }
}
