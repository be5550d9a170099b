/** Per-record transforms that restructure a record without changing how
    many records flow: rekey, remove_fields, add_static_fields,
    squeeze_fields and extract_from_sequence. */
module Structural {
  import opened Tensors
  import opened Records

  // ---------------------------------------------------------------------
  // rekey
  // ---------------------------------------------------------------------

  /** A reference is usable when it is a non-empty name the record has;
      None, the empty name and a missing name all fall back to the default. */
  predicate Resolves(rec: Record, ref: Option<string>) {
    ref.Some? && ref.value != "" && ref.value in rec
  }

  /** The output keys of a non-empty key map: those whose reference resolves,
      and, when there is a default value, all the others as well. */
  function MappedKeys(rec: Record, keyMap: map<string, Option<string>>, defaultValue: Option<Tensor>): set<string> {
    set k | k in keyMap && (Resolves(rec, keyMap[k]) || defaultValue.Some?)
  }

  /** rekey(key_map, default_value, retain_original_inputs) on one record. */
  function Rekey(rec: Record, keyMap: map<string, Option<string>>, defaultValue: Option<Tensor>,
                 retainOriginal: bool): (r: Record)
    ensures keyMap == map[] ==> r == rec
    ensures keyMap != map[] ==>
      r.Keys == (if retainOriginal then rec.Keys else {}) + MappedKeys(rec, keyMap, defaultValue)
    ensures keyMap != map[] ==>
      forall k :: k in keyMap && Resolves(rec, keyMap[k]) ==> k in r && r[k] == rec[keyMap[k].value]
    ensures keyMap != map[] ==>
      forall k :: k in keyMap && !Resolves(rec, keyMap[k]) && defaultValue.Some? ==>
        k in r && r[k] == defaultValue.value
    ensures keyMap != map[] && retainOriginal ==>
      forall k :: k in rec && k !in MappedKeys(rec, keyMap, defaultValue) ==> k in r && r[k] == rec[k]
  {
    if keyMap == map[] then rec
    else
      var mapped := map k | k in MappedKeys(rec, keyMap, defaultValue) ::
        if Resolves(rec, keyMap[k]) then rec[keyMap[k].value] else defaultValue.value;
      if retainOriginal then rec + mapped else mapped
  }

  /** What an element spec records of a field: its dtype, whether it is
      ragged, and its shape (the outer dimensions of a ragged field). */
  predicate SameSpec(s: Tensor, t: Tensor) {
    s.dtype == t.dtype && s.Dense? == t.Dense? &&
    (if s.Dense? then s.shape == t.shape else s.outer == t.outer)
  }

  /** The output element spec is determined by the input's: records with
      the same fields, each of the same dtype and shape, are rekeyed to
      the same fields, each of the same dtype and shape; a defaulted field
      has the default's. */
  lemma RekeySignature(a: Record, b: Record, keyMap: map<string, Option<string>>,
                       defaultValue: Option<Tensor>, retainOriginal: bool)
    requires a.Keys == b.Keys
    requires forall k :: k in a ==> SameSpec(a[k], b[k])
    ensures var ra := Rekey(a, keyMap, defaultValue, retainOriginal);
      var rb := Rekey(b, keyMap, defaultValue, retainOriginal);
      ra.Keys == rb.Keys && forall k :: k in ra ==> SameSpec(ra[k], rb[k])
  {
    var ra := Rekey(a, keyMap, defaultValue, retainOriginal);
    var rb := Rekey(b, keyMap, defaultValue, retainOriginal);
    if keyMap != map[] {
      assert forall k :: k in keyMap ==> (Resolves(a, keyMap[k]) <==> Resolves(b, keyMap[k]));
      var mapped := MappedKeys(a, keyMap, defaultValue);
      assert mapped == MappedKeys(b, keyMap, defaultValue);
      forall k | k in ra ensures SameSpec(ra[k], rb[k]) {
        if k in keyMap && Resolves(a, keyMap[k]) {
          assert ra[k] == a[keyMap[k].value] && rb[k] == b[keyMap[k].value];
        } else if k in keyMap && defaultValue.Some? {
          assert ra[k] == defaultValue.value == rb[k];
        } else {
          assert k !in mapped && retainOriginal;
          assert ra[k] == a[k] && rb[k] == b[k];
        }
      }
    }
  }

  /** Mapping every field to itself, without a default, gives the record back. */
  lemma RekeyIdentityMap(rec: Record, defaultValue: Option<Tensor>, retainOriginal: bool)
    requires rec != map[] && "" !in rec
    ensures Rekey(rec, map k | k in rec :: Some(k), defaultValue, retainOriginal) == rec
  {
    var keyMap := map k | k in rec :: Some(k);
    var k0 :| k0 in rec;
    assert k0 in keyMap;
    var r := Rekey(rec, keyMap, defaultValue, retainOriginal);
    assert forall k :: k in rec ==> Resolves(rec, keyMap[k]);
    assert MappedKeys(rec, keyMap, defaultValue) == rec.Keys;
    assert r.Keys == rec.Keys;
  }

  // ---------------------------------------------------------------------
  // remove_fields and add_static_fields
  // ---------------------------------------------------------------------

  /** remove_fields(fields): named fields are dropped, absent names ignored. */
  function RemoveFields(rec: Record, fields: set<string>): (r: Record)
    ensures r.Keys == rec.Keys - fields
    ensures forall k :: k in r ==> r[k] == rec[k]
  {
    map k | k in rec && k !in fields :: rec[k]
  }

  /** Naming only fields the record does not have changes nothing. */
  lemma RemoveAbsentFields(rec: Record, fields: set<string>)
    requires fields !! rec.Keys
    ensures RemoveFields(rec, fields) == rec
  {
  }

  /** Removing in two steps is removing the union. */
  lemma RemoveFieldsTwice(rec: Record, f: set<string>, g: set<string>)
    ensures RemoveFields(RemoveFields(rec, f), g) == RemoveFields(rec, f + g)
  {
  }

  /** add_static_fields(key_map): every record gains each key with a
      constant string scalar, whatever it held before. */
  function AddStaticFields(rec: Record, keyMap: map<string, string>): (r: Record)
    ensures r.Keys == rec.Keys + keyMap.Keys
    ensures forall k :: k in keyMap ==> r[k] == Scalar(Str, S(keyMap[k]))
    ensures forall k :: k in rec && k !in keyMap ==> r[k] == rec[k]
  {
    rec + map k | k in keyMap :: Scalar(Str, S(keyMap[k]))
  }

  /** The static fields are the only thing added: removing them again
      leaves the record with those names removed. */
  lemma AddThenRemoveStatic(rec: Record, keyMap: map<string, string>)
    ensures RemoveFields(AddStaticFields(rec, keyMap), keyMap.Keys) == RemoveFields(rec, keyMap.Keys)
  {
  }

  // ---------------------------------------------------------------------
  // squeeze_fields
  // ---------------------------------------------------------------------

  /** Which size-1 axes to remove from a field: all of them (None in the
      source) or a list of axes, each possibly negative; as in tf.squeeze,
      an empty list also means all of them. */
  datatype AxisSpec = AllUnitAxes | AxisList(axes: seq<int>)

  /** Python's reading of a possibly negative axis of a rank-n tensor. */
  function NormalizeAxis(a: int, n: nat): (r: Option<nat>)
    ensures r.Some? <==> -(n as int) <= a < n
    ensures r.Some? ==> r.value < n && (r.value == a || r.value == a + n)
  {
    if 0 <= a < n then Some(a) else if -(n as int) <= a < 0 then Some(a + n) else None
  }

  /** The dimensions of shape whose positions are not in drop, in order. */
  function DropAxes(shape: seq<nat>, drop: set<nat>): seq<nat> {
    if shape == [] then []
    else
      var last := |shape| - 1;
      DropAxes(shape[..last], drop) + (if last in drop then [] else [shape[last]])
  }

  /** Removing only size-1 dimensions keeps the number of elements. */
  lemma {:induction false} DropUnitsKeepsProduct(shape: seq<nat>, drop: set<nat>)
    requires forall i :: 0 <= i < |shape| && i in drop ==> shape[i] == 1
    ensures Product(DropAxes(shape, drop)) == Product(shape)
  {
    if shape != [] {
      var last := |shape| - 1;
      var init := shape[..last];
      assert shape == init + [shape[last]];
      DropUnitsKeepsProduct(init, drop);
      ProductSnoc(init, shape[last]);
      if last !in drop {
        assert DropAxes(shape, drop) == DropAxes(init, drop) + [shape[last]];
        ProductSnoc(DropAxes(init, drop), shape[last]);
      } else {
        assert DropAxes(shape, drop) == DropAxes(init, drop);
      }
    }
  }

  /** DropAxes only looks at the positions the shape has. */
  lemma {:induction false} DropAxesAgree(shape: seq<nat>, d1: set<nat>, d2: set<nat>)
    requires forall i :: 0 <= i < |shape| ==> (i in d1 <==> i in d2)
    ensures DropAxes(shape, d1) == DropAxes(shape, d2)
  {
    if shape != [] {
      DropAxesAgree(shape[..|shape| - 1], d1, d2);
    }
  }

  /** The size-1 axes of a shape. */
  function UnitAxes(shape: seq<nat>): set<nat> {
    set i: nat | i < |shape| && shape[i] == 1
  }

  /** The axes a spec selects, normalised; None when one is out of range. */
  function SelectedAxes(shape: seq<nat>, spec: AxisSpec): Option<set<nat>> {
    match spec
    case AllUnitAxes => Some(UnitAxes(shape))
    case AxisList(axes) =>
      if axes == [] then Some(UnitAxes(shape))
      else if forall j :: 0 <= j < |axes| ==> NormalizeAxis(axes[j], |shape|).Some? then
        Some(set j | 0 <= j < |axes| :: NormalizeAxis(axes[j], |shape|).value)
      else None
  }

  /** tf.squeeze of one field: fails on an axis out of range or of size
      other than 1; the elements are kept, only the shape loses its 1s. */
  function Squeeze(t: Tensor, spec: AxisSpec): (r: Result<Tensor>)
    ensures r.Ok? <==>
      t.Dense? && SelectedAxes(t.shape, spec).Some? &&
      forall i :: 0 <= i < |t.shape| && i in SelectedAxes(t.shape, spec).value ==> t.shape[i] == 1
    ensures r.Ok? ==> r.value.Dense? && r.value.dtype == t.dtype && r.value.flat == t.flat
    ensures r.Ok? ==> Product(r.value.shape) == Product(t.shape)
    ensures r.Ok? ==> r.value.shape == DropAxes(t.shape, SelectedAxes(t.shape, spec).value)
    ensures r.Err? ==> r.error == InvalidArgument
  {
    if t.Ragged? then Err(InvalidArgument)
    else
      match SelectedAxes(t.shape, spec)
      case None => Err(InvalidArgument)
      case Some(drop) =>
        if forall i :: 0 <= i < |t.shape| && i in drop ==> t.shape[i] == 1 then
          DropUnitsKeepsProduct(t.shape, drop);
          var squeezed: Tensor := Dense(t.dtype, DropAxes(t.shape, drop), t.flat);
          Ok(squeezed)
        else Err(InvalidArgument)
  }

  /** The dimensions of a shape other than 1, in order. */
  function NonUnit(shape: seq<nat>): (r: seq<nat>)
    ensures forall i :: 0 <= i < |r| ==> r[i] != 1
  {
    if shape == [] then []
    else
      var last := |shape| - 1;
      NonUnit(shape[..last]) + (if shape[last] == 1 then [] else [shape[last]])
  }

  lemma {:induction false} DropUnitAxesIsNonUnit(shape: seq<nat>)
    ensures DropAxes(shape, UnitAxes(shape)) == NonUnit(shape)
  {
    if shape != [] {
      var init := shape[..|shape| - 1];
      DropUnitAxesIsNonUnit(init);
      DropAxesAgree(init, UnitAxes(shape), UnitAxes(init));
    }
  }

  lemma {:induction false} NonUnitFixed(shape: seq<nat>)
    requires forall i :: 0 <= i < |shape| ==> shape[i] != 1
    ensures NonUnit(shape) == shape
  {
    if shape != [] {
      NonUnitFixed(shape[..|shape| - 1]);
    }
  }

  /** squeeze with axis None removes exactly the size-1 dimensions, so the
      result has none left and squeezing it again changes nothing. */
  lemma SqueezeAllUnit(t: Tensor)
    requires t.Dense?
    ensures Squeeze(t, AllUnitAxes).Ok?
    ensures Squeeze(t, AllUnitAxes).value.shape == NonUnit(t.shape)
    ensures Squeeze(Squeeze(t, AllUnitAxes).value, AllUnitAxes) == Squeeze(t, AllUnitAxes)
  {
    DropUnitAxesIsNonUnit(t.shape);
    var s := Squeeze(t, AllUnitAxes).value;
    DropUnitAxesIsNonUnit(s.shape);
    NonUnitFixed(s.shape);
  }

  /** An empty axis list squeezes like no axis at all. */
  lemma SqueezeEmptyListIsAll(t: Tensor)
    ensures Squeeze(t, AxisList([])) == Squeeze(t, AllUnitAxes)
  {
  }

  /** squeeze_fields(axis): each listed field is squeezed; a listed field
      the record lacks is a KeyError, a failing squeeze an InvalidArgument;
      unlisted fields pass through. */
  function SqueezeFields(rec: Record, axis: map<string, AxisSpec>): (r: Result<Record>)
    ensures r.Ok? <==> axis.Keys <= rec.Keys && forall k :: k in axis ==> Squeeze(rec[k], axis[k]).Ok?
    ensures r.Ok? ==> r.value.Keys == rec.Keys
    ensures r.Ok? ==> forall k :: k in rec && k !in axis ==> r.value[k] == rec[k]
    ensures r.Ok? ==> forall k :: k in axis ==> r.value[k] == Squeeze(rec[k], axis[k]).value
    ensures r.Ok? ==> forall k :: k in axis ==> r.value[k].Dense? && r.value[k].flat == rec[k].flat
  {
    if !(axis.Keys <= rec.Keys) then Err(KeyError)
    else if forall k :: k in axis ==> Squeeze(rec[k], axis[k]).Ok? then
      var squeezed: Record := map k | k in rec :: if k in axis then Squeeze(rec[k], axis[k]).value else rec[k];
      Ok(squeezed)
    else Err(InvalidArgument)
  }

  // ---------------------------------------------------------------------
  // extract_from_sequence
  // ---------------------------------------------------------------------

  /** A Python index (possibly negative) or a slice with step 1. */
  datatype Selector = Index(i: int) | Slice(start: int, stop: int)

  /** Python's clamping of a slice bound to a sequence of length n. */
  function ClampBound(b: int, n: nat): (r: nat)
    ensures r <= n
  {
    if b < 0 then (if b + n < 0 then 0 else b + n) else if b > n then n else b
  }

  /** extract_from_sequence(in_key, out_key, idx): out_key receives entry
      idx of in_key's leading axis (rank drops by one) or the slice of
      entries (rank kept); every other field is kept. */
  function ExtractFromSequence(rec: Record, inKey: string, outKey: string, sel: Selector): (r: Result<Record>)
    ensures inKey !in rec ==> r == Err(KeyError)
    ensures inKey in rec && !HasLeadingAxis(rec[inKey]) ==> r == Err(InvalidArgument)
    ensures r.Ok? ==> r.value.Keys == rec.Keys + {outKey}
    ensures r.Ok? ==> forall k :: k in rec && k != outKey ==> r.value[k] == rec[k]
    ensures sel.Index? && inKey in rec && HasLeadingAxis(rec[inKey]) ==>
      (r.Ok? <==> -(Lead(rec[inKey]) as int) <= sel.i < Lead(rec[inKey]))
    ensures sel.Index? && r.Ok? ==>
      var t := rec[inKey];
      var j := NormalizeAxis(sel.i, Lead(t)).value;
      r.value[outKey] == Dense(t.dtype, Inner(t), Rows(t)[j])
    ensures sel.Slice? && inKey in rec && HasLeadingAxis(rec[inKey]) ==> r.Ok?
    ensures sel.Slice? && r.Ok? ==>
      var t := rec[inKey];
      var lo := ClampBound(sel.start, Lead(t));
      var hi := ClampBound(sel.stop, Lead(t));
      HasLeadingAxis(r.value[outKey]) && Inner(r.value[outKey]) == Inner(t) &&
      Rows(r.value[outKey]) == (if lo <= hi then Rows(t)[lo..hi] else [])
  {
    if inKey !in rec then Err(KeyError)
    else
      var t := rec[inKey];
      if !HasLeadingAxis(t) then Err(InvalidArgument)
      else
        var rows := Rows(t);
        match sel
        case Index(i) =>
          (match NormalizeAxis(i, |rows|)
           case None => Err(InvalidArgument)
           case Some(j) =>
             var entry: Tensor := Dense(t.dtype, Inner(t), rows[j]);
             Ok(rec[outKey := entry]))
        case Slice(start, stop) =>
          var lo := ClampBound(start, |rows|);
          var hi := ClampBound(stop, |rows|);
          var picked := if lo <= hi then rows[lo..hi] else [];
          RowsOfFromRows(t.dtype, Inner(t), picked);
          Ok(rec[outKey := FromRows(t.dtype, Inner(t), picked)])
  }

  /** Selecting index i and selecting the slice i:i+1 pick the same entry;
      the slice keeps the leading axis, of length 1. */
  lemma IndexAgreesWithSlice(rec: Record, inKey: string, outKey: string, i: nat)
    requires inKey in rec && HasLeadingAxis(rec[inKey]) && i < Lead(rec[inKey])
    ensures ExtractFromSequence(rec, inKey, outKey, Index(i)).Ok?
    ensures ExtractFromSequence(rec, inKey, outKey, Slice(i, i + 1)).Ok?
    ensures Rows(ExtractFromSequence(rec, inKey, outKey, Slice(i, i + 1)).value[outKey])
         == [ExtractFromSequence(rec, inKey, outKey, Index(i)).value[outKey].flat]
  {
  }
}
