/** Source combinators: concatenate_datasets, which plays its sources one
    after another, and sample_from_datasets, which interleaves them by
    weighted random draws. A source is modelled as the finite sequence of
    records it yields; the random draws are a parameter. */
module Sources {
  import opened Tensors
  import opened Records

  // ---------------------------------------------------------------------
  // concatenate_datasets
  // ---------------------------------------------------------------------

  /** concatenate_datasets(sources): no sources is a configuration error;
      a single source is returned as it is; otherwise the sources are
      played in order. */
  function Concatenate<T>(sources: seq<seq<T>>): (r: Result<seq<T>>)
    ensures r.Err? <==> sources == []
    ensures r.Err? ==> r.error == ValueError
    ensures |sources| == 1 ==> r == Ok(sources[0])
  {
    if sources == [] then Err(ValueError)
    else if |sources| == 1 then Ok(sources[0])
    else Ok(Flatten(sources))
  }

  /** The single-source shortcut agrees with playing the sources in order. */
  lemma ConcatenateIsFlatten<T>(sources: seq<seq<T>>)
    requires sources != []
    ensures Concatenate(sources) == Ok(Flatten(sources))
  {
    if |sources| == 1 {
      assert sources[1..] == [];
      assert sources[0] + [] == sources[0];
    }
  }

  /** Record j of source i comes right after every record of the sources
      before it. */
  lemma ConcatenateAt<T>(sources: seq<seq<T>>, i: nat, j: nat)
    requires i < |sources| && j < |sources[i]|
    ensures var out := Concatenate(sources).value;
      var before := |Flatten(sources[..i])|;
      before + j < |out| && out[before + j] == sources[i][j]
  {
    ConcatenateIsFlatten(sources);
    assert sources == sources[..i] + sources[i..];
    FlattenAppend(sources[..i], sources[i..]);
    assert sources[i..][0] == sources[i];
  }

  /** Concatenating two concatenations is concatenating all their sources. */
  lemma ConcatenateAssoc<T>(a: seq<seq<T>>, b: seq<seq<T>>)
    requires a != [] && b != []
    ensures Concatenate([Concatenate(a).value, Concatenate(b).value]) == Concatenate(a + b)
  {
    ConcatenateIsFlatten(a);
    ConcatenateIsFlatten(b);
    ConcatenateIsFlatten(a + b);
    FlattenAppend(a, b);
    var pair := [Flatten(a), Flatten(b)];
    ConcatenateIsFlatten(pair);
    assert pair[1..] == [Flatten(b)];
    assert Flatten(pair[1..]) == Flatten(b) + Flatten(pair[1..][1..]);
    assert pair[1..][1..] == [];
    assert Flatten(b) + [] == Flatten(b);
  }

  // ---------------------------------------------------------------------
  // sample_from_datasets
  // ---------------------------------------------------------------------

  function Sum(ws: seq<real>): real {
    if ws == [] then 0.0 else ws[0] + Sum(ws[1..])
  }

  predicate NonNegative(ws: seq<real>) {
    forall i :: 0 <= i < |ws| ==> ws[i] >= 0.0
  }

  /** The draws a weighted random choice can make: each picks a source
      whose weight is positive. */
  predicate ValidDraws(choices: seq<nat>, weights: seq<real>) {
    forall j :: 0 <= j < |choices| ==> choices[j] < |weights| && weights[choices[j]] > 0.0
  }

  /** The configuration sample_from_datasets accepts: some sources, one
      weight per source, weights that do not sum to zero and no source of
      zero cardinality (whatever its weight). */
  predicate Configured<T>(sources: seq<seq<T>>, weights: seq<real>) {
    sources != [] && |weights| == |sources| && Sum(weights) != 0.0 &&
    forall i :: 0 <= i < |sources| ==> sources[i] != []
  }

  /** What the interleaving needs: a read position per source, sources
      that are not empty and draws that name a source. */
  predicate Drawable<T>(sources: seq<seq<T>>, cursors: seq<nat>, choices: seq<nat>) {
    |cursors| == |sources| &&
    (forall i :: 0 <= i < |sources| ==> sources[i] != []) &&
    (forall j :: 0 <= j < |choices| ==> choices[j] < |sources|)
  }

  /** The interleaving: each draw takes the next record of the chosen
      source. In evaluation the output ends at the first draw of an
      exhausted source; in training every source restarts when exhausted. */
  function Draw<T>(sources: seq<seq<T>>, cursors: seq<nat>, choices: seq<nat>, isTraining: bool): (out: seq<T>)
    requires Drawable(sources, cursors, choices)
    ensures |out| <= |choices|
    decreases |choices|
  {
    if choices == [] then []
    else
      var c := choices[0];
      if !isTraining && cursors[c] >= |sources[c]| then []
      else
        var rec := if isTraining then sources[c][cursors[c] % |sources[c]|] else sources[c][cursors[c]];
        [rec] + Draw(sources, cursors[c := cursors[c] + 1], choices[1..], isTraining)
  }

  function Zeros(n: nat): (z: seq<nat>)
    ensures |z| == n && forall i :: 0 <= i < n ==> z[i] == 0
  {
    seq(n, _ => 0)
  }

  /** sample_from_datasets(sources, weights, is_training), observed for the
      draws `choices` its seeded generator makes. */
  function Sample<T>(sources: seq<seq<T>>, weights: seq<real>, isTraining: bool, choices: seq<nat>): (r: Result<seq<T>>)
    requires NonNegative(weights) && ValidDraws(choices, weights)
    ensures r.Err? <==> !Configured(sources, weights)
    ensures r.Err? ==> r.error == ValueError
    ensures r.Ok? && isTraining ==> |r.value| == |choices|
  {
    if !Configured(sources, weights) then Err(ValueError)
    else
      var out := Draw(sources, Zeros(|sources|), choices, isTraining);
      (DrawLength(sources, Zeros(|sources|), choices, isTraining); Ok(out))
  }

  /** How often source c was drawn. */
  function Count(cs: seq<nat>, c: nat): (n: nat)
    ensures n <= |cs|
  {
    if cs == [] then 0 else (if cs[0] == c then 1 else 0) + Count(cs[1..], c)
  }

  lemma {:induction false} CountSnoc(cs: seq<nat>, x: nat, c: nat)
    ensures Count(cs + [x], c) == Count(cs, c) + if x == c then 1 else 0
  {
    if cs != [] {
      assert (cs + [x])[1..] == cs[1..] + [x];
      CountSnoc(cs[1..], x, c);
    }
  }

  /** Output j is the next unread record of the source draw j chose: the
      one after every earlier draw of that source (wrapping around in
      training). */
  lemma {:induction false} DrawAt<T>(sources: seq<seq<T>>, cursors: seq<nat>, choices: seq<nat>, isTraining: bool, j: nat)
    requires Drawable(sources, cursors, choices)
    requires j < |Draw(sources, cursors, choices, isTraining)|
    ensures var c := choices[j];
      var k := cursors[c] + Count(choices[..j], c);
      (isTraining ==> Draw(sources, cursors, choices, isTraining)[j] == sources[c][k % |sources[c]|]) &&
      (!isTraining ==> k < |sources[c]| && Draw(sources, cursors, choices, isTraining)[j] == sources[c][k])
    decreases |choices|
  {
    var c0 := choices[0];
    var next := cursors[c0 := cursors[c0] + 1];
    if j > 0 {
      DrawAt(sources, next, choices[1..], isTraining, j - 1);
      assert choices[..j] == [c0] + choices[1..][..j - 1];
    }
  }

  /** Training draws a record for every draw; evaluation stops exactly at
      the first draw of an exhausted source. */
  lemma {:induction false} DrawLength<T>(sources: seq<seq<T>>, cursors: seq<nat>, choices: seq<nat>, isTraining: bool)
    requires Drawable(sources, cursors, choices)
    ensures var n := |Draw(sources, cursors, choices, isTraining)|;
      (isTraining ==> n == |choices|) &&
      (n < |choices| ==> !isTraining && cursors[choices[n]] + Count(choices[..n], choices[n]) >= |sources[choices[n]]|)
    decreases |choices|
  {
    if choices != [] {
      var c0 := choices[0];
      if isTraining || cursors[c0] < |sources[c0]| {
        var next := cursors[c0 := cursors[c0] + 1];
        DrawLength(sources, next, choices[1..], isTraining);
        var n := |Draw(sources, cursors, choices, isTraining)|;
        if n < |choices| {
          assert choices[..n] == [c0] + choices[1..][..n - 1];
        }
      }
    }
  }

  /** One positive weight: every draw picks that source. */
  predicate OneHot(weights: seq<real>, s: nat) {
    s < |weights| && weights[s] > 0.0 && forall i :: 0 <= i < |weights| && i != s ==> weights[i] == 0.0
  }

  lemma {:induction false} CountAll(cs: seq<nat>, s: nat)
    requires forall j :: 0 <= j < |cs| ==> cs[j] == s
    ensures Count(cs, s) == |cs|
  {
    if cs != [] {
      CountAll(cs[1..], s);
    }
  }

  /** Output j of draws that all pick source s is record j of s (wrapping
      around in training). */
  lemma SameSourceAt<T>(sources: seq<seq<T>>, choices: seq<nat>, isTraining: bool, s: nat, j: nat)
    requires Drawable(sources, Zeros(|sources|), choices)
    requires forall t :: 0 <= t < |choices| ==> choices[t] == s
    requires j < |Draw(sources, Zeros(|sources|), choices, isTraining)|
    ensures isTraining ==> Draw(sources, Zeros(|sources|), choices, isTraining)[j] == sources[s][j % |sources[s]|]
    ensures !isTraining ==> j < |sources[s]| && Draw(sources, Zeros(|sources|), choices, isTraining)[j] == sources[s][j]
  {
    DrawAt(sources, Zeros(|sources|), choices, isTraining, j);
    CountAll(choices[..j], s);
  }

  /** Draws that all pick source s stop, in evaluation, after |s| records. */
  lemma SameSourceLength<T>(sources: seq<seq<T>>, choices: seq<nat>, isTraining: bool, s: nat)
    requires s < |sources| && Drawable(sources, Zeros(|sources|), choices)
    requires forall t :: 0 <= t < |choices| ==> choices[t] == s
    ensures var n := |Draw(sources, Zeros(|sources|), choices, isTraining)|;
      (isTraining ==> n == |choices|) && (!isTraining ==> n == Min(|choices|, |sources[s]|))
  {
    var z := Zeros(|sources|);
    var n := |Draw(sources, z, choices, isTraining)|;
    DrawLength(sources, z, choices, isTraining);
    if n < |choices| {
      CountAll(choices[..n], s);
    }
    if !isTraining && n > 0 {
      SameSourceAt(sources, choices, isTraining, s, n - 1);
    }
  }

  lemma OneHotDraws(choices: seq<nat>, weights: seq<real>, s: nat)
    requires ValidDraws(choices, weights) && OneHot(weights, s)
    ensures forall t :: 0 <= t < |choices| ==> choices[t] == s
  {
    forall t | 0 <= t < |choices| ensures choices[t] == s {
      assert weights[choices[t]] > 0.0;
    }
  }

  /** Draws that all pick source s replay s: in evaluation its records in
      order until it runs out, in training its records over and over. */
  lemma SameSource<T>(sources: seq<seq<T>>, choices: seq<nat>, isTraining: bool, s: nat)
    requires s < |sources| && Drawable(sources, Zeros(|sources|), choices)
    requires forall t :: 0 <= t < |choices| ==> choices[t] == s
    ensures var out := Draw(sources, Zeros(|sources|), choices, isTraining);
      (!isTraining ==> out == sources[s][..Min(|choices|, |sources[s]|)]) &&
      (isTraining ==> |out| == |choices| && forall j :: 0 <= j < |out| ==> out[j] == sources[s][j % |sources[s]|])
  {
    if isTraining {
      SameSourceCycles(sources, choices, s);
    } else {
      SameSourcePrefix(sources, choices, s);
    }
  }

  lemma SameSourceCycles<T>(sources: seq<seq<T>>, choices: seq<nat>, s: nat)
    requires s < |sources| && Drawable(sources, Zeros(|sources|), choices)
    requires forall t :: 0 <= t < |choices| ==> choices[t] == s
    ensures var out := Draw(sources, Zeros(|sources|), choices, true);
      |out| == |choices| && forall j :: 0 <= j < |out| ==> out[j] == sources[s][j % |sources[s]|]
  {
    var out := Draw(sources, Zeros(|sources|), choices, true);
    SameSourceLength(sources, choices, true, s);
    forall j | 0 <= j < |out| ensures out[j] == sources[s][j % |sources[s]|] {
      SameSourceAt(sources, choices, true, s, j);
    }
  }

  lemma SameSourcePrefix<T>(sources: seq<seq<T>>, choices: seq<nat>, s: nat)
    requires s < |sources| && Drawable(sources, Zeros(|sources|), choices)
    requires forall t :: 0 <= t < |choices| ==> choices[t] == s
    ensures Draw(sources, Zeros(|sources|), choices, false) == sources[s][..Min(|choices|, |sources[s]|)]
  {
    var out := Draw(sources, Zeros(|sources|), choices, false);
    SameSourceLength(sources, choices, false, s);
    var want := sources[s][..Min(|choices|, |sources[s]|)];
    assert |out| == |want|;
    forall j | 0 <= j < |out| ensures out[j] == want[j] {
      SameSourceAt(sources, choices, false, s, j);
    }
    assert out == want;
  }

  /** With a one-hot weight vector the sample is that source: in evaluation
      its records in order until it runs out; in training its records over
      and over. */
  lemma SampleOneHot<T>(sources: seq<seq<T>>, weights: seq<real>, isTraining: bool, choices: seq<nat>, s: nat)
    requires NonNegative(weights) && ValidDraws(choices, weights)
    requires Configured(sources, weights) && OneHot(weights, s)
    ensures var out := Sample(sources, weights, isTraining, choices).value;
      (!isTraining ==> out == sources[s][..Min(|choices|, |sources[s]|)]) &&
      (isTraining ==> |out| == |choices| && forall j :: 0 <= j < |out| ==> out[j] == sources[s][j % |sources[s]|])
  {
    OneHotDraws(choices, weights, s);
    SameSource(sources, choices, isTraining, s);
  }
}
