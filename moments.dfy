/** The bookkeeping of the moments engine (gadma/engines/moments_engine.py)
    that decides what is handed to the moments library: the keyword arguments
    of one `integrate` call, the sample sizes after each split, and which
    split function is called with which pair of sizes. The numerical work
    (the spectrum, its integration and the split functions themselves) is not
    part of this model. */
module Moments {
  import opened Results
  import opened Strings
  import Models

  /** An argument of an event: a model variable or a literal. */
  datatype Arg = Var(v: Models.Variable) | Lit(x: Models.Value)

  /** The events of a demographic model: an epoch of constant or changing
      sizes, or the split of population `popToDiv` into two, the new one
      placed last. Optional arguments are `None` where the source has `None`. */
  datatype Event =
    | Epoch(nPop: nat, timeArg: Arg, sizeArgs: seq<Arg>,
            dynArgs: Option<seq<Arg>>, migArgs: Option<seq<seq<Arg>>>, selArgs: Option<seq<Arg>>)
    | Split(nPop: nat, popToDiv: nat)

  /** The shape every epoch of a demographic model has: one size (and one
      dynamic, when dynamics are given) per population and a square migration
      matrix. */
  predicate WellFormedEpoch(e: Event)
    requires e.Epoch?
  {
    && |e.sizeArgs| == e.nPop
    && (e.dynArgs.Some? ==> |e.dynArgs.value| == e.nPop)
    && (e.migArgs.Some? ==> |e.migArgs.value| == e.nPop
                            && forall i :: 0 <= i < e.nPop ==> |e.migArgs.value[i]| == e.nPop)
  }

  /** `var2value.get(arg, arg) == 'Sud'`: the dynamic of a population is a
      sudden change, either written literally or as the value of a variable. */
  predicate IsSudden(arg: Arg, var2value: map<Models.Variable, Models.Value>)
  {
    match arg
    case Var(v) => v in var2value && var2value[v] == Models.Text("Sud")
    case Lit(x) => x == Models.Text("Sud")
  }

  /** `'nu%d_func' % (i + 1)`: the name under which the size function of
      population `i` (counted from 0) is looked up. */
  function SizeFuncName(i: nat): string
  {
    "nu" + NatToString(i + 1) + "_func"
  }

  /** Different populations have size functions under different names, so
      the functions of one epoch never overwrite each other. */
  lemma SizeFuncNameInjective(i: nat, j: nat)
    requires SizeFuncName(i) == SizeFuncName(j)
    ensures i == j
  {
    var a, b := SizeFuncName(i), SizeFuncName(j);
    assert a[2..|a| - 5] == NatToString(i + 1);
    assert b[2..|b| - 5] == NatToString(j + 1);
  }

  /** The keyword arguments of `moments.Spectrum.integrate` for one epoch;
      `m` and `h` are `None` when the key is absent. */
  datatype Kwargs = Kwargs(tf: Arg, npop: seq<Arg>, m: Option<seq<seq<Arg>>>, h: Option<seq<Arg>>)

  const Zero: Arg := Lit(Models.Num(0.0))

  /** For population `i`, `_get_kwargs` reads `dyn_args[i]` and, for a sudden
      change, `size_args[i]`: one of them is past the end of its list. */
  predicate DynUnreadable(e: Event, var2value: map<Models.Variable, Models.Value>, i: nat)
    requires e.Epoch? && e.dynArgs.Some?
  {
    || i >= |e.dynArgs.value|
    || (IsSudden(e.dynArgs.value[i], var2value) && i >= |e.sizeArgs|)
  }

  /** `mig_args[i][j]` is past the end of the matrix or of its row `i`. */
  predicate MigUnreadable(mig: seq<seq<Arg>>, i: nat, j: nat)
  {
    i >= |mig| || j >= |mig[i]|
  }

  /** Whether `_get_kwargs` reads past the end of a list of the epoch (an
      `IndexError`): a dynamic, or the size of a sudden change, of one of the
      `n_pop` populations, or an off-diagonal migration argument. */
  predicate KwargsFail(e: Event, var2value: map<Models.Variable, Models.Value>)
    requires e.Epoch?
  {
    || (e.dynArgs.Some? && DynFail(e, var2value))
    || (e.migArgs.Some? && MigFail(e.migArgs.value, e.nPop))
  }

  /** One of the `n_pop` populations has an unreadable dynamic or size. */
  predicate DynFail(e: Event, var2value: map<Models.Variable, Models.Value>)
    requires e.Epoch? && e.dynArgs.Some?
  {
    exists i :: 0 <= i < e.nPop && DynUnreadable(e, var2value, i)
  }

  /** One off-diagonal migration argument of an `n` by `n` matrix is unreadable. */
  predicate MigFail(mig: seq<seq<Arg>>, n: nat)
  {
    exists i, j :: 0 <= i < n && 0 <= j < n && i != j && MigUnreadable(mig, i, j)
  }

  /** An epoch shaped as a demographic model builds it is always readable. */
  lemma WellFormedEpochReadable(e: Event, var2value: map<Models.Variable, Models.Value>)
    requires e.Epoch? && WellFormedEpoch(e)
    ensures !KwargsFail(e, var2value)
  {
  }

  /** `MomentsEngine._get_kwargs`. */
  method GetKwargs(e: Event, var2value: map<Models.Variable, Models.Value>) returns (k: Result<Kwargs>)
    requires e.Epoch?
    ensures k.Err? <==> KwargsFail(e, var2value)
    ensures k.Err? ==> k.error == IndexError
    ensures k.Ok? ==> k.value.tf == e.timeArg && k.value.h == e.selArgs
    ensures k.Ok? && e.dynArgs.None? ==> k.value.npop == e.sizeArgs
    ensures k.Ok? && e.dynArgs.Some? ==>
      && |k.value.npop| == e.nPop
      && forall i :: 0 <= i < e.nPop ==>
           && !DynUnreadable(e, var2value, i)
           && k.value.npop[i] == (if IsSudden(e.dynArgs.value[i], var2value) then e.sizeArgs[i]
                                  else Lit(Models.Text(SizeFuncName(i))))
    ensures k.Ok? ==> (k.value.m.Some? <==> e.migArgs.Some?)
    ensures k.Ok? && k.value.m.Some? ==>
      && |k.value.m.value| == e.nPop
      && forall i :: 0 <= i < e.nPop ==>
           && |k.value.m.value[i]| == e.nPop
           && k.value.m.value[i][i] == Zero
           && forall j :: 0 <= j < e.nPop && j != i ==>
                !MigUnreadable(e.migArgs.value, i, j) && k.value.m.value[i][j] == e.migArgs.value[i][j]
  {
    var npop := e.sizeArgs;
    if e.dynArgs.Some? {
      var sizes := EpochSizes(e, var2value);
      if sizes.None? {
        return Err(IndexError);
      }
      npop := sizes.value;
    }
    var m := None;
    if e.migArgs.Some? {
      m := MigrationMatrix(e.migArgs.value, e.nPop);
      if m.None? {
        return Err(IndexError);
      }
    }
    k := Ok(Kwargs(e.timeArg, npop, m, e.selArgs));
  }

  /** The `npop` list of `_get_kwargs` for an epoch with dynamics: the size
      argument for a sudden change, the name of the size function otherwise;
      None where a read would be past the end. */
  method EpochSizes(e: Event, var2value: map<Models.Variable, Models.Value>) returns (r: Option<seq<Arg>>)
    requires e.Epoch? && e.dynArgs.Some?
    ensures r.None? <==> DynFail(e, var2value)
    ensures r.Some? ==>
      && |r.value| == e.nPop
      && forall i :: 0 <= i < e.nPop ==>
           && !DynUnreadable(e, var2value, i)
           && r.value[i] == (if IsSudden(e.dynArgs.value[i], var2value) then e.sizeArgs[i]
                             else Lit(Models.Text(SizeFuncName(i))))
  {
    var dyn := e.dynArgs.value;
    var npop := [];
    for i := 0 to e.nPop
      invariant |npop| == i
      invariant forall l :: 0 <= l < i ==>
        && !DynUnreadable(e, var2value, l)
        && npop[l] == (if IsSudden(dyn[l], var2value) then e.sizeArgs[l]
                       else Lit(Models.Text(SizeFuncName(l))))
    {
      if i >= |dyn| {
        assert DynUnreadable(e, var2value, i);
        return None;
      }
      if IsSudden(dyn[i], var2value) {
        if i >= |e.sizeArgs| {
          assert DynUnreadable(e, var2value, i);
          return None;
        }
        npop := npop + [e.sizeArgs[i]];
      } else {
        npop := npop + [Lit(Models.Text(SizeFuncName(i)))];
      }
    }
    r := Some(npop);
  }

  /** The `m` matrix of `_get_kwargs`: zeros on the diagonal, the migration
      arguments elsewhere; None where a read would be past the end. */
  method MigrationMatrix(mig: seq<seq<Arg>>, n: nat) returns (r: Option<seq<seq<Arg>>>)
    ensures r.None? <==> MigFail(mig, n)
    ensures r.Some? ==>
      && |r.value| == n
      && forall i :: 0 <= i < n ==>
           && |r.value[i]| == n
           && r.value[i][i] == Zero
           && forall j :: 0 <= j < n && j != i ==>
                !MigUnreadable(mig, i, j) && r.value[i][j] == mig[i][j]
  {
    var zeros := Zeros(n);
    var matrix := seq(n, _ => zeros);
    for i := 0 to n
      invariant |matrix| == n
      invariant forall r :: 0 <= r < n ==> |matrix[r]| == n
      invariant forall r, c :: 0 <= r < i && 0 <= c < n ==>
        && (r == c ==> matrix[r][c] == Zero)
        && (r != c ==> !MigUnreadable(mig, r, c) && matrix[r][c] == mig[r][c])
      invariant forall r, c :: i <= r < n && 0 <= c < n ==> matrix[r][c] == Zero
    {
      for j := 0 to n
        invariant |matrix| == n
        invariant forall r :: 0 <= r < n ==> |matrix[r]| == n
        invariant forall r, c :: 0 <= r < i && 0 <= c < n ==>
          && (r == c ==> matrix[r][c] == Zero)
          && (r != c ==> !MigUnreadable(mig, r, c) && matrix[r][c] == mig[r][c])
        invariant forall c :: 0 <= c < j ==>
          && (i == c ==> matrix[i][c] == Zero)
          && (i != c ==> !MigUnreadable(mig, i, c) && matrix[i][c] == mig[i][c])
        invariant forall c :: j <= c < n ==> matrix[i][c] == Zero
        invariant forall r, c :: i < r < n && 0 <= c < n ==> matrix[r][c] == Zero
      {
        if i == j {
          continue;
        }
        if i >= |mig| || j >= |mig[i]| {
          assert MigUnreadable(mig, i, j);
          return None;
        }
        matrix := matrix[i := matrix[i][j := mig[i][j]]];
      }
    }
    r := Some(matrix);
  }

  /** A row of `np.zeros(n, dtype=object)`. */
  method Zeros(n: nat) returns (row: seq<Arg>)
    ensures |row| == n && forall c :: 0 <= c < n ==> row[c] == Zero
  {
    row := [];
    while |row| < n
      invariant |row| <= n && forall c :: 0 <= c < |row| ==> row[c] == Zero
    {
      row := row + [Zero];
    }
  }

  // ---------------------------------------------------------------------
  // Sample sizes on splits
  // ---------------------------------------------------------------------

  function Sum(s: seq<int>): int
  {
    if s == [] then 0 else Sum(s[..|s| - 1]) + s[|s| - 1]
  }

  /** Undoing a split of population `p`: the last population (the one the
      split created) is removed and its sample size added back onto `p`. */
  function Merge(after: seq<int>, p: nat): (before: seq<int>)
    requires p + 1 < |after|
  {
    after[..|after| - 1][p := after[p] + after[|after| - 1]]
  }

  /** Undoing a split keeps every lineage: one population fewer, the same
      total sample size. */
  lemma MergeKeepsLineages(after: seq<int>, p: nat)
    requires p + 1 < |after|
    ensures |Merge(after, p)| == |after| - 1
    ensures Sum(Merge(after, p)) == Sum(after)
  {
    var front := after[..|after| - 1];
    assert after[..|after| - 1] == front;
    SumUpdate(front, p, after[p] + after[|after| - 1]);
  }

  lemma {:induction false} SumUpdate(s: seq<int>, p: nat, x: int)
    requires p < |s|
    ensures Sum(s[p := x]) == Sum(s) - s[p] + x
    decreases |s|
  {
    var n := |s|;
    if p == n - 1 {
      assert s[p := x][..n - 1] == s[..n - 1];
    } else {
      SumUpdate(s[..n - 1], p, x);
      assert s[p := x][..n - 1] == s[..n - 1][p := x];
    }
  }

  /** The `pop_to_div` of every Split event, in the order of the events. */
  function SplitPops(events: seq<Event>): (ps: seq<nat>)
    ensures |ps| <= |events|
  {
    if events == [] then []
    else
      var last := events[|events| - 1];
      SplitPops(events[..|events| - 1]) + (if last.Split? then [last.popToDiv] else [])
  }

  /** The backward pass of `_moments_inner_func`: walking the events from the
      last one, each Split appends the sizes before it to `acc`; an index the
      sizes do not have is an `IndexError`. */
  function Backward(acc: seq<seq<int>>, events: seq<Event>): (r: Result<seq<seq<int>>>)
    requires |acc| > 0
    ensures r.Ok? ==> |r.value| >= |acc|
    decreases |events|
  {
    if events == [] then Ok(acc)
    else
      var e := events[|events| - 1];
      var last := acc[|acc| - 1];
      if e.Split? then
        if e.popToDiv + 1 < |last| then Backward(acc + [Merge(last, e.popToDiv)], events[..|events| - 1])
        else Err(IndexError)
      else Backward(acc, events[..|events| - 1])
  }

  /** From `start` on, each entry of `out` is the one before it with a split
      undone, the splits `ps` taken from the last: entry `j` undoes split
      `ps[|out| - 1 - j]`. */
  ghost predicate UndoesSplits(out: seq<seq<int>>, start: nat, ps: seq<nat>)
    requires 0 < start && start + |ps| == |out|
  {
    forall j :: start <= j < |out| ==> UndoesSplit(out, ps, j)
  }

  ghost predicate UndoesSplit(out: seq<seq<int>>, ps: seq<nat>, j: nat)
    requires 0 < j < |out| && |out| - 1 - j < |ps|
  {
    && ps[|out| - 1 - j] + 1 < |out[j - 1]|
    && out[j] == Merge(out[j - 1], ps[|out| - 1 - j])
  }

  /** The backward pass extends `acc` by the sizes before each split, last
      split first. */
  lemma {:induction false} BackwardShape(acc: seq<seq<int>>, events: seq<Event>)
    requires |acc| > 0 && Backward(acc, events).Ok?
    ensures |Backward(acc, events).value| == |acc| + |SplitPops(events)|
    ensures Backward(acc, events).value[..|acc|] == acc
    ensures UndoesSplits(Backward(acc, events).value, |acc|, SplitPops(events))
    decreases |events|
  {
    if events == [] {
      return;
    }
    var e := events[|events| - 1];
    var front := events[..|events| - 1];
    var out := Backward(acc, events).value;
    if e.Split? {
      var m := Merge(acc[|acc| - 1], e.popToDiv);
      var acc' := acc + [m];
      assert Backward(acc, events) == Backward(acc', front);
      BackwardShape(acc', front);
      var ps, ps' := SplitPops(events), SplitPops(front);
      assert ps == ps' + [e.popToDiv];
      assert out[..|acc'|] == acc';
      assert out[..|acc|] == out[..|acc'|][..|acc|];
      forall j | |acc| <= j < |out|
        ensures UndoesSplit(out, ps, j)
      {
        if j == |acc| {
          assert out[j] == acc'[j] == m;
          assert out[j - 1] == acc'[j - 1] == acc[|acc| - 1];
        } else {
          assert UndoesSplit(out, ps', j);
          assert ps[|out| - 1 - j] == ps'[|out| - 1 - j];
        }
      }
    } else {
      assert Backward(acc, events) == Backward(acc, front);
      BackwardShape(acc, front);
      assert SplitPops(events) == SplitPops(front);
    }
  }

  /** Split `t` of `ps` divides a population that exists before it, when
      `width` populations remain after the last: before split `t` there are
      `width - (|ps| - t)`. */
  ghost predicate FitsBefore(ps: seq<nat>, width: int)
  {
    forall t :: 0 <= t < |ps| ==> ps[t] + |ps| - t < width
  }

  lemma FitsBeforeSnoc(ps: seq<nat>, p: nat, width: int)
    ensures FitsBefore(ps + [p], width) <==> p + 1 < width && FitsBefore(ps, width - 1)
  {
    var qs := ps + [p];
    if FitsBefore(qs, width) {
      assert qs[|ps|] == p;
      forall t | 0 <= t < |ps| ensures ps[t] + |ps| - t < width - 1 {
        assert qs[t] == ps[t];
      }
    }
    if p + 1 < width && FitsBefore(ps, width - 1) {
      forall t | 0 <= t < |qs| ensures qs[t] + |qs| - t < width {
        if t < |ps| {
          assert qs[t] == ps[t];
        }
      }
    }
  }

  /** The backward pass fails exactly when some split divides a population
      that does not exist yet. */
  lemma {:induction false} BackwardOk(acc: seq<seq<int>>, events: seq<Event>)
    requires |acc| > 0
    ensures Backward(acc, events).Ok? <==> FitsBefore(SplitPops(events), |acc[|acc| - 1]|)
    decreases |events|
  {
    if events != [] {
      var e := events[|events| - 1];
      var front := events[..|events| - 1];
      var last := acc[|acc| - 1];
      if e.Split? {
        var ps, ps' := SplitPops(events), SplitPops(front);
        assert ps == ps' + [e.popToDiv];
        FitsBeforeSnoc(ps', e.popToDiv, |last|);
        if e.popToDiv + 1 < |last| {
          var m := Merge(last, e.popToDiv);
          var acc' := acc + [m];
          assert Backward(acc, events) == Backward(acc', front);
          BackwardOk(acc', front);
          MergeKeepsLineages(last, e.popToDiv);
          assert acc'[|acc'| - 1] == m;
        }
      } else {
        assert Backward(acc, events) == Backward(acc, front);
        BackwardOk(acc, front);
        assert SplitPops(events) == SplitPops(front);
      }
    }
  }

  function Reverse<T>(s: seq<T>): (r: seq<T>)
    ensures |r| == |s| && forall i :: 0 <= i < |s| ==> r[i] == s[|s| - 1 - i]
  {
    if s == [] then [] else Reverse(s[1..]) + [s[0]]
  }

  /** `ns_on_splits` as `_moments_inner_func` leaves it: the backward lists
      reversed, without the first (the ancestral sizes). */
  function NsOnSplitsResult(ns: seq<int>, events: seq<Event>): Result<seq<seq<int>>>
  {
    match Backward([ns], events)
    case Ok(out) => Ok(Reverse(out)[1..])
    case Err(e) => Err(e)
  }

  /** One list of sizes per Split event, the `k`-th holding the sizes right
      after the `k`-th split: the last is `ns` itself, each has one population
      more than the one before it, and undoing split `k` gives the list
      before it. */
  lemma NsOnSplitsShape(ns: seq<int>, events: seq<Event>)
    requires NsOnSplitsResult(ns, events).Ok?
    ensures var r, ps := NsOnSplitsResult(ns, events).value, SplitPops(events);
      && |r| == |ps|
      && (|ps| > 0 ==> r[|ps| - 1] == ns)
      && (forall k :: 0 <= k < |ps| ==> |r[k]| == |ns| - (|ps| - 1 - k) && ps[k] + 1 < |r[k]|)
      && (forall k :: 0 < k < |ps| ==> r[k - 1] == Merge(r[k], ps[k]))
  {
    var out, ps := Backward([ns], events).value, SplitPops(events);
    BackwardShape([ns], events);
    var r := NsOnSplitsResult(ns, events).value;
    assert out[0] == [ns][0] == ns;
    forall k | 0 <= k < |ps|
      ensures |r[k]| == |ns| - (|ps| - 1 - k) && ps[k] + 1 < |r[k]|
    {
      assert r[k] == out[|ps| - 1 - k];
      OutSizes(ns, out, ps, |ps| - 1 - k);
    }
    forall k | 0 < k < |ps|
      ensures r[k - 1] == Merge(r[k], ps[k])
    {
      var j := |ps| - k;
      assert r[k - 1] == out[j] && r[k] == out[j - 1];
      assert UndoesSplit(out, ps, j);
    }
  }

  lemma {:induction false} OutSizes(ns: seq<int>, out: seq<seq<int>>, ps: seq<nat>, i: nat)
    requires |out| == 1 + |ps| && out[0] == ns && i <= |ps|
    requires UndoesSplits(out, 1, ps)
    ensures |out[i]| == |ns| - i
    ensures i < |ps| ==> ps[|ps| - 1 - i] + 1 < |out[i]|
  {
    if i > 0 {
      OutSizes(ns, out, ps, i - 1);
      assert UndoesSplit(out, ps, i);
      MergeKeepsLineages(out[i - 1], ps[|out| - 1 - i]);
    }
    if i < |ps| {
      assert UndoesSplit(out, ps, i + 1);
    }
  }

  /** Every list of sizes holds the same total as `ns`: a split only shares
      the lineages of one population out between two. */
  lemma NsOnSplitsKeepsTotal(ns: seq<int>, events: seq<Event>, k: nat)
    requires NsOnSplitsResult(ns, events).Ok?
    requires k < |NsOnSplitsResult(ns, events).value|
    ensures Sum(NsOnSplitsResult(ns, events).value[k]) == Sum(ns)
    decreases |NsOnSplitsResult(ns, events).value| - k
  {
    var r, ps := NsOnSplitsResult(ns, events).value, SplitPops(events);
    NsOnSplitsShape(ns, events);
    if k + 1 < |r| {
      NsOnSplitsKeepsTotal(ns, events, k + 1);
      MergeKeepsLineages(r[k + 1], ps[k + 1]);
    }
  }

  /** The backward pass succeeds exactly when every split divides a population
      that exists before it: the `t`-th split finds `|ns| - (|ps| - t)`
      populations. */
  lemma NsOnSplitsOk(ns: seq<int>, events: seq<Event>)
    ensures var ps := SplitPops(events);
      NsOnSplitsResult(ns, events).Ok? <==>
        forall t :: 0 <= t < |ps| ==> ps[t] < |ns| - (|ps| - t)
  {
    BackwardOk([ns], events);
    assert [ns][0] == ns;
  }

  /** The backward pass of `_moments_inner_func`, as the source writes it. */
  method NsOnSplits(ns: seq<int>, events: seq<Event>) returns (r: Result<seq<seq<int>>>)
    ensures r == NsOnSplitsResult(ns, events)
  {
    var acc := [ns];
    var i := |events|;
    assert events[..i] == events;
    while i > 0
      invariant 0 <= i <= |events| && |acc| > 0
      invariant Backward([ns], events) == Backward(acc, events[..i])
    {
      assert events[..i][..i - 1] == events[..i - 1];
      var e := events[i - 1];
      if e.Split? {
        var last := acc[|acc| - 1];
        if !(e.popToDiv + 1 < |last|) {
          return Err(IndexError);
        }
        acc := acc + [Merge(last, e.popToDiv)];
      }
      i := i - 1;
    }
    assert events[..0] == [];
    r := Ok(Reverse(acc)[1..]);
  }

  // ---------------------------------------------------------------------
  // The split calls
  // ---------------------------------------------------------------------

  /** The function of `moments.Manips` that splits one of `n` populations:
      `split_1D_to_2D` for one population, else
      `split_{n}D_to_{n+1}D_{p+1}`. */
  function SplitFuncName(n: nat, p: nat): string
  {
    if n == 1 then "split_1D_to_2D"
    else "split_" + (NatToString(n) + ("D_to_" + (NatToString(n + 1) + ("D_" + NatToString(p + 1)))))
  }

  /** The length of the run of digits `s` starts with. */
  function DigitRun(s: string): (k: nat)
    ensures k <= |s| && AllDigits(s[..k]) && (k < |s| ==> !IsDigit(s[k]))
  {
    if s == [] || !IsDigit(s[0]) then 0
    else
      var k := DigitRun(s[1..]);
      assert s[..1 + k] == [s[0]] + s[1..][..k];
      1 + k
  }

  lemma {:induction false} DigitRunOf(d: string, rest: string)
    requires AllDigits(d) && (rest == [] || !IsDigit(rest[0]))
    ensures DigitRun(d + rest) == |d|
    decreases |d|
  {
    if d != [] {
      DigitRunOf(d[1..], rest);
      assert (d + rest)[1..] == d[1..] + rest;
    } else {
      assert d + rest == rest;
    }
  }

  /** Reads `n` and `p` back from a multi-population split function name. */
  function ParseSplitName(s: string): Option<(nat, nat)>
  {
    match StripPrefix("split_", s)
    case None => None
    case Some(t) => ParseSplitTail(t)
  }

  /** Reads `n` and `p` back from the `{n}D_to_{n+1}D_{p+1}` tail of a split
      function name. */
  function ParseSplitTail(t: string): Option<(nat, nat)>
  {
    var k := DigitRun(t);
    if k == 0 then None
    else match StripPrefix("D_to_", t[k..])
      case None => None
      case Some(u) =>
        match ParseDividedPop(u)
        case None => None
        case Some(p) => Some((ParseDigits(t[..k]), p))
  }

  /** Reads `p` back from the `{n+1}D_{p+1}` tail of a split function name. */
  function ParseDividedPop(u: string): Option<nat>
  {
    var k := DigitRun(u);
    if k == 0 then None
    else match StripPrefix("D_", u[k..])
      case None => None
      case Some(w) =>
        if |w| == 0 || !AllDigits(w) || ParseDigits(w) == 0 then None
        else Some(ParseDigits(w) - 1)
  }

  /** A run of digits followed by a separator that starts with a non-digit is
      read off whole. */
  lemma DigitsThen(a: string, sep: string, u: string)
    requires |a| > 0 && AllDigits(a) && |sep| > 0 && !IsDigit(sep[0])
    ensures var t := a + (sep + u);
      DigitRun(t) == |a| && t[..|a|] == a && t[|a|..] == sep + u
  {
    DigitRunOf(a, sep + u);
    assert (a + (sep + u))[|a|..] == sep + u;
  }

  lemma ParseDividedPopOf(b: string, c: string)
    requires |b| > 0 && AllDigits(b) && |c| > 0 && AllDigits(c) && ParseDigits(c) > 0
    ensures ParseDividedPop(b + ("D_" + c)) == Some(ParseDigits(c) - 1)
  {
    DigitsThen(b, "D_", c);
    StripPrefixOf("D_", c);
  }

  lemma ParseSplitTailOf(a: string, b: string, c: string)
    requires |a| > 0 && AllDigits(a) && |b| > 0 && AllDigits(b) && |c| > 0 && AllDigits(c)
    requires ParseDigits(c) > 0
    ensures ParseSplitTail(a + ("D_to_" + (b + ("D_" + c)))) == Some((ParseDigits(a), ParseDigits(c) - 1))
  {
    var u := b + ("D_" + c);
    ParseDividedPopOf(b, c);
    DigitsThen(a, "D_to_", u);
    StripPrefixOf("D_to_", u);
  }

  /** The prefix `split_` is read off and the rest parsed as a tail. */
  lemma ParseSplitNamePrefix(tail: string)
    ensures ParseSplitName("split_" + tail) == ParseSplitTail(tail)
  {
    StripPrefixOf("split_", tail);
  }

  /** The name of a split of several populations determines the number of
      populations and the one divided. */
  lemma SplitFuncNameParses(n: nat, p: nat)
    requires n != 1
    ensures ParseSplitName(SplitFuncName(n, p)) == Some((n, p))
  {
    var a, b, c := NatToString(n), NatToString(n + 1), NatToString(p + 1);
    ParseSplitNamePrefix(a + ("D_to_" + (b + ("D_" + c))));
    ParseSplitTailOf(a, b, c);
  }

  /** The name for one population is not the name of any split of several. */
  lemma SingleSplitNameDiffers(p: nat)
    ensures ParseSplitName(SplitFuncName(1, p)) == None
  {
    assert SplitFuncName(1, p) == "split_" + ("1" + ("D_to_" + "2D"));
    ParseSplitNamePrefix("1" + ("D_to_" + "2D"));
    DigitsThen("1", "D_to_", "2D");
    StripPrefixOf("D_to_", "2D");
    DigitsThen("2", "D", "");
  }

  /** Different splits of several populations call different functions. */
  lemma SplitFuncNameInjective(n1: nat, p1: nat, n2: nat, p2: nat)
    requires n1 != 1 && n2 != 1
    requires SplitFuncName(n1, p1) == SplitFuncName(n2, p2)
    ensures n1 == n2 && p1 == p2
  {
    SplitFuncNameParses(n1, p1);
    SplitFuncNameParses(n2, p2);
  }

  /** The split of one population never calls a function meant for several. */
  lemma SplitFuncNamesApart(p1: nat, n2: nat, p2: nat)
    requires n2 != 1
    ensures SplitFuncName(1, p1) != SplitFuncName(n2, p2)
  {
    SingleSplitNameDiffers(p1);
    SplitFuncNameParses(n2, p2);
  }

  /** One call of a split function: its name and the two sample sizes it is
      given, that of the divided population and that of the new one. */
  datatype SplitCall = SplitCall(funcName: string, sizeDivided: int, sizeNew: int)

  /** The split calls of the forward pass, the `n`-th Split reading the `n`-th
      list of `nsOnSplits`; an index the lists do not have is an `IndexError`. */
  function SplitPlan(events: seq<Event>, nsOnSplits: seq<seq<int>>, n: nat): Result<seq<SplitCall>>
  {
    if events == [] then Ok([])
    else
      var e := events[0];
      if e.Epoch? then SplitPlan(events[1..], nsOnSplits, n)
      else if n < |nsOnSplits| && e.popToDiv < |nsOnSplits[n]| then
        var sizes := nsOnSplits[n];
        var call := SplitCall(SplitFuncName(e.nPop, e.popToDiv), sizes[e.popToDiv], sizes[|sizes| - 1]);
        match SplitPlan(events[1..], nsOnSplits, n + 1)
        case Ok(rest) => Ok([call] + rest)
        case Err(err) => Err(err)
      else Err(IndexError)
  }

  function Then(done: seq<SplitCall>, rest: Result<seq<SplitCall>>): Result<seq<SplitCall>>
  {
    match rest
    case Ok(calls) => Ok(done + calls)
    case Err(err) => Err(err)
  }

  /** The split half of the forward pass of `_moments_inner_func`, with its
      `n_split` counter. */
  method SplitCalls(events: seq<Event>, nsOnSplits: seq<seq<int>>) returns (r: Result<seq<SplitCall>>)
    ensures r == SplitPlan(events, nsOnSplits, 0)
  {
    var calls := [];
    var nSplit := 0;
    assert events[0..] == events;
    match SplitPlan(events, nsOnSplits, 0) {
      case Ok(all) => assert [] + all == all;
      case Err(_) =>
    }
    for i := 0 to |events|
      invariant SplitPlan(events, nsOnSplits, 0) == Then(calls, SplitPlan(events[i..], nsOnSplits, nSplit))
    {
      var e := events[i];
      assert events[i..][1..] == events[i + 1..];
      if e.Split? {
        if !(nSplit < |nsOnSplits| && e.popToDiv < |nsOnSplits[nSplit]|) {
          return Err(IndexError);
        }
        var sizes := nsOnSplits[nSplit];
        var call := SplitCall(SplitFuncName(e.nPop, e.popToDiv), sizes[e.popToDiv], sizes[|sizes| - 1]);
        match SplitPlan(events[i + 1..], nsOnSplits, nSplit + 1) {
          case Ok(rest) => assert calls + ([call] + rest) == (calls + [call]) + rest;
          case Err(_) =>
        }
        calls := calls + [call];
        nSplit := nSplit + 1;
      }
    }
    assert events[|events|..] == [];
    assert calls + [] == calls;
    r := Ok(calls);
  }

  /** The `n_pop` of every Split event, in the order of the events. */
  function SplitWidths(events: seq<Event>): (ns: seq<nat>)
    ensures |ns| == |SplitPops(events)|
  {
    if events == [] then []
    else
      var last := events[|events| - 1];
      SplitWidths(events[..|events| - 1]) + (if last.Split? then [last.nPop] else [])
  }

  /** The splits of a list of events are those of its first event followed by
      those of the rest. */
  lemma {:induction false} SplitsCons(events: seq<Event>)
    requires |events| > 0
    ensures var e := events[0];
      && SplitPops(events) == (if e.Split? then [e.popToDiv] else []) + SplitPops(events[1..])
      && SplitWidths(events) == (if e.Split? then [e.nPop] else []) + SplitWidths(events[1..])
    decreases |events|
  {
    if |events| > 1 {
      var front := events[..|events| - 1];
      SplitsCons(front);
      assert front[1..] == events[1..][..|events| - 2];
      assert front[0] == events[0];
    }
  }

  /** `call` is the split of population `p` of `width` populations, given
      the sizes of `p` and of the new population in `sizes`. */
  predicate CallReads(call: SplitCall, width: nat, p: nat, sizes: seq<int>)
    requires p + 1 < |sizes|
  {
    call == SplitCall(SplitFuncName(width, p), sizes[p], sizes[|sizes| - 1])
  }

  /** Call `k` of `calls` is split `k` of `ps` (of `widths[k]` populations),
      reading list `n + k` of `nsOnSplits`. */
  predicate PlanReads(calls: seq<SplitCall>, widths: seq<nat>, ps: seq<nat>, nsOnSplits: seq<seq<int>>, n: nat)
  {
    && |calls| == |ps| == |widths|
    && n + |ps| <= |nsOnSplits|
    && forall k :: 0 <= k < |ps| ==> ReadsAt(calls, widths, ps, nsOnSplits, n, k)
  }

  /** Call `k` of `calls` is split `k` of `ps`, reading list `n + k`. */
  predicate ReadsAt(calls: seq<SplitCall>, widths: seq<nat>, ps: seq<nat>, nsOnSplits: seq<seq<int>>, n: nat, k: nat)
  {
    && k < |calls| && k < |widths| && k < |ps| && n + k < |nsOnSplits|
    && ps[k] + 1 < |nsOnSplits[n + k]| && CallReads(calls[k], widths[k], ps[k], nsOnSplits[n + k])
  }

  lemma PlanReadsCons(call: SplitCall, rest: seq<SplitCall>, w: nat, ws: seq<nat>, p: nat, ps: seq<nat>,
                      nsOnSplits: seq<seq<int>>, n: nat)
    requires PlanReads(rest, ws, ps, nsOnSplits, n + 1)
    requires n < |nsOnSplits| && p + 1 < |nsOnSplits[n]| && CallReads(call, w, p, nsOnSplits[n])
    ensures PlanReads([call] + rest, [w] + ws, [p] + ps, nsOnSplits, n)
  {
    var calls, ws', ps' := [call] + rest, [w] + ws, [p] + ps;
    forall k | 0 <= k < |ps'|
      ensures ReadsAt(calls, ws', ps', nsOnSplits, n, k)
    {
      if k > 0 {
        var t := k - 1;
        assert ReadsAt(rest, ws, ps, nsOnSplits, n + 1, t);
        assert calls[k] == rest[t] && ws'[k] == ws[t] && ps'[k] == ps[t] && n + k == n + 1 + t;
      }
    }
  }

  /** The forward pass, given lists with the indexes the splits read, calls
      one split function per Split event, the `k`-th reading list `n + k`. */
  lemma {:induction false} SplitPlanReads(events: seq<Event>, nsOnSplits: seq<seq<int>>, n: nat)
    requires n + |SplitPops(events)| <= |nsOnSplits|
    requires forall k :: 0 <= k < |SplitPops(events)| ==> SplitPops(events)[k] + 1 < |nsOnSplits[n + k]|
    ensures SplitPlan(events, nsOnSplits, n).Ok?
    ensures PlanReads(SplitPlan(events, nsOnSplits, n).value, SplitWidths(events), SplitPops(events), nsOnSplits, n)
    decreases |events|
  {
    if events == [] {
      return;
    }
    var e := events[0];
    SplitsCons(events);
    var ps, ps' := SplitPops(events), SplitPops(events[1..]);
    var ws, ws' := SplitWidths(events), SplitWidths(events[1..]);
    if e.Split? {
      forall k | 0 <= k < |ps'| ensures ps'[k] + 1 < |nsOnSplits[n + 1 + k]| {
        assert ps[k + 1] == ps'[k];
      }
      SplitPlanReads(events[1..], nsOnSplits, n + 1);
      assert ps[0] + 1 < |nsOnSplits[n]|;
      SplitPlanReadsHead(events, nsOnSplits, n);
    } else {
      assert ps == ps' && ws == ws';
      assert SplitPlan(events, nsOnSplits, n) == SplitPlan(events[1..], nsOnSplits, n);
      SplitPlanReads(events[1..], nsOnSplits, n);
    }
  }

  /** A Split event at the head of `events` puts its call in front of the
      calls of the rest. */
  lemma SplitPlanReadsHead(events: seq<Event>, nsOnSplits: seq<seq<int>>, n: nat)
    requires |events| > 0 && events[0].Split?
    requires n < |nsOnSplits| && events[0].popToDiv + 1 < |nsOnSplits[n]|
    requires SplitPlan(events[1..], nsOnSplits, n + 1).Ok?
    requires PlanReads(SplitPlan(events[1..], nsOnSplits, n + 1).value,
                       SplitWidths(events[1..]), SplitPops(events[1..]), nsOnSplits, n + 1)
    ensures SplitPlan(events, nsOnSplits, n).Ok?
    ensures PlanReads(SplitPlan(events, nsOnSplits, n).value, SplitWidths(events), SplitPops(events), nsOnSplits, n)
  {
    var e := events[0];
    var rest := SplitPlan(events[1..], nsOnSplits, n + 1).value;
    var sizes := nsOnSplits[n];
    var call := SplitCall(SplitFuncName(e.nPop, e.popToDiv), sizes[e.popToDiv], sizes[|sizes| - 1]);
    SplitPlanHead(events, nsOnSplits, n);
    var ws', ps' := SplitWidths(events[1..]), SplitPops(events[1..]);
    assert CallReads(call, e.nPop, e.popToDiv, sizes);
    PlanReadsCons(call, rest, e.nPop, ws', e.popToDiv, ps', nsOnSplits, n);
    SplitsCons(events);
    assert SplitWidths(events) == [e.nPop] + ws' && SplitPops(events) == [e.popToDiv] + ps';
  }

  lemma SplitPlanHead(events: seq<Event>, nsOnSplits: seq<seq<int>>, n: nat)
    requires |events| > 0 && events[0].Split?
    requires n < |nsOnSplits| && events[0].popToDiv < |nsOnSplits[n]|
    requires SplitPlan(events[1..], nsOnSplits, n + 1).Ok?
    ensures var e, sizes := events[0], nsOnSplits[n];
      SplitPlan(events, nsOnSplits, n)
        == Ok([SplitCall(SplitFuncName(e.nPop, e.popToDiv), sizes[e.popToDiv], sizes[|sizes| - 1])]
              + SplitPlan(events[1..], nsOnSplits, n + 1).value)
  {
  }

  /** Each split function is given the sample sizes of the divided population
      and of the new one right after that split: call `k` reads list `k`. */
  lemma SplitPairsRead(ns: seq<int>, events: seq<Event>)
    requires NsOnSplitsResult(ns, events).Ok?
    ensures SplitPlan(events, NsOnSplitsResult(ns, events).value, 0).Ok?
    ensures var r := NsOnSplitsResult(ns, events).value;
      PlanReads(SplitPlan(events, r, 0).value, SplitWidths(events), SplitPops(events), r, 0)
  {
    var r, ps := NsOnSplitsResult(ns, events).value, SplitPops(events);
    NsOnSplitsShape(ns, events);
    forall k | 0 <= k < |ps| ensures ps[k] + 1 < |r[0 + k]| {
      assert r[0 + k] == r[k];
    }
    SplitPlanReads(events, r, 0);
  }

  /** The two sizes the `k`-th split function is given together hold the
      lineages the divided population had before that split. The sizes
      before split `k` are entry `|ps| - k` of the backward pass; for the
      first split that is the ancestral entry `ns_on_splits` drops. */
  lemma SplitPairsShareLineages(ns: seq<int>, events: seq<Event>, k: nat)
    requires NsOnSplitsResult(ns, events).Ok?
    requires k < |SplitPops(events)|
    ensures Backward([ns], events).Ok?
    ensures SplitPlan(events, NsOnSplitsResult(ns, events).value, 0).Ok?
    ensures var out, ps := Backward([ns], events).value, SplitPops(events);
      var calls := SplitPlan(events, NsOnSplitsResult(ns, events).value, 0).value;
      && |calls| == |ps| && |out| == |ps| + 1
      && ps[k] < |out[|ps| - k]|
      && calls[k].sizeDivided + calls[k].sizeNew == out[|ps| - k][ps[k]]
  {
    var r, ps := NsOnSplitsResult(ns, events).value, SplitPops(events);
    var out := Backward([ns], events).value;
    BackwardShape([ns], events);
    SplitPairsRead(ns, events);
    var calls := SplitPlan(events, r, 0).value;
    assert ReadsAt(calls, SplitWidths(events), ps, r, 0, k);
    assert ps[k] + 1 < |r[0 + k]| && CallReads(calls[k], SplitWidths(events)[k], ps[k], r[0 + k]);
    var j := |ps| - k;
    assert r[k] == out[j - 1];
    assert UndoesSplit(out, ps, j);
  }
}
