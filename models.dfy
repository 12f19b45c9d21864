/** The variable pool of a demographic model (gadma/models/model.py).

    A `Model` keeps every variable it was given in an ordered pool, a flag per
    pool entry saying whether the variable is fixed, and the values of the
    fixed variables.  The optimizer only ever sees the unfixed variables.
    The pure view of that state is `PoolState`; the functions over it specify
    the methods of the class `Model`. */
module Models {
  import opened Results
  import opened Strings

  /** A value a variable can take: a number, or a word such as a dynamics
      name (`'Sud'`, `'Lin'`, `'Exp'`). */
  datatype Value = Num(x: real) | Text(s: string)

  datatype Domain = Continuous(lower: real, upper: real) | Discrete(choices: seq<Value>)

  /** A named parameter of a model; its value is never stored in it. */
  datatype Variable = Variable(name: string, domain: Domain)

  ghost predicate NoDup<T>(s: seq<T>)
  {
    forall i, j :: 0 <= i < j < |s| ==> s[i] != s[j]
  }

  /** `s` with every occurrence of `x` taken out, the rest in order. */
  function Without(s: seq<Variable>, x: Variable): (r: seq<Variable>)
    ensures x !in r
    ensures forall y :: y in r <==> y in s && y != x
  {
    if |s| == 0 then []
    else Without(s[..|s| - 1], x) + (if s[|s| - 1] == x then [] else [s[|s| - 1]])
  }

  /** The pool entries whose flag is false, in pool order (the `variables` property). */
  function Unfixed(pool: seq<Variable>, flags: seq<bool>): (r: seq<Variable>)
    requires |flags| == |pool|
    ensures |r| <= |pool|
    ensures forall v :: v in r <==> exists i :: 0 <= i < |pool| && pool[i] == v && !flags[i]
  {
    if |pool| == 0 then []
    else
      var n := |pool| - 1;
      var front := Unfixed(pool[..n], flags[..n]);
      assert forall i :: 0 <= i < n ==> pool[..n][i] == pool[i] && flags[..n][i] == flags[i];
      front + (if flags[n] then [] else [pool[n]])
  }

  /** The abstract state of a `Model`: `_variables`, `is_fixed`, `fixed_values`. */
  datatype PoolState = PoolState(pool: seq<Variable>, isFixed: seq<bool>, fixedValues: map<Variable, Value>)
  {
    ghost predicate Valid() { |isFixed| == |pool| }

    function Variables(): seq<Variable>
      requires Valid()
    {
      Unfixed(pool, isFixed)
    }
  }

  /** The state the model's own operations keep: no variable twice in the pool,
      and a variable is flagged fixed exactly when it has a fixed value. */
  ghost predicate Consistent(s: PoolState)
  {
    && s.Valid()
    && NoDup(s.pool)
    && (forall i :: 0 <= i < |s.pool| ==> (s.isFixed[i] <==> s.pool[i] in s.fixedValues))
    && (forall k :: k in s.fixedValues ==> k in s.pool)
  }

  /** Python's `list.index`: the first position holding `v`. */
  function IndexOf(pool: seq<Variable>, v: Variable): (k: nat)
    requires v in pool
    ensures k < |pool| && pool[k] == v
    ensures forall j :: 0 <= j < k ==> pool[j] != v
  {
    if pool[0] == v then 0 else 1 + IndexOf(pool[1..], v)
  }

  // ---------------------------------------------------------------- the order of `variables`

  /** The unfixed view distributes over concatenation, so it keeps pool order. */
  lemma {:induction false} UnfixedConcat(p1: seq<Variable>, f1: seq<bool>, p2: seq<Variable>, f2: seq<bool>)
    requires |f1| == |p1| && |f2| == |p2|
    ensures Unfixed(p1 + p2, f1 + f2) == Unfixed(p1, f1) + Unfixed(p2, f2)
    decreases |p2|
  {
    if |p2| > 0 {
      var n := |p2| - 1;
      UnfixedConcat(p1, f1, p2[..n], f2[..n]);
      assert (p1 + p2)[..|p1| + n] == p1 + p2[..n];
      assert (f1 + f2)[..|f1| + n] == f1 + f2[..n];
    } else {
      assert p1 + p2 == p1 && f1 + f2 == f1;
    }
  }

  /** With no flag set, the unfixed view is the whole pool. */
  lemma {:induction false} UnfixedAllFree(pool: seq<Variable>)
    ensures Unfixed(pool, seq(|pool|, _ => false)) == pool
    decreases |pool|
  {
    if |pool| > 0 {
      var n := |pool| - 1;
      UnfixedAllFree(pool[..n]);
      assert seq(|pool|, _ => false)[..n] == seq(n, _ => false);
    }
  }

  lemma {:induction false} WithoutAbsent(s: seq<Variable>, x: Variable)
    requires x !in s
    ensures Without(s, x) == s
    decreases |s|
  {
    if |s| > 0 {
      WithoutAbsent(s[..|s| - 1], x);
    }
  }

  lemma {:induction false} WithoutConcat(s: seq<Variable>, t: seq<Variable>, x: Variable)
    ensures Without(s + t, x) == Without(s, x) + Without(t, x)
    decreases |t|
  {
    if |t| > 0 {
      var n := |t| - 1;
      WithoutConcat(s, t[..n], x);
      assert (s + t)[..|s| + n] == s + t[..n];
    } else {
      assert s + t == s;
    }
  }

  /** Setting the flag of the (only) entry holding `pool[i]` removes exactly that
      variable from the unfixed view and leaves the others in their order. */
  lemma {:induction false} UnfixedSetFlag(pool: seq<Variable>, flags: seq<bool>, i: nat)
    requires |flags| == |pool| && i < |pool| && NoDup(pool)
    ensures Unfixed(pool, flags[i := true]) == Without(Unfixed(pool, flags), pool[i])
    decreases |pool|
  {
    var n := |pool| - 1;
    var front := Unfixed(pool[..n], flags[..n]);
    var last := if flags[n] then [] else [pool[n]];
    assert Unfixed(pool, flags) == front + last;
    if i == n {
      assert flags[i := true][..n] == flags[..n];
      assert pool[i] !in front;
      WithoutAbsent(front, pool[i]);
      WithoutConcat(front, last, pool[i]);
    } else {
      assert flags[i := true][..n] == flags[..n][i := true];
      assert pool[..n][i] == pool[i];
      UnfixedSetFlag(pool[..n], flags[..n], i);
      WithoutConcat(front, last, pool[i]);
      assert pool[n] != pool[i];
    }
  }

  // ---------------------------------------------------------------- the setter

  /** `model.variables = vs`: the pool is replaced and every flag reset to false;
      `fixed_values` is left as it was. */
  function Replaced(s: PoolState, vs: seq<Variable>): (r: PoolState)
    ensures r.Valid() && r.pool == vs && r.fixedValues == s.fixedValues
    ensures r.Variables() == vs
  {
    UnfixedAllFree(vs);
    PoolState(vs, seq(|vs|, _ => false), s.fixedValues)
  }

  /** Because the setter keeps `fixed_values`, the model is consistent afterwards
      exactly when the new pool has no repeats and nothing was fixed before. */
  lemma ReplacedConsistent(s: PoolState, vs: seq<Variable>)
    ensures Consistent(Replaced(s, vs)) <==> NoDup(vs) && s.fixedValues == map[]
  {
  }

  // ---------------------------------------------------------------- add_variable

  /** `add_variable(v)` for a Variable: appended with a false flag unless it is
      already in the pool (fixed or not). */
  function Add(s: PoolState, v: Variable): PoolState
  {
    if v in s.pool then s else PoolState(s.pool + [v], s.isFixed + [false], s.fixedValues)
  }

  /** Adding the variables of `vs` one after the other (adding a Model adds its
      unfixed variables this way). */
  function AddAll(s: PoolState, vs: seq<Variable>): PoolState
    decreases |vs|
  {
    if |vs| == 0 then s else AddAll(Add(s, vs[0]), vs[1..])
  }

  /** Adding a variable keeps the state consistent; a new variable joins the
      end of `variables`, a known one (even a fixed one) changes nothing. */
  lemma AddEffect(s: PoolState, v: Variable)
    requires Consistent(s)
    ensures Consistent(Add(s, v))
    ensures v in s.pool ==> Add(s, v) == s
    ensures v !in s.pool ==> Add(s, v).Variables() == s.Variables() + [v]
    ensures v in Add(s, v).pool && Add(s, v).fixedValues == s.fixedValues
  {
    if v !in s.pool {
      AppendKeepsConsistent(s, v);
      UnfixedConcat(s.pool, s.isFixed, [v], [false]);
      assert Unfixed([v], [false]) == [v] by {
        assert [v][..0] == [] && [false][..0] == [];
      }
    }
  }

  lemma AppendKeepsConsistent(s: PoolState, v: Variable)
    requires Consistent(s) && v !in s.pool
    ensures Consistent(PoolState(s.pool + [v], s.isFixed + [false], s.fixedValues))
  {
    var pool, flags := s.pool + [v], s.isFixed + [false];
    forall i, j | 0 <= i < j < |pool|
      ensures pool[i] != pool[j]
    {
      if j < |s.pool| {
        assert pool[i] == s.pool[i] && pool[j] == s.pool[j];
      } else {
        assert pool[i] == s.pool[i] && pool[j] == v;
      }
    }
    forall i | 0 <= i < |pool|
      ensures flags[i] <==> pool[i] in s.fixedValues
    {
      if i < |s.pool| {
        assert flags[i] == s.isFixed[i] && pool[i] == s.pool[i];
      }
    }
  }

  /** The variables of `vs` that are not in `seen`, each at its first
      occurrence, in the order of `vs`. */
  function FirstNew(seen: seq<Variable>, vs: seq<Variable>): (r: seq<Variable>)
    ensures forall v :: v in r <==> v in vs && v !in seen
    decreases |vs|
  {
    if |vs| == 0 then []
    else
      var n := |vs| - 1;
      var x := vs[n];
      assert vs == vs[..n] + [x];
      FirstNew(seen, vs[..n]) + (if x in seen || x in vs[..n] then [] else [x])
  }

  lemma {:induction false} AddAllSnoc(s: PoolState, vs: seq<Variable>, x: Variable)
    ensures AddAll(s, vs + [x]) == Add(AddAll(s, vs), x)
    decreases |vs|
  {
    if |vs| > 0 {
      assert (vs + [x])[1..] == vs[1..] + [x];
      AddAllSnoc(Add(s, vs[0]), vs[1..], x);
    }
  }

  /** Adding several variables appends exactly the new ones, at their first
      occurrence and in order, each with a false flag. */
  lemma {:induction false} AddAllPool(s: PoolState, vs: seq<Variable>)
    ensures AddAll(s, vs).pool == s.pool + FirstNew(s.pool, vs)
    ensures AddAll(s, vs).isFixed == s.isFixed + seq(|FirstNew(s.pool, vs)|, _ => false)
    ensures AddAll(s, vs).fixedValues == s.fixedValues
    decreases |vs|
  {
    if |vs| > 0 {
      var n := |vs| - 1;
      var front, x := vs[..n], vs[n];
      assert vs == front + [x];
      AddAllSnoc(s, front, x);
      AddAllPool(s, front);
      var t := AddAll(s, front);
      assert x in t.pool <==> x in s.pool || x in front;
    }
  }

  /** Adding several variables keeps the state consistent and leaves
      `fixed_values` alone; `variables` gains exactly the variables of `vs`
      not yet in the pool, in the order of `vs`, and every variable of `vs`
      ends up in the pool. */
  lemma {:induction false} AddAllEffect(s: PoolState, vs: seq<Variable>)
    requires Consistent(s)
    ensures Consistent(AddAll(s, vs))
    ensures AddAll(s, vs).pool == s.pool + FirstNew(s.pool, vs)
    ensures AddAll(s, vs).Variables() == s.Variables() + FirstNew(s.pool, vs)
    ensures AddAll(s, vs).fixedValues == s.fixedValues
    ensures forall v :: v in vs ==> v in AddAll(s, vs).pool
    decreases |vs|
  {
    AddAllPool(s, vs);
    var added := FirstNew(s.pool, vs);
    UnfixedConcat(s.pool, s.isFixed, added, seq(|added|, _ => false));
    UnfixedAllFree(added);
    if |vs| > 0 {
      var t := Add(s, vs[0]);
      AddEffect(s, vs[0]);
      AddAllEffect(t, vs[1..]);
    }
  }

  /** Something that can be handed to `add_variable`. */
  datatype Item = AVariable(v: Variable) | AModel(m: Model) | Foreign

  /** Something found in the (flattened) argument of `add_variables`. */
  datatype Entry = EVariable(v: Variable) | EForeign

  /** `add_variables`: entries are added in order; a foreign entry raises
      ValueError when the model raises on them, and is skipped otherwise.
      The additions made before the exception stay made. */
  function AddEntries(s: PoolState, raiseExcep: bool, es: seq<Entry>): (r: (PoolState, Option<Error>))
    decreases |es|
  {
    if |es| == 0 then (s, None)
    else match es[0]
      case EVariable(v) => AddEntries(Add(s, v), raiseExcep, es[1..])
      case EForeign => if raiseExcep then (s, Some(ValueError)) else AddEntries(s, raiseExcep, es[1..])
  }

  /** Without foreign entries, `add_variables` is adding the variables one by one. */
  function VariablesOf(es: seq<Entry>): seq<Variable>
  {
    if |es| == 0 then []
    else (if es[0].EVariable? then [es[0].v] else []) + VariablesOf(es[1..])
  }

  /** Python's `list.index(x)` for the first foreign entry. */
  function FirstForeign(es: seq<Entry>): (k: nat)
    requires EForeign in es
    ensures k < |es| && es[k] == EForeign
    ensures forall j :: 0 <= j < k ==> es[j] != EForeign
  {
    if es[0] == EForeign then 0 else 1 + FirstForeign(es[1..])
  }

  /** `add_variables` fails exactly when the model raises and some entry is
      foreign. Without the failure it adds exactly the variables among the
      entries; with it, the variables before the first foreign entry stay
      added and nothing after it is. */
  lemma {:induction false} AddEntriesEffect(s: PoolState, raiseExcep: bool, es: seq<Entry>)
    ensures AddEntries(s, raiseExcep, es).1.Some? <==> raiseExcep && EForeign in es
    ensures AddEntries(s, raiseExcep, es).1.Some? ==> AddEntries(s, raiseExcep, es).1 == Some(ValueError)
    ensures AddEntries(s, raiseExcep, es).1.None? ==> AddEntries(s, raiseExcep, es).0 == AddAll(s, VariablesOf(es))
    ensures AddEntries(s, raiseExcep, es).1.Some? ==>
      AddEntries(s, raiseExcep, es).0 == AddAll(s, VariablesOf(es[..FirstForeign(es)]))
    decreases |es|
  {
    if |es| > 0 {
      match es[0]
      case EVariable(v) =>
        AddEntriesEffect(Add(s, v), raiseExcep, es[1..]);
        assert EForeign in es <==> EForeign in es[1..] by {
          assert es == [es[0]] + es[1..];
        }
        if raiseExcep && EForeign in es {
          var k := FirstForeign(es);
          assert k == 1 + FirstForeign(es[1..]);
          assert es[..k][1..] == es[1..][..k - 1];
        }
      case EForeign =>
        AddEntriesEffect(s, raiseExcep, es[1..]);
        assert VariablesOf(es) == VariablesOf(es[1..]);
        assert es[..0] == [];
    }
  }

  function Flatten<T>(rows: seq<seq<T>>): seq<T>
  {
    if |rows| == 0 then [] else rows[0] + Flatten(rows[1..])
  }

  // ---------------------------------------------------------------- fix / unfix

  /** `fix_variable(v, value)`: ValueError unless `v` is currently unfixed;
      otherwise the first pool entry holding `v` is flagged and the value recorded. */
  function Fix(s: PoolState, v: Variable, value: Value): (r: Result<PoolState>)
    requires s.Valid()
    ensures r.Err? <==> v !in s.Variables()
    ensures r.Ok? ==> r.value.Valid() && r.value.fixedValues == s.fixedValues[v := value]
  {
    if v !in s.Variables() then Err(ValueError)
    else Ok(PoolState(s.pool, s.isFixed[IndexOf(s.pool, v) := true], s.fixedValues[v := value]))
  }

  /** `unfix_variable(v)`: ValueError unless `v` has a fixed value (and, through
      `list.index`, unless it is in the pool); otherwise its flag is cleared and
      its value forgotten. */
  function Unfix(s: PoolState, v: Variable): (r: Result<PoolState>)
    requires s.Valid()
    ensures Consistent(s) ==> (r.Err? <==> v !in s.fixedValues)
    ensures r.Ok? ==> r.value.Valid() && r.value.fixedValues == s.fixedValues - {v}
  {
    if v !in s.fixedValues then Err(ValueError)
    else if v !in s.pool then Err(ValueError)
    else Ok(PoolState(s.pool, s.isFixed[IndexOf(s.pool, v) := false], s.fixedValues - {v}))
  }

  /** On success, fixing removes exactly `v` from `variables`, records its value
      and keeps the model consistent; the pool itself does not change. */
  lemma FixEffect(s: PoolState, v: Variable, value: Value)
    requires Consistent(s) && v in s.Variables()
    ensures Fix(s, v, value).Ok?
    ensures Fix(s, v, value).value.Variables() == Without(s.Variables(), v)
    ensures Fix(s, v, value).value.pool == s.pool
    ensures Fix(s, v, value).value.fixedValues[v] == value
    ensures Consistent(Fix(s, v, value).value)
  {
    var k := IndexOf(s.pool, v);
    UnfixedSetFlag(s.pool, s.isFixed, k);
  }

  /** Unfixing keeps the model consistent and puts `v` back among `variables`. */
  lemma UnfixEffect(s: PoolState, v: Variable)
    requires Consistent(s) && v in s.fixedValues
    ensures Unfix(s, v).Ok?
    ensures Consistent(Unfix(s, v).value)
    ensures v in Unfix(s, v).value.Variables() && Unfix(s, v).value.pool == s.pool
  {
    var k := IndexOf(s.pool, v);
    var r := Unfix(s, v).value;
    assert !r.isFixed[k];
  }

  /** Fixing an unfixed variable and then unfixing it restores the model exactly. */
  lemma FixThenUnfix(s: PoolState, v: Variable, value: Value)
    requires Consistent(s) && v in s.Variables()
    ensures Fix(s, v, value).Ok?
    ensures Unfix(Fix(s, v, value).value, v) == Ok(s)
  {
    var k := IndexOf(s.pool, v);
    var i :| 0 <= i < |s.pool| && s.pool[i] == v && !s.isFixed[i];
    assert i == k;
    assert v !in s.fixedValues;
    var t := Fix(s, v, value).value;
    assert t.fixedValues - {v} == s.fixedValues;
    assert t.isFixed[k := false] == s.isFixed;
  }

  /** Unfixing a fixed variable and fixing it again at its old value restores the model. */
  lemma UnfixThenFix(s: PoolState, v: Variable)
    requires Consistent(s) && v in s.fixedValues
    ensures Unfix(s, v).Ok?
    ensures Fix(Unfix(s, v).value, v, s.fixedValues[v]) == Ok(s)
  {
    var k := IndexOf(s.pool, v);
    var t := Unfix(s, v).value;
    assert !t.isFixed[k];
    assert v in t.Variables();
    assert t.fixedValues[v := s.fixedValues[v]] == s.fixedValues;
    assert t.isFixed[k := true] == s.isFixed;
  }

  // ---------------------------------------------------------------- unfix_if_fixed

  /** `unfix_if_fixed` as written: it calls `self.unfix`, which `Model` does not
      define, so every call raises AttributeError (not the ValueError it catches). */
  function UnfixIfFixedAsWritten(s: PoolState, v: Variable): Result<PoolState>
  {
    Err(AttributeError)
  }

  /** `unfix_if_fixed` as intended: unfix, and swallow the ValueError raised for
      a variable that is not fixed. */
  function UnfixIfFixed(s: PoolState, v: Variable): (r: PoolState)
    requires s.Valid()
    ensures r.Valid()
    ensures Consistent(s) ==> v !in r.fixedValues
    ensures v !in s.fixedValues ==> r == s
  {
    match Unfix(s, v)
    case Ok(t) => t
    case Err(_) => s
  }

  /** The discrepancy: for a fixed variable the written code fails, while the
      intended operation succeeds and leaves the model consistent with `v` unfixed. */
  lemma UnfixIfFixedDiffers(s: PoolState, v: Variable)
    requires Consistent(s) && v in s.fixedValues
    ensures UnfixIfFixedAsWritten(s, v).Err?
    ensures UnfixIfFixed(s, v) == Unfix(s, v).value
    ensures Consistent(UnfixIfFixed(s, v)) && v in UnfixIfFixed(s, v).Variables()
  {
    UnfixEffect(s, v);
  }

  // ---------------------------------------------------------------- var2value

  /** What `var2value` accepts: a list (or array) of values, a dict keyed by
      variable names, a dict keyed by variables, or anything else. */
  datatype Values =
    | ByPosition(xs: seq<Value>)
    | ByName(named: map<string, Value>)
    | ByVariable(keyed: map<Variable, Value>)
    | Unsupported

  /** Python's `{v: x for v, x in zip(vs, xs)}`: `zip` stops at the shorter
      sequence, and a later repeat of a key overwrites an earlier one. */
  function ZipMap(vs: seq<Variable>, xs: seq<Value>): (m: map<Variable, Value>)
    ensures forall v :: v in m <==> exists i :: 0 <= i < |vs| && i < |xs| && vs[i] == v
    decreases |vs|
  {
    if |vs| == 0 || |xs| == 0 then map[]
    else
      var rest := ZipMap(vs[1..], xs[1..]);
      assert forall i :: 1 <= i < |vs| ==> vs[1..][i - 1] == vs[i];
      map[vs[0] := xs[0]] + rest
  }

  /** Without repeats, the i-th variable is mapped to the i-th value. */
  lemma {:induction false} ZipMapAt(vs: seq<Variable>, xs: seq<Value>, i: nat)
    requires NoDup(vs) && i < |vs| && i < |xs|
    ensures vs[i] in ZipMap(vs, xs) && ZipMap(vs, xs)[vs[i]] == xs[i]
    decreases i
  {
    if i > 0 {
      ZipMapAt(vs[1..], xs[1..], i - 1);
    }
  }

  /** Whether `values` is an empty dict: its loop over the keys never runs,
      so the result is never bound. */
  predicate EmptyDict(values: Values)
  {
    || (values.ByName? && |values.named| == 0)
    || (values.ByVariable? && |values.keyed| == 0)
  }

  /** `var2value(values)`: the unfixed variables mapped to the given values,
      merged with `fixed_values`, fixed values taking precedence. An empty
      dict reaches the merge with the result name unbound. */
  function Var2Value(s: PoolState, values: Values): (r: Result<map<Variable, Value>>)
    requires s.Valid()
    ensures r.Err? <==>
      || values.Unsupported?
      || EmptyDict(values)
      || (values.ByName? && exists v :: v in s.Variables() && v.name !in values.named)
      || (values.ByVariable? && exists v :: v in s.Variables() && v !in values.keyed)
    ensures r == Err(TypeError) <==> values.Unsupported?
    ensures r == Err(UnboundLocalError) <==> EmptyDict(values)
    ensures r.Ok? ==> forall k :: k in s.fixedValues ==> k in r.value && r.value[k] == s.fixedValues[k]
    ensures r.Err? && !values.Unsupported? && !EmptyDict(values) ==> r == Err(KeyError)
    ensures r.Ok? && !values.ByPosition? ==> forall v :: v in s.Variables() ==> v in r.value
    ensures r.Ok? && values.ByName? ==>
      forall v :: v in s.Variables() && v !in s.fixedValues ==> r.value[v] == values.named[v.name]
    ensures r.Ok? && values.ByVariable? ==>
      forall v :: v in s.Variables() && v !in s.fixedValues ==> r.value[v] == values.keyed[v]
  {
    var vars := s.Variables();
    match values
    case ByPosition(xs) => Ok(ZipMap(vars, xs) + s.fixedValues)
    case ByName(named) =>
      if |named| == 0 then Err(UnboundLocalError)
      else if forall v :: v in vars ==> v.name in named
      then Ok((map v | v in vars :: named[v.name]) + s.fixedValues)
      else Err(KeyError)
    case ByVariable(keyed) =>
      if |keyed| == 0 then Err(UnboundLocalError)
      else if forall v :: v in vars ==> v in keyed
      then Ok((map v | v in vars :: keyed[v]) + s.fixedValues)
      else Err(KeyError)
    case Unsupported => Err(TypeError)
  }

  /** For a list of values on a consistent model: the i-th unfixed variable gets
      the i-th value (fixed variables keep theirs, by the contract of `Var2Value`). */
  lemma Var2ValuePositional(s: PoolState, xs: seq<Value>, i: nat)
    requires Consistent(s) && i < |s.Variables()| && i < |xs|
    ensures Var2Value(s, ByPosition(xs)).Ok?
    ensures Var2Value(s, ByPosition(xs)).value[s.Variables()[i]] == xs[i]
  {
    var vars := s.Variables();
    UnfixedNoDup(s.pool, s.isFixed);
    ZipMapAt(vars, xs, i);
    assert vars[i] in vars;
    var j :| 0 <= j < |s.pool| && s.pool[j] == vars[i] && !s.isFixed[j];
    assert vars[i] !in s.fixedValues;
  }

  /** Given at least one value per unfixed variable, a consistent model maps
      exactly the variables of its pool. */
  lemma Var2ValueCovers(s: PoolState, xs: seq<Value>)
    requires Consistent(s) && |xs| >= |s.Variables()|
    ensures Var2Value(s, ByPosition(xs)).Ok?
    ensures Var2Value(s, ByPosition(xs)).value.Keys == set v | v in s.pool
  {
    var vars := s.Variables();
    var m := Var2Value(s, ByPosition(xs)).value;
    forall v | v in s.pool ensures v in m {
      var j :| 0 <= j < |s.pool| && s.pool[j] == v;
      if !s.isFixed[j] {
        assert v in vars;
        var i :| 0 <= i < |vars| && vars[i] == v;
        assert i < |xs|;
      }
    }
    forall k | k in m ensures k in s.pool {
      if k !in s.fixedValues {
        assert k in ZipMap(vars, xs);
        var i :| 0 <= i < |vars| && i < |xs| && vars[i] == k;
        assert k in vars;
      }
    }
  }

  lemma {:induction false} UnfixedNoDup(pool: seq<Variable>, flags: seq<bool>)
    requires |flags| == |pool| && NoDup(pool)
    ensures NoDup(Unfixed(pool, flags))
    decreases |pool|
  {
    if |pool| > 0 {
      var n := |pool| - 1;
      UnfixedNoDup(pool[..n], flags[..n]);
      var front := Unfixed(pool[..n], flags[..n]);
      assert pool[n] !in front;
    }
  }

  // ---------------------------------------------------------------- string_repr

  /** The `name=value` pieces of `string_repr`, one per unfixed variable. */
  function Fields(vars: seq<Variable>, m: map<Variable, Value>, show: Value -> string): (r: seq<string>)
    requires forall v :: v in vars ==> v in m
    ensures |r| == |vars|
    ensures forall i :: 0 <= i < |vars| ==> r[i] == vars[i].name + "=" + show(m[vars[i]])
  {
    if |vars| == 0 then []
    else [vars[0].name + "=" + show(m[vars[0]])] + Fields(vars[1..], m, show)
  }

  /** `string_repr(values)`: `name=value` for each unfixed variable, joined by
      `", "`. The errors of `var2value` propagate; a list shorter than
      `variables` leaves a variable without a value, a KeyError. */
  function StringRepr(s: PoolState, values: Values, show: Value -> string): (r: Result<string>)
    requires s.Valid()
  {
    match Var2Value(s, values)
    case Err(e) => Err(e)
    case Ok(m) =>
      if forall v :: v in s.Variables() ==> v in m
      then Ok(Join(Fields(s.Variables(), m, show), ", "))
      else Err(KeyError)
  }

  /** On a consistent model given a list at least as long as `variables`, the
      rendering succeeds: it is the `", "`-join of one `name=value` piece per
      unfixed variable, in order, the i-th piece holding the i-th value. */
  lemma StringReprPositional(s: PoolState, xs: seq<Value>, show: Value -> string)
    requires Consistent(s) && |xs| >= |s.Variables()|
    ensures Var2Value(s, ByPosition(xs)).Ok?
    ensures forall v :: v in s.Variables() ==> v in Var2Value(s, ByPosition(xs)).value
    ensures StringRepr(s, ByPosition(xs), show)
         == Ok(Join(Fields(s.Variables(), Var2Value(s, ByPosition(xs)).value, show), ", "))
    ensures forall i :: 0 <= i < |s.Variables()| ==>
      Fields(s.Variables(), Var2Value(s, ByPosition(xs)).value, show)[i]
        == s.Variables()[i].name + "=" + show(xs[i])
  {
    UnfixedInPool(s);
    Var2ValueCovers(s, xs);
    forall i | 0 <= i < |s.Variables()| {
      Var2ValuePositional(s, xs, i);
    }
  }

  /** In the text `string_repr` returns for a long enough list, the i-th
      `name=value` piece stands whole at its offset. */
  lemma StringReprPieceAt(s: PoolState, xs: seq<Value>, show: Value -> string, i: nat)
    requires Consistent(s) && |xs| >= |s.Variables()| && i < |s.Variables()|
    ensures StringRepr(s, ByPosition(xs), show).Ok?
    ensures Var2Value(s, ByPosition(xs)).Ok?
    ensures forall v :: v in s.Variables() ==> v in Var2Value(s, ByPosition(xs)).value
    ensures PieceAt(StringRepr(s, ByPosition(xs), show).value,
                    Fields(s.Variables(), Var2Value(s, ByPosition(xs)).value, show),
                    i, s.Variables()[i].name + "=" + show(xs[i]), ", ")
  {
    StringReprPositional(s, xs, show);
    JoinPieceAt(Fields(s.Variables(), Var2Value(s, ByPosition(xs)).value, show), ", ", i);
  }

  lemma UnfixedInPool(s: PoolState)
    requires s.Valid()
    ensures forall v :: v in s.Variables() ==> v in s.pool
  {
    forall v | v in s.Variables() ensures v in s.pool {
      var j :| 0 <= j < |s.pool| && s.pool[j] == v && !s.isFixed[j];
    }
  }

  // ---------------------------------------------------------------- the class

  /** A model: an ordered pool of variables with fixing and unfixing. */
  class Model {
    var pool: seq<Variable>
    var isFixed: seq<bool>
    var fixedValues: map<Variable, Value>
    const raiseExcep: bool

    function State(): PoolState
      reads this
    {
      PoolState(pool, isFixed, fixedValues)
    }

    ghost predicate Valid()
      reads this
    {
      State().Valid()
    }

    /** The `variables` property. */
    function Variables(): seq<Variable>
      reads this
      requires Valid()
    {
      State().Variables()
    }

    constructor (raiseExcep: bool)
      ensures Valid() && State() == PoolState([], [], map[]) && this.raiseExcep == raiseExcep
    {
      pool, isFixed, fixedValues := [], [], map[];
      this.raiseExcep := raiseExcep;
    }

    /** The `variables` setter. */
    method SetVariables(vs: seq<Variable>)
      modifies this
      ensures Valid() && State() == Replaced(old(State()), vs)
    {
      pool := vs;
      isFixed := seq(|vs|, _ => false);
    }

    method AddVariable(item: Item) returns (r: Result<()>)
      requires Valid()
      requires item.AModel? ==> item.m.Valid()
      modifies this
      ensures Valid()
      ensures item.AVariable? ==> r == Ok(()) && State() == Add(old(State()), item.v)
      ensures item.AModel? ==> r == Ok(()) && State() == AddAll(old(State()), old(item.m.Variables()))
      ensures item.Foreign? ==> State() == old(State()) && r == if raiseExcep then Err(ValueError) else Ok(())
      decreases if item.AModel? then 1 else 0
    {
      match item
      case Foreign =>
        r := if raiseExcep then Err(ValueError) else Ok(());
      case AModel(m) =>
        var vs := m.Variables();
        var i := 0;
        while i < |vs|
          invariant 0 <= i <= |vs| && Valid()
          invariant AddAll(old(State()), vs) == AddAll(State(), vs[i..])
        {
          assert vs[i..][1..] == vs[i + 1..];
          var _ := AddVariable(AVariable(vs[i]));
          i := i + 1;
        }
        r := Ok(());
      case AVariable(v) =>
        if v !in pool {
          pool := pool + [v];
          isFixed := isFixed + [false];
        }
        r := Ok(());
    }

    /** `add_variables`: the argument is flattened and added entry by entry. */
    method AddVariables(rows: seq<seq<Entry>>) returns (r: Result<()>)
      requires Valid()
      modifies this
      ensures Valid()
      ensures State() == AddEntries(old(State()), raiseExcep, Flatten(rows)).0
      ensures r.Err? <==> AddEntries(old(State()), raiseExcep, Flatten(rows)).1.Some?
      ensures r.Err? ==> r.error == ValueError
    {
      var es := Flatten(rows);
      var i := 0;
      while i < |es|
        invariant 0 <= i <= |es| && Valid()
        invariant AddEntries(old(State()), raiseExcep, es) == AddEntries(State(), raiseExcep, es[i..])
      {
        assert es[i..][1..] == es[i + 1..];
        var added := AddVariable(if es[i].EVariable? then AVariable(es[i].v) else Foreign);
        if added.Err? {
          return Err(added.error);
        }
        i := i + 1;
      }
      r := Ok(());
    }

    /** `get_variable(name)`: the first unfixed variable with that name, or None. */
    method GetVariable(name: string) returns (r: Option<Variable>)
      requires Valid()
      ensures r.Some? ==> r.value in Variables() && r.value.name == name
      ensures r.Some? ==>
        exists k :: 0 <= k < |Variables()| && Variables()[k] == r.value &&
          (forall j :: 0 <= j < k ==> Variables()[j].name != name)
      ensures r.None? ==> forall v :: v in Variables() ==> v.name != name
    {
      var vars := Variables();
      var i := 0;
      while i < |vars|
        invariant 0 <= i <= |vars|
        invariant forall j :: 0 <= j < i ==> vars[j].name != name
      {
        if vars[i].name == name {
          return Some(vars[i]);
        }
        i := i + 1;
      }
      r := None;
    }

    method FixVariable(v: Variable, value: Value) returns (r: Result<()>)
      requires Valid()
      modifies this
      ensures Valid()
      ensures Fix(old(State()), v, value).Ok? ==> r == Ok(()) && State() == Fix(old(State()), v, value).value
      ensures Fix(old(State()), v, value).Err? ==> r == Err(ValueError) && State() == old(State())
    {
      if v !in Variables() {
        return Err(ValueError);
      }
      isFixed := isFixed[IndexOf(pool, v) := true];
      fixedValues := fixedValues[v := value];
      r := Ok(());
    }

    method UnfixVariable(v: Variable) returns (r: Result<()>)
      requires Valid()
      modifies this
      ensures Valid()
      ensures Unfix(old(State()), v).Ok? ==> r == Ok(()) && State() == Unfix(old(State()), v).value
      ensures Unfix(old(State()), v).Err? ==> r == Err(ValueError) && State() == old(State())
    {
      if v !in fixedValues || v !in pool {
        return Err(ValueError);
      }
      isFixed := isFixed[IndexOf(pool, v) := false];
      fixedValues := fixedValues - {v};
      r := Ok(());
    }

    /** `unfix_if_fixed`, as intended (see `UnfixIfFixedAsWritten`). */
    method UnfixIfFixedVariable(v: Variable)
      requires Valid()
      modifies this
      ensures Valid() && State() == UnfixIfFixed(old(State()), v)
    {
      var _ := UnfixVariable(v);
    }
  }
}
