/** Engines of demographic inference (gadma/engines/engine.py): the registry
    of engine classes keyed by id, and the model/data state of one engine.

    An engine class is a value (`EngineClass`) carrying its id, the model and
    data classes it supports, and its two data hooks: `read_data` and the
    conversion to its inner data type, which may fail. An engine instance is
    the class `Engine`, whose setters are specified by functions over
    `EngineState`. */
module Engines {
  import opened Results
  import Models

  /** A data holder: the class of holder (SFS file, VCF file, ...) and its file. */
  datatype DataHolder = DataHolder(holderClass: string, filename: string)

  /** Data already in the engine's inner type (for moments, a Spectrum). */
  datatype InnerData = InnerData(content: seq<real>)

  /** What `set_data` may receive besides None. */
  datatype DataArg =
    | Holder(holder: DataHolder)
    | Inner(inner: InnerData)
    | Raw(typeName: string, content: seq<real>)

  /** A demographic model handed to an engine, known by its class. */
  datatype ModelHandle = ModelHandle(modelClass: string, ident: nat)

  datatype EngineClass = EngineClass(
    id: string,
    supportedModels: set<string>,
    supportedData: set<string>,
    readData: DataHolder -> InnerData,
    convert: DataArg -> Results.Option<InnerData>)

  // ================================================================ the registry

  /** `_registered_engines`: the ids in registration order (a dict keeps that
      order) and the class registered under each id. */
  datatype Table = Table(ids: seq<string>, engines: map<string, EngineClass>)

  ghost predicate WellFormed(t: Table)
  {
    && Models.NoDup(t.ids)
    && (forall id :: id in t.engines <==> id in t.ids)
    && (forall id :: id in t.engines ==> t.engines[id].id == id)
  }

  /** `register_engine(e)`: ValueError if the id is taken, the table unchanged. */
  function Register(t: Table, e: EngineClass): (r: Result<Table>)
    ensures r.Err? <==> e.id in t.engines
    ensures r.Err? ==> r.error == ValueError
    ensures r.Ok? ==> r.value.engines.Keys == t.engines.Keys + {e.id}
  {
    if e.id in t.engines then Err(ValueError)
    else Ok(Table(t.ids + [e.id], t.engines[e.id := e]))
  }

  /** `get_engine(id)` without the instantiation: ValueError for an unknown id. */
  function Lookup(t: Table, id: string): (r: Result<EngineClass>)
    ensures r.Err? <==> id !in t.engines
    ensures r.Err? ==> r.error == ValueError
  {
    if id in t.engines then Ok(t.engines[id]) else Err(ValueError)
  }

  /** The classes `all_engines` instantiates, in registration order. */
  function Listing(t: Table): (r: seq<EngineClass>)
    requires forall id :: id in t.ids ==> id in t.engines
    ensures |r| == |t.ids|
    ensures forall i :: 0 <= i < |t.ids| ==> r[i] == t.engines[t.ids[i]]
    decreases |t.ids|
  {
    if |t.ids| == 0 then []
    else [t.engines[t.ids[0]]] + Listing(Table(t.ids[1..], t.engines))
  }

  /** Registration keeps the table well formed; afterwards the new id finds the
      new class, and every id registered before finds what it found before. */
  lemma RegisterThenLookup(t: Table, e: EngineClass, id: string)
    requires WellFormed(t) && e.id !in t.engines
    ensures Register(t, e).Ok? && WellFormed(Register(t, e).value)
    ensures Lookup(Register(t, e).value, e.id) == Ok(e)
    ensures id != e.id ==> Lookup(Register(t, e).value, id) == Lookup(t, id)
  {
  }

  lemma {:induction false} DistinctCount(ids: seq<string>)
    requires Models.NoDup(ids)
    ensures |set id | id in ids| == |ids|
    decreases |ids|
  {
    if |ids| > 0 {
      var rest := ids[1..];
      DistinctCount(rest);
      assert (set id | id in ids) == (set id | id in rest) + {ids[0]};
      assert ids[0] !in rest;
    }
  }

  /** `all_engines` yields one engine per registered class. */
  lemma ListingCount(t: Table)
    requires WellFormed(t)
    ensures |Listing(t)| == |t.engines|
  {
    DistinctCount(t.ids);
    assert t.engines.Keys == set id | id in t.ids;
  }

  /** Every registered class is among the engines `all_engines` yields. */
  lemma ListingCovers(t: Table)
    requires WellFormed(t)
    ensures forall id :: id in t.engines ==> t.engines[id] in Listing(t)
  {
    var l := Listing(t);
    forall id | id in t.engines ensures t.engines[id] in l {
      var i :| 0 <= i < |t.ids| && t.ids[i] == id;
      assert l[i] == t.engines[id];
    }
  }

  /** No id comes twice among the engines `all_engines` yields. */
  lemma ListingDistinct(t: Table)
    requires WellFormed(t)
    ensures forall i, j :: 0 <= i < j < |Listing(t)| ==> Listing(t)[i].id != Listing(t)[j].id
  {
    var l := Listing(t);
    forall i, j | 0 <= i < j < |l| ensures l[i].id != l[j].id {
      assert l[i].id == t.ids[i] && l[j].id == t.ids[j];
    }
  }

  /** The registry itself: the module-level dict. */
  class Registry {
    var ids: seq<string>
    var engines: map<string, EngineClass>

    function Contents(): Table
      reads this
    {
      Table(ids, engines)
    }

    constructor ()
      ensures Contents() == Table([], map[]) && WellFormed(Contents())
    {
      ids, engines := [], map[];
    }

    method RegisterEngine(e: EngineClass) returns (r: Result<()>)
      requires WellFormed(Contents())
      modifies this
      ensures WellFormed(Contents())
      ensures Register(old(Contents()), e).Err? ==> r == Err(ValueError) && Contents() == old(Contents())
      ensures Register(old(Contents()), e).Ok? ==> r == Ok(()) && Contents() == Register(old(Contents()), e).value
    {
      if e.id in engines {
        return Err(ValueError);
      }
      RegisterThenLookup(Contents(), e, e.id);
      engines := engines[e.id := e];
      ids := ids + [e.id];
      r := Ok(());
    }

    /** `get_engine(id)`: a fresh instance of the registered class. */
    method GetEngine(id: string) returns (r: Result<Engine>)
      requires WellFormed(Contents())
      ensures r.Err? <==> Lookup(Contents(), id).Err?
      ensures r.Err? ==> r.error == ValueError
      ensures r.Ok? ==> fresh(r.value) && r.value.kind == engines[id] && r.value.State() == Initial
    {
      if id !in engines {
        return Err(ValueError);
      }
      var e := new Engine(engines[id]);
      r := Ok(e);
    }

    /** `all_engines()`: one fresh instance per registered class, in order. */
    method AllEngines() returns (r: seq<Engine>)
      requires WellFormed(Contents())
      ensures |r| == |Listing(Contents())|
      ensures forall i :: 0 <= i < |r| ==> fresh(r[i]) && r[i].kind == Listing(Contents())[i] && r[i].State() == Initial
    {
      r := [];
      var i := 0;
      while i < |ids|
        invariant 0 <= i <= |ids| && |r| == i
        invariant forall k :: 0 <= k < i ==> fresh(r[k]) && r[k].kind == engines[ids[k]] && r[k].State() == Initial
      {
        var e := new Engine(engines[ids[i]]);
        r := r + [e];
        i := i + 1;
      }
    }
  }

  // ================================================================ one engine

  /** `_model`, `inner_data`, `data_holder` and `saved_add_info` of an engine. */
  datatype EngineState = EngineState(
    model: Option<ModelHandle>,
    innerData: Option<InnerData>,
    dataHolder: Option<DataHolder>,
    savedAddInfo: map<string, real>)

  /** An engine created without data and model. */
  const Initial := EngineState(None, None, None, map[])

  /** What every setter keeps: a data holder is only recorded together with the
      data read from it. */
  ghost predicate Coherent(k: EngineClass, s: EngineState)
  {
    s.dataHolder.Some? ==> s.innerData == Some(k.readData(s.dataHolder.value))
  }

  /** `set_model(m)`: None clears the model; a model of an unsupported class is
      refused with ValueError; otherwise it is stored. Both successes empty
      `saved_add_info` and leave the data alone. */
  function SetModelResult(k: EngineClass, s: EngineState, m: Option<ModelHandle>): (r: Result<EngineState>)
    ensures r.Err? <==> m.Some? && m.value.modelClass !in k.supportedModels
    ensures r.Err? ==> r.error == ValueError
    ensures r.Ok? ==> r.value.model == m && r.value.savedAddInfo == map[]
    ensures r.Ok? ==> r.value.innerData == s.innerData && r.value.dataHolder == s.dataHolder
  {
    match m
    case None => Ok(s.(model := None, savedAddInfo := map[]))
    case Some(model) =>
      if model.modelClass !in k.supportedModels then Err(ValueError)
      else Ok(s.(model := Some(model), savedAddInfo := map[]))
  }

  /** Whether `set_data` accepts the argument without converting it. */
  predicate Accepted(k: EngineClass, d: DataArg)
  {
    match d
    case Holder(h) => h.holderClass in k.supportedData
    case Inner(_) => true
    case Raw(_, _) => false
  }

  /** The branches of `set_data` after the support check: a holder is read, inner
      data is kept as it is, anything else leaves the fields as they were. */
  function Store(k: EngineClass, s: EngineState, d: DataArg): EngineState
  {
    match d
    case Holder(h) => s.(innerData := Some(k.readData(h)), dataHolder := Some(h), savedAddInfo := map[])
    case Inner(x) => s.(innerData := Some(x), dataHolder := None, savedAddInfo := map[])
    case Raw(_, _) => s.(savedAddInfo := map[])
  }

  /** `set_data(d)`: None clears the data. Supported data is stored. Anything else
      is first converted to the inner type and stored as such (ValueError when
      the conversion fails); the branches then still run on the original
      argument, so an unsupported holder that converts is read all the same. */
  function SetDataResult(k: EngineClass, s: EngineState, d: Option<DataArg>): (r: Result<EngineState>)
  {
    match d
    case None => Ok(s.(innerData := None, dataHolder := None, savedAddInfo := map[]))
    case Some(arg) =>
      if Accepted(k, arg) then Ok(Store(k, s, arg))
      else match k.convert(arg)
        case None => Err(ValueError)
        case Some(x) => Ok(Store(k, Store(k, s, Inner(x)), arg))
  }

  /** What `set_data` guarantees: it fails only on data it cannot convert, and
      then changes nothing; on success the model is kept, `saved_add_info` is
      emptied, None clears both data fields, a holder is read and recorded,
      inner data is kept and the holder dropped, and converted data is stored
      as inner data. */
  lemma SetDataEffect(k: EngineClass, s: EngineState, d: Option<DataArg>)
    ensures SetDataResult(k, s, d).Err? <==> d.Some? && !Accepted(k, d.value) && k.convert(d.value).None?
    ensures SetDataResult(k, s, d).Err? ==> SetDataResult(k, s, d).error == ValueError
    ensures SetDataResult(k, s, d).Ok? ==>
      var t := SetDataResult(k, s, d).value;
      && t.model == s.model && t.savedAddInfo == map[]
      && (d.None? ==> t.innerData.None? && t.dataHolder.None?)
      && (d.Some? && d.value.Holder? ==>
            t.innerData == Some(k.readData(d.value.holder)) && t.dataHolder == Some(d.value.holder))
      && (d.Some? && d.value.Inner? ==> t.innerData == Some(d.value.inner) && t.dataHolder.None?)
      && (d.Some? && d.value.Raw? ==> t.innerData == k.convert(d.value) && t.dataHolder.None?)
  {
  }

  /** Every setter keeps the engine coherent, and an engine starts coherent. */
  lemma SettersKeepCoherent(k: EngineClass, s: EngineState, m: Option<ModelHandle>, d: Option<DataArg>)
    requires Coherent(k, s)
    ensures Coherent(k, Initial)
    ensures SetModelResult(k, s, m).Ok? ==> Coherent(k, SetModelResult(k, s, m).value)
    ensures SetDataResult(k, s, d).Ok? ==> Coherent(k, SetDataResult(k, s, d).value)
  {
  }

  /** `Engine(data, model)`: the data is set first, then the model. */
  function Construct(k: EngineClass, d: Option<DataArg>, m: Option<ModelHandle>): (r: Result<EngineState>)
    ensures d.None? && m.None? ==> r == Ok(Initial)
    ensures r.Err? <==> SetDataResult(k, Initial, d).Err? || (m.Some? && m.value.modelClass !in k.supportedModels)
    ensures r.Err? ==> r.error == ValueError
    ensures r.Ok? ==>
      && r.value.model == m && r.value.savedAddInfo == map[]
      && r.value.innerData == SetDataResult(k, Initial, d).value.innerData
      && r.value.dataHolder == SetDataResult(k, Initial, d).value.dataHolder
    ensures r.Ok? ==> Coherent(k, r.value)
  {
    SetDataEffect(k, Initial, d);
    SettersKeepCoherent(k, Initial, m, d);
    match SetDataResult(k, Initial, d)
    case Err(e) => Err(e)
    case Ok(s) =>
      SettersKeepCoherent(k, s, m, d);
      SetModelResult(k, s, m)
  }

  /** A state after a call that may fail part way: the state reached and the outcome. */
  datatype Step<T> = Step(state: EngineState, outcome: Result<T>)

  /** `set_and_evaluate(values, model, data)`: the given model and data are set
      (each only when not None, each possibly raising), then ValueError if the
      engine still lacks a model or data, else the objective's value. */
  function SetAndEvaluateResult(k: EngineClass, s: EngineState, values: seq<Models.Value>,
                          m: Option<ModelHandle>, d: Option<DataArg>,
                          objective: (ModelHandle, InnerData, seq<Models.Value>) -> real): Step<real>
  {
    var afterModel := if m.Some? then SetModelResult(k, s, m) else Ok(s);
    match afterModel
    case Err(e) => Step(s, Err(e))
    case Ok(s1) =>
      var afterData := if d.Some? then SetDataResult(k, s1, d) else Ok(s1);
      match afterData
      case Err(e) => Step(s1, Err(e))
      case Ok(s2) =>
        if s2.model.None? then Step(s2, Err(ValueError))
        else if s2.innerData.None? then Step(s2, Err(ValueError))
        else Step(s2, Ok(objective(s2.model.value, s2.innerData.value, values)))
  }

  /** `set_and_evaluate` only evaluates with a model and data in place, and then
      on those: it raises ValueError when either is still None after applying
      its arguments, an argument given as None keeps what the engine had, and a
      supported model with supported data always evaluates. Every failure is a
      ValueError. */
  lemma SetAndEvaluateGuards(k: EngineClass, s: EngineState, values: seq<Models.Value>,
                             m: Option<ModelHandle>, d: Option<DataArg>,
                             objective: (ModelHandle, InnerData, seq<Models.Value>) -> real)
    ensures var r := SetAndEvaluateResult(k, s, values, m, d, objective);
      && (r.outcome.Err? ==> r.outcome.error == ValueError)
      && (r.state.model.None? || r.state.innerData.None? ==> r.outcome == Err(ValueError))
      && (r.outcome.Ok? ==> r.state.model.Some? && r.state.innerData.Some? &&
                            r.outcome.value == objective(r.state.model.value, r.state.innerData.value, values))
      && (m.None? ==> r.state.model == s.model)
      && (d.None? && r.outcome.Ok? ==> r.state.innerData == s.innerData)
    ensures m.Some? && m.value.modelClass in k.supportedModels && d.Some? && Accepted(k, d.value) ==>
      SetAndEvaluateResult(k, s, values, m, d, objective).outcome.Ok?
  {
    SetDataEffect(k, s, d);
    if m.Some? && SetModelResult(k, s, m).Ok? {
      SetDataEffect(k, SetModelResult(k, s, m).value, d);
    }
  }

  /** Renders code for an engine; indexed by engine id like `id2printfunc`. */
  type CodePrinter = (Option<ModelHandle>, DataHolder, seq<Models.Value>) -> string

  /** `generate_code(values)`: AttributeError whenever there is no data holder
      (the engine was given inner data); otherwise the printer of the engine's
      id renders the code, KeyError if there is none. */
  function GenerateCodeResult(k: EngineClass, s: EngineState, values: seq<Models.Value>,
                        printers: map<string, CodePrinter>): (r: Result<string>)
    ensures r.Err? <==> s.dataHolder.None? || k.id !in printers
    ensures r == Err(AttributeError) <==> s.dataHolder.None?
    ensures s.dataHolder.Some? && k.id !in printers ==> r == Err(KeyError)
    ensures r.Ok? ==> r.value == printers[k.id](s.model, s.dataHolder.value, values)
  {
    if s.dataHolder.None? then Err(AttributeError)
    else if k.id !in printers then Err(KeyError)
    else Ok(printers[k.id](s.model, s.dataHolder.value, values))
  }

  /** Inner data set directly leaves no holder, so code generation then fails. */
  lemma InnerDataBlocksCodeGeneration(k: EngineClass, s: EngineState, x: InnerData,
                                      values: seq<Models.Value>, printers: map<string, CodePrinter>)
    ensures SetDataResult(k, s, Some(Inner(x))).Ok?
    ensures GenerateCodeResult(k, SetDataResult(k, s, Some(Inner(x))).value, values, printers) == Err(AttributeError)
  {
  }

  /** An engine instance. */
  class Engine {
    const kind: EngineClass
    var model: Option<ModelHandle>
    var innerData: Option<InnerData>
    var dataHolder: Option<DataHolder>
    var savedAddInfo: map<string, real>

    function State(): EngineState
      reads this
    {
      EngineState(model, innerData, dataHolder, savedAddInfo)
    }

    /** `Engine()`, as `get_engine` and `all_engines` call it. */
    constructor (kind: EngineClass)
      ensures this.kind == kind && State() == Initial
    {
      this.kind := kind;
      model, innerData, dataHolder, savedAddInfo := None, None, None, map[];
    }

    /** `Engine(data, model)`. */
    static method New(kind: EngineClass, d: Option<DataArg>, m: Option<ModelHandle>) returns (r: Result<Engine>)
      ensures r.Err? <==> Construct(kind, d, m).Err?
      ensures r.Err? ==> r.error == Construct(kind, d, m).error
      ensures r.Ok? ==> fresh(r.value) && r.value.kind == kind && r.value.State() == Construct(kind, d, m).value
    {
      var e := new Engine(kind);
      var status := e.SetData(d);
      if status.Err? {
        return Err(status.error);
      }
      status := e.SetModel(m);
      if status.Err? {
        return Err(status.error);
      }
      r := Ok(e);
    }

    method SetModel(m: Option<ModelHandle>) returns (r: Result<()>)
      modifies this
      ensures SetModelResult(kind, old(State()), m).Err? ==> r == Err(ValueError) && State() == old(State())
      ensures SetModelResult(kind, old(State()), m).Ok? ==> r == Ok(()) && State() == SetModelResult(kind, old(State()), m).value
    {
      if m.None? {
        model := None;
        savedAddInfo := map[];
        return Ok(());
      }
      if m.value.modelClass !in kind.supportedModels {
        return Err(ValueError);
      }
      model := m;
      savedAddInfo := map[];
      r := Ok(());
    }

    method SetData(d: Option<DataArg>) returns (r: Result<()>)
      modifies this
      ensures SetDataResult(kind, old(State()), d).Err? ==> r == Err(ValueError) && State() == old(State())
      ensures SetDataResult(kind, old(State()), d).Ok? ==> r == Ok(()) && State() == SetDataResult(kind, old(State()), d).value
      decreases if d.Some? && d.value.Inner? then 0 else 1
    {
      if d.None? {
        dataHolder := None;
        innerData := None;
        savedAddInfo := map[];
        return Ok(());
      }
      var arg := d.value;
      if !Accepted(kind, arg) {
        var transformed := kind.convert(arg);
        if transformed.None? {
          return Err(ValueError);
        }
        var _ := SetData(Some(Inner(transformed.value)));
      }
      match arg {
        case Holder(h) =>
          innerData := Some(kind.readData(h));
          dataHolder := Some(h);
        case Inner(x) =>
          innerData := Some(x);
          dataHolder := None;
        case Raw(_, _) =>
      }
      savedAddInfo := map[];
      r := Ok(());
    }

    method SetAndEvaluate(values: seq<Models.Value>, m: Option<ModelHandle>, d: Option<DataArg>,
                          objective: (ModelHandle, InnerData, seq<Models.Value>) -> real)
      returns (r: Result<real>)
      modifies this
      ensures State() == SetAndEvaluateResult(kind, old(State()), values, m, d, objective).state
      ensures r == SetAndEvaluateResult(kind, old(State()), values, m, d, objective).outcome
    {
      if m.Some? {
        var status := SetModel(m);
        if status.Err? {
          return Err(status.error);
        }
      }
      if d.Some? {
        var status := SetData(d);
        if status.Err? {
          return Err(status.error);
        }
      }
      if model.None? {
        return Err(ValueError);
      }
      if innerData.None? {
        return Err(ValueError);
      }
      r := Ok(objective(model.value, innerData.value, values));
    }

    method GenerateCode(values: seq<Models.Value>, printers: map<string, CodePrinter>) returns (r: Result<string>)
      ensures r == GenerateCodeResult(kind, State(), values, printers)
    {
      if dataHolder.None? {
        return Err(AttributeError);
      }
      if kind.id !in printers {
        return Err(KeyError);
      }
      r := Ok(printers[kind.id](model, dataHolder.value, values));
    }
  }
}
