# GADMA bookkeeping core in Dafny

GADMA infers the demographic history of populations from their allele
frequency spectrum, with a genetic algorithm that drives one of several
simulation engines. This project models the deterministic bookkeeping
around that search and proves properties of it:

- **the variable pool of a demographic model** (`gadma/models/model.py`).
  A `Model` keeps an ordered pool of variables, a fixed/unfixed flag per
  entry and the values of the fixed variables. Its `variables` property is
  the view the optimizer works on. It can add variables without repeats,
  fix and unfix them, map a vector of values onto the variables
  (`var2value`) and render them (`string_repr`). Module `Models`:
  - the functions over `PoolState` specify the class `Models.Model`;
  - each of the class's methods is proved to leave exactly the state the
    matching function computes.
- **the engine registry and the state of one engine**
  (`gadma/engines/engine.py`). Module `Engines`:
  - the registry maps ids to engine classes; `Engines.Registry` holds it;
  - one engine holds a model, inner data, a data holder and
    `saved_add_info` (`Engines.Engine`). Its setters validate their
    arguments, and `set_and_evaluate` and `generate_code` guard on them.
  - An engine class is a value that carries its supported model and data
    classes, its `read_data` function and its (partial) conversion to the
    inner data type.
- **the optimizer result record** (`gadma/optimizers/optimizer_result.py`).
  Module `OptimizerResults`: construction, conversion from a SciPy result,
  and the seven-line `__repr__`.
- **the sample-size and keyword bookkeeping of the moments engine**
  (`gadma/engines/moments_engine.py`). Module `Moments`:
  - the keyword arguments built for one epoch (`_get_kwargs`);
  - the sample sizes after each split, computed by walking the events
    backwards (`ns_on_splits`);
  - the split function called at each split, and the pair of sizes it is
    given.

Shared helpers:
- `Results`: the Python exceptions as `Err` values of `Result`, and `Option`
  for `None`.
- `Strings`: Python's `str` of integers and booleans, `sep.join` and
  `str.split`, with their round trip.

The record, the pool state and the engine state are Dafny values. So two
records built from the same arguments are equal, and a record cannot be
changed through the lists it was built from. This is what the source gets
from its deep copies of `X` and `X_out`.

Where the docstring and the code of `get_variable` disagree, the model
follows the code: it returns `None` for an unknown name, while the docstring
promises a ValueError.

`unfix_if_fixed` as written always raises AttributeError (see Findings).
`Models.UnfixIfFixedAsWritten` models that code. The class method
`Models.Model.UnfixIfFixedVariable` follows the corrected operation,
`Models.UnfixIfFixed`.

## Model

| member | source | states |
|---|---|---|
| Models.Unfixed | gadma/models/model.py:19-22 | `variables` holds a variable exactly when some pool entry with a clear flag holds it, and is never longer than the pool |
| Models.UnfixedConcat | gadma/models/model.py:19-22 | the unfixed view of a concatenated pool is the concatenation of the views, so `variables` keeps pool order |
| Models.UnfixedSetFlag | gadma/models/model.py:76 | flagging the entry of a variable in a repeat-free pool removes exactly that variable from `variables` and keeps the others in order |
| Models.Replaced | gadma/models/model.py:24-27 | after assigning `variables`, the pool is the new list, every flag is false, so `variables` is the new list; `fixed_values` is kept |
| Models.ReplacedConsistent | gadma/models/model.py:24-27 | because the setter keeps `fixed_values`, the model is consistent afterwards exactly when the new list has no repeats and nothing was fixed before |
| Models.AddEffect | gadma/models/model.py:45-47 | adding a variable keeps the model consistent; a variable already in the pool changes nothing, a new one joins the end of `variables` |
| Models.AddAllEffect | gadma/models/model.py:41-44 | adding a model's variables one by one keeps the model consistent and `fixed_values` unchanged; the pool gains exactly the variables not yet in it, each at its first occurrence and in order (`FirstNew`, whose members are exactly those of the list not already seen), and `variables` gains the same suffix |
| Models.FirstNew | gadma/models/model.py:45-47 | the reference for what repeated `add_variable` calls append: a variable is in it exactly when it is in the list and not already in the pool |
| Models.AddAllPool | gadma/models/model.py:41-47 | adding variables one by one appends exactly `FirstNew` of them to the pool, each with a false flag, and leaves `fixed_values` alone |
| Models.AddEntriesEffect | gadma/models/model.py:49-57 | `add_variables` fails, with ValueError, exactly when the model raises and some entry is not a variable; without the failure it adds exactly the variables among the entries, in order; with it, the variables before the first foreign entry stay added and nothing after it is |
| Models.Fix | gadma/models/model.py:72-77 | `fix_variable` raises ValueError exactly when the variable is not among `variables`; on success the value is recorded |
| Models.Unfix | gadma/models/model.py:79-85 | on a consistent model, `unfix_variable` raises ValueError exactly when the variable has no fixed value; on success its value is forgotten |
| Models.FixEffect | gadma/models/model.py:72-77 | fixing an unfixed variable removes exactly it from `variables`, records its value, keeps the pool and keeps the model consistent |
| Models.UnfixEffect | gadma/models/model.py:79-85 | unfixing a fixed variable succeeds, keeps the model consistent and puts the variable back among `variables` |
| Models.FixThenUnfix | gadma/models/model.py:72-85 | fixing an unfixed variable and then unfixing it restores the model exactly |
| Models.UnfixThenFix | gadma/models/model.py:72-85 | unfixing a fixed variable and fixing it again at its old value restores the model exactly |
| Models.UnfixIfFixed | gadma/models/model.py:87-91 | the intended `unfix_if_fixed`: afterwards a consistent model has no fixed value for the variable, and a variable that was not fixed leaves the model unchanged |
| Models.UnfixIfFixedDiffers | gadma/models/model.py:87-91 | for a fixed variable the code as written fails, while the intended operation unfixes it and keeps the model consistent |
| Models.ZipMap | gadma/models/model.py:95-96 | the dict built from `zip` maps exactly the variables that have a value at their position (the shorter list decides) |
| Models.ZipMapAt | gadma/models/model.py:95-96 | without repeats, the i-th variable is mapped to the i-th value |
| Models.Var2Value | gadma/models/model.py:93-106 | `var2value` fails exactly on an unsupported argument (TypeError), an empty dict (unbound result) or a dict missing an unfixed variable (KeyError, the only other error); on success fixed values take precedence, a dict covers every unfixed variable, and an unfixed variable gets `values[var.name]` from a dict keyed by names and `values[var]` from one keyed by variables |
| Models.Var2ValuePositional | gadma/models/model.py:93-106 | for a list of values on a consistent model, the i-th unfixed variable gets the i-th value |
| Models.Var2ValueCovers | gadma/models/model.py:93-106 | given a value for each unfixed variable, the keys of the result are exactly the variables of the pool |
| Models.Fields | gadma/models/model.py:111-112 | one `name=value` piece per unfixed variable, in order |
| Models.StringReprPositional | gadma/models/model.py:108-113 | for a long enough list, `string_repr` (`StringRepr`) is the `", "`-join of the pieces, and the i-th piece is the i-th variable's name, `=` and the i-th value |
| Models.StringReprPieceAt | gadma/models/model.py:108-113 | in the text `string_repr` returns, the i-th variable's `name=value` stands whole at its offset (`Strings.JoinAt` locates it) |
| Models.Model.constructor | gadma/models/model.py:13-17 | a new model has an empty pool, no flags and no fixed values |
| Models.Model.SetVariables | gadma/models/model.py:24-27 | the new state is the one `Replaced` computes |
| Models.Model.AddVariable | gadma/models/model.py:29-47 | a variable is added as `Add` says; a model's unfixed variables are added one by one in order; anything else raises ValueError when the model raises, and otherwise changes nothing |
| Models.Model.AddVariables | gadma/models/model.py:49-57 | the state and the error are those of `AddEntries` over the flattened argument, entry by entry |
| Models.Model.GetVariable | gadma/models/model.py:59-70 | returns the first unfixed variable with the name, or None when no unfixed variable has it |
| Models.Model.FixVariable | gadma/models/model.py:72-77 | the new state and the error are those of `Fix`; a failed call changes nothing |
| Models.Model.UnfixVariable | gadma/models/model.py:79-85 | the new state and the error are those of `Unfix`; a failed call changes nothing |
| Models.Model.UnfixIfFixedVariable | gadma/models/model.py:87-91 | the new state is that of the intended `UnfixIfFixed` |
| Engines.Register | gadma/engines/engine.py:6-16 | registration fails with ValueError exactly when the id is taken; on success the ids gain the new id |
| Engines.Lookup | gadma/engines/engine.py:19-28 | looking up fails with ValueError exactly when the id is not registered |
| Engines.Listing | gadma/engines/engine.py:31-37 | the classes `all_engines` instantiates, one per registered id, in registration order |
| Engines.RegisterThenLookup | gadma/engines/engine.py:13-28 | registering a new id keeps the table well formed; afterwards the id finds the new class and every other id finds what it found before |
| Engines.ListingCount | gadma/engines/engine.py:31-37 | `all_engines` yields as many engines as there are registered classes |
| Engines.ListingCovers | gadma/engines/engine.py:31-37 | every registered class is among the engines `all_engines` yields |
| Engines.ListingDistinct | gadma/engines/engine.py:31-37 | no id comes twice among the engines `all_engines` yields |
| Engines.Registry.constructor | gadma/engines/engine.py:3 | the registry starts empty and well formed |
| Engines.Registry.RegisterEngine | gadma/engines/engine.py:6-16 | a duplicate id raises ValueError and leaves the registry unchanged; otherwise the registry becomes what `Register` computes |
| Engines.Registry.GetEngine | gadma/engines/engine.py:19-28 | an unknown id raises ValueError; a known one gives a fresh engine of the registered class with no model and no data |
| Engines.Registry.AllEngines | gadma/engines/engine.py:31-37 | one fresh engine per registered class, in registration order |
| Engines.SetModelResult | gadma/engines/engine.py:78-97 | `set_model` raises ValueError exactly for a model of an unsupported class; otherwise the model is stored (None clears it), `saved_add_info` is emptied and the data is kept |
| Engines.SetDataEffect | gadma/engines/engine.py:107-139 | `set_data` fails, with ValueError, only on data it can neither accept nor convert. On success the model is kept and `saved_add_info` emptied. None clears both data fields. A holder is read and recorded. Inner data is stored and the holder dropped. Converted data is stored as inner data |
| Engines.SettersKeepCoherent | gadma/engines/engine.py:78-139 | a new engine is coherent and every successful setter keeps it so: a recorded holder always comes with the data read from it |
| Engines.Construct | gadma/engines/engine.py:61-63 | `Engine(data, model)` sets the data before the model. It fails, with ValueError, exactly when setting the data fails or the model's class is unsupported. On success the model is the given one, the data fields are those `set_data` left, `saved_add_info` is empty and the engine is coherent. With neither argument the result is the initial state |
| Engines.SetAndEvaluateGuards | gadma/engines/engine.py:157-183 | `set_and_evaluate` fails only with ValueError, does so whenever the model or the data is still None, and otherwise evaluates on the engine's model and data; an argument given as None keeps what the engine had; supported arguments always evaluate |
| Engines.GenerateCodeResult | gadma/engines/engine.py:185-199 | `generate_code` raises AttributeError exactly when there is no data holder, and KeyError when there is one but the engine's id has no printer; otherwise the result is what the printer of the engine's id renders from the model, the holder and the values |
| Engines.InnerDataBlocksCodeGeneration | gadma/engines/engine.py:136-138 | after inner data is set directly, code generation raises AttributeError |
| Engines.Engine.constructor | gadma/engines/engine.py:61-63 | an engine built with no arguments has no model, no data and an empty `saved_add_info` |
| Engines.Engine.New | gadma/engines/engine.py:61-63 | `Engine(data, model)` sets the data and then the model, failing as `Construct` does |
| Engines.Engine.SetModel | gadma/engines/engine.py:78-97 | the new state and the error are those of `SetModelResult`; a failed call changes nothing |
| Engines.Engine.SetData | gadma/engines/engine.py:107-139 | the new state and the error are those of `SetDataResult`; a failed call changes nothing |
| Engines.Engine.SetAndEvaluate | gadma/engines/engine.py:157-183 | the state reached and the outcome are those of `SetAndEvaluateResult` |
| Engines.Engine.GenerateCode | gadma/engines/engine.py:185-199 | the outcome is that of `GenerateCodeResult` |
| OptimizerResults.Make | gadma/optimizers/optimizer_result.py:34-46 | every field is stored as given; `X_out` and `Y_out` default to empty lists |
| OptimizerResults.FromSciPy | gadma/optimizers/optimizer_result.py:48-64 | the converted record has an empty history and resumes from the SciPy optimum and its value |
| OptimizerResults.FromSciPyRoundTrip | gadma/optimizers/optimizer_result.py:54-64 | reading the SciPy fields back from the converted record gives the SciPy result again (`x`, `fun` as `y`, `nfev` as `n_eval`, `nit` as `n_iter`) |
| OptimizerResults.ReprSplitsIntoLines | gadma/optimizers/optimizer_result.py:66-74 | split at line breaks, `__repr__` (`Repr`) gives back its seven lines in order and an empty tail, when the message and the renderings of `x` and `y` hold no line break |
| OptimizerResults.ReprLinesReadable | gadma/optimizers/optimizer_result.py:67-73 | each line starts with its label (status, success, message, x, y, n_eval, n_iter) and `": "`; status, n_eval and n_iter read back as the integers stored, and the other lines hold `str(success)`, the message and the renderings of `x` and `y` |
| Moments.SizeFuncNameInjective | gadma/engines/moments_engine.py:44 | different populations get different `nu{i+1}_func` names |
| Moments.GetKwargs | gadma/engines/moments_engine.py:26-58 | fails, with IndexError, exactly when it reads past a list: a dynamic of one of the `n_pop` populations, the size of a sudden one, or an off-diagonal migration argument. Otherwise `tf` is the time argument. Without dynamics `Npop` is the size list. With dynamics entry i is the size for a sudden change and population i's function name otherwise. `m` is present exactly with migration, n_pop by n_pop, zero on the diagonal and the migration argument elsewhere. `h` is the selection argument |
| Moments.EpochSizes | gadma/engines/moments_engine.py:37-44 | the `Npop` list with dynamics: None exactly when a dynamic of one of the `n_pop` populations, or the size of a sudden one, is past the end of its list; otherwise one entry per population, its size for a sudden change and its function name `nu{i+1}_func` otherwise |
| Moments.MigrationMatrix | gadma/engines/moments_engine.py:48-55 | the `m` matrix: None exactly when an off-diagonal migration argument is past the end; otherwise n_pop by n_pop, zero on the diagonal and the migration argument elsewhere |
| Moments.WellFormedEpochReadable | gadma/engines/moments_engine.py:36-55 | an epoch with one size and one dynamic per population and a square migration matrix never makes `_get_kwargs` fail |
| Moments.MergeKeepsLineages | gadma/engines/moments_engine.py:82-83 | undoing a split (`Merge`) leaves one population fewer and the same total sample size |
| Moments.BackwardShape | gadma/engines/moments_engine.py:78-83 | the backward pass (`Backward`) appends, for each split from the last, the sizes before it: the previous list with the last population folded back onto `pop_to_div` |
| Moments.BackwardOk | gadma/engines/moments_engine.py:78-83 | the backward pass succeeds exactly when each split divides a population that exists before it |
| Moments.NsOnSplitsShape | gadma/engines/moments_engine.py:78-84 | one list per Split event; the last is `ns`; list k has one population more than list k-1; undoing split k of list k gives list k-1 |
| Moments.NsOnSplitsKeepsTotal | gadma/engines/moments_engine.py:78-84 | every list holds the same total sample size as `ns` |
| Moments.NsOnSplitsOk | gadma/engines/moments_engine.py:78-84 | the computation succeeds (no IndexError) exactly when the t-th split's `pop_to_div` is below the number of populations present before it |
| Moments.NsOnSplits | gadma/engines/moments_engine.py:78-84 | the loop computes what `NsOnSplitsResult` specifies, including the IndexError |
| Moments.SplitFuncNameParses | gadma/engines/moments_engine.py:134-136 | the name `split_{n}D_to_{n+1}D_{p+1}` (`SplitFuncName`) reads back as `n` and `p` |
| Moments.SingleSplitNameDiffers | gadma/engines/moments_engine.py:131-132 | `split_1D_to_2D` does not read as the name of a split of several populations |
| Moments.SplitFuncNameInjective | gadma/engines/moments_engine.py:134-136 | different splits of several populations call different functions |
| Moments.SplitFuncNamesApart | gadma/engines/moments_engine.py:131-136 | a one-population split never calls a function meant for several |
| Moments.SplitCalls | gadma/engines/moments_engine.py:128-137 | the loop with its `n_split` counter computes what `SplitPlan` specifies, including the IndexError |
| Moments.SplitPlanReads | gadma/engines/moments_engine.py:128-137 | given lists with the indexes the splits read, the forward pass makes one call per Split event, the k-th reading list k |
| Moments.SplitPairsRead | gadma/engines/moments_engine.py:129-130 | with the lists `ns_on_splits` computes, call k gets the sizes of `pop_to_div` and of the new population in list k, and the function named by its width and `pop_to_div` |
| Moments.SplitPairsShareLineages | gadma/engines/moments_engine.py:82-130 | for every split, the first included, the two sizes given to it add up to the size of `pop_to_div` before that split (read from the backward lists, whose last entry holds the ancestral sizes) |

## Left out

- `gadma/core/core.py`: the process pool, the shared dict, SIGINT masking and the timed poll loop. These are concurrency and I/O.
- The GA driver `CoreRun`, `print_runs_summary` and `parallel_wrap` are not part of this model; their source is not among the files modelled.
- `Model._arg_val_repr` (gadma/models/model.py:115-134) is not modelled. It depends on `BinaryOperation` and `float_repr`, which are not part of this model.
- `VariablePool` (gadma/utils) is not part of this model. The pool is a plain list, compared with Python's `==` on whole variables.
- Python's `isinstance` dispatch is modelled with datatype constructors:
  - `Item` for `add_variable`;
  - `Entry` for `add_variables`;
  - `DataArg` for `set_data`;
  - `Values` for `var2value`.
- Models.AddEntriesEffect: a Model nested inside the argument of `add_variables` is not modelled; entries are variables or foreign objects.
- Models.Var2Value: a dict is modelled with keys that are all names or all variables. With mixed keys the source rebuilds the result at every key (model.py:98-102), so a name key can already raise KeyError before a later variable key is reached; with keys of any other type the result stays unbound. Neither case is modelled.
- Models.Add, Models.Fix, Models.Unfix: variables are values, so `in`, `list.index` and dict lookup (model.py:45, 73, 76, 80, 83) compare whole variables; object identity and a user-defined `__eq__` are not modelled.
- Engines.SetDataEffect: `read_data` is a total function, so an exception it raises (engine.py:133-134, on a supported holder or on a holder that was converted first) is not modelled. A failing conversion is modelled: `convert` returns None and the result is ValueError.
- The engine hooks are parameters:
  - the class-level `supported_models`, `supported_data` and `inner_data_type` are fields of `EngineClass`;
  - models are known only by their class name;
  - `evaluate` is the `objective` parameter;
  - `id2printfunc` is the `printers` parameter.
- Python object identity: the `variables` setter stores the caller's own list (model.py:26), so later `add_variable` calls also append to that list, and `all_engines` is a lazy generator over the live registry dict (engine.py:36-37). The model works on values and returns the listing at once, so neither sharing is captured.
- `saved_add_info` is only ever emptied by the modelled code; what engines store in it is not modelled.
- OptimizerResults.Make: `Y` and `Y_out` are stored by reference in the source (only `X` and `X_out` are deep-copied). Value semantics cannot show that sharing, nor the one default `Y_out` list shared by every record built without it.
- OptimizerResults.Make: `np.array(x, dtype=object)` is modelled as the sequence itself.
- OptimizerResults.ReprSplitsIntoLines: the renderings of `x` (a numpy array) and `y` (a float) are parameters. Python's float and array formatting is not modelled.
- The rest of `_moments_inner_func` is not modelled:
  - the spectrum (`steady_state_1D`, `Spectrum`, `integrate`);
  - the `Manips.split_*` calls themselves (only their names and arguments are modelled);
  - the growth functions of `DynamicVariable` and the lambdas over time (lines 87-127);
  - the `CustomDemographicModel` branch (lines 69-71).
- Also not modelled: `draw_schematic_model_plot`, `simulate`, `get_theta`, `evaluate` and the `generate_code` override of the moments engine. These are foreign calls and floating-point numerics.
- Integers are unbounded; the source's integers are Python integers, so nothing wraps.

## Findings

| source | as written | input that shows it | evidently intended | confidence | as-written member | corrected member |
|---|---|---|---|---|---|---|
| gadma/models/model.py:87-91 | `unfix_if_fixed` calls `self.unfix`, which `Model` does not define. The AttributeError raised is not the ValueError the `except` clause catches, so every call fails | any model with a fixed variable `v`, calling `unfix_if_fixed(v)` (`Models.UnfixIfFixedDiffers`) | call `unfix_variable(v)` and ignore the ValueError for a variable that is not fixed | not executed | Models.UnfixIfFixedAsWritten | Models.UnfixIfFixed |
