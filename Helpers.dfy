/** The convenience layer of helpers.js: spec builders that wrap plain functions as
    `{create}` or `{reduce}` entries before handing them to `h`. */
module Helpers {
  import opened Values
  import opened Compiler

  /** The keys of a spec object, in order. */
  function Names(spec: Spec): (r: seq<string>)
    ensures |r| == |spec| && forall i :: 0 <= i < |spec| ==> r[i] == spec[i].0
  {
    seq(|spec|, i requires 0 <= i < |spec| => spec[i].0)
  }

  /** lodash `mapValues(spec, fn => ({[key]: fn}))`: every value becomes a one-property
      object under `key`, and the keys and their order stay as they are. */
  function WrapValues(spec: Spec, key: string): (r: Spec)
    ensures Names(r) == Names(spec)
    ensures forall i :: 0 <= i < |r| ==> r[i].1 == Obj(map[key := spec[i].1])
  {
    seq(|spec|, i requires 0 <= i < |spec| => (spec[i].0, Obj(map[key := spec[i].1])))
  }

  /** Wrapping keeps the keys, so it keeps them distinct. */
  lemma WrapKeepsUniqueNames(spec: Spec, key: string)
    requires UniqueNames(spec)
    ensures UniqueNames(WrapValues(spec, key))
  {
    var r := WrapValues(spec, key);
    forall i, j | 0 <= i < j < |r|
      ensures r[i].0 != r[j].0
    {
      assert Names(r)[i] == Names(spec)[i] && Names(r)[j] == Names(spec)[j];
    }
  }

  /** The second argument of `actionFactories`: left out (`{}`), a prefix string, or an
      options object. */
  datatype OptionsOrPrefix = NoOptions | PrefixString(prefix: string) | OptionsObject(options: Options)

  /** The `actions` of `h` over the spec with every value wrapped as `{create: fn}`. */
  function ActionFactoriesOf(env: Env, spec: Spec, prefix: Option<string>, typeFormat: Option<Formatter>): Registry {
    ActionsOf(WrapValues(spec, "create"), TypeOf(env, typeFormat, prefix))
  }

  /** `actionFactories(spec, optionsOrPrefix = {})`: a string is read as `{prefix}`, an
      object is passed to `h` as it is. */
  method ActionFactories(env: Env, spec: Spec, optionsOrPrefix: OptionsOrPrefix) returns (actions: ActionRegistry)
    ensures fresh(actions)
    ensures optionsOrPrefix.NoOptions? ==> actions.creators == ActionFactoriesOf(env, spec, None, None)
    ensures optionsOrPrefix.PrefixString? ==>
              actions.creators == ActionFactoriesOf(env, spec, Some(optionsOrPrefix.prefix), None)
    ensures optionsOrPrefix.OptionsObject? ==>
              actions.creators == ActionFactoriesOf(env, spec, optionsOrPrefix.options.prefix,
                                                    optionsOrPrefix.options.typeFormat)
  {
    var options: Options;
    match optionsOrPrefix {
      case NoOptions =>
        options := new Options(None, Undefined, None);
      case PrefixString(prefix) =>
        options := new Options(Some(prefix), Undefined, None);
      case OptionsObject(o) =>
        options := o;
    }
    var reducer;
    actions, reducer := H(env, WrapValues(spec, "create"), options);
  }

  /** Every function value of the spec becomes a creator that hands `type`, the final
      registry and its own arguments to that function; any other value gets no creator. */
  lemma {:induction false} ActionFactoriesLookup(env: Env, spec: Spec, prefix: Option<string>,
                                                 typeFormat: Option<Formatter>, i: nat, args: seq<Value>)
    requires UniqueNames(spec) && i < |spec|
    ensures var actions := ActionFactoriesOf(env, spec, prefix, typeFormat);
            var name := spec[i].0;
            var t := FormatType(env, typeFormat, name, prefix);
            && (spec[i].1.Fn? <==> name in actions)
            && (spec[i].1.Fn? ==>
                  && actions[name] == Custom(t, spec[i].1.id)
                  && CallCreator(env, actions[name], actions, args) == env.create(spec[i].1.id, t, actions, args))
  {
    var wrapped := WrapValues(spec, "create");
    WrapKeepsUniqueNames(spec, "create");
    assert Names(wrapped)[i] == Names(spec)[i];
    ActionsOfLookup(wrapped, TypeOf(env, typeFormat, prefix), i);
    assert GetProp(wrapped[i].1, "create") == spec[i].1;
  }

  /** `defaultActionFactory(type, actions, payload)`: `{type}` with the payload's own
      fields copied over it; the registry is not consulted. */
  function DefaultActionFactory(actionType: Value, actions: Registry, payload: Value): (r: Value)
    ensures r.Obj?
    ensures r.props.Keys == {"type"} + OwnKeys(payload)
    ensures "type" !in OwnKeys(payload) ==> r.props["type"] == actionType
    ensures forall k :: k in OwnKeys(payload) ==> r.props[k] == payload.props[k]
  {
    Obj(Assign(map["type" := actionType], payload))
  }

  /** On a string type, `defaultActionFactory` makes the same action as the default creator. */
  lemma DefaultFactoryMatchesDefaultCreator(actionType: string, actions: Registry, payload: Value)
    ensures DefaultActionFactory(Str(actionType), actions, payload) == DefaultCreateAction(actionType, payload)
  {
  }

  /** `f` is `defaultActionFactory`: called as a `create` function, it builds the action
      from the type and the first argument. */
  ghost predicate IsDefaultActionFactory(env: Env, f: FnId) {
    forall t, actions, args :: env.create(f, t, actions, args) == DefaultActionFactory(Str(t), actions, FirstArg(args))
  }

  /** A creator whose `create` is `defaultActionFactory` behaves as the default creator, in
      any registry and on any arguments. */
  lemma DefaultFactoryAsCreate(env: Env, f: FnId, actionType: string, actions: Registry, args: seq<Value>)
    requires IsDefaultActionFactory(env, f)
    ensures CallCreator(env, Custom(actionType, f), actions, args) == CallCreator(env, Default(actionType), actions, args)
  {
    DefaultFactoryMatchesDefaultCreator(actionType, actions, FirstArg(args));
  }

  /** The position of `key` among the object's keys, or the object's size when it has
      no such key. */
  function FindKey(obj: Spec, key: string): (r: nat)
    ensures r <= |obj| && (r < |obj| ==> obj[r].0 == key)
    ensures forall j :: 0 <= j < r ==> obj[j].0 != key
    decreases |obj|
  {
    if obj == [] || obj[0].0 == key then 0 else 1 + FindKey(obj[1..], key)
  }

  /** `result[key] = v` on an object: an existing key keeps its place, a new one is added last. */
  function SetProp(obj: Spec, key: string, v: Value): Spec {
    var k := FindKey(obj, key);
    if k == |obj| then obj + [(key, v)] else obj[k := (key, v)]
  }

  /** Setting a property of an object with distinct keys keeps them distinct, adds the key
      only when it is new, gives it the value and leaves every other property as it was. */
  lemma SetPropFacts(obj: Spec, key: string, v: Value)
    requires UniqueNames(obj)
    ensures var r := SetProp(obj, key, v);
      && UniqueNames(r)
      && Names(r) == (if key in Names(obj) then Names(obj) else Names(obj) + [key])
      && forall i :: 0 <= i < |r| ==> r[i].1 == if r[i].0 == key then v else obj[i].1
  {
    var k := FindKey(obj, key);
    var r := SetProp(obj, key, v);
    if k == |obj| {
      assert key !in Names(obj);
      assert Names(r) == Names(obj) + [key];
    } else {
      assert key in Names(obj);
      assert Names(r) == Names(obj);
    }
  }

  /** The names in order of first occurrence, each once. */
  function Dedup(names: seq<string>): seq<string>
    decreases |names|
  {
    if names == [] then []
    else
      var d := Dedup(names[..|names| - 1]);
      if names[|names| - 1] in d then d else d + [names[|names| - 1]]
  }

  /** `Dedup` keeps every name and repeats none. */
  lemma {:induction false} DedupFacts(names: seq<string>)
    ensures forall n :: n in Dedup(names) <==> n in names
    ensures forall i, j :: 0 <= i < j < |Dedup(names)| ==> Dedup(names)[i] != Dedup(names)[j]
    decreases |names|
  {
    if names != [] {
      var init := names[..|names| - 1];
      DedupFacts(init);
      assert names == init + [names[|names| - 1]];
    }
  }

  /** `defaultActionFactories(...names)`: an object that maps every given name, once, to
      `defaultActionFactory` (the function `f`). */
  method DefaultActionFactories(f: FnId, names: seq<string>) returns (result: Spec)
    ensures Names(result) == Dedup(names)
    ensures forall i :: 0 <= i < |result| ==> result[i].1 == Fn(f)
  {
    result := [];
    var i := 0;
    while i < |names|
      invariant i <= |names|
      invariant UniqueNames(result)
      invariant Names(result) == Dedup(names[..i])
      invariant forall k :: 0 <= k < |result| ==> result[k].1 == Fn(f)
    {
      SetPropFacts(result, names[i], Fn(f));
      result := SetProp(result, names[i], Fn(f));
      assert names[..i + 1][..i] == names[..i];
      i := i + 1;
    }
    assert names[..|names|] == names;
  }

  /** The object `defaultActionFactories` builds has exactly the given names as keys, each
      once, and `defaultActionFactory` under each. */
  lemma DefaultFactoriesShape(f: FnId, names: seq<string>, result: Spec)
    requires Names(result) == Dedup(names)
    requires forall i :: 0 <= i < |result| ==> result[i].1 == Fn(f)
    ensures UniqueNames(result)
    ensures forall n :: n in names <==> exists i :: 0 <= i < |result| && result[i].0 == n
  {
    DedupFacts(names);
    forall i, j | 0 <= i < j < |result|
      ensures result[i].0 != result[j].0
    {
      assert Names(result)[i] == result[i].0 && Names(result)[j] == result[j].0;
    }
    forall n
      ensures n in names <==> exists i :: 0 <= i < |result| && result[i].0 == n
    {
      if n in names {
        var i :| 0 <= i < |Names(result)| && Names(result)[i] == n;
        assert result[i].0 == n;
      }
    }
  }

  /** `actionFactories(defaultActionFactories(...names))`: every name's creator carries its
      derived type and makes `{type}` merged with its first argument. */
  lemma DefaultFactoriesCreators(env: Env, f: FnId, names: seq<string>, result: Spec,
                                 prefix: Option<string>, typeFormat: Option<Formatter>,
                                 name: string, args: seq<Value>)
    requires Names(result) == Dedup(names)
    requires forall i :: 0 <= i < |result| ==> result[i].1 == Fn(f)
    requires IsDefaultActionFactory(env, f) && name in names
    ensures var actions := ActionFactoriesOf(env, result, prefix, typeFormat);
            var t := FormatType(env, typeFormat, name, prefix);
            && name in actions && actions[name].actionType == t
            && CallCreator(env, actions[name], actions, args) == DefaultCreateAction(t, FirstArg(args))
  {
    DefaultFactoriesShape(f, names, result);
    var i :| 0 <= i < |result| && result[i].0 == name;
    ActionFactoriesLookup(env, result, prefix, typeFormat, i, args);
    var actions := ActionFactoriesOf(env, result, prefix, typeFormat);
    DefaultFactoryAsCreate(env, f, FormatType(env, typeFormat, name, prefix), actions, args);
  }

  /** lodash `identity`, the formatter the `reducer` helper installs. */
  function Identity(name: string): string {
    name
  }

  /** The case table of the `reducer` helper: `h` over the spec with every value wrapped
      as `{reduce: fn}`, each case keyed by its name as written. */
  function ReducerCasesOf(spec: Spec): map<string, FnId> {
    CasesOf(WrapValues(spec, "reduce"), Identity)
  }

  /** `reducer(spec, options = {})`: installs the identity formatter into `options` (in
      place, keeping its other fields) and returns the reducer `h` builds from it. */
  method Reducer(env: Env, spec: Spec, options: Options?) returns (reducer: ComposedReducer)
    modifies options
    ensures options != null ==> options.typeFormat == Some(IdentityFormat)
    ensures options != null ==> options.prefix == old(options.prefix) && options.initialState == old(options.initialState)
    ensures reducer == ComposedReducer(ReducerCasesOf(spec), InitialStateOf(options))
  {
    var opts: Options;
    if options == null {
      opts := new Options(None, Undefined, None);
    } else {
      opts := options;
    }
    opts.typeFormat := Some(IdentityFormat);
    var wrapped := WrapValues(spec, "reduce");
    var actions;
    actions, reducer := H(env, wrapped, opts);
    SameTypesSameRegistries(wrapped, TypeOf(env, Some(IdentityFormat), opts.prefix), Identity);
  }

  /** The helper's cases are keyed by exactly the names whose values are functions. */
  lemma ReducerCasesKeys(spec: Spec)
    ensures ReducerCasesOf(spec).Keys == set i | 0 <= i < |spec| && spec[i].1.Fn? :: spec[i].0
  {
    var wrapped := WrapValues(spec, "reduce");
    CasesOfKeys(wrapped, Identity);
    forall i | 0 <= i < |spec|
      ensures wrapped[i].0 == spec[i].0
      ensures CreateReducer(wrapped[i].1).Some? <==> spec[i].1.Fn?
    {
      assert Names(wrapped)[i] == Names(spec)[i];
      assert GetProp(wrapped[i].1, "reduce") == spec[i].1;
    }
  }

  /** Under each function-valued name the helper's case is that very function. */
  lemma ReducerCaseLookup(spec: Spec, i: nat)
    requires UniqueNames(spec) && i < |spec| && spec[i].1.Fn?
    ensures spec[i].0 in ReducerCasesOf(spec) && ReducerCasesOf(spec)[spec[i].0] == spec[i].1.id
  {
    var wrapped := WrapValues(spec, "reduce");
    WrapKeepsUniqueNames(spec, "reduce");
    assert GetProp(wrapped[i].1, "reduce") == spec[i].1;
    forall k | i < k < |wrapped| && CreateReducer(wrapped[k].1).Some?
      ensures Identity(wrapped[k].0) != Identity(wrapped[i].0)
    {
    }
    CasesOfLastWins(wrapped, Identity, i);
  }

  /** The two helpers fit together: a reducer keyed by a type dispatches the action the
      default creator makes for that type to the function under that key. */
  lemma ReducerDispatchesByName(env: Env, spec: Spec, i: nat, initialState: Value, state: Value, payload: Value)
    requires UniqueNames(spec) && i < |spec| && spec[i].1.Fn?
    requires "type" !in OwnKeys(payload)
    ensures var action := DefaultCreateAction(spec[i].0, payload);
            Reduce(env, ComposedReducer(ReducerCasesOf(spec), initialState), state, action) ==
            Returns(env.reduce(spec[i].1.id, if state.Undefined? then initialState else state, action))
  {
    ReducerCaseLookup(spec, i);
    Dispatch(env, ComposedReducer(ReducerCasesOf(spec), initialState), state, spec[i].0,
             DefaultCreateAction(spec[i].0, payload));
  }

  /** The identity formatter keeps every key, `"undefined"` included: a function under that
      key receives every action without a `type`. */
  lemma TypelessActionReachesUndefinedKey(env: Env, g: FnId, initialState: Value, state: Value, action: Value)
    requires !action.Undefined? && !action.Null? && GetProp(action, "type") == Undefined
    ensures Reduce(env, ComposedReducer(ReducerCasesOf([("undefined", Fn(g))]), initialState), state, action) ==
            Returns(env.reduce(g, if state.Undefined? then initialState else state, action))
  {
    ReducerCaseLookup([("undefined", Fn(g))], 0);
  }
}
