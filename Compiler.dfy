/** The spec compiler of index.js: `h` turns a spec into an `actions` registry and a
    reducer that dispatches on `action.type`. */
module Compiler {
  import opened Values
  import TypeFormatter

  /** An action creator, tagged with its `type`: the default one
      (`payload => defaultCreateAction(type, payload)`) or one that hands its arguments
      to the `create` function of a spec entry. */
  datatype Creator = Default(actionType: string) | Custom(actionType: string, create: FnId)

  /** The `actions` object: action name to creator. */
  type Registry = map<string, Creator>

  /** A spec object: its own enumerable properties in `Object.keys` order. */
  type Spec = seq<(string, Value)>

  /** The `typeFormat` option: the default formatter of typeformat.js, lodash `identity`
      (which the `reducer` helper installs), or a function of the caller's. */
  datatype Formatter = DefaultFormat | IdentityFormat | CustomFormat(format: FnId)

  /** What the caller's functions compute: a reducer `(state, action)`, a `create`
      function `(type, actions, ...args)` and a type formatter `(name, prefix)`. */
  datatype Env = Env(
    reduce: (FnId, Value, Value) -> Value,
    create: (FnId, string, Registry, seq<Value>) -> Value,
    format: (FnId, string, Option<string>) -> string)

  /** The three shapes of a spec entry: a plain function, an object with a `create` and/or
      a `reduce` function, and anything else. */
  datatype Entry = PlainFn(fn: FnId) | Capability(create: Option<FnId>, reduce: Option<FnId>) | Inert

  /** `v[key]`, when it is a function. */
  function FnProp(v: Value, key: string): Option<FnId> {
    var p := GetProp(v, key);
    if p.Fn? then Some(p.id) else None
  }

  /** lodash `isObject`: objects and functions. */
  predicate IsObject(v: Value) {
    v.Obj? || v.Fn?
  }

  /** The shape of a spec entry, decided once. */
  function Classify(v: Value): (e: Entry)
    ensures e.Capability? ==> e.create.Some? || e.reduce.Some?
  {
    if v.Fn? then PlainFn(v.id)
    else if v.Obj? && (FnProp(v, "create").Some? || FnProp(v, "reduce").Some?) then
      Capability(FnProp(v, "create"), FnProp(v, "reduce"))
    else Inert
  }

  /** `createReducer`: a plain function is its own case, an object contributes its
      `reduce` function, and nothing else registers a case. */
  function CreateReducer(spec: Value): (r: Option<FnId>)
    ensures r == match Classify(spec)
                 case PlainFn(f) => Some(f)
                 case Capability(_, reduce) => reduce
                 case Inert => None
  {
    if spec.Fn? then Some(spec.id)
    else if IsObject(spec) && FnProp(spec, "reduce").Some? then FnProp(spec, "reduce")
    else None
  }

  /** `createActionFactory`: a `create` function wins; otherwise a plain function or an
      object with `reduce` gets the default creator; anything else gets none. */
  function CreateActionFactory(actionType: string, spec: Value): (r: Option<Creator>)
    ensures r.Some? ==> r.value.actionType == actionType
    ensures r == match Classify(spec)
                 case Capability(Some(f), _) => Some(Custom(actionType, f))
                 case Capability(None, _) => Some(Default(actionType))
                 case PlainFn(_) => Some(Default(actionType))
                 case Inert => None
  {
    var isObj := IsObject(spec);
    if isObj && FnProp(spec, "create").Some? then Some(Custom(actionType, FnProp(spec, "create").value))
    else if spec.Fn? || (isObj && FnProp(spec, "reduce").Some?) then Some(Default(actionType))
    else None
  }

  /** `defaultCreateAction`: `{type}` with the payload's own fields copied over it. */
  function DefaultCreateAction(actionType: string, payload: Value): (r: Value)
    ensures r.Obj?
    ensures r.props.Keys == {"type"} + OwnKeys(payload)
    ensures "type" !in OwnKeys(payload) ==> r.props["type"] == Str(actionType)
    ensures forall k :: k in OwnKeys(payload) ==> r.props[k] == payload.props[k]
  {
    Obj(Assign(map["type" := Str(actionType)], payload))
  }

  /** The payload is merged after `type`, so a payload field `type` replaces the derived one. */
  lemma PayloadTypeWins(actionType: string, payload: Value)
    requires "type" in OwnKeys(payload)
    ensures DefaultCreateAction(actionType, payload).props["type"] == payload.props["type"]
  {
  }

  /** The first argument of a call, `undefined` when there is none. */
  function FirstArg(args: seq<Value>): Value {
    if |args| > 0 then args[0] else Undefined
  }

  /** Calling a creator with `args`; `actions` is the registry object the creator was made
      for, read at the time of the call. */
  function CallCreator(env: Env, c: Creator, actions: Registry, args: seq<Value>): Value {
    match c
    case Default(actionType) => DefaultCreateAction(actionType, FirstArg(args))
    case Custom(actionType, create) => env.create(create, actionType, actions, args)
  }

  /** `typeFormat(name, options.prefix)` with the formatter `options.typeFormat || defaultTypeFormat`. */
  function FormatType(env: Env, typeFormat: Option<Formatter>, name: string, prefix: Option<string>): string {
    match typeFormat
    case None => TypeFormatter.TypeFormat(name, prefix)
    case Some(DefaultFormat) => TypeFormatter.TypeFormat(name, prefix)
    case Some(IdentityFormat) => name
    case Some(CustomFormat(f)) => env.format(f, name, prefix)
  }

  /** The registry after `addAction(actions, name, type, spec)`. */
  function ActionStep(actions: Registry, name: string, actionType: string, spec: Value): Registry {
    match CreateActionFactory(actionType, spec)
    case Some(c) => actions[name := c]
    case None => actions
  }

  /** The case table after `addReducer(reducers, type, spec)`. */
  function CaseStep(cases: map<string, FnId>, actionType: string, spec: Value): map<string, FnId> {
    match CreateReducer(spec)
    case Some(f) => cases[actionType := f]
    case None => cases
  }

  /** The type of every name, as `h` derives it with the given formatter and prefix. */
  function TypeOf(env: Env, typeFormat: Option<Formatter>, prefix: Option<string>): string -> string {
    name => FormatType(env, typeFormat, name, prefix)
  }

  /** The `actions` registry `h` builds from `spec`, each name typed by `typeOf`. */
  function ActionsOf(spec: Spec, typeOf: string -> string): Registry
    decreases |spec|
  {
    if spec == [] then map[]
    else
      var name := spec[|spec| - 1].0;
      ActionStep(ActionsOf(spec[..|spec| - 1], typeOf), name, typeOf(name), spec[|spec| - 1].1)
  }

  /** The `reducers` case table `h` builds from `spec`, each name typed by `typeOf`. */
  function CasesOf(spec: Spec, typeOf: string -> string): map<string, FnId>
    decreases |spec|
  {
    if spec == [] then map[]
    else
      CaseStep(CasesOf(spec[..|spec| - 1], typeOf), typeOf(spec[|spec| - 1].0), spec[|spec| - 1].1)
  }

  /** The options object `h` reads: `prefix`, `initialState` and `typeFormat`. */
  class Options {
    var prefix: Option<string>
    var initialState: Value
    var typeFormat: Option<Formatter>

    constructor (prefix: Option<string>, initialState: Value, typeFormat: Option<Formatter>)
      ensures this.prefix == prefix && this.initialState == initialState && this.typeFormat == typeFormat
    {
      this.prefix := prefix;
      this.initialState := initialState;
      this.typeFormat := typeFormat;
    }
  }

  /** `options.prefix`, where a missing options argument stands for `{}`. */
  function PrefixOf(options: Options?): Option<string>
    reads options
  {
    if options == null then None else options.prefix
  }

  function InitialStateOf(options: Options?): Value
    reads options
  {
    if options == null then Undefined else options.initialState
  }

  function TypeFormatOf(options: Options?): Option<Formatter>
    reads options
  {
    if options == null then None else options.typeFormat
  }

  /** The `actions` object. Custom creators hold it by reference, so a call sees every
      creator registered in it by then, including those of later spec entries. */
  class ActionRegistry {
    var creators: Registry

    constructor ()
      ensures creators == map[]
    {
      creators := map[];
    }

    /** `actions[name](...args)`: calling a missing creator throws. */
    function Invoke(env: Env, name: string, args: seq<Value>): (r: Outcome)
      reads this
      ensures r.ThrowsTypeError? <==> name !in creators
      ensures name in creators ==> r.value == CallCreator(env, creators[name], creators, args)
    {
      if name in creators then Returns(CallCreator(env, creators[name], creators, args))
      else ThrowsTypeError
    }
  }

  /** The `reducers` object: type to case function. */
  class CaseRegistry {
    var cases: map<string, FnId>

    constructor ()
      ensures cases == map[]
    {
      cases := map[];
    }
  }

  /** `addAction`: registers the entry's creator, tagged with `type`, under `name`. */
  method AddAction(actions: ActionRegistry, name: string, actionType: string, spec: Value)
    modifies actions
    ensures actions.creators == ActionStep(old(actions.creators), name, actionType, spec)
  {
    var factory := CreateActionFactory(actionType, spec);
    if factory.Some? {
      actions.creators := actions.creators[name := factory.value];
    }
  }

  /** `addReducer`: registers the entry's case under `type`, replacing an earlier one. */
  method AddReducer(reducers: CaseRegistry, actionType: string, spec: Value)
    modifies reducers
    ensures reducers.cases == CaseStep(old(reducers.cases), actionType, spec)
  {
    var reducer := CreateReducer(spec);
    if reducer.Some? {
      reducers.cases := reducers.cases[actionType := reducer.value];
    }
  }

  /** The reducer closure `composeReducers(reducers, initialState)` returns. */
  datatype ComposedReducer = ComposedReducer(cases: map<string, FnId>, initialState: Value)

  /** Calling the reducer: an undefined state becomes the initial state, the case
      registered under `action.type` is applied, and any other action leaves the state as
      it is. Reading `type` of an undefined or null action throws. */
  function Reduce(env: Env, reducer: ComposedReducer, state: Value, action: Value): (r: Outcome)
    ensures r.ThrowsTypeError? <==> action.Undefined? || action.Null?
  {
    if action.Undefined? || action.Null? then ThrowsTypeError
    else
      var s := if state.Undefined? then reducer.initialState else state;
      var key := PropertyKey(GetProp(action, "type"));
      if key.Some? && key.value in reducer.cases then Returns(env.reduce(reducer.cases[key.value], s, action))
      else Returns(s)
  }

  /** `h(spec, options)`: one pass over the spec keys fills both registries. */
  method H(env: Env, spec: Spec, options: Options?) returns (actions: ActionRegistry, reducer: ComposedReducer)
    ensures fresh(actions)
    ensures actions.creators == ActionsOf(spec, TypeOf(env, TypeFormatOf(options), PrefixOf(options)))
    ensures reducer == ComposedReducer(CasesOf(spec, TypeOf(env, TypeFormatOf(options), PrefixOf(options))),
                                       InitialStateOf(options))
  {
    actions := new ActionRegistry();
    var reducers := new CaseRegistry();
    var typeFormat := TypeFormatOf(options);
    var prefix := PrefixOf(options);
    ghost var typeOf := TypeOf(env, typeFormat, prefix);
    var i := 0;
    while i < |spec|
      invariant i <= |spec|
      invariant actions.creators == ActionsOf(spec[..i], typeOf)
      invariant reducers.cases == CasesOf(spec[..i], typeOf)
    {
      var name := spec[i].0;
      var actionType := FormatType(env, typeFormat, name, prefix);
      AddAction(actions, name, actionType, spec[i].1);
      AddReducer(reducers, actionType, spec[i].1);
      assert spec[..i + 1][..i] == spec[..i];
      i := i + 1;
    }
    assert spec[..|spec|] == spec;
    reducer := ComposedReducer(reducers.cases, InitialStateOf(options));
  }

  /** Spec objects have distinct keys. */
  predicate UniqueNames(spec: Spec) {
    forall i, j :: 0 <= i < j < |spec| ==> spec[i].0 != spec[j].0
  }

  /** Every registered creator carries the type derived from its name. */
  lemma {:induction false} ActionTypes(spec: Spec, typeOf: string -> string)
    ensures forall n :: n in ActionsOf(spec, typeOf) ==> ActionsOf(spec, typeOf)[n].actionType == typeOf(n)
    decreases |spec|
  {
    if spec != [] {
      ActionTypes(spec[..|spec| - 1], typeOf);
    }
  }

  /** The registry's names are exactly the names of the entries that are not inert. */
  lemma {:induction false} ActionsOfKeys(spec: Spec, typeOf: string -> string)
    ensures ActionsOf(spec, typeOf).Keys == set i | 0 <= i < |spec| && Classify(spec[i].1) != Inert :: spec[i].0
    decreases |spec|
  {
    if spec != [] {
      var n := |spec| - 1;
      var init := spec[..n];
      ActionsOfKeys(init, typeOf);
      assert forall i :: 0 <= i < n ==> init[i] == spec[i];
      var before := set i | 0 <= i < n && Classify(init[i].1) != Inert :: init[i].0;
      var after := set i | 0 <= i < |spec| && Classify(spec[i].1) != Inert :: spec[i].0;
      assert after == before + (if Classify(spec[n].1) != Inert then {spec[n].0} else {});
    }
  }

  /** Under a distinct name, each entry's creator is the one `createActionFactory` makes. */
  lemma {:induction false} ActionsOfLookup(spec: Spec, typeOf: string -> string, i: nat)
    requires UniqueNames(spec) && i < |spec|
    ensures var c := CreateActionFactory(typeOf(spec[i].0), spec[i].1);
            var actions := ActionsOf(spec, typeOf);
            (c.Some? <==> spec[i].0 in actions) && (c.Some? ==> actions[spec[i].0] == c.value)
    decreases |spec|
  {
    var n := |spec| - 1;
    var init := spec[..n];
    if i < n {
      assert init[i] == spec[i];
      ActionsOfLookup(init, typeOf, i);
      assert spec[n].0 != spec[i].0;
    } else {
      ActionsOfKeys(init, typeOf);
      forall j | 0 <= j < n
        ensures init[j].0 != spec[i].0
      {
        assert init[j] == spec[j];
      }
    }
  }

  /** The case table's types are exactly the types of the entries that have a case. */
  lemma {:induction false} CasesOfKeys(spec: Spec, typeOf: string -> string)
    ensures CasesOf(spec, typeOf).Keys == set i | 0 <= i < |spec| && CreateReducer(spec[i].1).Some? :: typeOf(spec[i].0)
    decreases |spec|
  {
    if spec != [] {
      var n := |spec| - 1;
      var init := spec[..n];
      CasesOfKeys(init, typeOf);
      assert forall i :: 0 <= i < n ==> init[i] == spec[i];
      var before := set i | 0 <= i < n && CreateReducer(init[i].1).Some? :: typeOf(init[i].0);
      var after := set i | 0 <= i < |spec| && CreateReducer(spec[i].1).Some? :: typeOf(spec[i].0);
      assert after == before + (if CreateReducer(spec[n].1).Some? then {typeOf(spec[n].0)} else {});
    }
  }

  /** When several entries share a type, the case of the last one with a case wins. */
  lemma {:induction false} CasesOfLastWins(spec: Spec, typeOf: string -> string, j: nat)
    requires j < |spec| && CreateReducer(spec[j].1).Some?
    requires forall k :: j < k < |spec| && CreateReducer(spec[k].1).Some? ==> typeOf(spec[k].0) != typeOf(spec[j].0)
    ensures var cases := CasesOf(spec, typeOf);
            typeOf(spec[j].0) in cases && cases[typeOf(spec[j].0)] == CreateReducer(spec[j].1).value
    decreases |spec|
  {
    var n := |spec| - 1;
    var t := typeOf(spec[j].0);
    if j < n {
      var init := spec[..n];
      assert forall k :: 0 <= k < n ==> init[k] == spec[k];
      CasesOfLastWins(init, typeOf, j);
      var before := CasesOf(init, typeOf);
      assert t in before && before[t] == CreateReducer(spec[j].1).value;
      assert CreateReducer(spec[n].1).Some? ==> typeOf(spec[n].0) != t;
    }
  }

  /** The registries depend on the formatter only through the types it gives the names. */
  lemma {:induction false} SameTypesSameRegistries(spec: Spec, typeOf: string -> string, typeOf': string -> string)
    requires forall i :: 0 <= i < |spec| ==> typeOf(spec[i].0) == typeOf'(spec[i].0)
    ensures ActionsOf(spec, typeOf) == ActionsOf(spec, typeOf')
    ensures CasesOf(spec, typeOf) == CasesOf(spec, typeOf')
    decreases |spec|
  {
    if spec != [] {
      var init := spec[..|spec| - 1];
      assert forall i :: 0 <= i < |init| ==> init[i] == spec[i];
      SameTypesSameRegistries(init, typeOf, typeOf');
    }
  }

  /** A formatter of the caller's replaces the default one: every creator is typed by
      what it returns for the creator's name and the prefix. */
  lemma CustomFormatTypes(env: Env, spec: Spec, format: FnId, prefix: Option<string>)
    ensures var actions := ActionsOf(spec, TypeOf(env, Some(CustomFormat(format)), prefix));
            forall n :: n in actions ==> actions[n].actionType == env.format(format, n, prefix)
  {
    ActionTypes(spec, TypeOf(env, Some(CustomFormat(format)), prefix));
  }

  /** Called without a payload, the default creator makes exactly `{type}`. */
  lemma NoPayloadAction(env: Env, actionType: string, actions: Registry)
    ensures CallCreator(env, Default(actionType), actions, []) == Obj(map["type" := Str(actionType)])
  {
    var r := CallCreator(env, Default(actionType), actions, []);
    assert r.props.Keys == {"type"};
  }

  /** An inert entry adds nothing to either registry. */
  lemma InertEntryIgnored(spec: Spec, typeOf: string -> string, name: string, v: Value)
    requires Classify(v) == Inert
    ensures ActionsOf(spec + [(name, v)], typeOf) == ActionsOf(spec, typeOf)
    ensures CasesOf(spec + [(name, v)], typeOf) == CasesOf(spec, typeOf)
  {
    assert (spec + [(name, v)])[..|spec|] == spec;
  }

  /** A `create` function is handed the completed registry: whatever the declaration
      order, every sibling that is not inert is in it under its derived type. */
  lemma ForwardReference(spec: Spec, typeOf: string -> string, env: Env, i: nat, j: nat, args: seq<Value>)
    requires UniqueNames(spec) && i < |spec| && j < |spec|
    requires FnProp(spec[i].1, "create").Some?
    requires Classify(spec[j].1) != Inert
    ensures var actions := ActionsOf(spec, typeOf);
            && spec[i].0 in actions && spec[j].0 in actions
            && actions[spec[j].0].actionType == typeOf(spec[j].0)
            && CallCreator(env, actions[spec[i].0], actions, args) ==
               env.create(FnProp(spec[i].1, "create").value, typeOf(spec[i].0), actions, args)
  {
    ActionsOfLookup(spec, typeOf, i);
    ActionsOfLookup(spec, typeOf, j);
  }

  /** Through the `actions` object `h` returns, calling an entry with a `create` function
      hands that function the object's registry as it is at the time of the call, in which
      every sibling that is not inert, declared before or after, is present. */
  lemma InvokeSeesLaterSiblings(env: Env, actions: ActionRegistry, spec: Spec, typeOf: string -> string,
                                i: nat, j: nat, args: seq<Value>)
    requires actions.creators == ActionsOf(spec, typeOf)
    requires UniqueNames(spec) && i < |spec| && j < |spec|
    requires FnProp(spec[i].1, "create").Some? && Classify(spec[j].1) != Inert
    ensures actions.Invoke(env, spec[i].0, args) ==
            Returns(env.create(FnProp(spec[i].1, "create").value, typeOf(spec[i].0), actions.creators, args))
    ensures spec[j].0 in actions.creators && actions.creators[spec[j].0].actionType == typeOf(spec[j].0)
  {
    ForwardReference(spec, typeOf, env, i, j, args);
  }

  /** An entry whose creator is the default one. */
  predicate HasDefaultCreator(v: Value) {
    Classify(v).PlainFn? || (Classify(v).Capability? && Classify(v).create.None?)
  }

  /** Under a distinct name, an entry without a `create` function gets the default
      creator of its derived type. */
  lemma DefaultCreatorOf(spec: Spec, typeOf: string -> string, i: nat)
    requires UniqueNames(spec) && i < |spec| && HasDefaultCreator(spec[i].1)
    ensures spec[i].0 in ActionsOf(spec, typeOf)
    ensures ActionsOf(spec, typeOf)[spec[i].0] == Default(typeOf(spec[i].0))
  {
    ActionsOfLookup(spec, typeOf, i);
  }

  /** The two products fit together: the action a default creator makes from a payload
      without its own `type` reaches that entry's case in the reducer. */
  lemma DefaultActionDispatches(spec: Spec, typeOf: string -> string, env: Env, initialState: Value,
                                i: nat, payload: Value, state: Value)
    requires UniqueNames(spec) && i < |spec| && HasDefaultCreator(spec[i].1)
    requires forall k :: i < k < |spec| && CreateReducer(spec[k].1).Some? ==> typeOf(spec[k].0) != typeOf(spec[i].0)
    requires "type" !in OwnKeys(payload)
    ensures var actions := ActionsOf(spec, typeOf);
            var reducer := ComposedReducer(CasesOf(spec, typeOf), initialState);
            && spec[i].0 in actions
            && var action := CallCreator(env, actions[spec[i].0], actions, [payload]);
               Reduce(env, reducer, state, action) ==
               Returns(env.reduce(CreateReducer(spec[i].1).value, if state.Undefined? then initialState else state, action))
  {
    var t := typeOf(spec[i].0);
    DefaultCreatorOf(spec, typeOf, i);
    CasesOfLastWins(spec, typeOf, i);
    var actions := ActionsOf(spec, typeOf);
    var reducer := ComposedReducer(CasesOf(spec, typeOf), initialState);
    var action := CallCreator(env, actions[spec[i].0], actions, [payload]);
    assert action == DefaultCreateAction(t, payload);
    Dispatch(env, reducer, state, t, action);
  }

  /** Without a matching case the state passes through; an undefined state becomes
      exactly the initial state. */
  lemma PassThrough(env: Env, reducer: ComposedReducer, state: Value, action: Value)
    requires !action.Undefined? && !action.Null?
    requires PropertyKey(GetProp(action, "type")).None? || PropertyKey(GetProp(action, "type")).value !in reducer.cases
    ensures state.Undefined? ==> Reduce(env, reducer, state, action) == Returns(reducer.initialState)
    ensures !state.Undefined? ==> Reduce(env, reducer, state, action) == Returns(state)
  {
  }

  /** No type the default formatter makes is `"undefined"`, the key an action without a
      `type` is looked up under. */
  lemma DefaultTypeIsNotUndefined(name: string, prefix: Option<string>)
    ensures TypeFormatter.TypeFormat(name, prefix) != "undefined"
  {
    var t := TypeFormatter.TypeFormat(name, prefix);
    TypeFormatter.NoLowerCase(name, prefix);
    if |t| > 0 {
      assert !TypeFormatter.IsLower(t[0]);
      assert t[0] != 'u';
    }
  }

  /** Under the default formatter an action without a `type` never meets a case: the state
      passes through, and an undefined state becomes exactly the initial state. */
  lemma TypelessActionPassesThrough(env: Env, spec: Spec, typeFormat: Option<Formatter>, prefix: Option<string>,
                                    initialState: Value, state: Value, action: Value)
    requires typeFormat.None? || typeFormat == Some(DefaultFormat)
    requires !action.Undefined? && !action.Null? && GetProp(action, "type") == Undefined
    ensures Reduce(env, ComposedReducer(CasesOf(spec, TypeOf(env, typeFormat, prefix)), initialState), state, action) ==
            Returns(if state.Undefined? then initialState else state)
  {
    var typeOf := TypeOf(env, typeFormat, prefix);
    CasesOfKeys(spec, typeOf);
    forall i | 0 <= i < |spec|
      ensures typeOf(spec[i].0) != "undefined"
    {
      DefaultTypeIsNotUndefined(spec[i].0, prefix);
    }
    assert "undefined" !in CasesOf(spec, typeOf);
  }

  /** With a matching case, the reducer returns what the case returns on the
      substituted state. */
  lemma Dispatch(env: Env, reducer: ComposedReducer, state: Value, t: string, action: Value)
    requires !action.Undefined? && !action.Null?
    requires PropertyKey(GetProp(action, "type")) == Some(t) && t in reducer.cases
    ensures Reduce(env, reducer, state, action) ==
            Returns(env.reduce(reducer.cases[t], if state.Undefined? then reducer.initialState else state, action))
  {
  }
}
