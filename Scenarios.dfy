/** The behaviours the helper tests pin down, derived from the general lemmas. */
module Scenarios {
  import opened Values
  import opened Compiler
  import opened Helpers
  import TypeFormatExamples

  /** `actionFactories({someAction}, 'pre')` types its creator `PRE_SOME_ACTION`, as
      `{prefix: 'pre'}` does. */
  lemma PrefixedFactoryType(env: Env, name: string, prefix: string, f: FnId)
    requires name == "someAction" && prefix == "pre"
    ensures var actions := ActionFactoriesOf(env, [(name, Fn(f))], Some(prefix), None);
            name in actions && actions[name].actionType == "PRE_SOME_ACTION"
  {
    ActionFactoriesLookup(env, [(name, Fn(f))], Some(prefix), None, 0, []);
    TypeFormatExamples.PrefixedSomeActionType(name, prefix);
  }

  /** A reducer keyed by the type of a `defaultActionFactory` creator applies its case to
      the initial state for an undefined state and to the given state otherwise. */
  lemma ReducerWithInitialState(env: Env, name: string, f: FnId, g: FnId, payload: Value, state: Value)
    requires IsDefaultActionFactory(env, f)
    requires "type" !in OwnKeys(payload)
    ensures var actions := ActionFactoriesOf(env, [(name, Fn(f))], None, None);
            && name in actions
            && var t := actions[name].actionType;
               var action := CallCreator(env, actions[name], actions, [payload]);
               var reducer := ComposedReducer(ReducerCasesOf([(t, Fn(g))]), Num(0));
               && Reduce(env, reducer, Undefined, action) == Returns(env.reduce(g, Num(0), action))
               && (!state.Undefined? ==> Reduce(env, reducer, state, action) == Returns(env.reduce(g, state, action)))
  {
    var actions := ActionFactoriesOf(env, [(name, Fn(f))], None, None);
    ActionFactoriesLookup(env, [(name, Fn(f))], None, None, 0, [payload]);
    var t := actions[name].actionType;
    DefaultFactoryAsCreate(env, f, t, actions, [payload]);
    ReducerDispatchesByName(env, [(t, Fn(g))], 0, Num(0), Undefined, payload);
    ReducerDispatchesByName(env, [(t, Fn(g))], 0, Num(0), state, payload);
  }

  /** A string is not an action with a `type`: `reducer({TEST})` returns the state it is
      given for `'XYZ'`. */
  lemma IgnoreUnknownAction(env: Env, name: string, g: FnId, state: Value)
    requires name == "TEST" && !state.Undefined?
    ensures Reduce(env, ComposedReducer(ReducerCasesOf([(name, Fn(g))]), Undefined), state, Str("XYZ")) == Returns(state)
  {
    ReducerCasesKeys([(name, Fn(g))]);
    assert ReducerCasesOf([(name, Fn(g))]).Keys == {name};
  }

  /** `h({someAction() {}, myOtherAction() {}})` gives both names default creators typed
      `SOME_ACTION` and `MY_OTHER_ACTION`. */
  lemma ActionTypeNames(env: Env, a: string, b: string, f: FnId, g: FnId)
    requires a == "someAction" && b == "myOtherAction"
    ensures var actions := ActionsOf([(a, Fn(f)), (b, Fn(g))], TypeOf(env, None, None));
            && a in actions && actions[a] == Default("SOME_ACTION")
            && b in actions && actions[b] == Default("MY_OTHER_ACTION")
  {
    var spec := [(a, Fn(f)), (b, Fn(g))];
    assert a[0] != b[0];
    DefaultCreatorOf(spec, TypeOf(env, None, None), 0);
    DefaultCreatorOf(spec, TypeOf(env, None, None), 1);
    TypeFormatExamples.SomeActionType(a);
    TypeFormatExamples.MyOtherActionType(b);
  }

  /** `action.type` is converted to a key: `{type: 1}` reaches a case registered under `"1"`,
      the type the default formatter gives the name `1`. */
  lemma NumericTypeDispatches(env: Env, g: FnId, initialState: Value, state: Value)
    ensures var action := Obj(map["type" := Num(1)]);
            Reduce(env, ComposedReducer(map["1" := g], initialState), state, action) ==
            Returns(env.reduce(g, if state.Undefined? then initialState else state, action))
  {
    var action := Obj(map["type" := Num(1)]);
    assert PropertyKey(GetProp(action, "type")) == Some("1");
    Dispatch(env, ComposedReducer(map["1" := g], initialState), state, "1", action);
  }
}
