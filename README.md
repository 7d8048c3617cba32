# redux-heretic, modelled in Dafny

redux-heretic compiles one declarative *spec* object into the two halves of a Redux
module. The first half is an `actions` object of action creators, each tagged with the
action `type` derived from its name. The second half is a reducer that dispatches on
`action.type`. This project models the three files of that core:

- `typeformat.js`: the default type formatter. It is `TypeFormatter.TypeFormat`, built on a
  simplified ASCII `snakeCase` (`TypeFormatter.SnakeCase`).
- `index.js`: the compiler `h` and its helpers.
  - `h` is the method `Compiler.H`. It fills an `ActionRegistry` and a `CaseRegistry`
    object in a loop.
  - Entries are classified with `Classify`, `CreateReducer` and `CreateActionFactory`.
  - Calling the returned reducer is the function `Compiler.Reduce`.
- `helpers.js`: the convenience layer. It is `Helpers.ActionFactories`,
  `Helpers.DefaultActionFactory`, `Helpers.DefaultActionFactories` and `Helpers.Reducer`.

How the model represents the program:

- **JavaScript values** are the datatype `Values.Value`. Objects are maps of their own
  enumerable properties. A spec object is a sequence of `(key, value)` pairs in
  `Object.keys` order.
- **User functions** (reducers, `create` functions, custom formatters) are identifiers,
  `FnId`. What they return is given by the arrows of `Compiler.Env`.
- **Creators** are `Default(type)` or `Custom(type, create)`. A custom creator is always
  called with the registry it was registered in, read at call time. This is how the model
  captures a closure holding the `actions` object by reference (`index.js:67`): a
  `create` function sees siblings that were declared after it.
- **Mutable objects** are Dafny classes. The options object is one, because the `reducer`
  helper updates it in place. The `actions` and `reducers` objects that `h` fills are also
  classes.
- **The loops** of `h` and of `defaultActionFactories` are `while` loops. Each is proved
  against a fold: over the spec (`ActionsOf`, `CasesOf`) or over the names (`Dedup`).

Behaviours of the code worth knowing:

- `defaultCreateAction` copies the payload over `{type}`, so a payload with its own `type`
  replaces the derived type (`Compiler.PayloadTypeWins`).
- `defaultActionFactory` takes `(type, actions, payload)` and ignores `actions`.
- `h` does not turn a string second argument into `{prefix}`. Only `actionFactories` does
  that.
- No spec keys are reserved. `prefix` and `initialState` inside a spec are ordinary entries.
- Two names may format to the same type, for example `fooBar` and `foo_bar`. Their cases
  then share one slot, and the last one wins (`Compiler.CasesOfLastWins`).
- An action without a `type` is looked up under the key `"undefined"`. The default
  formatter never produces that key, so under it such an action always passes through
  (`Compiler.TypelessActionPassesThrough`). The identity formatter of the `reducer` helper
  does not have this guarantee: a spec key `"undefined"` receives every typeless action
  (`Helpers.TypelessActionReachesUndefinedKey`).

## Model

| member | source | states |
|---|---|---|
| TypeFormatter.SnakeCase | typeformat.js:4-5 | the snake-cased name is lower-case letters, digits and single `_` separators, with no `_` at either end |
| TypeFormatter.SnakeFromShape | typeformat.js:4-5 | every suffix of the word splitter yields lower-case words joined by single `_`; it starts with `_` only after a word has been written |
| TypeFormatter.TypeFormatShape | typeformat.js:3-5 | the type has only upper-case letters, digits and `_`; the name segment is a suffix of it; an empty or absent prefix gives exactly the name segment; a non-empty prefix gives the prefix segment and `_` as its prefix, with the matching length |
| TypeFormatter.SegmentChars | typeformat.js:4-5 | an upper-cased snake-cased segment has only upper-case letters, digits and `_` |
| TypeFormatter.NoLowerCase | typeformat.js:4-5 | no formatted type contains a lower-case letter |
| TypeFormatter.AbsentPrefixIsEmpty | typeformat.js:3-4 | an absent prefix behaves as `''`, and both give exactly `Upper(snake(name))` |
| TypeFormatter.PrefixedType | typeformat.js:4-5 | with a non-empty prefix the type is `Upper(snake(prefix)) + "_" + Upper(snake(name))` |
| TypeFormatExamples.SnakeSomeAction | test/actions.js:11 | `snakeCase("someAction")` is `some_action` |
| TypeFormatExamples.SomeActionType | test/actions.js:11 | `someAction` formats to `SOME_ACTION` |
| TypeFormatExamples.MyOtherActionType | test/actions.js:12 | `myOtherAction` formats to `MY_OTHER_ACTION` |
| TypeFormatExamples.PrefixedSomeActionType | test/helpers.js:30 | `someAction` with prefix `pre` formats to `PRE_SOME_ACTION` |
| Values.Assign | index.js:75 | `Object.assign` onto a plain object: the keys are the union, the source's own fields win, and the other target fields stay |
| Values.PropertyKey | index.js:32 | a string key is used as it is; primitives are coerced to a key; objects and functions have no key the model computes |
| Compiler.Classify | index.js:64-72 | an entry classed as a capability object has a `create` or a `reduce` function |
| Compiler.CreateReducer | index.js:47-54 | a function entry is its own case; an object entry contributes its `reduce` function; every other entry, `create`-only ones included, has no case |
| Compiler.CreateActionFactory | index.js:64-72 | a `create` function gives a custom creator; a function entry or a `reduce`-only object gives the default creator; an inert entry gives none; every creator carries the given type |
| Compiler.DefaultCreateAction | index.js:74-76 | the action is an object whose keys are `type` plus the payload's own keys; the payload's fields are copied; `type` is the derived type unless the payload has its own |
| Compiler.PayloadTypeWins | index.js:75 | a payload's own `type` field replaces the derived type |
| Compiler.InvokeSeesLaterSiblings | index.js:66-67 | calling an entry with a `create` function through the `actions` object `h` returns hands `create` the type and that object's registry at call time, which holds every non-inert sibling, declared earlier or later, under its derived type |
| Compiler.AddAction | index.js:56-62 | the registry gains the entry's creator under its name, and is unchanged when the entry has none |
| Compiler.AddReducer | index.js:40-45 | the case table gains the entry's case under its type, replacing an earlier one, and is unchanged when there is none |
| Compiler.Reduce | index.js:29-37 | the reducer throws exactly on an undefined or null action |
| Compiler.H | index.js:7-24 | the returned registry and case table are the folds `ActionsOf` and `CasesOf` of the spec, typed by the chosen formatter and prefix; the reducer holds `options.initialState` |
| Compiler.ActionTypes | index.js:13-16 | every registered creator's `type` is the formatted type of its name |
| Compiler.ActionsOfKeys | index.js:12-18 | the registry's names are exactly the spec keys whose entries are not inert |
| Compiler.ActionsOfLookup | index.js:56-72 | for distinct keys, each name's creator is present exactly when `createActionFactory` makes one, and is that creator |
| Compiler.CasesOfKeys | index.js:40-45 | the case table's types are exactly the types of the entries that have a case |
| Compiler.CasesOfLastWins | index.js:42-44 | when several entries share a type, the case of the last entry with a case is the one registered |
| Compiler.SameTypesSameRegistries | index.js:10-17 | the registries depend on the formatter and prefix only through the types they give the spec's names |
| Compiler.CustomFormatTypes | index.js:10-13 | a caller's `typeFormat` replaces the default: every creator's type is what it returns for the name and the prefix |
| Compiler.NoPayloadAction | index.js:69-75 | the default creator called without a payload returns exactly `{type}` |
| Compiler.InertEntryIgnored | index.js:58-61 | an inert entry adds nothing to the registry or the case table |
| Compiler.ForwardReference | index.js:66-67 | a `create` function is called with the type and the completed registry, in which every sibling that is not inert, earlier or later, is present with its derived type |
| Compiler.DefaultCreatorOf | index.js:68-69 | an entry without a `create` function that is not inert gets the default creator of its type |
| Compiler.DefaultActionDispatches | index.js:30-35 | the action that a default creator makes from a payload without `type` reaches that entry's case, applied to the substituted state |
| Compiler.PassThrough | index.js:31-36 | with no case for `action.type`, the state is returned unchanged, and an undefined state becomes exactly `initialState` |
| Compiler.DefaultTypeIsNotUndefined | typeformat.js:4-5 | no type the default formatter makes is `"undefined"` |
| Compiler.TypelessActionPassesThrough | index.js:31-36 | under the default formatter, an action whose `type` is missing or `undefined` leaves the state unchanged, and an undefined state becomes exactly `initialState` |
| Compiler.Dispatch | index.js:31-35 | with a case under the key `action.type` converts to (strings as they are, numbers, booleans, `null` and `undefined` as their key strings), the reducer returns the case's result on the substituted state |
| Scenarios.NumericTypeDispatches | index.js:32 | an action `{type: 1}` reaches the case registered under `"1"` |
| Helpers.WrapValues | helpers.js:8 | `mapValues` keeps the keys and their order and wraps each value under one property |
| Helpers.WrapKeepsUniqueNames | helpers.js:8 | wrapping keeps the keys distinct |
| Helpers.ActionFactories | helpers.js:6-9 | with no second argument the registry is that of `h` over the `{create}`-wrapped spec with no prefix; a string `s` gives exactly the registry of `{prefix: s}`; an options object is used as it is |
| Helpers.ActionFactoriesLookup | helpers.js:8 | a key has a creator exactly when its value is a function, and that creator returns `fn(type, actions, ...args)` with the final registry |
| Helpers.DefaultActionFactory | helpers.js:11-13 | the action's keys are `type` plus the payload's own keys; the payload's fields are copied; `type` is kept unless the payload has one |
| Helpers.DefaultFactoryMatchesDefaultCreator | helpers.js:11-13 | `defaultActionFactory` ignores the registry and makes the same action as the default creator |
| Helpers.DefaultFactoryAsCreate | helpers.js:11-13 | a creator whose `create` is `defaultActionFactory` behaves as the default creator on any registry and any arguments |
| Helpers.SetPropFacts | helpers.js:18 | assigning a property keeps keys distinct; it appends the key only when it is new and leaves every other property as it was |
| Helpers.DedupFacts | helpers.js:17-19 | the deduplicated names are exactly the given names, each once |
| Helpers.DefaultActionFactories | helpers.js:15-21 | the result's keys are the given names in first-occurrence order, each mapped to `defaultActionFactory` |
| Helpers.DefaultFactoriesShape | helpers.js:15-21 | the result has distinct keys, and a name is a key exactly when it was given |
| Helpers.DefaultFactoriesCreators | helpers.js:15-21 | under `actionFactories`, every given name gets a creator of its derived type that makes `{type}` merged with its first argument |
| Helpers.Reducer | helpers.js:23-28 | the caller's options get the identity formatter and keep their prefix and initial state; the reducer's cases are keyed by the spec keys as written, whatever the prefix |
| Helpers.ReducerCasesKeys | helpers.js:25 | the helper's cases are keyed by exactly the spec keys whose values are functions |
| Helpers.ReducerCaseLookup | helpers.js:25-26 | under each function-valued key, the case is that very function |
| Helpers.TypelessActionReachesUndefinedKey | helpers.js:23-28 | with the identity formatter, a spec key `"undefined"` holding a function receives every action whose `type` is missing or `undefined` |
| Helpers.ReducerDispatchesByName | helpers.js:23-28 | a default action whose type is a key of the helper's spec dispatches to that key's function |
| Scenarios.PrefixedFactoryType | test/helpers.js:23-41 | `actionFactories({someAction}, 'pre')` types the creator `PRE_SOME_ACTION` |
| Scenarios.ReducerWithInitialState | test/helpers.js:101-112 | a reducer keyed by a default creator's type applies the case to `initialState` 0 for an undefined state, and to the given state otherwise |
| Scenarios.IgnoreUnknownAction | test/helpers.js:114-120 | a string action has no `type`, so the state passes through |
| Scenarios.ActionTypeNames | test/actions.js:5-13 | two plain functions get default creators typed `SOME_ACTION` and `MY_OTHER_ACTION` |

## Left out

- lodash `snakeCase` is simplified to ASCII. It splits at lower→upper, at an upper-case run before a capitalised word, and at letter↔digit changes, and it drops other characters. Unicode words, apostrophes and lodash's other splitting rules are not modelled.
- lodash `isFunction`, `isObject`, `isUndefined`, `mapValues` and `identity` are foreign calls. They are replaced by the value cases of `Value`, by `Classify`, and by `WrapValues` and `Identity`.
- What user functions do is not modelled: `Env` names their results. Exceptions thrown by user `create`, `reduce` or `typeFormat` functions, and any side effects they have, are left out.
- A function value that also carries own properties, such as `.create`, is not modelled. Functions have no properties in `Value`.
- A `typeFormat` option that is truthy but not a function, and a formatter that returns something other than a string, are not modelled. The same goes for a `prefix` option that is not a string; the default formatter would throw on `null.length`.
- Property lookups through the prototype chain are left out, for example `action.type` on a string, or `action.type === 'toString'` against the `reducers` object. `GetProp` reads own properties only.
- `action.type` values that are objects or functions are converted to keys through their `toString`/`valueOf` methods, which the model does not compute. For example, `['INCREMENT']` becomes the key `INCREMENT`. The model treats such values as matching no case.
- JavaScript orders integer-like keys before other keys. The model keeps all keys in insertion order, which is the order of `Object.keys` for non-integer keys.
- `Object.assign` from a string payload copies the string's characters. The model copies only object payloads.
- Numbers are unbounded integers; floating point is not modelled.
- `actionFactories` with a `null` or non-string, non-object second argument, and `reducer` with a non-object `options`, are left out. The second argument is absent, a string or an options object.
- Callers who later mutate the returned `actions` object, and the `factory.type` property as a separately writable field, are left out. A creator's type is part of its value.
- `module.exports.default` aliasing and the ava test harness are not modelled.
- `create` is called as a method of its entry (`spec.create(...)`), and the property is read when the creator is called, not when `h` runs. `Env.create` does not see `this`, so two entries that share one `create` function but differ in other fields behave alike in the model; replacing an entry's `create` after `h` is not modelled.
- `ActionRegistry.Invoke`: calling a creator from inside a `create` function is not modelled. `Env.create` receives the registry as a value, with no way to call through it.
