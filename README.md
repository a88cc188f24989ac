# Event hub: a Dafny model of `EventAbstractClass`

`EventAbstractClass` is a small publish/subscribe engine. It keeps a
registry `events` that maps an exact event name to an ordered list of
handlers. Its operations are:

- `on(eventName, handler)`: bind a handler.
- `off(eventName, handler)`: unbind it.
- `once(eventName, handler)`: bind the handler plus a wrapper that unbinds both when it runs.
- `trigger(eventName)`: call handlers.

A compound name such as `"a, b c"` stands for several tokens. A token such
as `"a:b:c"` also matches handlers bound to its ancestors `"a:b"` and `"a"`.

The model has five modules.

- `EventNames` (event_names.dfy): the two helpers.
  - `getEventList` trims the name and splits it on runs of commas and white space.
  - `getNamespaces` trims, splits on runs of colons and lists the prefixes, most specific first.
  - Both are written as total functions over `string`, with the split done by hand.
  - `GetNamespaces` is the source's counting-down loop, proved equal to `Namespaces`.
- `Registry` (registry.dfy): handlers as identities and the registry as a `map<string, seq<Handler>>`.
  - `indexOf` and `splice` are modelled.
  - `on` and `off` are modelled as functions. For every key they are proved to append, or to remove the first occurrence, as many times as the key occurs among the tokens `off` reaches.
- `Dispatch` (dispatch.dfy): `trigger` as a function that follows its three loops over the live lists (`LiveTrigger`). It runs each once wrapper's two `off` calls as it reaches them.
  - `DispatchOrder` is the order of calls when no wrapper is bound: tokens, then namespaces from most to least specific, then binding order.
  - The lemmas connect the live run to that order. They also prove what `once` followed by `trigger` does.
- `Hub` (hub.dfy): class `EventHub` with the mutable fields `events` and `wrappers`.
  - Its methods `On`, `Off`, `Once` and `Trigger` work the way the source does: loops over tokens, creating an absent list, `splice`, early `return`, and index loops that re-read the live list length.
  - Each method is proved to leave the registry as the matching function says.
- `Scenarios` (scenarios.dfy): concrete names, short client programs on a fresh hub, and lemmas about particular registries, with what the triggers call proved exactly.

Handlers are identities. `User(id)` is a caller's handler. `Wrapper(serial,
eventName, target)` is the closure made by one `once` call; `serial` tells
apart the closures of different calls, as JavaScript function identity does.
`Trigger` returns the handlers it called, in order. The hub counts the
wrappers it has made, and its invariant `Valid` says that every wrapper bound
is one of them. The registry `events` is a public property, and handlers run
with `this` bound to the hub, so a caller can read a wrapper out of the
registry and pass it back to `on` or `off`. Every wrapper a caller can obtain
that way is one this hub made. So the model's `On` accepts a caller's handler
or a wrapper this hub made, `Off` accepts any handler, and `Once` proves its
new wrapper is bound nowhere yet.

Because `trigger` walks each live list by index, a once wrapper that unbinds
its handler shifts the rest of the list left past the loop's index. In the
usual layout the handler comes right before its wrapper, so the wrapper's two
`off` calls shift the list left by two places and the next two handlers after
the wrapper are skipped by that trigger; only one is skipped when the handler
was already unbound. The skipped handlers fire only on the next trigger
(`Scenarios.OnceSkipsLater`, `Scenarios.OnceSkipsTwo`). For the same reason, of two
`once` calls on one name, the second handler does not fire on the first
trigger.

## Model

| member | source | states |
|---|---|---|
| EventNames.Trim | src/event-abstract-class.js:27 | `trim()`: the result has no white space at either end; it is empty exactly when the input is all white space; an input already trimmed is returned unchanged |
| EventNames.TrimIsSlice | src/event-abstract-class.js:27 | the trimmed string is a slice of the input, and only white space is cut from each end |
| EventNames.SplitRunsTokens | src/event-abstract-class.js:27 | no piece of a split on separator runs contains a separator |
| EventNames.SplitRunsNonEmpty | src/event-abstract-class.js:27 | splitting "" gives `[""]`; only the first and last pieces can be empty, and the first one is not when the input starts with a non-separator |
| EventNames.SplitRunsConcat | src/event-abstract-class.js:27 | the pieces of a split, concatenated, are the input with every separator character removed (the split loses nothing else) |
| EventNames.SplitRunsCons | src/event-abstract-class.js:27 | a separator-free prefix followed by a separator run splits off as exactly one piece |
| EventNames.EventList | src/event-abstract-class.js:26-28 | `getEventList` returns at least one token; a blank name gives exactly `[""]` |
| EventNames.EventListTokens | src/event-abstract-class.js:26-28 | no token contains a comma or white space, and every token strictly between the first and the last is non-empty |
| EventNames.EventListSingle | src/event-abstract-class.js:27 | a name whose trimmed form has no comma or white space gives the one-token list of its trimmed form |
| EventNames.EventListOfToken | src/event-abstract-class.js:27 | a name with no comma or white space is its own trimmed form and its own only token |
| EventNames.EventListConcat | src/event-abstract-class.js:27 | the tokens, concatenated, are the trimmed name without its commas and white space |
| EventNames.JoinSplitRoundTrip | src/event-abstract-class.js:38-41 | a string with no doubled colon comes back unchanged from `split(/:+/)` followed by `join(':')` |
| EventNames.IsSpace | src/event-abstract-class.js:27 | the fixed white-space set of `trim()` and `\s`; it holds neither the comma nor the colon, so the two separator classes are disjoint |
| EventNames.SplitRuns | src/event-abstract-class.js:27 | `split` on maximal separator runs (`/(?:,\|\s)+/` or `/:+/`) always gives at least one piece; `SplitRunsCons`, `SplitRunsNoSep` and `SplitRunsTokens` characterize it |
| EventNames.Join | src/event-abstract-class.js:41 | `join(':')`: the first segment is a prefix of the joined string; `JoinCons` and `JoinSplitRoundTrip` relate it to the split |
| EventNames.Segments | src/event-abstract-class.js:38 | the colon-run pieces of the trimmed name, at least one |
| EventNames.Chain | src/event-abstract-class.js:40-42 | the prefix chain has one entry per segment; the first is all segments joined and the last is the first segment |
| EventNames.ChainAt | src/event-abstract-class.js:40-42 | entry k of the chain joins the first n-k segments |
| EventNames.Namespaces | src/event-abstract-class.js:36-45 | `getNamespaces` has as many entries as the trimmed name has colon-run segments, at least one; the first entry is all segments joined by one colon and the last is the first segment |
| EventNames.NamespacesAt | src/event-abstract-class.js:40-42 | entry k is the first n-k segments joined by one colon |
| EventNames.NamespaceChain | src/event-abstract-class.js:40-42 | each entry after the first is the one before it minus its last segment: a strict prefix, one segment shorter |
| EventNames.NamespacesNoColon | src/event-abstract-class.js:36-45 | a name without a colon gives `[trimmed name]` |
| EventNames.NamespacesFirstIsName | src/event-abstract-class.js:38-41 | for a trimmed name without a doubled colon, the first namespace is the name itself |
| EventNames.GetNamespaces | src/event-abstract-class.js:36-45 | the counting-down loop that pushes `slice(0, i).join(':')` returns exactly `Namespaces` |
| Registry.IndexOf | src/event-abstract-class.js:107 | `indexOf` is -1 exactly when the handler is absent; otherwise it is the index of its first occurrence |
| Registry.RemoveFirstSpec | src/event-abstract-class.js:107-111 | `indexOf` then `splice(index, 1)` leaves an absent handler's list unchanged; otherwise it removes exactly the first occurrence (as a slice and as a multiset) |
| Registry.RemoveFirstAt | src/event-abstract-class.js:107-111 | with no earlier occurrence, the handler at a given place is the one removed |
| Registry.Splice | src/event-abstract-class.js:110 | `splice(i, 1)` shortens the list by exactly one |
| Registry.SpliceSpec | src/event-abstract-class.js:110 | `splice(i, 1)` removes exactly the element at `i` (as a multiset) and shifts every later element one place left, keeping order |
| Registry.RemoveFirst | src/event-abstract-class.js:107-111 | `indexOf` then `splice` when found never lengthens the list |
| Registry.BindAt | src/event-abstract-class.js:85-89 | one step of `on` (`Registry.Bind`): the token's list, empty when absent, gains `h` at its end, and every other key's list is unchanged |
| Registry.OnAll | src/event-abstract-class.js:81-91 | `on` creates an entry for every token and removes none |
| Registry.OnAllEffect | src/event-abstract-class.js:81-91 | after `on`, every key's list is its old list followed by as many copies of the handler as the key occurs among the tokens: duplicates kept, other keys unchanged |
| Registry.OffAll | src/event-abstract-class.js:99-113 | `off` never adds or deletes a key, so emptied lists stay |
| Registry.PresentPrefix | src/event-abstract-class.js:102-105 | the tokens `off` reaches before its early return all have entries, and the token it stops at has none |
| Registry.OffAllEffect | src/event-abstract-class.js:99-113 | after `off`, every key's list has lost the first occurrence of the handler once for each time the key occurs among the tokens before the first one with no entry; tokens after it are untouched |
| Registry.OffAllShrinks | src/event-abstract-class.js:99-113 | `off` never lengthens a list |
| Registry.OffAllAbsent | src/event-abstract-class.js:103-105 | at a token with no entry, `off` returns and nothing more changes |
| Registry.OnOffRoundTrip | src/event-abstract-class.js:81-113 | for one token whose list lacks `h`, `on` then `off` restores the registry, except that a newly created entry stays, empty |
| Dispatch.VisitConcat | src/event-abstract-class.js:63-70 | the namespace loop over a list `a + b` visits the handlers for `a`, then those for `b` (`Visit`: each namespace's list in turn, none for an absent entry) |
| Dispatch.VisitTokensConcat | src/event-abstract-class.js:60-72 | the token loop over `a + b` visits the handlers for the tokens of `a`, then those of `b` (`VisitTokens`, which `DispatchOrder` applies to the tokens of the name) |
| Dispatch.RunList | src/event-abstract-class.js:68-70 | the inner loop by index over the live list, re-reading its length, keeps the registry's keys |
| Dispatch.RunAt | src/event-abstract-class.js:64-66 | a namespace with no entry is skipped; the keys are kept |
| Dispatch.RunNamespaces | src/event-abstract-class.js:63-71 | the namespace loop keeps the registry's keys |
| Dispatch.RunTokens | src/event-abstract-class.js:60-72 | the token loop keeps the registry's keys |
| Dispatch.VisitMember | src/event-abstract-class.js:63-70 | a handler is visited for a list of namespaces exactly when one of them has it bound |
| Dispatch.DispatchMember | src/event-abstract-class.js:57-73 | a handler is in the dispatch order exactly when it is bound to a namespace of a token of the name (both directions) |
| Dispatch.Invoke | src/event-abstract-class.js:122-125 | running a handler never adds or deletes a key |
| Dispatch.InvokeShrinks | src/event-abstract-class.js:122-125 | running a handler never lengthens a list (the live iteration terminates) |
| Dispatch.LiveTrigger | src/event-abstract-class.js:57-73 | `trigger` over live lists keeps the registry's keys |
| Dispatch.RunListQuiet | src/event-abstract-class.js:68-70 | without wrappers, the inner loop calls the list's remaining handlers in order and changes nothing |
| Dispatch.RunNamespacesQuiet | src/event-abstract-class.js:63-71 | without wrappers, the namespace loop calls the lists of the namespaces in order and skips those with no entry |
| Dispatch.RunTokensQuiet | src/event-abstract-class.js:60-72 | without wrappers, the token loop calls each token's namespaces' handlers in token order |
| Dispatch.LiveTriggerQuiet | src/event-abstract-class.js:57-73 | with no once wrapper bound, `trigger` calls exactly `DispatchOrder` (tokens, then namespaces most to least specific, then binding order) and leaves the registry unchanged |
| Dispatch.OnAllNoWrappers | src/event-abstract-class.js:81-91 | binding a caller's handler keeps a registry free of once wrappers |
| Dispatch.OffAllNoWrappers | src/event-abstract-class.js:99-113 | unbinding keeps a registry free of once wrappers |
| Dispatch.RunListUsers | src/event-abstract-class.js:68-70 | a run of caller's handlers is called in order without touching the registry |
| Dispatch.OffBoth | src/event-abstract-class.js:123-124 | `off(h)` then `off(wrapper)` on a list `before + [h, wrapper]`, with neither `h` nor the wrapper in `before`, leaves `before` (an earlier copy of `h` would be removed instead) |
| Dispatch.WrapperUnbinds | src/event-abstract-class.js:122-125 | for a one-token name whose list is `before + [h, wrapper]`, with neither `h` nor the wrapper in `before`, the wrapper's two `off` calls leave `before` and change no other key |
| Dispatch.BindOnce | src/event-abstract-class.js:121-129 | `once` creates an entry for every token and removes none |
| Dispatch.NextWrapperUnbound | src/event-abstract-class.js:122 | when every bound wrapper is one of the first `n` made, the wrapper numbered `n` is bound nowhere: a new closure is a new handler |
| Dispatch.OnAllIssued | src/event-abstract-class.js:81-91 | `on` with a caller's handler or an issued wrapper binds only issued wrappers |
| Dispatch.OffAllIssued | src/event-abstract-class.js:99-113 | `off` binds nothing new, so it keeps every bound wrapper issued |
| Dispatch.BindOnceOne | src/event-abstract-class.js:121-129 | for a one-token name, `once` appends the handler and then its wrapper to that token's list |
| Dispatch.RunOnceList | src/event-abstract-class.js:68-70 | for a one-token name, on a registry with no once wrapper, where `h` is not in the token's list `before`: the first run over `before + [h, wrapper]` calls `before`, then `h`, then the wrapper, and leaves the list `before` |
| Dispatch.OnceFiresOnce | src/event-abstract-class.js:121-129 | after `once(e, h)` on a registry without wrappers, one `trigger(e)` calls the old handlers of `e`, then `h`, then the wrapper, then the ancestors' handlers, and restores every list to what it was before `once` |
| Dispatch.NamespacesHead | src/event-abstract-class.js:61 | the first namespace of a token without a doubled colon is the token itself |
| Hub.EventHub.constructor | src/event-abstract-class.js:12-14 | a new hub has an empty registry, no wrappers made, and satisfies `Valid` |
| Hub.EventHub.On | src/event-abstract-class.js:81-91 | the token loop leaves the registry as `OnAll` says and keeps `Valid` |
| Hub.EventHub.BindToken | src/event-abstract-class.js:85-89 | create the list if absent, then push: the new registry is `Bind` of the old |
| Hub.EventHub.Off | src/event-abstract-class.js:99-113 | the token loop with its early return leaves the registry as `OffAll` says and keeps `Valid` |
| Hub.EventHub.UnbindToken | src/event-abstract-class.js:107-111 | `indexOf` then `splice` replaces the token's list by `RemoveFirst` of it and changes nothing else |
| Hub.EventHub.Once | src/event-abstract-class.js:121-129 | `on(h)` then `on(wrapper)`, where the wrapper is bound nowhere before the call, the count of wrappers made grows by one, and `Valid` is kept |
| Hub.EventHub.Trigger | src/event-abstract-class.js:57-73 | the three loops leave the registry, and the list of handlers called, as `LiveTrigger` says, and keep `Valid` |
| Hub.EventHub.CallNamespaces | src/event-abstract-class.js:63-71 | the namespace loop, skipping a namespace with no entry, agrees with `RunNamespaces` |
| Hub.EventHub.CallList | src/event-abstract-class.js:68-70 | the index loop over the live list, running each wrapper's two `off` calls, agrees with `RunList` |
| Scenarios.EventListMixed | src/event-abstract-class.js:27 | `"a, b   c"` splits into `["a", "b", "c"]` |
| Scenarios.NamespacesThree | src/event-abstract-class.js:36-45 | `"a:b:c"` has namespaces `["a:b:c", "a:b", "a"]` |
| Scenarios.NamespacesOne | src/event-abstract-class.js:36-45 | `"a"` has namespaces `["a"]` |
| Scenarios.PairName | src/event-abstract-class.js:27-41 | a name `x` + colons + `y` is one token whose namespaces are `x:y` and `x` |
| Scenarios.ListPair | src/event-abstract-class.js:27 | `x,y` is the two tokens `x` and `y` |
| Scenarios.AncestorMatch | src/event-abstract-class.js:57-91 | a handler bound to `x:y` fires for `x:y` and for `x:y:z`, and not for an unrelated word |
| Scenarios.EachToken | src/event-abstract-class.js:57-91 | a handler bound to `x,y` fires for `x` and for `y` |
| Scenarios.BindingOrder | src/event-abstract-class.js:57-91 | two handlers bound to one name fire in binding order |
| Scenarios.OnceThenTwice | src/event-abstract-class.js:121-129 | after `once`, the first trigger calls the handler and its wrapper, the second calls nothing, and an empty list stays |
| Scenarios.OffMissing | src/event-abstract-class.js:103-105 | `off` on a fresh hub changes nothing |
| Scenarios.OffStopsEarly | src/event-abstract-class.js:102-105 | `off("x,y")` with no entry for `x` returns before it reaches `y` |
| Scenarios.BindThenUnbind | src/event-abstract-class.js:57-113 | bind, trigger, unbind, trigger: the handler fires on the first trigger only |
| Scenarios.OnceSkipsLater | src/event-abstract-class.js:68-70 | after `once(e, h1)` and `on(e, h2)`, the first trigger calls `h1` and the wrapper and skips `h2`; the second calls `h2` |
| Scenarios.OnceSkipsTwo | src/event-abstract-class.js:68-70 | on the list `[h1, wrapper, h2, h3, h4]`, the wrapper's two `off` calls leave `[h2, h3, h4]`, the loop's next index is 2, so `h2` and `h3` are skipped and `h4` fires |
| Scenarios.SkippedByWrapper | src/event-abstract-class.js:122-125 | on the list `[h1, wrapper, h2]`, the wrapper's two `off` calls leave `[h2]` and the loop, now past the end, stops |
| Scenarios.DoubleColonNeverFires | src/event-abstract-class.js:27-91 | a handler bound to `x::y` is stored under `x::y`, but `trigger("x::y")` looks up `x:y` and `x`, so it never fires |

## Left out

- Handler execution: calling a handler with `this` and the `data` payload, and anything a caller's handler does, are not modelled. A caller's handler is taken to leave the registry alone. Only the once wrapper's two `off` calls run.
- Exceptions thrown by handlers are not modelled. They would only stop delivery.
- The registry is a clean map. Keys such as `"constructor"` or `"__proto__"`, which a plain object resolves to inherited properties, are not modelled.
- White space is a fixed set of characters. These are tab, line feed, vertical tab, form feed, carriage return, space, no-break space, the line and paragraph separators and the byte-order mark. The other Unicode space separators that `trim()` and `\s` also accept are not included.
- Non-string arguments are not modelled. They are run-time errors.
- Class inheritance (`extends`) is not modelled. It adds no logic.
- A `once` handler is a `User(id)`. Binding the same function both directly and through `once` is modelled as the same identity.
- Dispatch.OnceFiresOnce: stated only for a one-token name without a doubled colon, on a registry with no other once wrapper, where the handler is not already in the list.
  - Multi-token `once` is covered by the general `Hub.EventHub.Trigger` contract (`LiveTrigger`).
  - It is not given a closed form, because each wrapper unbinds from every token of its name.
- A once wrapper taken from another hub's registry and bound to this hub is not modelled. It would act as a caller's handler that changes this hub's registry, which the model's caller's handlers never do, so `Hub.EventHub.On` requires the handler to be a caller's handler or a wrapper this hub made (`Issued`).
- Dispatch.LiveTriggerQuiet: stated for registries without once wrappers. With wrappers, the live run (`LiveTrigger`) is the statement.
- Three behaviours of the code worth knowing, which the model follows:
  - `off` never deletes a key, so an emptied list stays in the registry.
  - `getEventList` keeps an empty first or last token when the name starts or ends with a comma (`",a"` gives `["", "a"]`), because `trim()` removes only white space.
  - A token with a doubled colon is bound under its literal name. `trigger` collapses the colons before lookup, so such a handler never fires (`Scenarios.DoubleColonNeverFires`).
