/** The event hub: the class whose `events` registry the source's `on`,
    `off`, `once` and `trigger` update in place.  Each method is proved to
    leave the registry as the matching function of `Registry` or `Dispatch`
    says. */
module Hub {
  import opened EventNames
  import opened Registry
  import opened Dispatch

  class EventHub {
    /** `this.events`. */
    var events: Events
    /** How many once wrappers this hub has made.  The next one gets this
        number, so that every wrapper is a closure of its own. */
    var wrappers: nat

    /** Every wrapper bound is one this hub made.  A caller can reach a
        wrapper through the public registry and pass it back to `on` or
        `off`, but every wrapper it can reach there is one this hub made. */
    predicate Valid()
      reads this
    {
      WrappersIssued(events, wrappers)
    }

    /** `new EventAbstractClass()`: an empty registry. */
    constructor ()
      ensures events == map[] && wrappers == 0
      ensures Valid()
    {
      events := map[];
      wrappers := 0;
    }

    /** `on(eventName, handler)`: bind the handler under every token. */
    method On(name: string, h: Handler)
      requires Valid() && Issued(h, wrappers)
      modifies this`events
      ensures events == OnAll(old(events), EventList(name), h)
      ensures Valid()
    {
      OnAllIssued(events, EventList(name), h, wrappers);
      var tokens := EventList(name);
      var i := 0;
      while i < |tokens|
        invariant 0 <= i <= |tokens|
        invariant OnAll(events, tokens[i..], h) == OnAll(old(events), tokens, h)
      {
        OnAllStep(events, tokens, i, h);
        BindToken(tokens[i], h);
        i := i + 1;
      }
    }

    /** The body of `on`'s loop: create the list if the key is absent, then
        push the handler. */
    method BindToken(event: string, h: Handler)
      modifies this`events
      ensures events == Bind(old(events), event, h)
    {
      if event !in events {
        events := events[event := []];
      }
      ghost var created := events;
      events := events[event := events[event] + [h]];
      BindInPlace(old(events), created, event, h);
    }

    /** `off(eventName, handler)`: unbind the handler from each token in
        turn, and return at once at a token that has no entry. */
    method Off(name: string, h: Handler)
      requires Valid()
      modifies this`events
      ensures events == OffAll(old(events), EventList(name), h)
      ensures Valid()
    {
      OffAllIssued(events, EventList(name), h, wrappers);
      var tokens := EventList(name);
      var i := 0;
      while i < |tokens|
        invariant 0 <= i <= |tokens|
        invariant OffAll(events, tokens[i..], h) == OffAll(old(events), tokens, h)
      {
        if tokens[i] !in events {
          OffAllAbsent(events, tokens, i, h);
          return;
        }
        OffAllStep(events, tokens, i, h);
        UnbindToken(tokens[i], h);
        i := i + 1;
      }
    }

    /** The body of `off`'s loop for a token that has an entry: `indexOf`,
        then `splice(index, 1)` when the handler was found. */
    method UnbindToken(event: string, h: Handler)
      requires event in events
      modifies this`events
      ensures events == old(events)[event := RemoveFirst(old(events)[event], h)]
    {
      var index := IndexOf(events[event], h);
      if index >= 0 {
        events := events[event := Splice(events[event], index)];
      }
    }

    /** `once(eventName, handler)`: bind the handler, then a fresh wrapper
        that, when called, unbinds the handler and then itself. */
    method Once(name: string, id: nat)
      requires Valid()
      modifies this
      ensures wrappers == old(wrappers) + 1
      ensures events == BindOnce(old(events), name, old(wrappers), id)
      ensures forall k | k in old(events) :: Wrapper(old(wrappers), name, id) !in old(events)[k]
      ensures Valid()
    {
      NextWrapperUnbound(events, wrappers, name, id);
      var wrapper := Wrapper(wrappers, name, id);
      IssuedMonotone(events, wrappers, wrappers + 1);
      wrappers := wrappers + 1;
      On(name, User(id));
      On(name, wrapper);
    }

    /** `trigger(eventName)`: for each token, for each of its namespaces that
        has an entry, call the handlers of the live list by index.  A
        caller's handler is recorded in `fired` and otherwise left out; a
        once wrapper is recorded and runs its two `off` calls.  The two
        inner loops are `CallNamespaces` and `CallList`. */
    method Trigger(name: string) returns (fired: seq<Handler>)
      requires Valid()
      modifies this`events
      ensures Run(events, fired) == LiveTrigger(old(events), name)
      ensures Valid()
    {
      var tokens := EventList(name);
      fired := [];
      var t := 0;
      while t < |tokens|
        invariant 0 <= t <= |tokens|
        invariant RunTokens(Run(events, fired), tokens[t..]) == LiveTrigger(old(events), name)
        invariant Valid()
      {
        var namespaces := GetNamespaces(tokens[t]);
        assert tokens[t..][1..] == tokens[t + 1..];
        fired := CallNamespaces(namespaces, fired);
        t := t + 1;
      }
    }

    /** `for (let namespace of namespaces)`, skipping a namespace with no
        entry, after the handlers in `calledBefore`. */
    method CallNamespaces(namespaces: seq<string>, calledBefore: seq<Handler>) returns (fired: seq<Handler>)
      requires Valid()
      modifies this`events
      ensures Run(events, fired) == RunNamespaces(Run(old(events), calledBefore), namespaces)
      ensures Valid()
    {
      fired := calledBefore;
      var k := 0;
      while k < |namespaces|
        invariant 0 <= k <= |namespaces|
        invariant RunNamespaces(Run(events, fired), namespaces[k..])
               == RunNamespaces(Run(old(events), calledBefore), namespaces)
        invariant Valid()
      {
        var namespace := namespaces[k];
        assert namespaces[k..][1..] == namespaces[k + 1..];
        if namespace in events {
          fired := CallList(namespace, fired);
        }
        k := k + 1;
      }
    }

    /** `for (let handler of this.events[namespace])`: the array iterator
        reads the live list and its length again at every step. */
    method CallList(namespace: string, calledBefore: seq<Handler>) returns (fired: seq<Handler>)
      requires namespace in events && Valid()
      modifies this`events
      ensures Run(events, fired) == RunList(Run(old(events), calledBefore), namespace, 0)
      ensures Valid()
    {
      fired := calledBefore;
      var i := 0;
      while i < |events[namespace]|
        invariant namespace in events && Valid()
        invariant RunList(Run(events, fired), namespace, i)
               == RunList(Run(old(events), calledBefore), namespace, 0)
        decreases |events[namespace]| - i
      {
        var h := events[namespace][i];
        assert Issued(h, wrappers);
        RunListStep(Run(events, fired), namespace, i);
        InvokeShrinks(events, h, namespace);
        ghost var before := events;
        fired := fired + [h];
        if h.Wrapper? {
          Off(h.eventName, User(h.target));
          Off(h.eventName, h);
        }
        assert events == Invoke(before, h);
        i := i + 1;
      }
    }
  }
}
