/** What `trigger` does with the registry.  `DispatchOrder` is the order in which
    it visits handlers when none of them touches the registry: token order,
    then namespaces from most to least specific, then binding order.  The
    `Run` functions follow the source's three loops step by step over the
    live lists, with each once wrapper unbinding as it runs, and the lemmas
    connect the two. */
module Dispatch {
  import opened EventNames
  import opened Registry

  // ---------------------------------------------------------------------------
  // The visiting order against a registry that nothing changes

  /** The handlers bound to each of `namespaces`, in that order; a namespace
      with no entry contributes nothing. */
  function Visit(events: Events, namespaces: seq<string>): seq<Handler>
  {
    if namespaces == [] then [] else ListAt(events, namespaces[0]) + Visit(events, namespaces[1..])
  }

  /** For each token in order, the handlers of its namespaces. */
  function VisitTokens(events: Events, tokens: seq<string>): seq<Handler>
  {
    if tokens == [] then [] else Visit(events, Namespaces(tokens[0])) + VisitTokens(events, tokens[1..])
  }

  /** The handlers `trigger(eventName)` calls, in order, when none of them
      changes the registry. */
  function DispatchOrder(events: Events, name: string): seq<Handler>
  {
    VisitTokens(events, EventList(name))
  }

  /** Visiting two lists of namespaces one after the other visits their
      handlers one after the other. */
  lemma {:induction false} VisitConcat(events: Events, a: seq<string>, b: seq<string>)
    ensures Visit(events, a + b) == Visit(events, a) + Visit(events, b)
  {
    if a != [] {
      assert (a + b)[1..] == a[1..] + b;
      VisitConcat(events, a[1..], b);
      AppendAssoc(ListAt(events, a[0]), Visit(events, a[1..]), Visit(events, b));
    } else {
      assert a + b == b;
    }
  }

  /** The tokens of `a + b` are visited as those of `a`, then those of `b`. */
  lemma {:induction false} VisitTokensConcat(events: Events, a: seq<string>, b: seq<string>)
    ensures VisitTokens(events, a + b) == VisitTokens(events, a) + VisitTokens(events, b)
  {
    if a != [] {
      assert (a + b)[1..] == a[1..] + b;
      VisitTokensConcat(events, a[1..], b);
      AppendAssoc(Visit(events, Namespaces(a[0])), VisitTokens(events, a[1..]), VisitTokens(events, b));
    } else {
      assert a + b == b;
    }
  }

  lemma {:induction false} VisitMember(events: Events, namespaces: seq<string>, h: Handler)
    ensures h in Visit(events, namespaces) <==>
      exists ns :: ns in namespaces && h in ListAt(events, ns)
  {
    if namespaces != [] {
      VisitMember(events, namespaces[1..], h);
      assert forall ns :: ns in namespaces <==> ns == namespaces[0] || ns in namespaces[1..];
    }
  }

  lemma {:induction false} VisitTokensMember(events: Events, tokens: seq<string>, h: Handler)
    ensures h in VisitTokens(events, tokens) <==>
      exists t, ns :: t in tokens && ns in Namespaces(t) && h in ListAt(events, ns)
  {
    if tokens != [] {
      VisitTokensMember(events, tokens[1..], h);
      VisitMember(events, Namespaces(tokens[0]), h);
      assert forall t :: t in tokens <==> t == tokens[0] || t in tokens[1..];
    }
  }

  /** `trigger` calls a handler exactly when it is bound to some namespace of
      some token of the name: an exact match or a namespace ancestor. */
  lemma DispatchMember(events: Events, name: string, h: Handler)
    ensures h in DispatchOrder(events, name) <==>
      exists t, ns :: t in EventList(name) && ns in Namespaces(t) && h in ListAt(events, ns)
  {
    VisitTokensMember(events, EventList(name), h);
  }

  lemma {:induction false} VisitSameLists(e1: Events, e2: Events, namespaces: seq<string>)
    requires forall k :: ListAt(e1, k) == ListAt(e2, k)
    ensures Visit(e1, namespaces) == Visit(e2, namespaces)
  {
    if namespaces != [] {
      VisitSameLists(e1, e2, namespaces[1..]);
    }
  }

  // ---------------------------------------------------------------------------
  // The live loops

  /** The registry and the handlers called so far. */
  datatype Run = Run(events: Events, fired: seq<Handler>)

  /** What calling one handler does to the registry.  A caller's handler is
      opaque and is taken to leave it alone; a once wrapper runs
      `off(eventName, handler)` and then `off(eventName, wrapper)`. */
  function Invoke(events: Events, h: Handler): (r: Events)
    ensures r.Keys == events.Keys
  {
    match h
    case User(_) => events
    case Wrapper(_, name, target) =>
      OffAll(OffAll(events, EventList(name), User(target)), EventList(name), h)
  }

  /** No list grows while a handler runs. */
  lemma InvokeShrinks(events: Events, h: Handler, key: string)
    requires key in events
    ensures |Invoke(events, h)[key]| <= |events[key]|
  {
    if h.Wrapper? {
      var first := OffAll(events, EventList(h.eventName), User(h.target));
      OffAllShrinks(events, EventList(h.eventName), User(h.target), key);
      OffAllShrinks(first, EventList(h.eventName), h, key);
    }
  }

  /** The innermost loop, `for (let handler of this.events[namespace])`,
      from index `i` on: the array iterator reads the live list and its
      length again at every step. */
  function RunList(st: Run, ns: string, i: nat): (r: Run)
    requires ns in st.events
    ensures r.events.Keys == st.events.Keys
    decreases |st.events[ns]| - i
  {
    if i >= |st.events[ns]| then st
    else
      var h := st.events[ns][i];
      InvokeShrinks(st.events, h, ns);
      RunList(Run(Invoke(st.events, h), st.fired + [h]), ns, i + 1)
  }

  /** One namespace: skipped when it has no entry. */
  function RunAt(st: Run, ns: string): (r: Run)
    ensures r.events.Keys == st.events.Keys
  {
    if ns in st.events then RunList(st, ns, 0) else st
  }

  /** The middle loop, over the namespaces of one token. */
  function RunNamespaces(st: Run, namespaces: seq<string>): (r: Run)
    ensures r.events.Keys == st.events.Keys
    decreases |namespaces|
  {
    if namespaces == [] then st else RunNamespaces(RunAt(st, namespaces[0]), namespaces[1..])
  }

  /** The outer loop, over the tokens of the name. */
  function RunTokens(st: Run, tokens: seq<string>): (r: Run)
    ensures r.events.Keys == st.events.Keys
    decreases |tokens|
  {
    if tokens == [] then st else RunTokens(RunNamespaces(st, Namespaces(tokens[0])), tokens[1..])
  }

  /** The registry after `trigger(eventName)` and the handlers it called. */
  function LiveTrigger(events: Events, name: string): (r: Run)
    ensures r.events.Keys == events.Keys
  {
    RunTokens(Run(events, []), EventList(name))
  }

  // ---------------------------------------------------------------------------
  // Wrappers a hub has issued

  /** A handler a hub that has made `n` once wrappers can hold: a caller's
      handler, or one of the wrappers it made. */
  predicate Issued(h: Handler, n: nat) {
    h.User? || h.serial < n
  }

  /** Every wrapper bound in `events` is one of the first `n` made. */
  predicate WrappersIssued(events: Events, n: nat) {
    forall k, i | k in events && 0 <= i < |events[k]| :: Issued(events[k][i], n)
  }

  /** The wrapper with serial `n` is not yet bound anywhere. */
  lemma NextWrapperUnbound(events: Events, n: nat, name: string, id: nat)
    requires WrappersIssued(events, n)
    ensures forall k | k in events :: Wrapper(n, name, id) !in events[k]
  {
    forall k, i | k in events && 0 <= i < |events[k]| ensures events[k][i] != Wrapper(n, name, id) {
      assert Issued(events[k][i], n);
    }
  }

  lemma IssuedMonotone(events: Events, n: nat, m: nat)
    requires WrappersIssued(events, n) && n <= m
    ensures WrappersIssued(events, m)
  {
    forall k, i | k in events && 0 <= i < |events[k]| ensures Issued(events[k][i], m) {
      assert Issued(events[k][i], n);
    }
  }

  /** `on` with an issued handler binds only issued wrappers. */
  lemma {:induction false} OnAllIssued(events: Events, tokens: seq<string>, h: Handler, n: nat)
    requires WrappersIssued(events, n) && Issued(h, n)
    ensures WrappersIssued(OnAll(events, tokens, h), n)
    decreases |tokens|
  {
    if tokens != [] {
      var next := Bind(events, tokens[0], h);
      assert WrappersIssued(next, n) by {
        var list := ListAt(events, tokens[0]) + [h];
        assert forall i | 0 <= i < |list| :: Issued(list[i], n);
      }
      OnAllIssued(next, tokens[1..], h, n);
    }
  }

  /** `off` binds nothing new. */
  lemma {:induction false} OffAllIssued(events: Events, tokens: seq<string>, h: Handler, n: nat)
    requires WrappersIssued(events, n)
    ensures WrappersIssued(OffAll(events, tokens, h), n)
    decreases |tokens|
  {
    if tokens != [] && tokens[0] in events {
      var list := events[tokens[0]];
      var next := events[tokens[0] := RemoveFirst(list, h)];
      assert WrappersIssued(next, n) by {
        RemoveFirstIssued(list, h, n);
      }
      OffAllIssued(next, tokens[1..], h, n);
    }
  }

  lemma RemoveFirstIssued(list: seq<Handler>, h: Handler, n: nat)
    requires forall i | 0 <= i < |list| :: Issued(list[i], n)
    ensures forall i | 0 <= i < |RemoveFirst(list, h)| :: Issued(RemoveFirst(list, h)[i], n)
  {
    var j := IndexOf(list, h);
    if j >= 0 {
      var r := list[..j] + list[j + 1..];
      forall i | 0 <= i < |r| ensures Issued(r[i], n) {
        if i < j { assert r[i] == list[i]; } else { assert r[i] == list[i + 1]; }
      }
    }
  }

  // ---------------------------------------------------------------------------
  // A registry without once wrappers

  predicate NoWrappers(events: Events) {
    forall k, i | k in events && 0 <= i < |events[k]| :: events[k][i].User?
  }

  /** Binding a caller's handler keeps a registry free of once wrappers. */
  lemma {:induction false} OnAllNoWrappers(events: Events, tokens: seq<string>, id: nat)
    requires NoWrappers(events)
    ensures NoWrappers(OnAll(events, tokens, User(id)))
    decreases |tokens|
  {
    if tokens != [] {
      var next := Bind(events, tokens[0], User(id));
      assert NoWrappers(next) by {
        var list := ListAt(events, tokens[0]) + [User(id)];
        assert forall i | 0 <= i < |list| :: list[i].User?;
      }
      OnAllNoWrappers(next, tokens[1..], id);
    }
  }

  /** Unbinding keeps a registry free of once wrappers. */
  lemma {:induction false} OffAllNoWrappers(events: Events, tokens: seq<string>, h: Handler)
    requires NoWrappers(events)
    ensures NoWrappers(OffAll(events, tokens, h))
    decreases |tokens|
  {
    if tokens != [] && tokens[0] in events {
      var list := events[tokens[0]];
      var next := events[tokens[0] := RemoveFirst(list, h)];
      assert NoWrappers(next) by {
        RemoveFirstUsers(list, h);
      }
      OffAllNoWrappers(next, tokens[1..], h);
    }
  }

  lemma RemoveFirstUsers(list: seq<Handler>, h: Handler)
    requires forall i | 0 <= i < |list| :: list[i].User?
    ensures forall i | 0 <= i < |RemoveFirst(list, h)| :: RemoveFirst(list, h)[i].User?
  {
    var j := IndexOf(list, h);
    if j >= 0 {
      var r := list[..j] + list[j + 1..];
      forall i | 0 <= i < |r| ensures r[i].User? {
        if i < j { assert r[i] == list[i]; } else { assert r[i] == list[i + 1]; }
      }
    }
  }

  lemma {:induction false} RunListQuiet(st: Run, ns: string, i: nat)
    requires NoWrappers(st.events) && ns in st.events && i <= |st.events[ns]|
    ensures RunList(st, ns, i) == Run(st.events, st.fired + st.events[ns][i..])
    decreases |st.events[ns]| - i
  {
    var list := st.events[ns];
    if i < |list| {
      RunListQuiet(Run(st.events, st.fired + [list[i]]), ns, i + 1);
      assert list[i..] == [list[i]] + list[i + 1..];
    }
  }

  lemma {:induction false} RunNamespacesQuiet(st: Run, namespaces: seq<string>)
    requires NoWrappers(st.events)
    ensures RunNamespaces(st, namespaces) == Run(st.events, st.fired + Visit(st.events, namespaces))
    decreases |namespaces|
  {
    if namespaces != [] {
      var ns := namespaces[0];
      var next := RunAt(st, ns);
      if ns in st.events {
        RunListQuiet(st, ns, 0);
      }
      assert next == Run(st.events, st.fired + ListAt(st.events, ns));
      RunNamespacesQuiet(next, namespaces[1..]);
    }
  }

  lemma {:induction false} RunTokensQuiet(st: Run, tokens: seq<string>)
    requires NoWrappers(st.events)
    ensures RunTokens(st, tokens) == Run(st.events, st.fired + VisitTokens(st.events, tokens))
    decreases |tokens|
  {
    if tokens != [] {
      var nss := Namespaces(tokens[0]);
      RunNamespacesQuiet(st, nss);
      var next := Run(st.events, st.fired + Visit(st.events, nss));
      RunTokensQuiet(next, tokens[1..]);
      AppendAssoc(st.fired, Visit(st.events, nss), VisitTokens(st.events, tokens[1..]));
    }
  }

  lemma AppendAssoc<T>(a: seq<T>, b: seq<T>, c: seq<T>)
    ensures a + b + c == a + (b + c)
  {
  }

  /** When no once wrapper is bound, `trigger` changes nothing and calls
      exactly the handlers of `DispatchOrder`, in its order. */
  lemma LiveTriggerQuiet(events: Events, name: string)
    requires NoWrappers(events)
    ensures LiveTrigger(events, name) == Run(events, DispatchOrder(events, name))
  {
    RunTokensQuiet(Run(events, []), EventList(name));
  }

  // ---------------------------------------------------------------------------
  // once

  /** The registry after `once(eventName, h)`: `on(eventName, h)`, then
      `on(eventName, wrapper)` for a wrapper made fresh by this call. */
  function BindOnce(events: Events, name: string, serial: nat, id: nat): (r: Events)
    ensures r.Keys == events.Keys + set t | t in EventList(name)
  {
    OnAll(OnAll(events, EventList(name), User(id)), EventList(name), Wrapper(serial, name, id))
  }

  /** A caller's handler at index `i` runs without touching the registry. */
  lemma {:induction false} RunListUsers(st: Run, ns: string, i: nat, j: nat)
    requires ns in st.events && i <= j <= |st.events[ns]|
    requires forall k | i <= k < j :: st.events[ns][k].User?
    ensures RunList(st, ns, i) == RunList(Run(st.events, st.fired + st.events[ns][i..j]), ns, j)
    decreases j - i
  {
    var list := st.events[ns];
    if i < j {
      assert Invoke(st.events, list[i]) == st.events;
      RunListUsers(Run(st.events, st.fired + [list[i]]), ns, i + 1, j);
      assert list[i..j] == [list[i]] + list[i + 1..j];
      assert st.fired + [list[i]] + list[i + 1..j] == st.fired + list[i..j];
    } else {
      assert st.fired + list[i..j] == st.fired;
    }
  }

  /** `off(e, h)` then `off(e, w)` on a list `before + [h, w]`: both entries
      go and `before` is left. */
  lemma OffBoth(events: Events, e: string, before: seq<Handler>, h: Handler, w: Handler)
    requires h !in before && w !in before
    requires e in events && events[e] == before + [h, w]
    ensures OffAll(OffAll(events, [e], h), [e], w) == events[e := before]
  {
    var first := events[e := before + [w]];
    assert OffAll(events, [e], h) == first by {
      assert before + [h, w] == before + [h] + [w];
      RemoveFirstAt(before, h, [w]);
      OffOne(events, e, h);
    }
    assert OffAll(first, [e], w) == first[e := before] by {
      RemoveFirstAt(before, w, []);
      assert before + [w] + [] == before + [w] && before + [] == before;
      OffOne(first, e, w);
    }
    assert first[e := before] == events[e := before];
  }

  /** What the wrapper's two `off` calls do to the list `before + [h, w]` of a
      name that is one token: both entries go and `before` is left. */
  lemma WrapperUnbinds(events: Events, name: string, e: string, before: seq<Handler>, serial: nat, id: nat)
    requires EventList(name) == [e]
    requires User(id) !in before && Wrapper(serial, name, id) !in before
    requires e in events && events[e] == before + [User(id), Wrapper(serial, name, id)]
    ensures Invoke(events, Wrapper(serial, name, id)) == events[e := before]
  {
    OffBoth(events, e, before, User(id), Wrapper(serial, name, id));
  }

  /** One step of the innermost loop. */
  lemma RunListStep(st: Run, ns: string, i: nat)
    requires ns in st.events && i < |st.events[ns]|
    ensures
      var h := st.events[ns][i];
      ns in Invoke(st.events, h) &&
      RunList(st, ns, i) == RunList(Run(Invoke(st.events, h), st.fired + [h]), ns, i + 1)
  {
  }

  /** A token of a compound name is its own trimmed form. */
  lemma TokenIsTrimmed(name: string, t: string)
    requires t in EventList(name)
    ensures Trim(t) == t
  {
    EventListTokens(name);
    var i :| 0 <= i < |EventList(name)| && EventList(name)[i] == t;
    assert NoSep(ListSeparator, t);
    assert t == [] || (!IsSep(ListSeparator, t[0]) && !IsSep(ListSeparator, t[|t| - 1]));
  }

  /** The list of `e` after `once`: what it held, then `h`, then the wrapper. */
  lemma BindOnceOne(events: Events, name: string, e: string, serial: nat, id: nat)
    requires EventList(name) == [e]
    ensures BindOnce(events, name, serial, id)
         == events[e := ListAt(events, e) + [User(id), Wrapper(serial, name, id)]]
  {
    var u, w := User(id), Wrapper(serial, name, id);
    OnOne(events, e, u);
    OnOne(Bind(events, e, u), e, w);
    assert ListAt(events, e) + [u] + [w] == ListAt(events, e) + [u, w];
  }

  /** The first run over the list of `e` after `once`: the old handlers,
      then `h`, then the wrapper, which leaves the list as it was before. */
  lemma RunOnceList(events: Events, name: string, e: string, serial: nat, id: nat)
    requires NoWrappers(events) && EventList(name) == [e]
    requires User(id) !in ListAt(events, e)
    ensures
      var before := ListAt(events, e);
      var u, w := User(id), Wrapper(serial, name, id);
      var bound := events[e := before + [u, w]];
      RunList(Run(bound, []), e, 0) == Run(events[e := before], before + [u, w])
  {
    var before := ListAt(events, e);
    var u, w := User(id), Wrapper(serial, name, id);
    var bound := events[e := before + [u, w]];
    var n := |before|;
    RunOldHandlers(events, e, [u, w]);
    assert bound[e][n] == u;
    RunUserAt(Run(bound, before), e, n);
    RunWrapper(events, name, e, serial, id);
    AppendAssoc(before, [u], [w]);
    assert [u] + [w] == [u, w];
  }

  /** A caller's handler runs without touching the registry. */
  lemma RunUserAt(st: Run, ns: string, i: nat)
    requires ns in st.events && i < |st.events[ns]| && st.events[ns][i].User?
    ensures RunList(st, ns, i) == RunList(Run(st.events, st.fired + [st.events[ns][i]]), ns, i + 1)
  {
  }

  /** The handlers a list held before `once` run first and change nothing. */
  lemma RunOldHandlers(events: Events, e: string, added: seq<Handler>)
    requires NoWrappers(events)
    ensures
      var before := ListAt(events, e);
      var bound := events[e := before + added];
      RunList(Run(bound, []), e, 0) == RunList(Run(bound, before), e, |before|)
  {
    var before := ListAt(events, e);
    var bound := events[e := before + added];
    var n := |before|;
    assert forall k | 0 <= k < n :: before[k].User? by {
      if e in events {
        assert forall k | 0 <= k < n :: before[k] == events[e][k];
      }
    }
    assert forall k | 0 <= k < n :: bound[e][k] == before[k];
    RunListUsers(Run(bound, []), e, 0, n);
    assert bound[e][0..n] == before;
    assert [] + before == before;
  }

  /** The wrapper, right after `h`, unbinds both and ends the loop. */
  lemma RunWrapper(events: Events, name: string, e: string, serial: nat, id: nat)
    requires EventList(name) == [e] && NoWrappers(events)
    requires User(id) !in ListAt(events, e)
    ensures
      var before := ListAt(events, e);
      var u, w := User(id), Wrapper(serial, name, id);
      var bound := events[e := before + [u, w]];
      RunList(Run(bound, before + [u]), e, |before| + 1)
        == Run(events[e := before], before + [u] + [w])
  {
    var before := ListAt(events, e);
    var u, w := User(id), Wrapper(serial, name, id);
    var bound := events[e := before + [u, w]];
    assert w !in before;
    RunListStep(Run(bound, before + [u]), e, |before| + 1);
    WrapperUnbinds(bound, name, e, before, serial, id);
    assert bound[e := before] == events[e := before];
  }

  /** `once(eventName, h)` for a name that is one token `e` without a doubled
      colon, on a registry without once wrappers whose list for `e` does not
      hold `h`: the next `trigger(eventName)` calls what `e` held, then `h`,
      then the wrapper, then what the ancestors of `e` hold, and it leaves
      every list as it was before `once` (an entry for `e` stays, possibly
      empty). */
  lemma OnceFiresOnce(events: Events, name: string, e: string, serial: nat, id: nat)
    requires NoWrappers(events) && EventList(name) == [e] && NoDoubleColon(e)
    requires User(id) !in ListAt(events, e)
    ensures LiveTrigger(BindOnce(events, name, serial, id), name)
         == Run(events[e := ListAt(events, e)],
                ListAt(events, e) + [User(id), Wrapper(serial, name, id)] + Visit(events, Namespaces(e)[1..]))
  {
    OnceFirstNamespace(events, name, e, serial, id);
    OnceOtherNamespaces(events, e, ListAt(events, e) + [User(id), Wrapper(serial, name, id)]);
  }

  /** Up to the end of the list of `e` itself. */
  lemma OnceFirstNamespace(events: Events, name: string, e: string, serial: nat, id: nat)
    requires NoWrappers(events) && EventList(name) == [e] && NoDoubleColon(e)
    requires User(id) !in ListAt(events, e)
    ensures LiveTrigger(BindOnce(events, name, serial, id), name)
         == RunNamespaces(Run(events[e := ListAt(events, e)],
                              ListAt(events, e) + [User(id), Wrapper(serial, name, id)]),
                          Namespaces(e)[1..])
  {
    var before := ListAt(events, e);
    var bound := events[e := before + [User(id), Wrapper(serial, name, id)]];
    BindOnceOne(events, name, e, serial, id);
    LiveTriggerOneToken(bound, name, e);
    NamespacesHead(name, e);
    RunOnceList(events, name, e, serial, id);
  }

  /** The ancestors of `e`, once the list of `e` is back to what it was. */
  lemma OnceOtherNamespaces(events: Events, e: string, fired: seq<Handler>)
    requires NoWrappers(events)
    ensures RunNamespaces(Run(events[e := ListAt(events, e)], fired), Namespaces(e)[1..])
         == Run(events[e := ListAt(events, e)], fired + Visit(events, Namespaces(e)[1..]))
  {
    var cleared := events[e := ListAt(events, e)];
    assert NoWrappers(cleared);
    RunNamespacesQuiet(Run(cleared, fired), Namespaces(e)[1..]);
    VisitSameLists(cleared, events, Namespaces(e)[1..]);
  }

  lemma LiveTriggerOneToken(events: Events, name: string, e: string)
    requires EventList(name) == [e]
    ensures LiveTrigger(events, name) == RunNamespaces(Run(events, []), Namespaces(e))
  {
    var first := RunNamespaces(Run(events, []), Namespaces(e));
    assert [e][1..] == [];
    assert RunTokens(Run(events, []), [e]) == RunTokens(first, []);
  }

  /** The first namespace of a token without a doubled colon is the token. */
  lemma NamespacesHead(name: string, e: string)
    requires e in EventList(name) && NoDoubleColon(e)
    ensures Namespaces(e) == [e] + Namespaces(e)[1..]
  {
    TokenIsTrimmed(name, e);
    NamespacesFirstIsName(e);
  }
}
