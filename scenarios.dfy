/** Concrete uses of the event hub: the splitting and namespace results for
    particular names, and short client programs that bind, unbind and
    trigger on a fresh hub, with what each trigger calls proved exactly. */
module Scenarios {
  import opened EventNames
  import opened Registry
  import opened Dispatch
  import opened Hub

  // ---------------------------------------------------------------------------
  // Names

  /** Three separator-free pieces with separator runs between them split
      into exactly those three pieces. */
  lemma SplitThree(sep: Separator, x: string, r1: string, y: string, r2: string, z: string)
    requires NoSep(sep, x) && NoSep(sep, y) && NoSep(sep, z) && y != [] && z != []
    requires r1 != [] && forall k | 0 <= k < |r1| :: IsSep(sep, r1[k])
    requires r2 != [] && forall k | 0 <= k < |r2| :: IsSep(sep, r2[k])
    ensures SplitRuns(sep, x + r1 + y + r2 + z) == [x, y, z]
  {
    SplitTwo(sep, y, r2, z);
    assert x + r1 + y + r2 + z == x + r1 + (y + r2 + z);
    assert (y + r2 + z)[0] == y[0];
    SplitRunsCons(sep, x, r1, y + r2 + z);
    assert [x] + [y, z] == [x, y, z];
  }

  lemma SplitTwo(sep: Separator, y: string, r2: string, z: string)
    requires NoSep(sep, y) && NoSep(sep, z) && z != []
    requires r2 != [] && forall k | 0 <= k < |r2| :: IsSep(sep, r2[k])
    ensures SplitRuns(sep, y + r2 + z) == [y, z]
  {
    assert !IsSep(sep, z[0]);
    SplitRunsCons(sep, y, r2, z);
    SplitRunsNoSep(sep, z);
  }

  /** Commas and white space mixed, in runs, separate tokens alike. */
  lemma EventListMixed()
    ensures EventList("a, b   c") == ["a", "b", "c"]
  {
    var name := "a, b   c";
    assert Trim(name) == name;
    assert name == "a" + ", " + "b" + "   " + "c";
    SplitThree(ListSeparator, "a", ", ", "b", "   ", "c");
  }

  /** Three segments give three namespaces, most specific first. */
  lemma NamespacesThree()
    ensures Namespaces("a:b:c") == ["a:b:c", "a:b", "a"]
  {
    TripleName("a", "b", "c");
    SpellABC();
  }

  lemma SpellABC()
    ensures "a" + ":" + "b" == "a:b" && "a:b" + ":" + "c" == "a:b:c"
  {
  }

  lemma ChainThree(x: string, y: string, z: string)
    ensures Chain([x, y, z]) == [x + ":" + y + ":" + z, x + ":" + y, x]
  {
    var segs := [x, y, z];
    assert segs[..2] == [x, y] && segs[..2][..1] == [x];
    assert Join([x, y]) == x + ":" + y by {
      assert [x, y][..1] == [x];
    }
    assert Chain([x]) == [x];
  }

  /** A name without a colon is its own only namespace. */
  lemma NamespacesOne()
    ensures Namespaces("a") == ["a"]
  {
    NamespacesNoColon("a");
  }

  /** The namespaces of `x:y` for segments `x` and `y`. */
  lemma NamespacesTwo(x: string, run: string, y: string)
    requires x != [] && NoSep(ListSeparator, x) && NoSep(NamespaceSeparator, x)
    requires y != [] && NoSep(ListSeparator, y) && NoSep(NamespaceSeparator, y)
    requires run != [] && forall k | 0 <= k < |run| :: run[k] == ':'
    ensures Namespaces(x + run + y) == [x + ":" + y, x]
  {
    var name := x + run + y;
    assert Trim(name) == name by {
      assert !IsSep(ListSeparator, x[0]) && !IsSep(ListSeparator, y[|y| - 1]);
      assert name[0] == x[0] && name[|name| - 1] == y[|y| - 1];
    }
    assert !IsSep(NamespaceSeparator, y[0]);
    SplitRunsCons(NamespaceSeparator, x, run, y);
    SplitRunsNoSep(NamespaceSeparator, y);
    var segs := [x, y];
    assert Segments(name) == segs;
    assert segs[..1] == [x];
  }

  // ---------------------------------------------------------------------------
  // Names built from plain words

  /** A plain word: not empty, with no comma, white space or colon. */
  predicate Word(s: string) {
    s != [] && NoSep(ListSeparator, s) && NoSep(NamespaceSeparator, s)
  }

  /** A plain word is its own only token and its own only namespace. */
  lemma WordName(x: string)
    requires Word(x)
    ensures EventList(x) == [x] && Namespaces(x) == [x] && NoDoubleColon(x)
  {
    EventListOfToken(x);
    NamespacesNoColon(x);
    assert Trim(x) == x by { EventListSingle(x); }
    forall k: nat | k + 1 < |x| ensures !ColonPair(x, k) {
      assert !IsSep(NamespaceSeparator, x[k]);
    }
  }

  /** Two plain words joined by a run of colons are one token, whose
      namespaces are the words joined by one colon, then the first word. */
  lemma PairName(x: string, run: string, y: string)
    requires Word(x) && Word(y)
    requires run != [] && forall k | 0 <= k < |run| :: run[k] == ':'
    ensures EventList(x + run + y) == [x + run + y]
    ensures Namespaces(x + run + y) == [x + ":" + y, x]
  {
    var name := x + run + y;
    assert NoSep(ListSeparator, name) by {
      forall k | 0 <= k < |name| ensures !IsSep(ListSeparator, name[k]) {
        if k < |x| {
          assert name[k] == x[k];
        } else if k < |x| + |run| {
          assert name[k] == run[k - |x|];
        } else {
          assert name[k] == y[k - |x| - |run|];
        }
      }
    }
    EventListOfToken(name);
    NamespacesTwo(x, run, y);
  }

  /** Three plain words joined by single colons are one token, with three
      namespaces. */
  lemma TripleName(x: string, y: string, z: string)
    requires Word(x) && Word(y) && Word(z)
    ensures EventList(x + ":" + y + ":" + z) == [x + ":" + y + ":" + z]
    ensures Namespaces(x + ":" + y + ":" + z) == [x + ":" + y + ":" + z, x + ":" + y, x]
  {
    var name := x + ":" + y + ":" + z;
    assert NoSep(ListSeparator, name) by {
      NoListSepAppend(x, ":");
      NoListSepAppend(x + ":", y);
      NoListSepAppend(x + ":" + y, ":");
      NoListSepAppend(x + ":" + y + ":", z);
    }
    EventListOfToken(name);
    assert Segments(name) == [x, y, z] by {
      SplitThree(NamespaceSeparator, x, ":", y, ":", z);
    }
    ChainThree(x, y, z);
  }

  lemma NoListSepAppend(a: string, b: string)
    requires NoSep(ListSeparator, a) && NoSep(ListSeparator, b)
    ensures NoSep(ListSeparator, a + b)
  {
    forall k | 0 <= k < |a + b| ensures !IsSep(ListSeparator, (a + b)[k]) {
      if k < |a| { assert (a + b)[k] == a[k]; } else { assert (a + b)[k] == b[k - |a|]; }
    }
  }

  /** A word with no colon differs from any name that holds one. */
  lemma WordIsNotPair(w: string, x: string, y: string)
    requires Word(w)
    ensures w != x + ":" + y
  {
    if |w| == |x| + 1 + |y| {
      assert !IsSep(NamespaceSeparator, w[|x|]);
      assert (x + ":" + y)[|x|] == ':';
    }
  }

  /** `trigger` on a one-token name, with no once wrapper bound, calls the
      handlers of that token's namespaces and changes nothing. */
  lemma TriggerToken(events: Events, e: string, namespaces: seq<string>)
    requires NoWrappers(events) && EventList(e) == [e] && Namespaces(e) == namespaces
    ensures LiveTrigger(events, e) == Run(events, Visit(events, namespaces))
  {
    LiveTriggerQuiet(events, e);
    assert [e][1..] == [];
    assert VisitTokens(events, []) == [];
    assert Visit(events, namespaces) + [] == Visit(events, namespaces);
  }

  lemma VisitCons(events: Events, a: string, rest: seq<string>)
    ensures Visit(events, [a] + rest) == ListAt(events, a) + Visit(events, rest)
  {
    assert ([a] + rest)[1..] == rest;
  }

  lemma VisitOne(events: Events, a: string)
    ensures Visit(events, [a]) == ListAt(events, a)
  {
    assert [a][1..] == [];
    assert ListAt(events, a) + [] == ListAt(events, a);
  }

  /** On an empty hub, binding `h` to `x:y` gives one entry. */
  lemma BindPair(x: string, y: string, h: Handler)
    requires Word(x) && Word(y)
    ensures OnAll(map[], EventList(x + ":" + y), h) == map[x + ":" + y := [h]]
  {
    PairName(x, ":", y);
    OnOne(map[], x + ":" + y, h);
    assert ListAt(map[], x + ":" + y) + [h] == [h];
  }

  /** With `h` bound to `x:y` alone, triggering `x:y` calls `h` once. */
  lemma TriggerPair(x: string, y: string, id: nat)
    requires Word(x) && Word(y)
    ensures
      var events := map[x + ":" + y := [User(id)]];
      LiveTrigger(events, x + ":" + y) == Run(events, [User(id)])
  {
    var name := x + ":" + y;
    var events := map[name := [User(id)]];
    PairName(x, ":", y);
    TriggerToken(events, name, [name, x]);
    VisitCons(events, name, [x]);
    VisitOne(events, x);
    assert x != name;
  }

  /** ... and triggering the descendant `x:y:z` calls it once too. */
  lemma TriggerChild(x: string, y: string, z: string, id: nat)
    requires Word(x) && Word(y) && Word(z)
    ensures
      var events := map[x + ":" + y := [User(id)]];
      LiveTrigger(events, x + ":" + y + ":" + z) == Run(events, [User(id)])
  {
    var name := x + ":" + y;
    var longer := name + ":" + z;
    var events := map[name := [User(id)]];
    TripleName(x, y, z);
    TriggerToken(events, longer, [longer, name, x]);
    VisitCons(events, longer, [name, x]);
    VisitCons(events, name, [x]);
    VisitOne(events, x);
    assert longer != name && x != name;
  }

  /** ... while triggering an unrelated word calls nothing. */
  lemma TriggerOther(x: string, y: string, w: string, id: nat)
    requires Word(x) && Word(y) && Word(w)
    ensures
      var events := map[x + ":" + y := [User(id)]];
      LiveTrigger(events, w) == Run(events, [])
  {
    var events := map[x + ":" + y := [User(id)]];
    WordName(w);
    TriggerToken(events, w, [w]);
    VisitOne(events, w);
    WordIsNotPair(w, x, y);
  }

  /** Two plain words separated by a comma are two tokens. */
  lemma ListPair(x: string, y: string)
    requires Word(x) && Word(y)
    ensures EventList(x + "," + y) == [x, y]
  {
    var name := x + "," + y;
    assert Trim(name) == name by {
      assert !IsSep(ListSeparator, x[0]) && !IsSep(ListSeparator, y[|y| - 1]);
      assert name[0] == x[0] && name[|name| - 1] == y[|y| - 1];
    }
    assert !IsSep(ListSeparator, y[0]);
    SplitRunsCons(ListSeparator, x, ",", y);
    SplitRunsNoSep(ListSeparator, y);
  }

  /** With `h` bound to a word `e` alone, triggering `e` calls the list of
      `e` and nothing else. */
  lemma TriggerWord(events: Events, e: string)
    requires Word(e) && NoWrappers(events)
    ensures LiveTrigger(events, e) == Run(events, ListAt(events, e))
  {
    WordName(e);
    TriggerToken(events, e, [e]);
    VisitOne(events, e);
  }

  // ---------------------------------------------------------------------------
  // Client programs on a fresh hub

  /** A handler bound to `x:y` fires for `x:y`, for its descendant `x:y:z`,
      and not for an unrelated word. */
  method AncestorMatch(x: string, y: string, z: string, w: string)
      returns (exact: seq<Handler>, child: seq<Handler>, other: seq<Handler>)
    requires Word(x) && Word(y) && Word(z) && Word(w)
    ensures exact == [User(0)] && child == [User(0)] && other == []
  {
    var hub := new EventHub();
    hub.On(x + ":" + y, User(0));
    BindPair(x, y, User(0));
    exact := hub.Trigger(x + ":" + y);
    TriggerPair(x, y, 0);
    child := hub.Trigger(x + ":" + y + ":" + z);
    TriggerChild(x, y, z, 0);
    other := hub.Trigger(w);
    TriggerOther(x, y, w, 0);
  }

  /** A handler bound to `x,y` fires for `x` and for `y`, each on its own. */
  method EachToken(x: string, y: string) returns (first: seq<Handler>, second: seq<Handler>)
    requires Word(x) && Word(y) && x != y
    ensures first == [User(0)] && second == [User(0)]
  {
    var hub := new EventHub();
    hub.On(x + "," + y, User(0));
    ListPair(x, y);
    BindTwo(x, y, User(0));
    first := hub.Trigger(x);
    second := hub.Trigger(y);
    TriggerEach(x, y, 0);
  }

  lemma TriggerEach(x: string, y: string, id: nat)
    requires Word(x) && Word(y) && x != y
    ensures
      var events := map[x := [User(id)], y := [User(id)]];
      LiveTrigger(events, x) == Run(events, [User(id)])
      && LiveTrigger(events, y) == Run(events, [User(id)])
  {
    var events := map[x := [User(id)], y := [User(id)]];
    TriggerWord(events, x);
    TriggerWord(events, y);
  }

  lemma BindTwo(x: string, y: string, h: Handler)
    requires x != y
    ensures OnAll(map[], [x, y], h) == map[x := [h], y := [h]]
  {
    assert [x, y][1..] == [y];
    var one := Bind(map[], x, h);
    assert ListAt(map[], x) + [h] == [h];
    OnOne(one, y, h);
    assert ListAt(one, y) == [];
  }

  /** Handlers bound to the same name fire in binding order. */
  method BindingOrder(e: string) returns (fired: seq<Handler>)
    requires Word(e)
    ensures fired == [User(1), User(2)]
  {
    var hub := new EventHub();
    WordName(e);
    hub.On(e, User(1));
    hub.On(e, User(2));
    ghost var events := map[e := [User(1), User(2)]];
    assert hub.events == events by {
      BindTwice(e);
    }
    fired := hub.Trigger(e);
    TriggerWord(events, e);
  }

  lemma BindTwice(e: string)
    requires EventList(e) == [e]
    ensures OnAll(OnAll(map[], EventList(e), User(1)), EventList(e), User(2)) == map[e := [User(1), User(2)]]
  {
    OnOne(map[], e, User(1));
    assert ListAt(map[], e) + [User(1)] == [User(1)];
    OnOne(map[e := [User(1)]], e, User(2));
    assert [User(1)] + [User(2)] == [User(1), User(2)];
  }

  /** `once` then two triggers: the handler fires once, on the first, with
      its wrapper right after it; the list for the name stays, empty. */
  method OnceThenTwice(e: string) returns (first: seq<Handler>, second: seq<Handler>, residual: seq<Handler>)
    requires Word(e)
    ensures first == [User(0), Wrapper(0, e, 0)] && second == [] && residual == []
  {
    var hub := new EventHub();
    hub.Once(e, 0);
    first := hub.Trigger(e);
    ghost var after: Events := map[e := []];
    assert first == [User(0), Wrapper(0, e, 0)] && hub.events == after by {
      OnceOnEmpty(e);
    }
    second := hub.Trigger(e);
    TriggerWord(after, e);
    residual := hub.events[e];
  }

  lemma OnceOnEmpty(e: string)
    requires Word(e)
    ensures LiveTrigger(BindOnce(map[], e, 0, 0), e) == Run(map[e := []], [User(0), Wrapper(0, e, 0)])
  {
    WordName(e);
    OnceFiresOnce(map[], e, e, 0, 0);
    assert Namespaces(e)[1..] == [];
    assert Visit(map[], []) == [];
    assert map[][e := ListAt(map[], e)] == map[e := []];
  }

  /** `off` on a name with no entry changes nothing. */
  method OffMissing(e: string) returns (after: Events)
    requires Word(e)
    ensures after == map[]
  {
    var hub := new EventHub();
    WordName(e);
    hub.Off(e, User(0));
    after := hub.events;
  }

  /** `off` stops at the first token with no entry: unbinding from `x,y`
      when only `y` has an entry leaves the handler bound under `y`. */
  method OffStopsEarly(x: string, y: string) returns (residual: seq<Handler>)
    requires Word(x) && Word(y) && x != y
    ensures residual == [User(0)]
  {
    var hub := new EventHub();
    WordName(y);
    hub.On(y, User(0));
    OnOne(map[], y, User(0));
    ListPair(x, y);
    hub.Off(x + "," + y, User(0));
    residual := hub.events[y];
  }

  /** Bind, trigger, unbind, trigger: the handler fires on the first
      trigger only. */
  method BindThenUnbind(x: string, y: string) returns (first: seq<Handler>, second: seq<Handler>)
    requires Word(x) && Word(y)
    ensures first == [User(0)] && second == []
  {
    var name := x + ":" + y;
    var hub := new EventHub();
    hub.On(name, User(0));
    BindPair(x, y, User(0));
    first := hub.Trigger(name);
    TriggerPair(x, y, 0);
    hub.Off(name, User(0));
    ghost var empty: Events := map[name := []];
    assert hub.events == empty by {
      UnbindPair(x, y, 0);
    }
    second := hub.Trigger(name);
    TriggerPairEmpty(x, y);
  }

  lemma UnbindPair(x: string, y: string, id: nat)
    requires Word(x) && Word(y)
    ensures OffAll(map[x + ":" + y := [User(id)]], EventList(x + ":" + y), User(id)) == map[x + ":" + y := []]
  {
    var name := x + ":" + y;
    PairName(x, ":", y);
    OffOne(map[name := [User(id)]], name, User(id));
    RemoveFirstAt([], User(id), []);
    assert [] + [User(id)] + [] == [User(id)];
  }

  lemma TriggerPairEmpty(x: string, y: string)
    requires Word(x) && Word(y)
    ensures
      var events: Events := map[x + ":" + y := []];
      LiveTrigger(events, x + ":" + y) == Run(events, [])
  {
    var name := x + ":" + y;
    var events: Events := map[name := []];
    PairName(x, ":", y);
    TriggerToken(events, name, [name, x]);
    VisitCons(events, name, [x]);
    VisitOne(events, x);
  }

  /** A handler bound to a name that doubles a colon is stored under that
      name, but `trigger` of the same name looks up the name with the colons
      collapsed and its ancestors, so the handler never fires. */
  method DoubleColonNeverFires(x: string, y: string) returns (fired: seq<Handler>, bound: seq<Handler>)
    requires Word(x) && Word(y)
    ensures fired == [] && bound == [User(0)]
  {
    var name := x + "::" + y;
    var hub := new EventHub();
    hub.On(name, User(0));
    ghost var events := map[name := [User(0)]];
    assert hub.events == events by {
      PairName(x, "::", y);
      OnOne(map[], name, User(0));
      assert ListAt(map[], name) + [User(0)] == [User(0)];
    }
    fired := hub.Trigger(name);
    DoubleColonTrigger(x, y, 0);
    bound := hub.events[name];
  }

  lemma DoubleColonTrigger(x: string, y: string, id: nat)
    requires Word(x) && Word(y)
    ensures
      var events := map[x + "::" + y := [User(id)]];
      LiveTrigger(events, x + "::" + y) == Run(events, [])
  {
    var name := x + "::" + y;
    var events := map[name := [User(id)]];
    PairName(x, "::", y);
    TriggerToken(events, name, [x + ":" + y, x]);
    VisitCons(events, x + ":" + y, [x]);
    VisitOne(events, x);
    assert |x + ":" + y| < |name| && |x| < |name|;
  }

  /** `trigger` walks the live list by index, so when a once wrapper removes
      its handler, the handler bound after the wrapper moves into the slot
      already visited: `once(e, h1)`, `on(e, h2)`, then the first trigger
      calls `h1` and the wrapper but skips `h2`, and only the second calls
      `h2`. */
  method OnceSkipsLater(e: string) returns (first: seq<Handler>, second: seq<Handler>)
    requires Word(e)
    ensures first == [User(1), Wrapper(0, e, 1)] && second == [User(2)]
  {
    var hub := OnceThenOn(e);
    first := hub.Trigger(e);
    ghost var after := map[e := [User(2)]];
    assert first == [User(1), Wrapper(0, e, 1)] && hub.events == after by {
      SkippedByWrapper(e);
    }
    second := hub.Trigger(e);
    TriggerWord(after, e);
  }

  /** A fresh hub after `once(e, h1)` and `on(e, h2)`. */
  method OnceThenOn(e: string) returns (hub: EventHub)
    requires Word(e)
    ensures fresh(hub) && hub.Valid()
    ensures hub.events == map[e := [User(1), Wrapper(0, e, 1), User(2)]]
  {
    hub := new EventHub();
    hub.Once(e, 1);
    hub.On(e, User(2));
    BindOnceThenOn(e);
  }

  lemma BindOnceThenOn(e: string)
    requires Word(e)
    ensures OnAll(BindOnce(map[], e, 0, 1), EventList(e), User(2))
         == map[e := [User(1), Wrapper(0, e, 1), User(2)]]
  {
    WordName(e);
    BindOnceOne(map[], e, e, 0, 1);
    assert ListAt(map[], e) + [User(1), Wrapper(0, e, 1)] == [User(1), Wrapper(0, e, 1)];
    OnOne(map[e := [User(1), Wrapper(0, e, 1)]], e, User(2));
    assert [User(1), Wrapper(0, e, 1)] + [User(2)] == [User(1), Wrapper(0, e, 1), User(2)];
  }

  /** The first trigger: `h1`, then the wrapper, which unbinds `h1` and
      itself; the loop's index is then past the shortened list. */
  lemma SkippedByWrapper(e: string)
    requires Word(e)
    ensures LiveTrigger(map[e := [User(1), Wrapper(0, e, 1), User(2)]], e)
         == Run(map[e := [User(2)]], [User(1), Wrapper(0, e, 1)])
  {
    var w := Wrapper(0, e, 1);
    var events := map[e := [User(1), w, User(2)]];
    WordName(e);
    LiveTriggerOneToken(events, e, e);
    assert [e][1..] == [];
    assert RunNamespaces(Run(events, []), [e]) == RunList(Run(events, []), e, 0);
    RunUserAt(Run(events, []), e, 0);
    assert [] + [User(1)] == [User(1)];
    RunListStep(Run(events, [User(1)]), e, 1);
    assert [User(1), w, User(2)] == [User(1), w] + [User(2)];
    WrapperRemovesBoth(e, [User(2)]);
  }

  /** With `h1` bound before its wrapper, the wrapper's two `off` calls shift
      the list left by two places, so the two handlers right after the
      wrapper are skipped by this trigger and the third one fires. */
  lemma OnceSkipsTwo(e: string)
    requires Word(e)
    ensures LiveTrigger(map[e := [User(1), Wrapper(0, e, 1), User(2), User(3), User(4)]], e)
         == Run(map[e := [User(2), User(3), User(4)]], [User(1), Wrapper(0, e, 1), User(4)])
  {
    var w := Wrapper(0, e, 1);
    var rest := [User(2), User(3), User(4)];
    var events := map[e := [User(1), w, User(2), User(3), User(4)]];
    assert [User(1), w, User(2), User(3), User(4)] == [User(1), w] + rest;
    WordName(e);
    LiveTriggerOneToken(events, e, e);
    assert [e][1..] == [];
    assert RunNamespaces(Run(events, []), [e]) == RunList(Run(events, []), e, 0);
    RunUserAt(Run(events, []), e, 0);
    assert [] + [User(1)] == [User(1)];
    RunListStep(Run(events, [User(1)]), e, 1);
    WrapperRemovesBoth(e, rest);
    RunUserAt(Run(map[e := rest], [User(1), w]), e, 2);
  }

  /** The wrapper at the front of `[h1, wrapper] + rest` leaves `rest`. */
  lemma WrapperRemovesBoth(e: string, rest: seq<Handler>)
    requires Word(e)
    ensures Invoke(map[e := [User(1), Wrapper(0, e, 1)] + rest], Wrapper(0, e, 1)) == map[e := rest]
  {
    var w := Wrapper(0, e, 1);
    WordName(e);
    assert [User(1), w] + rest == [User(1)] + ([w] + rest);
    OffHead(e, User(1), [w] + rest);
    OffHead(e, w, rest);
  }

  /** `off` of the first handler of a one-entry registry. */
  lemma OffHead(e: string, h: Handler, rest: seq<Handler>)
    ensures OffAll(map[e := [h] + rest], [e], h) == map[e := rest]
  {
    OffOne(map[e := [h] + rest], e, h);
    RemoveFirstAt([], h, rest);
    assert [] + [h] + rest == [h] + rest && [] + rest == rest;
  }
}
