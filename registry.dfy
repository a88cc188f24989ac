/** The registry of the event hub (`this.events`): a map from an exact event
    name to the ordered list of handlers bound to it, and what `on` and `off`
    do to it, written as functions of the registry before the call. */
module Registry {
  import opened EventNames

  /** A handler is known by its identity only.  `User(id)` is a function the
      caller supplied.  `Wrapper` is the closure that `once` creates: it
      remembers the compound name and the handler it was made for, and its
      `serial` tells apart the closures of different `once` calls, which are
      distinct objects even when their names and handlers agree. */
  datatype Handler = User(id: nat) | Wrapper(serial: nat, eventName: string, target: nat)

  /** Exact event name to the handlers bound to it, in binding order.  A key,
      once created, is never deleted, and an empty list still counts as an
      entry (an empty array is truthy). */
  type Events = map<string, seq<Handler>>

  /** The handlers bound to `name`; none when the key is absent. */
  function ListAt(events: Events, name: string): seq<Handler> {
    if name in events then events[name] else []
  }

  // ---------------------------------------------------------------------------
  // indexOf and splice

  /** `list.indexOf(h)`: the first position of `h`, or -1. */
  function IndexOf(list: seq<Handler>, h: Handler): (r: int)
    ensures -1 <= r < |list|
    ensures r == -1 <==> h !in list
    ensures 0 <= r ==> list[r] == h && h !in list[..r]
  {
    if list == [] then -1
    else if list[0] == h then 0
    else
      var r := IndexOf(list[1..], h);
      if r == -1 then -1
      else
        assert list[..r + 1] == [list[0]] + list[1..][..r];
        r + 1
  }

  /** `list.splice(i, 1)`: the list without its element at `i`. */
  function Splice(list: seq<Handler>, i: nat): (r: seq<Handler>)
    requires i < |list|
    ensures |r| + 1 == |list|
  {
    list[..i] + list[i + 1..]
  }

  /** `splice(i, 1)` removes one element, the one at `i`, and keeps the
      others in their order. */
  lemma SpliceSpec(list: seq<Handler>, i: nat)
    requires i < |list|
    ensures multiset(Splice(list, i)) == multiset(list) - multiset{list[i]}
    ensures forall k | 0 <= k < |list| - 1 ::
      Splice(list, i)[k] == if k < i then list[k] else list[k + 1]
  {
    var r := Splice(list, i);
    forall k | 0 <= k < |list| - 1 ensures r[k] == if k < i then list[k] else list[k + 1] {
      if k < i { assert r[k] == list[..i][k]; } else { assert r[k] == list[i + 1..][k - i]; }
    }
    SpliceMultiset(list, i);
  }

  lemma SpliceMultiset(list: seq<Handler>, i: nat)
    requires i < |list|
    ensures multiset(Splice(list, i)) == multiset(list) - multiset{list[i]}
  {
    assert list == list[..i] + [list[i]] + list[i + 1..];
    assert multiset(list) == multiset(list[..i]) + multiset{list[i]} + multiset(list[i + 1..]);
  }

  /** `indexOf` and, when found, `splice(index, 1)`. */
  function RemoveFirst(list: seq<Handler>, h: Handler): (r: seq<Handler>)
    ensures |r| <= |list|
  {
    var i := IndexOf(list, h);
    if i >= 0 then Splice(list, i) else list
  }

  /** `RemoveFirst` takes out exactly the first occurrence of `h`, keeping
      everything else in order, and changes nothing when `h` is absent. */
  lemma RemoveFirstSpec(list: seq<Handler>, h: Handler)
    ensures h !in list ==> RemoveFirst(list, h) == list
    ensures h in list ==>
      exists i | 0 <= i < |list| ::
        list[i] == h && h !in list[..i] && RemoveFirst(list, h) == list[..i] + list[i + 1..]
    ensures multiset(RemoveFirst(list, h)) == multiset(list) - multiset{h}
  {
    var i := IndexOf(list, h);
    if i >= 0 {
      assert list == list[..i] + [h] + list[i + 1..];
    }
  }

  /** `RemoveFirst` applied `n` times. */
  function RemoveTimes(list: seq<Handler>, h: Handler, n: nat): seq<Handler> {
    if n == 0 then list else RemoveTimes(RemoveFirst(list, h), h, n - 1)
  }

  /** `h` repeated `n` times. */
  function Repeat(h: Handler, n: nat): seq<Handler> {
    if n == 0 then [] else [h] + Repeat(h, n - 1)
  }

  // ---------------------------------------------------------------------------
  // on

  /** One token of `on`: an empty list first when the key is absent, then
      `push(h)`. */
  function Bind(events: Events, name: string, h: Handler): (r: Events)
  {
    events[name := ListAt(events, name) + [h]]
  }

  /** The registry after `on(eventName, h)`, whose tokens are `tokens`. */
  function OnAll(events: Events, tokens: seq<string>, h: Handler): (r: Events)
    ensures r.Keys == events.Keys + set t | t in tokens
    decreases |tokens|
  {
    if tokens == [] then events else OnAll(Bind(events, tokens[0], h), tokens[1..], h)
  }

  lemma CountCons(t: string, rest: seq<string>, key: string)
    ensures multiset([t] + rest)[key] == multiset(rest)[key] + (if key == t then 1 else 0)
  {
    assert multiset([t] + rest) == multiset{t} + multiset(rest);
  }

  lemma CountHead(tokens: seq<string>, key: string)
    requires tokens != []
    ensures multiset(tokens)[key] == multiset(tokens[1..])[key] + (if key == tokens[0] then 1 else 0)
  {
    assert tokens == [tokens[0]] + tokens[1..];
    CountCons(tokens[0], tokens[1..], key);
  }

  lemma AppendRepeat(list: seq<Handler>, h: Handler, c: nat)
    ensures list + [h] + Repeat(h, c) == list + Repeat(h, c + 1)
  {
    assert Repeat(h, c + 1) == [h] + Repeat(h, c);
  }

  /** `on` appends `h` once per occurrence of a key among the tokens, after
      whatever was bound before (duplicates kept); every other key keeps its
      list. */
  lemma {:induction false} OnAllEffect(events: Events, tokens: seq<string>, h: Handler, key: string)
    ensures ListAt(OnAll(events, tokens, h), key) == ListAt(events, key) + Repeat(h, multiset(tokens)[key])
    decreases |tokens|
  {
    if tokens != [] {
      var t, rest := tokens[0], tokens[1..];
      CountHead(tokens, key);
      OnAllEffect(Bind(events, t, h), rest, h, key);
      BindAt(events, t, h, key);
      if key == t {
        AppendRepeat(ListAt(events, key), h, multiset(rest)[key]);
      }
    }
  }

  /** One `push` changes the list of its own key only. */
  lemma BindAt(events: Events, t: string, h: Handler, key: string)
    ensures key == t ==> ListAt(Bind(events, t, h), key) == ListAt(events, key) + [h]
    ensures key != t ==> ListAt(Bind(events, t, h), key) == ListAt(events, key)
  {
  }

  // ---------------------------------------------------------------------------
  // off

  /** The registry after `off(eventName, h)`, whose tokens are `tokens`:
      left to right, return at the first token with no entry, otherwise take
      the first `h` out of that token's list.  No key is ever removed and no
      list grows. */
  function OffAll(events: Events, tokens: seq<string>, h: Handler): (r: Events)
    ensures r.Keys == events.Keys
    decreases |tokens|
  {
    if tokens == [] then events
    else if tokens[0] !in events then events
    else OffAll(events[tokens[0] := RemoveFirst(events[tokens[0]], h)], tokens[1..], h)
  }

  /** How many tokens `off` gets through before it meets one with no entry. */
  function PresentPrefix(events: Events, tokens: seq<string>): (p: nat)
    ensures p <= |tokens|
    ensures forall i | 0 <= i < p :: tokens[i] in events
    ensures p < |tokens| ==> tokens[p] !in events
  {
    if tokens == [] || tokens[0] !in events then 0 else 1 + PresentPrefix(events, tokens[1..])
  }

  lemma {:induction false} PresentPrefixKeys(e1: Events, e2: Events, tokens: seq<string>)
    requires e1.Keys == e2.Keys
    ensures PresentPrefix(e1, tokens) == PresentPrefix(e2, tokens)
    decreases |tokens|
  {
    if tokens != [] {
      PresentPrefixKeys(e1, e2, tokens[1..]);
    }
  }

  /** `off` never makes a list longer. */
  lemma {:induction false} OffAllShrinks(events: Events, tokens: seq<string>, h: Handler, key: string)
    requires key in events
    ensures |OffAll(events, tokens, h)[key]| <= |events[key]|
    decreases |tokens|
  {
    if tokens != [] && tokens[0] in events {
      var next := events[tokens[0] := RemoveFirst(events[tokens[0]], h)];
      OffAllShrinks(next, tokens[1..], h, key);
    }
  }

  /** `off` takes one occurrence of `h` out of a key's list for every time
      the key appears among the tokens before the first token with no entry;
      tokens after that one, and keys that are not tokens, are untouched. */
  lemma {:induction false} OffAllEffect(events: Events, tokens: seq<string>, h: Handler, key: string)
    ensures ListAt(OffAll(events, tokens, h), key)
         == RemoveTimes(ListAt(events, key), h, multiset(tokens[..PresentPrefix(events, tokens)])[key])
    decreases |tokens|
  {
    if tokens != [] && tokens[0] in events {
      var t, rest := tokens[0], tokens[1..];
      var next := events[t := RemoveFirst(events[t], h)];
      PresentPrefixStep(events, tokens, h, key);
      OffAllEffect(next, rest, h, key);
      RemoveTimesStep(events, t, h, key, multiset(rest[..PresentPrefix(next, rest)])[key]);
    } else {
      assert tokens[..PresentPrefix(events, tokens)] == [];
    }
  }

  /** Taking `h` out of the list of `t` first, then `c` more times from the
      list of `key`. */
  lemma RemoveTimesStep(events: Events, t: string, h: Handler, key: string, c: nat)
    requires t in events
    ensures RemoveTimes(ListAt(events, key), h, c + (if key == t then 1 else 0))
         == RemoveTimes(ListAt(events[t := RemoveFirst(events[t], h)], key), h, c)
  {
  }

  /** How the count of `key` among the tokens `off` gets through changes
      after its first token. */
  lemma PresentPrefixStep(events: Events, tokens: seq<string>, h: Handler, key: string)
    requires tokens != [] && tokens[0] in events
    ensures
      var t, rest := tokens[0], tokens[1..];
      var next := events[t := RemoveFirst(events[t], h)];
      multiset(tokens[..PresentPrefix(events, tokens)])[key]
        == multiset(rest[..PresentPrefix(next, rest)])[key] + (if key == t then 1 else 0)
  {
    var t, rest := tokens[0], tokens[1..];
    var next := events[t := RemoveFirst(events[t], h)];
    PresentPrefixKeys(next, events, rest);
    var q := PresentPrefix(events, rest);
    assert tokens[..PresentPrefix(events, tokens)] == [t] + rest[..q];
    CountCons(t, rest[..q], key);
  }

  /** Taking out the first `h` when `h` does not occur before it. */
  lemma RemoveFirstAt(before: seq<Handler>, h: Handler, after: seq<Handler>)
    requires h !in before
    ensures RemoveFirst(before + [h] + after, h) == before + after
  {
    var l := before + [h] + after;
    var n := |before|;
    assert l[n] == h;
    assert forall j | 0 <= j < n :: l[j] == before[j];
    assert IndexOf(l, h) == n;
    assert l[..n] == before && l[n + 1..] == after;
  }

  /** `off` for one token that has an entry. */
  lemma OffOne(events: Events, e: string, h: Handler)
    requires e in events
    ensures OffAll(events, [e], h) == events[e := RemoveFirst(events[e], h)]
  {
    assert [e][1..] == [];
  }

  /** `Bind` done in two steps: create an empty list if the key is absent,
      then push onto the list now under the key. */
  lemma BindInPlace(events: Events, created: Events, name: string, h: Handler)
    requires created == if name in events then events else events[name := []]
    ensures created[name := created[name] + [h]] == Bind(events, name, h)
  {
    if name in events {
      assert events[name := events[name]] == events;
    }
  }

  /** One more token of `on`, counted from position `i`. */
  lemma OnAllStep(events: Events, tokens: seq<string>, i: nat, h: Handler)
    requires i < |tokens|
    ensures OnAll(Bind(events, tokens[i], h), tokens[i + 1..], h) == OnAll(events, tokens[i..], h)
  {
    assert tokens[i..][1..] == tokens[i + 1..];
  }

  /** One more token of `off` that has an entry, counted from position `i`. */
  lemma OffAllStep(events: Events, tokens: seq<string>, i: nat, h: Handler)
    requires i < |tokens| && tokens[i] in events
    ensures OffAll(events[tokens[i] := RemoveFirst(events[tokens[i]], h)], tokens[i + 1..], h)
         == OffAll(events, tokens[i..], h)
  {
    assert tokens[i..][1..] == tokens[i + 1..];
  }

  /** `off` stops at a token with no entry. */
  lemma OffAllAbsent(events: Events, tokens: seq<string>, i: nat, h: Handler)
    requires i < |tokens| && tokens[i] !in events
    ensures OffAll(events, tokens[i..], h) == events
  {
    assert tokens[i..][0] == tokens[i];
  }

  /** `on` for one token. */
  lemma OnOne(events: Events, e: string, h: Handler)
    ensures OnAll(events, [e], h) == Bind(events, e, h)
  {
    assert [e][1..] == [];
  }

  /** For a name that is one token `e` whose list does not hold `h`, `on`
      followed by `off` gives back the registry, except that the list for `e`
      stays (empty) if `on` created it. */
  lemma OnOffRoundTrip(events: Events, name: string, h: Handler)
    requires |EventList(name)| == 1 && h !in ListAt(events, EventList(name)[0])
    ensures
      var tokens, e := EventList(name), EventList(name)[0];
      OffAll(OnAll(events, tokens, h), tokens, h) == events[e := ListAt(events, e)]
  {
    var tokens := EventList(name);
    var e := tokens[0];
    assert tokens == [e];
    OnOne(events, e, h);
    var bound := Bind(events, e, h);
    RemoveFirstAt(ListAt(events, e), h, []);
    assert ListAt(events, e) + [h] + [] == ListAt(events, e) + [h];
    assert ListAt(events, e) + [] == ListAt(events, e);
    OffOne(bound, e, h);
    assert bound[e := ListAt(events, e)] == events[e := ListAt(events, e)];
  }
}
