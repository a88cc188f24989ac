/** Event-name parsing for the event hub: the trim-and-split that turns a
    compound name such as "a, b  c" into its tokens, and the colon hierarchy
    that turns one event name such as "a:b:c" into its namespaces, most
    specific first.  JavaScript's `trim`, `split` with a regular expression
    and `join` are written out by hand as functions. */
module EventNames {

  /** The white-space characters that `trim()` removes and `\s` matches in
      this model: the ASCII ones, no-break space, the two line and paragraph
      separators and the byte-order mark. */
  predicate IsSpace(c: char)
    ensures IsSpace(c) ==> c != ',' && c != ':'
  {
    c == ' ' || c == '\t' || c == '\n' || c == '\r' || c == '\U{000B}' || c == '\U{000C}'
    || c == '\U{00A0}' || c == '\U{2028}' || c == '\U{2029}' || c == '\U{FEFF}'
  }

  /** The two splitting patterns of the source: `/(?:,|\s)+/` between the
      events of a compound name and `/:+/` between namespace segments. */
  datatype Separator = ListSeparator | NamespaceSeparator

  predicate IsSep(sep: Separator, c: char) {
    match sep
    case ListSeparator => c == ',' || IsSpace(c)
    case NamespaceSeparator => c == ':'
  }

  predicate NoSep(sep: Separator, s: string) {
    forall k | 0 <= k < |s| :: !IsSep(sep, s[k])
  }

  predicate AllSpace(s: string) {
    forall k | 0 <= k < |s| :: IsSpace(s[k])
  }

  // ---------------------------------------------------------------------------
  // trim()

  /** `s.trim()`: white space removed from both ends, nothing else touched. */
  function Trim(s: string): (r: string)
    ensures r == [] || (!IsSpace(r[0]) && !IsSpace(r[|r| - 1]))
    ensures r == [] <==> AllSpace(s)
    ensures (s == [] || (!IsSpace(s[0]) && !IsSpace(s[|s| - 1]))) ==> r == s
    decreases |s|
  {
    if s == [] then []
    else if IsSpace(s[0]) then Trim(s[1..])
    else if IsSpace(s[|s| - 1]) then Trim(s[..|s| - 1])
    else s
  }

  /** What `Trim` keeps is one contiguous slice of its input, and everything
      it drops on either side is white space. */
  lemma {:induction false} TrimIsSlice(s: string) returns (i: nat, j: nat)
    ensures i <= j <= |s| && Trim(s) == s[i..j]
    ensures AllSpace(s[..i]) && AllSpace(s[j..])
    decreases |s|
  {
    if s == [] {
      i, j := 0, 0;
    } else if IsSpace(s[0]) {
      var i', j' := TrimIsSlice(s[1..]);
      i, j := i' + 1, j' + 1;
      SliceOfTail(s, i', j');
    } else if IsSpace(s[|s| - 1]) {
      var i', j' := TrimIsSlice(s[..|s| - 1]);
      i, j := i', j';
      SliceOfInit(s, i', j');
    } else {
      i, j := 0, |s|;
      assert s[0..|s|] == s;
    }
  }

  lemma SliceOfTail(s: string, i: nat, j: nat)
    requires s != [] && IsSpace(s[0]) && i <= j <= |s| - 1
    requires AllSpace(s[1..][..i]) && AllSpace(s[1..][j..])
    ensures s[1..][i..j] == s[i + 1..j + 1]
    ensures AllSpace(s[..i + 1]) && AllSpace(s[j + 1..])
  {
    assert s[..i + 1] == [s[0]] + s[1..][..i];
    assert s[j + 1..] == s[1..][j..];
  }

  lemma SliceOfInit(s: string, i: nat, j: nat)
    requires s != [] && IsSpace(s[|s| - 1]) && i <= j <= |s| - 1
    requires AllSpace(s[..|s| - 1][..i]) && AllSpace(s[..|s| - 1][j..])
    ensures s[..|s| - 1][i..j] == s[i..j]
    ensures AllSpace(s[..i]) && AllSpace(s[j..])
  {
    assert s[..i] == s[..|s| - 1][..i];
    assert s[j..] == s[..|s| - 1][j..] + [s[|s| - 1]];
  }

  // ---------------------------------------------------------------------------
  // split(/sep+/)

  /** Length of the separator-free run at the head of `s`. */
  function TokenLength(sep: Separator, s: string): (n: nat)
    ensures n <= |s| && NoSep(sep, s[..n])
    ensures n < |s| ==> IsSep(sep, s[n])
  {
    if s == [] || IsSep(sep, s[0]) then 0
    else
      var n := 1 + TokenLength(sep, s[1..]);
      assert s[..n] == [s[0]] + s[1..][..n - 1];
      n
  }

  /** Length of the separator run at the head of `s` (a greedy `sep+`). */
  function RunLength(sep: Separator, s: string): (n: nat)
    ensures n <= |s|
    ensures forall k | 0 <= k < n :: IsSep(sep, s[k])
    ensures n < |s| ==> !IsSep(sep, s[n])
  {
    if s == [] || !IsSep(sep, s[0]) then 0 else 1 + RunLength(sep, s[1..])
  }

  /** `s.split(/sep+/)`: the pieces between maximal separator runs, in order.
      The piece before the first run and the piece after the last are kept
      even when empty, so an empty string gives one empty piece. */
  function SplitRuns(sep: Separator, s: string): (r: seq<string>)
    ensures |r| >= 1
    decreases |s|
  {
    var n := TokenLength(sep, s);
    if n == |s| then [s]
    else [s[..n]] + SplitRuns(sep, s[n + RunLength(sep, s[n..])..])
  }

  /** One step of `SplitRuns`: the head token, then the pieces after the
      separator run that ends it. */
  lemma SplitRunsStep(sep: Separator, s: string, n: nat, m: nat)
    requires n == TokenLength(sep, s) < |s| && m == RunLength(sep, s[n..])
    ensures n + m <= |s| && SplitRuns(sep, s) == [s[..n]] + SplitRuns(sep, s[n + m..])
  {
  }

  /** No piece holds a separator. */
  lemma {:induction false} SplitRunsTokens(sep: Separator, s: string)
    ensures forall i | 0 <= i < |SplitRuns(sep, s)| :: NoSep(sep, SplitRuns(sep, s)[i])
    decreases |s|
  {
    var n := TokenLength(sep, s);
    if n == |s| {
      assert s[..n] == s;
    } else {
      var m := RunLength(sep, s[n..]);
      SplitRunsStep(sep, s, n, m);
      SplitRunsTokens(sep, s[n + m..]);
      NoSepCons(sep, s[..n], SplitRuns(sep, s[n + m..]));
    }
  }

  lemma NoSepCons(sep: Separator, head: string, tail: seq<string>)
    requires NoSep(sep, head)
    requires forall i | 0 <= i < |tail| :: NoSep(sep, tail[i])
    ensures forall i | 0 <= i < |[head] + tail| :: NoSep(sep, ([head] + tail)[i])
  {
    forall i | 0 < i < |[head] + tail| ensures NoSep(sep, ([head] + tail)[i]) {
      assert ([head] + tail)[i] == tail[i - 1];
    }
  }

  /** Only the first and the last piece can be empty, and the first only when
      `s` is empty or starts with a separator. */
  lemma {:induction false} SplitRunsNonEmpty(sep: Separator, s: string)
    ensures s == [] ==> SplitRuns(sep, s) == [[]]
    ensures s != [] && !IsSep(sep, s[0]) ==> SplitRuns(sep, s)[0] != []
    ensures forall i | 0 < i < |SplitRuns(sep, s)| - 1 :: SplitRuns(sep, s)[i] != []
    decreases |s|
  {
    var n := TokenLength(sep, s);
    if n < |s| {
      var m := RunLength(sep, s[n..]);
      var rest := s[n + m..];
      SplitRunsStep(sep, s, n, m);
      SplitRunsNonEmpty(sep, rest);
      assert rest != [] ==> rest[0] == s[n..][m];
      NonEmptyCons(s[..n], SplitRuns(sep, rest));
    }
  }

  /** Putting a piece in front keeps the inner pieces non-empty when the old
      first piece was. */
  lemma NonEmptyCons(head: string, tail: seq<string>)
    requires |tail| > 1 ==> tail[0] != []
    requires forall i | 0 < i < |tail| - 1 :: tail[i] != []
    ensures forall i | 0 < i < |[head] + tail| - 1 :: ([head] + tail)[i] != []
  {
    forall i | 0 < i < |[head] + tail| - 1 ensures ([head] + tail)[i] != [] {
      assert ([head] + tail)[i] == tail[i - 1];
    }
  }

  /** A string with no separator is not split. */
  lemma SplitRunsNoSep(sep: Separator, s: string)
    requires NoSep(sep, s)
    ensures SplitRuns(sep, s) == [s]
  {
  }

  /** The head token ends at `n` when no separator comes before `n` and one
      comes at `n`. */
  lemma TokenLengthIs(sep: Separator, s: string, n: nat)
    requires n < |s| && NoSep(sep, s[..n]) && IsSep(sep, s[n])
    ensures TokenLength(sep, s) == n
  {
    var t := TokenLength(sep, s);
    forall k | 0 <= k < n ensures !IsSep(sep, s[k]) {
      assert s[..n][k] == s[k];
    }
    forall k | 0 <= k < t ensures !IsSep(sep, s[k]) {
      assert s[..t][k] == s[k];
    }
  }

  /** The separator run that starts at `n` ends at `n + m`. */
  lemma RunLengthIs(sep: Separator, s: string, n: nat, m: nat)
    requires n + m <= |s|
    requires forall k | n <= k < n + m :: IsSep(sep, s[k])
    requires n + m == |s| || !IsSep(sep, s[n + m])
    ensures RunLength(sep, s[n..]) == m
  {
    var r := RunLength(sep, s[n..]);
    forall k | n <= k < n + r ensures IsSep(sep, s[k]) {
      assert s[n..][k - n] == s[k];
    }
    assert r < |s| - n ==> !IsSep(sep, s[n + r]) by {
      if r < |s| - n {
        assert s[n..][r] == s[n + r];
      }
    }
  }

  /** `split` cuts a string at each maximal separator run: a separator-free
      head, one whole run, and a rest that starts with no separator give the
      head and then the pieces of the rest. */
  lemma SplitRunsCons(sep: Separator, x: string, run: string, rest: string)
    requires NoSep(sep, x)
    requires run != [] && forall k | 0 <= k < |run| :: IsSep(sep, run[k])
    requires rest == [] || !IsSep(sep, rest[0])
    ensures SplitRuns(sep, x + run + rest) == [x] + SplitRuns(sep, rest)
  {
    var s := x + run + rest;
    var n, m := |x|, |run|;
    ThreeParts(x, run, rest);
    TokenLengthIs(sep, s, n);
    RunLengthIs(sep, s, n, m);
    SplitRunsStep(sep, s, n, m);
  }

  lemma ThreeParts(x: string, run: string, rest: string)
    ensures (x + run + rest)[..|x|] == x && (x + run + rest)[|x| + |run|..] == rest
    ensures forall k | |x| <= k < |x| + |run| :: (x + run + rest)[k] == run[k - |x|]
  {
  }

  /** The pieces concatenated. */
  function Concat(ts: seq<string>): string {
    if ts == [] then [] else ts[0] + Concat(ts[1..])
  }

  /** `s` with every separator character deleted. */
  function Strip(sep: Separator, s: string): string {
    if s == [] then [] else (if IsSep(sep, s[0]) then [] else [s[0]]) + Strip(sep, s[1..])
  }

  lemma {:induction false} StripAppend(sep: Separator, a: string, b: string)
    ensures Strip(sep, a + b) == Strip(sep, a) + Strip(sep, b)
  {
    if a == [] {
      assert a + b == b;
    } else {
      var head := if IsSep(sep, a[0]) then [] else [a[0]];
      assert (a + b)[0] == a[0] && (a + b)[1..] == a[1..] + b;
      calc {
        Strip(sep, a + b);
        head + Strip(sep, a[1..] + b);
        { StripAppend(sep, a[1..], b); }
        head + (Strip(sep, a[1..]) + Strip(sep, b));
        (head + Strip(sep, a[1..])) + Strip(sep, b);
      }
    }
  }

  lemma {:induction false} StripNoSep(sep: Separator, s: string)
    requires NoSep(sep, s)
    ensures Strip(sep, s) == s
  {
    if s != [] {
      StripNoSep(sep, s[1..]);
      assert s == [s[0]] + s[1..];
    }
  }

  lemma {:induction false} StripAllSep(sep: Separator, s: string)
    requires forall k | 0 <= k < |s| :: IsSep(sep, s[k])
    ensures Strip(sep, s) == []
  {
    if s != [] {
      StripAllSep(sep, s[1..]);
    }
  }

  /** Stripping a string that starts with a token and a separator run keeps
      the token and drops the run. */
  lemma StripTokenRun(sep: Separator, s: string, n: nat, m: nat)
    requires n + m <= |s| && NoSep(sep, s[..n])
    requires forall k | n <= k < n + m :: IsSep(sep, s[k])
    ensures Strip(sep, s) == s[..n] + Strip(sep, s[n + m..])
  {
    assert s == s[..n] + (s[n..n + m] + s[n + m..]);
    StripAppend(sep, s[..n], s[n..n + m] + s[n + m..]);
    StripAppend(sep, s[n..n + m], s[n + m..]);
    StripNoSep(sep, s[..n]);
    StripAllSep(sep, s[n..n + m]);
  }

  lemma ConcatCons(x: string, ts: seq<string>)
    ensures Concat([x] + ts) == x + Concat(ts)
  {
    assert ([x] + ts)[1..] == ts;
  }

  /** Splitting loses only the separators: the pieces put back together are
      the input with its separator characters deleted. */
  lemma {:induction false} SplitRunsConcat(sep: Separator, s: string)
    ensures Concat(SplitRuns(sep, s)) == Strip(sep, s)
    decreases |s|
  {
    var n := TokenLength(sep, s);
    if n == |s| {
      StripNoSep(sep, s);
    } else {
      var m := RunLength(sep, s[n..]);
      var tail := SplitRuns(sep, s[n + m..]);
      SplitRunsStep(sep, s, n, m);
      ConcatCons(s[..n], tail);
      SplitRunsConcat(sep, s[n + m..]);
      StripTokenRun(sep, s, n, m);
    }
  }

  // ---------------------------------------------------------------------------
  // join(':')

  /** `segs.join(':')`. */
  function Join(segs: seq<string>): (r: string)
    ensures segs != [] ==> segs[0] <= r
  {
    if |segs| == 0 then []
    else if |segs| == 1 then segs[0]
    else
      var init := segs[..|segs| - 1];
      var r := Join(init) + ":" + segs[|segs| - 1];
      assert init[0] == segs[0] && Join(init) <= r;
      r
  }

  lemma {:induction false} JoinCons(x: string, segs: seq<string>)
    requires segs != []
    ensures Join([x] + segs) == x + ":" + Join(segs)
    decreases |segs|
  {
    if |segs| > 1 {
      var init := segs[..|segs| - 1];
      assert ([x] + segs)[..|segs|] == [x] + init;
      JoinCons(x, init);
    }
  }

  predicate ColonPair(s: string, k: nat)
    requires k + 1 < |s|
  {
    s[k] == ':' && s[k + 1] == ':'
  }

  /** The name never holds "::". */
  predicate NoDoubleColon(s: string) {
    forall k: nat | k + 1 < |s| :: !ColonPair(s, k)
  }

  lemma NoDoubleColonSuffix(s: string, d: nat)
    requires NoDoubleColon(s) && d <= |s|
    ensures NoDoubleColon(s[d..])
  {
    var t := s[d..];
    forall k: nat | k + 1 < |t| ensures !ColonPair(t, k) {
      assert !ColonPair(s, d + k);
    }
  }

  /** In a name without doubled colons every colon run is one colon long. */
  lemma SingleColonRun(s: string, n: nat)
    requires NoDoubleColon(s) && n < |s| && s[n] == ':'
    ensures RunLength(NamespaceSeparator, s[n..]) == 1
  {
    assert s[n..][0] == ':';
    if n + 1 < |s| {
      assert !ColonPair(s, n);
      assert s[n..][1] == s[n + 1] != ':';
    }
  }

  /** Splitting on colon runs and joining with one colon gives the name back
      when it has no doubled colon. */
  lemma {:induction false} JoinSplitRoundTrip(s: string)
    requires NoDoubleColon(s)
    ensures Join(SplitRuns(NamespaceSeparator, s)) == s
    decreases |s|
  {
    var n := TokenLength(NamespaceSeparator, s);
    if n < |s| {
      NoDoubleColonSuffix(s, n + 1);
      JoinSplitRoundTrip(s[n + 1..]);
      JoinSplitStep(s, n);
    }
  }

  lemma JoinSplitStep(s: string, n: nat)
    requires NoDoubleColon(s) && n == TokenLength(NamespaceSeparator, s) < |s|
    requires Join(SplitRuns(NamespaceSeparator, s[n + 1..])) == s[n + 1..]
    ensures Join(SplitRuns(NamespaceSeparator, s)) == s
  {
    SingleColonRun(s, n);
    SplitRunsStep(NamespaceSeparator, s, n, 1);
    JoinCons(s[..n], SplitRuns(NamespaceSeparator, s[n + 1..]));
    ColonSplit(s, n);
  }

  lemma ColonSplit(s: string, n: nat)
    requires n < |s| && s[n] == ':'
    ensures s == s[..n] + ":" + s[n + 1..]
  {
  }

  // ---------------------------------------------------------------------------
  // getEventList

  /** `getEventList(events)`: the tokens of a compound name.  There is
      always one; a name of nothing but white space gives the empty name. */
  function EventList(name: string): (r: seq<string>)
    ensures |r| >= 1
    ensures AllSpace(name) ==> r == [""]
  {
    SplitRunsNonEmpty(ListSeparator, Trim(name));
    SplitRuns(ListSeparator, Trim(name))
  }

  /** No token holds a comma or white space, and only the first and the last
      can be empty (when the trimmed name starts or ends with a comma). */
  lemma EventListTokens(name: string)
    ensures forall i | 0 <= i < |EventList(name)| :: NoSep(ListSeparator, EventList(name)[i])
    ensures forall i | 0 < i < |EventList(name)| - 1 :: EventList(name)[i] != []
  {
    SplitRunsTokens(ListSeparator, Trim(name));
    SplitRunsNonEmpty(ListSeparator, Trim(name));
  }

  /** A name that holds no comma or white space inside is one token: itself
      without the white space around it. */
  lemma EventListSingle(name: string)
    requires NoSep(ListSeparator, Trim(name))
    ensures EventList(name) == [Trim(name)]
  {
    SplitRunsNoSep(ListSeparator, Trim(name));
  }

  /** A name with no comma or white space at all is its own only token. */
  lemma EventListOfToken(name: string)
    requires NoSep(ListSeparator, name)
    ensures Trim(name) == name && EventList(name) == [name]
  {
    assert name == [] || (!IsSpace(name[0]) && !IsSpace(name[|name| - 1])) by {
      if name != [] {
        assert !IsSep(ListSeparator, name[0]) && !IsSep(ListSeparator, name[|name| - 1]);
      }
    }
    EventListSingle(name);
  }

  /** Nothing but separators is lost: the tokens put together are the trimmed
      name with its commas and white space deleted. */
  lemma EventListConcat(name: string)
    ensures Concat(EventList(name)) == Strip(ListSeparator, Trim(name))
  {
    SplitRunsConcat(ListSeparator, Trim(name));
  }

  // ---------------------------------------------------------------------------
  // getNamespaces

  /** The colon-separated segments of an event name. */
  function Segments(name: string): (r: seq<string>)
    ensures |r| >= 1
  {
    SplitRuns(NamespaceSeparator, Trim(name))
  }

  /** The prefixes of `segs`, longest first, each joined with ':'. */
  function Chain(segs: seq<string>): (r: seq<string>)
    ensures |r| == |segs|
    ensures segs != [] ==> r[0] == Join(segs) && r[|r| - 1] == segs[0]
  {
    if segs == [] then []
    else
      var init := segs[..|segs| - 1];
      assert init != [] ==> init[0] == segs[0];
      [Join(segs)] + Chain(init)
  }

  /** Entry `k` of the chain joins the first `n - k` of the `n` segments. */
  lemma {:induction false} ChainAt(segs: seq<string>, k: nat)
    requires k < |segs|
    ensures Chain(segs)[k] == Join(segs[..|segs| - k])
  {
    if k == 0 {
      assert segs[..|segs|] == segs;
    } else {
      var init := segs[..|segs| - 1];
      ChainAt(init, k - 1);
      assert init[..|init| - (k - 1)] == segs[..|segs| - k];
    }
  }

  /** `getNamespaces(event)`'s result: the namespaces of an event name, most
      specific first. */
  function Namespaces(name: string): (r: seq<string>)
    ensures |r| == |Segments(name)| >= 1
    ensures r[0] == Join(Segments(name))
    ensures r[|r| - 1] == Segments(name)[0]
  {
    Chain(Segments(name))
  }

  /** Entry `k` of `getNamespaces` joins the first `n - k` of the `n`
      segments with single colons. */
  lemma NamespacesAt(name: string, k: nat)
    requires k < |Namespaces(name)|
    ensures Namespaces(name)[k] == Join(Segments(name)[..|Segments(name)| - k])
  {
    ChainAt(Segments(name), k);
  }

  /** Each namespace after the first is the one before it with its last
      segment (and the colon before it) dropped, so a proper prefix of it. */
  lemma NamespaceChain(name: string, k: nat)
    requires k + 1 < |Namespaces(name)|
    ensures
      var r, segs := Namespaces(name), Segments(name);
      r[k] == r[k + 1] + ":" + segs[|segs| - 1 - k]
      && |r[k + 1]| < |r[k]| && r[k + 1] == r[k][..|r[k + 1]|]
  {
    var segs := Segments(name);
    var n := |segs|;
    ChainAt(segs, k);
    ChainAt(segs, k + 1);
    assert segs[..n - k][..n - k - 1] == segs[..n - k - 1];
  }

  /** A name without a colon is its own and only namespace (trimmed). */
  lemma NamespacesNoColon(name: string)
    requires NoSep(NamespaceSeparator, name)
    ensures Namespaces(name) == [Trim(name)]
  {
    var i, j := TrimIsSlice(name);
    assert NoSep(NamespaceSeparator, Trim(name)) by {
      forall k | 0 <= k < |Trim(name)| ensures Trim(name)[k] == name[i + k] { }
    }
    SplitRunsNoSep(NamespaceSeparator, Trim(name));
  }

  /** The most specific namespace is the trimmed name itself unless the name
      doubles a colon. */
  lemma NamespacesFirstIsName(name: string)
    requires NoDoubleColon(Trim(name))
    ensures Namespaces(name)[0] == Trim(name)
  {
    JoinSplitRoundTrip(Trim(name));
  }

  /** `getNamespaces(event)`: a loop counting `i` down from the number of
      segments to 1, pushing the first `i` segments joined with ':'. */
  method GetNamespaces(name: string) returns (namespaces: seq<string>)
    ensures namespaces == Namespaces(name)
  {
    namespaces := [];
    var segs := Segments(name);
    var i := |segs|;
    assert segs[..i] == segs;
    while i >= 1
      invariant 0 <= i <= |segs|
      invariant namespaces + Chain(segs[..i]) == Chain(segs)
    {
      ChainStep(segs, i);
      namespaces := namespaces + [Join(segs[..i])];
      i := i - 1;
    }
  }

  lemma ChainStep(segs: seq<string>, i: nat)
    requires 1 <= i <= |segs|
    ensures Chain(segs[..i]) == [Join(segs[..i])] + Chain(segs[..i - 1])
  {
    assert segs[..i][..i - 1] == segs[..i - 1];
  }
}
