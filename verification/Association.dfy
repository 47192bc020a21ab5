/** Which node entries belong to which agent: the simple form, the one-pass index, and the laws between them. */
module Association {
  import opened Wrappers
  import opened Sequences
  import opened Spiffe
  import opened Text

  datatype Selector = Selector(kind: string, value: string)

  datatype Agent = Agent(id: SpiffeId, selectors: seq<Selector>)

  datatype Entry = Entry(spiffeId: SpiffeId, parentId: SpiffeId, selectors: seq<Selector>)

  function FormatSelector(s: Selector): string {
    s.kind + ":" + s.value
  }

  /** The text before the first colon and the text after it, if the first is not empty. */
  function ParseSelector(x: string): Option<Selector> {
    match IndexOf(x, ':')
    case None => None
    case Some(k) => if k > 0 then Some(Selector(x[..k], x[k + 1..])) else None
  }

  /** The parsed selector, with an empty type and value for text that is none. */
  function SelectorOf(x: string): Selector {
    if ParseSelector(x).Some? then ParseSelector(x).value else Selector("", "")
  }

  lemma ParseSelectorSplits(x: string)
    ensures ParseSelector(x).Some? ==>
      var s := ParseSelector(x).value; FormatSelector(s) == x && s.kind != "" && ':' !in s.kind
  {
  }

  /** Formatting and parsing give a selector back exactly when its type is non-empty and colon-free. */
  lemma ParseAfterFormat(s: Selector)
    ensures ParseSelector(FormatSelector(s)) == Some(s) <==> s.kind != "" && ':' !in s.kind
  {
    var x := FormatSelector(s);
    ParseSelectorSplits(x);
    if s.kind != "" && ':' !in s.kind {
      assert x[..|s.kind|] == s.kind && x[|s.kind| + 1..] == s.value;
      IndexOfIs(x, ':', |s.kind|);
    }
  }

  function Formats(selectors: seq<Selector>): set<string> {
    set s | s in selectors :: FormatSelector(s)
  }

  const SERVER_PATH := "/spire/server"

  predicate IsNode(e: Entry) {
    e.parentId.path == Some(SERVER_PATH)
  }

  /** Node entries are those whose parent is the server of its trust domain. */
  lemma NodeIsBelowServer(e: Entry, td: string, path: string)
    requires e.parentId == Of(td, path) && td != "" && '/' !in td
    ensures IsNode(e) <==> Print(e.parentId) == "spiffe://" + td + "/spire/server"
  {
    assert td[|td| - 1] in td;
    PrintExactly(td, path);
    var printed, text := "spiffe://" + td + path, "spiffe://" + td + "/spire/server";
    assert printed[|"spiffe://"| + |td|..] == path && text[|"spiffe://"| + |td|..] == "/spire/server";
  }

  predicate Covers(a: Agent, e: Entry) {
    Formats(e.selectors) <= Formats(a.selectors)
  }

  function CoveredBy(a: Agent): Entry -> bool {
    (e: Entry) => Covers(a, e)
  }

  function Nodes(entries: seq<Entry>): seq<Entry> {
    Filter(entries, IsNode)
  }

  /** Two types of which one, followed by a colon, begins the other: "k" and "k:a", say. */
  predicate Confusable(kind: string, kind': string) {
    kind != kind' && (kind + ":" <= kind' + ":" || kind' + ":" <= kind + ":")
  }

  lemma ConfusedValues(kind: string, kind': string) returns (v: string, v': string)
    requires Confusable(kind, kind')
    ensures FormatSelector(Selector(kind, v)) == FormatSelector(Selector(kind', v'))
  {
    var x, x' := kind + ":", kind' + ":";
    if x <= x' {
      v, v' := x'[|x|..], "";
      assert x + v == x';
    } else {
      v, v' := "", x[|x'|..];
      assert x' + v' == x;
    }
  }

  /** Different selectors are formatted differently, as long as their types are not confusable. */
  lemma FormatIsInjective(s: Selector, s': Selector)
    requires FormatSelector(s) == FormatSelector(s')
    ensures s == s' || Confusable(s.kind, s'.kind)
  {
    var x, n, n' := FormatSelector(s), |s.kind| + 1, |s'.kind| + 1;
    assert x[..n] == s.kind + ":" && x[n..] == s.value;
    assert x[..n'] == s'.kind + ":" && x[n'..] == s'.value;
    assert s.kind == (s.kind + ":")[..n - 1] && s'.kind == (s'.kind + ":")[..n' - 1];
  }

  /** Two types can stand in one formatted text exactly when they are confusable. */
  lemma TypesConfusedExactly(kind: string, kind': string)
    requires kind != kind'
    ensures Confusable(kind, kind') <==>
            exists v, v' :: FormatSelector(Selector(kind, v)) == FormatSelector(Selector(kind', v'))
  {
    if v, v' :| FormatSelector(Selector(kind, v)) == FormatSelector(Selector(kind', v')) {
      FormatIsInjective(Selector(kind, v), Selector(kind', v'));
    }
    if Confusable(kind, kind') {
      var v, v' := ConfusedValues(kind, kind');
    }
  }

  lemma ColonFreeIsNotConfusable(kind: string, kind': string)
    requires ':' !in kind && ':' !in kind'
    ensures !Confusable(kind, kind')
  {
    var x, x' := kind + ":", kind' + ":";
    assert x[|kind|] == ':' && x'[|kind'|] == ':';
    assert x[..|kind|] == kind && x'[..|kind'|] == kind';
    assert |kind| < |kind'| ==> x'[|kind|] in kind';
    assert |kind'| < |kind| ==> x[|kind'|] in kind;
  }

  ghost predicate HasAll(a: Agent, e: Entry) {
    forall s | s in e.selectors :: s in a.selectors
  }

  /** Without confusable types, comparing formatted selectors is comparing selectors. */
  lemma CoversIsInclusion(a: Agent, e: Entry)
    requires forall s, s' | s in a.selectors && s' in e.selectors :: !Confusable(s.kind, s'.kind)
    ensures Covers(a, e) <==> HasAll(a, e)
  {
    if Covers(a, e) {
      forall s | s in e.selectors ensures s in a.selectors {
        assert FormatSelector(s) in Formats(a.selectors);
        var s' :| s' in a.selectors && FormatSelector(s') == FormatSelector(s);
        FormatIsInjective(s', s);
      }
    }
  }

  ghost predicate TypesAmong(selectors: seq<Selector>, kinds: set<string>) {
    forall s | s in selectors :: s.kind in kinds
  }

  ghost predicate CoverageIsInclusion(kinds: set<string>) {
    forall a: Agent, e: Entry | TypesAmong(a.selectors, kinds) && TypesAmong(e.selectors, kinds) ::
      Covers(a, e) <==> HasAll(a, e)
  }

  /** For selectors of given types coverage means having the selectors exactly when no two types are confusable. */
  lemma CoverageExactly(kinds: set<string>)
    ensures CoverageIsInclusion(kinds) <==> forall k, k' | k in kinds && k' in kinds :: !Confusable(k, k')
  {
    if forall k, k' | k in kinds && k' in kinds :: !Confusable(k, k') {
      forall a: Agent, e: Entry | TypesAmong(a.selectors, kinds) && TypesAmong(e.selectors, kinds)
        ensures Covers(a, e) <==> HasAll(a, e)
      {
        CoversIsInclusion(a, e);
      }
    }
    forall k, k' | k in kinds && k' in kinds && Confusable(k, k') ensures !CoverageIsInclusion(kinds) {
      var v, v' := ConfusedValues(k, k');
      var a := Agent(SpiffeId(None, None), [Selector(k, v)]);
      var e := Entry(SpiffeId(None, None), SpiffeId(None, None), [Selector(k', v')]);
      assert Covers(a, e) && e.selectors[0] in e.selectors && e.selectors[0] !in a.selectors;
      assert TypesAmong(a.selectors, kinds) && TypesAmong(e.selectors, kinds);
    }
  }

  /** An agent can cover an entry whose selector it does not have. */
  lemma ColonsConfuseCoverage(id: SpiffeId)
    ensures Confusable("k", "k:a")
    ensures var a, e := Agent(id, [Selector("k", "a:b")]), Entry(id, id, [Selector("k:a", "b")]);
      Covers(a, e) && e.selectors[0] !in a.selectors
  {
    assert FormatSelector(Selector("k", "a:b")) == FormatSelector(Selector("k:a", "b"));
    assert "k" + ":" <= "k:a" + ":";
  }

  /** The simple form: the node entries whose selectors the agent has. */
  function AgentEntries(a: Agent, entries: seq<Entry>): seq<Entry> {
    Filter(Nodes(entries), CoveredBy(a))
  }

  function IdOf(a: Agent): string {
    Print(a.id)
  }

  // ----- The one-pass index

  /** The agents of one id that cover e: each of them pushes e once. */
  function Pushes(id: string, e: Entry): Agent -> bool {
    (a: Agent) => IdOf(a) == id && Covers(a, e)
  }

  function Copies(e: Entry, n: nat): seq<Entry> {
    seq(n, _ => e)
  }

  function PushedBy(agents: seq<Agent>, id: string): Entry -> seq<Entry> {
    (e: Entry) => Copies(e, |Filter(agents, Pushes(id, e))|)
  }

  /** The list of an id: the node entries in order, each once per agent of that id covering it. */
  function IndexList(agents: seq<Agent>, id: string, entries: seq<Entry>): seq<Entry> {
    FlatMap(Nodes(entries), PushedBy(agents, id))
  }

  function Index(agents: seq<Agent>, entries: seq<Entry>): map<string, seq<Entry>> {
    map id | id in (set a | a in agents :: IdOf(a)) :: IndexList(agents, id, entries)
  }

  ghost predicate DistinctIds(agents: seq<Agent>) {
    forall i, j | 0 <= i < j < |agents| :: IdOf(agents[i]) != IdOf(agents[j])
  }

  /** No other agent of the same id covers a node entry. */
  ghost predicate NoNamesake(agents: seq<Agent>, i: nat, entries: seq<Entry>)
    requires i < |agents|
  {
    forall j, e | 0 <= j < |agents| && j != i && e in Nodes(entries) :: !Pushes(IdOf(agents[i]), e)(agents[j])
  }

  lemma FilterAround<T>(before: seq<T>, x: T, after: seq<T>, p: T -> bool)
    ensures Filter(before + [x] + after, p) == Filter(before, p) + (if p(x) then [x] else []) + Filter(after, p)
  {
    hide Filter;
    FilterAppend(before + [x], after, p);
    FilterAppend(before, [x], p);
    FilterOne(x, p);
  }

  lemma SplitAt<T>(xs: seq<T>, i: nat)
    requires i < |xs|
    ensures xs[..i] + [xs[i]] + xs[i + 1..] == xs
  {
  }

  lemma FilterSplit<T>(xs: seq<T>, p: T -> bool, i: nat)
    requires i < |xs|
    ensures Filter(xs, p) == Filter(xs[..i], p) + (if p(xs[i]) then [xs[i]] else []) + Filter(xs[i + 1..], p)
  {
    hide Filter;
    FilterAround(xs[..i], xs[i], xs[i + 1..], p);
    SplitAt(xs, i);
  }

  /** An agent covering e pushes it at least once; exactly once when no namesake covers e too. */
  lemma PushCount(agents: seq<Agent>, i: nat, e: Entry)
    requires i < |agents|
    ensures var id := IdOf(agents[i]);
      var n, mine := |Filter(agents, Pushes(id, e))|, if Covers(agents[i], e) then 1 else 0;
      && n >= mine
      && (n == mine <==> forall j | 0 <= j < |agents| && j != i :: !Pushes(id, e)(agents[j]))
  {
    var p := Pushes(IdOf(agents[i]), e);
    var before, after := agents[..i], agents[i + 1..];
    FilterSplit(agents, p, i);
    hide Filter;
    if forall j | 0 <= j < |agents| && j != i :: !p(agents[j]) {
      FilterNone(before, p);
      FilterNone(after, p);
    } else {
      var j :| 0 <= j < |agents| && j != i && p(agents[j]);
      if j < i {
        assert before[j] in before;
        assert agents[j] in Filter(before, p);
      } else {
        assert after[j - i - 1] in after;
        assert agents[j] in Filter(after, p);
      }
    }
  }

  /** What one agent alone pushes for e. */
  function Kept(a: Agent): Entry -> seq<Entry> {
    (e: Entry) => if Covers(a, e) then [e] else []
  }

  lemma {:induction false} FilterIsFlatMap(a: Agent, es: seq<Entry>)
    ensures Filter(es, CoveredBy(a)) == FlatMap(es, Kept(a))
  {
    if es == [] {
    } else {
      FilterIsFlatMap(a, es[1..]);
    }
  }

  /** Pushing at least as much for every entry gives a list at least as long; the same one only if none got more. */
  lemma {:induction false} PushedAtLeast(agents: seq<Agent>, i: nat, es: seq<Entry>)
    requires i < |agents|
    ensures var f, g := PushedBy(agents, IdOf(agents[i])), Kept(agents[i]);
      && |FlatMap(es, f)| >= |FlatMap(es, g)|
      && (FlatMap(es, f) == FlatMap(es, g) <==>
          forall j, e | 0 <= j < |agents| && j != i && e in es :: !Pushes(IdOf(agents[i]), e)(agents[j]))
  {
    if es == [] {
    } else {
      var f, g, e := PushedBy(agents, IdOf(agents[i])), Kept(agents[i]), es[0];
      PushCount(agents, i, e);
      PushedAtLeast(agents, i, es[1..]);
      assert |f(e)| >= |g(e)|;
      assert |f(e)| == |g(e)| ==> f(e) == g(e);
      assert forall x :: x in es <==> x == e || x in es[1..];
      if FlatMap(es, f) == FlatMap(es, g) {
        assert |f(e)| == |g(e)|;
        assert FlatMap(es, f)[|f(e)|..] == FlatMap(es[1..], f) && FlatMap(es, g)[|f(e)|..] == FlatMap(es[1..], g);
      }
    }
  }

  /** The index agrees with the simple form, as a sequence, exactly for the agents without a covering namesake. */
  lemma IndexMatchesSimpleForm(agents: seq<Agent>, i: nat, entries: seq<Entry>)
    requires i < |agents|
    ensures IdOf(agents[i]) in Index(agents, entries)
    ensures Index(agents, entries)[IdOf(agents[i])] == AgentEntries(agents[i], entries) <==>
            NoNamesake(agents, i, entries)
  {
    assert agents[i] in agents;
    FilterIsFlatMap(agents[i], Nodes(entries));
    PushedAtLeast(agents, i, Nodes(entries));
  }

  /** With distinct ids the index is the simple form for every agent. */
  lemma IndexMatchesForDistinctIds(agents: seq<Agent>, i: nat, entries: seq<Entry>)
    requires i < |agents| && DistinctIds(agents)
    ensures IdOf(agents[i]) in Index(agents, entries)
    ensures Index(agents, entries)[IdOf(agents[i])] == AgentEntries(agents[i], entries)
  {
    IndexMatchesSimpleForm(agents, i, entries);
    forall j, e | 0 <= j < |agents| && j != i && e in Nodes(entries)
      ensures !Pushes(IdOf(agents[i]), e)(agents[j])
    {
      assert IdOf(agents[if i < j then i else j]) != IdOf(agents[if i < j then j else i]);
    }
  }

  /** An entry is in an id's list exactly when it is a node entry that some agent of that id covers. */
  lemma InIndexList(agents: seq<Agent>, id: string, entries: seq<Entry>, e: Entry)
    ensures e in IndexList(agents, id, entries) <==>
            e in entries && IsNode(e) && exists a | a in agents :: Pushes(id, e)(a)
  {
    var f := PushedBy(agents, id);
    if e in IndexList(agents, id, entries) {
      var x :| x in Nodes(entries) && e in f(x);
      assert e == x && f(x) != [];
      var a := Filter(agents, Pushes(id, e))[0];
      assert a in agents && Pushes(id, e)(a);
    }
    if e in entries && IsNode(e) && exists a | a in agents :: Pushes(id, e)(a) {
      var a :| a in agents && Pushes(id, e)(a);
      assert a in Filter(agents, Pushes(id, e));
      assert f(e)[0] == e;
      assert e in Nodes(entries) && e in f(e);
    }
  }

  // ----- The canonical agent of an entry

  function Covering(e: Entry): Agent -> bool {
    (a: Agent) => Covers(a, e)
  }

  /** The id of the first agent that covers the entry, "" if none does. */
  function CanonicalId(e: Entry, agents: seq<Agent>): string {
    var covering := Filter(agents, Covering(e));
    if |covering| > 0 then IdOf(covering[0]) else ""
  }

  /** The dictionary has a list under this id, and the entry is in it. */
  predicate Holds(index: map<string, seq<Entry>>, id: string, e: Entry) {
    id in index && e in index[id]
  }

  lemma IndexHolds(agents: seq<Agent>, entries: seq<Entry>, id: string, e: Entry)
    ensures Holds(Index(agents, entries), id, e) <==>
            e in entries && IsNode(e) && exists a | a in agents :: Pushes(id, e)(a)
  {
    InIndexList(agents, id, entries, e);
  }

  /** No agent before the canonical one covers the entry. */
  lemma {:induction false} CanonicalIsFirst(e: Entry, agents: seq<Agent>) returns (i: nat)
    requires exists a | a in agents :: Covers(a, e)
    ensures i < |agents| && Covers(agents[i], e) && CanonicalId(e, agents) == IdOf(agents[i])
    ensures forall j | 0 <= j < i :: !Covers(agents[j], e)
  {
    if Covers(agents[0], e) {
      i := 0;
    } else {
      var a :| a in agents && Covers(a, e);
      assert a in agents[1..];
      var k := CanonicalIsFirst(e, agents[1..]);
      i := k + 1;
    }
  }

  /** The look-up is dual to the index: a node entry has a covering agent exactly when some list holds it. */
  lemma CanonicalIsDual(e: Entry, agents: seq<Agent>, entries: seq<Entry>)
    requires e in entries && IsNode(e)
    ensures (exists a | a in agents :: Covers(a, e)) <==> (exists id :: Holds(Index(agents, entries), id, e))
    ensures (exists a | a in agents :: Covers(a, e)) ==>
      Holds(Index(agents, entries), CanonicalId(e, agents), e)
  {
    hide Index;
    hide Formats;
    if exists a | a in agents :: Covers(a, e) {
      var i := CanonicalIsFirst(e, agents);
      assert Pushes(IdOf(agents[i]), e)(agents[i]) && agents[i] in agents;
      IndexHolds(agents, entries, CanonicalId(e, agents), e);
    }
    if id :| Holds(Index(agents, entries), id, e) {
      IndexHolds(agents, entries, id, e);
      var a :| a in agents && Pushes(id, e)(a);
      assert Covers(a, e);
    }
  }
}
