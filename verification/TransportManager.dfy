/**
 The table of DNS servers: how servers are added, which one is the default, and the
 dependency-ordered start with its diagnosis of what went wrong.
 */
module TransportManager {
  import opened Wrappers

  datatype TransportType = FakeIP | Local | Other(name: string)

  /** A server object; `id` tells objects apart that were made alike. */
  datatype Transport = Transport(id: nat, tag: string, kind: TransportType, dependencies: seq<string>)

  type Table = map<string, Transport>

  datatype StartError =
    | StartFailed(tag: string)                              // the server's own Start failed
    | Circular(path: seq<string>)                           // printed joined by " -> "
    | DependencyNotFound(dependency: string, server: string)
    | DefaultNotFound(tag: string)
    | FallbackFailed
    | Panics                                                // no server is left to diagnose

  // ----- The dependency relation -----

  ghost predicate IsPath(table: Table, p: seq<string>) {
    forall k :: 0 <= k < |p| - 1 ==> p[k] in table && p[k + 1] in table[p[k]].dependencies
  }

  ghost predicate IsCycle(table: Table, p: seq<string>) {
    |p| >= 2 && p[0] == p[|p| - 1] && IsPath(table, p)
  }

  ghost predicate Acyclic(table: Table) {
    forall p :: !IsCycle(table, p)
  }

  ghost predicate DependenciesPresent(table: Table) {
    forall tag, d :: tag in table && d in table[tag].dependencies ==> d in table
  }

  ghost predicate Distinct(tags: seq<string>) {
    forall i, j :: 0 <= i < j < |tags| ==> tags[i] != tags[j]
  }

  ghost predicate DistinctTags(transports: seq<Transport>) {
    forall i, j :: 0 <= i < j < |transports| ==> transports[i].tag != transports[j].tag
  }

  /** The list holds exactly the servers of the table, each once. */
  ghost predicate Agree(transports: seq<Transport>, table: Table) {
    && DistinctTags(transports)
    && (forall i :: 0 <= i < |transports| ==>
          transports[i].tag in table && table[transports[i].tag] == transports[i])
    && (forall tag :: tag in table ==> table[tag] in transports && table[tag].tag == tag)
  }

  /**
   The list holds the servers of the table, and perhaps others of the same tag where the one in
   the table depends on nothing. That is what adding the fallback server can lead to.
   */
  ghost predicate Covers(transports: seq<Transport>, table: Table) {
    && (forall i :: 0 <= i < |transports| ==>
          var tag := transports[i].tag;
          tag in table && (table[tag] == transports[i] || table[tag].dependencies == []))
    && (forall tag :: tag in table ==> table[tag] in transports && table[tag].tag == tag)
  }

  /** Every server is preceded by everything it depends on. */
  ghost predicate InDependencyOrder(table: Table, order: seq<string>) {
    forall k :: 0 <= k < |order| ==>
      order[k] in table && forall d :: d in table[order[k]].dependencies ==> d in order[..k]
  }

  // ----- Diagnosis -----

  /** common.Find on the dependencies: the zero string when every dependency has started. */
  function FirstUnstarted(dependencies: seq<string>, started: set<string>): (r: string)
    ensures (exists d :: d in dependencies && d !in started) ==> r in dependencies && r !in started
  {
    if dependencies == [] then ""
    else if dependencies[0] !in started then dependencies[0]
    else FirstUnstarted(dependencies[1..], started)
  }

  /** No unstarted server of the table can start. */
  ghost predicate Stuck(table: Table, started: set<string>) {
    forall tag :: tag in table && tag !in started ==>
      exists d :: d in table[tag].dependencies && d !in started
  }

  /** What a diagnosis has to mean for the table it was made from. */
  ghost predicate Truthful(table: Table, e: StartError) {
    match e
    case Circular(path) =>
      |path| >= 2 && exists k :: 0 <= k < |path| - 1 && IsCycle(table, path[k..])
    case DependencyNotFound(dependency, server) =>
      server in table && dependency in table[server].dependencies && dependency !in table
    case _ => false
  }

  /** lintTransport: `tree` is the path walked so far, ending in `current`. */
  function Lint(table: Table, started: set<string>, tree: seq<string>, current: string): (e: StartError)
    requires Stuck(table, started)
    requires |tree| > 0 && tree[|tree| - 1] == current && IsPath(table, tree)
    requires current in table && current !in started
    ensures Truthful(table, e)
    ensures e.Circular? ==> tree <= e.path
    decreases table.Keys - set tag | tag in tree
  {
    var problem := FirstUnstarted(table[current].dependencies, started);
    assert problem in table[current].dependencies && problem !in started;
    PathGoesOn(table, tree, problem);
    if problem in tree then
      PathCloses(table, tree, problem);
      Circular(tree + [problem])
    else if problem !in table then
      DependencyNotFound(problem, current)
    else
      StrictlyFewer(table, tree, problem);
      Lint(table, started, tree + [problem], problem)
  }

  lemma PathGoesOn(table: Table, tree: seq<string>, next: string)
    requires IsPath(table, tree) && |tree| > 0
    requires tree[|tree| - 1] in table && next in table[tree[|tree| - 1]].dependencies
    ensures IsPath(table, tree + [next])
  {
    var walked := tree + [next];
    assert forall k :: 0 <= k < |tree| ==> walked[k] == tree[k];
  }

  /** A path that comes back to where it has been ends in a cycle. */
  lemma PathCloses(table: Table, tree: seq<string>, next: string)
    requires IsPath(table, tree + [next]) && next in tree
    ensures Truthful(table, Circular(tree + [next]))
  {
    var walked := tree + [next];
    var k :| 0 <= k < |tree| && tree[k] == next;
    assert IsPath(table, walked[k..]);
    assert IsCycle(table, walked[k..]);
  }

  lemma StrictlyFewer(table: Table, tree: seq<string>, next: string)
    requires next in table && next !in tree
    ensures (table.Keys - set tag | tag in tree + [next]) < (table.Keys - set tag | tag in tree)
  {
    assert next in table.Keys - set tag | tag in tree;
    assert next in tree + [next];
  }

  // ----- Lemmas about starting -----

  function Tags(transports: seq<Transport>): set<string> {
    set t | t in transports :: t.tag
  }

  lemma {:induction false} TagCount(transports: seq<Transport>)
    ensures |Tags(transports)| <= |transports|
    ensures |Tags(transports)| == |transports| <==> DistinctTags(transports)
  {
    if transports != [] {
      var rest, last := transports[..|transports| - 1], transports[|transports| - 1];
      TagCount(rest);
      assert transports == rest + [last];
      assert Tags(transports) == Tags(rest) + {last.tag};
      OneMoreTag(rest, last);
    }
  }

  lemma OneMoreTag(transports: seq<Transport>, last: Transport)
    ensures DistinctTags(transports + [last]) <==> DistinctTags(transports) && last.tag !in Tags(transports)
  {
    var all := transports + [last];
    assert forall i :: 0 <= i < |transports| ==> all[i] == transports[i];
    if last.tag in Tags(transports) {
      var t :| t in transports && t.tag == last.tag;
      var i :| 0 <= i < |transports| && transports[i] == t;
      assert all[i].tag == all[|transports|].tag;
    } else if DistinctTags(transports) {
      assert forall i :: 0 <= i < |transports| ==> transports[i].tag in Tags(transports);
    }
  }

  lemma SubsetOfSameSize<T>(a: set<T>, b: set<T>)
    requires a <= b && |a| == |b|
    ensures a == b
  {
    assert |b - a| == |b| - |a|;
  }

  /** A table whose servers can be listed in dependency order has no cycle. */
  lemma OrderedTableIsAcyclic(table: Table, order: seq<string>)
    requires InDependencyOrder(table, order)
    requires forall tag :: tag in table ==> tag in order
    ensures DependenciesPresent(table) && Acyclic(table)
  {
    forall tag, d | tag in table && d in table[tag].dependencies
      ensures d in table
    {
      var k :| 0 <= k < |order| && order[k] == tag;
      assert d in order[..k];
    }
    forall p ensures !IsCycle(table, p) {
      if IsCycle(table, p) {
        var k := FirstPosition(order, p[0]);
        var m := Descend(table, order, p, |p| - 1, k);
      }
    }
  }

  /** Following dependencies for one step or more leads to an earlier position of the order. */
  lemma {:induction false} Descend(table: Table, order: seq<string>, p: seq<string>, n: nat, k: nat) returns (m: nat)
    requires InDependencyOrder(table, order) && IsPath(table, p)
    requires 0 < n < |p| && k < |order| && order[k] == p[0]
    ensures m < k && order[m] == p[n]
  {
    var d := p[1];
    assert d in order[..k];
    m :| 0 <= m < k && order[m] == d;
    if n > 1 {
      assert IsPath(table, p[1..]);
      m := Descend(table, order, p[1..], n - 1, m);
    }
  }

  /** Where `tag` first stands in the order. */
  lemma {:induction false} FirstPosition(order: seq<string>, tag: string) returns (k: nat)
    requires tag in order
    ensures k < |order| && order[k] == tag && tag !in order[..k]
  {
    if order[0] == tag {
      k := 0;
    } else {
      k := FirstPosition(order[1..], tag);
      assert order[..k + 1] == [order[0]] + order[1..][..k];
      k := k + 1;
    }
  }

  // ----- Starting -----

  /** What the Start calls made so far satisfy, `order` being the calls in sequence. */
  ghost predicate Progress(table: Table, failing: set<string>, started: set<string>, order: seq<string>) {
    && started == (set tag | tag in order)
    && Distinct(order)
    && InDependencyOrder(table, order)
    && started <= table.Keys
    && started !! failing
  }

  ghost predicate CannotStart(transport: Transport, started: set<string>) {
    transport.tag in started || exists d :: d in transport.dependencies && d !in started
  }

  lemma StartOne(table: Table, failing: set<string>, started: set<string>, order: seq<string>, tag: string)
    requires Progress(table, failing, started, order)
    requires tag in table && tag !in started
    requires forall d :: d in table[tag].dependencies ==> d in started
    ensures Distinct(order + [tag]) && InDependencyOrder(table, order + [tag])
    ensures tag !in failing ==> Progress(table, failing, started + {tag}, order + [tag])
  {
    var next := order + [tag];
    forall k | 0 <= k < |next|
      ensures next[k] in table && forall d :: d in table[next[k]].dependencies ==> d in next[..k]
    {
      if k < |order| {
        assert order[k] in table;
        assert next[..k] == order[..k];
      } else {
        assert next[..k] == order;
      }
    }
  }

  /** One pass over the list: starts everything that has become startable. */
  method StartPass(transports: seq<Transport>, table: Table, failing: set<string>,
                   started0: set<string>, order0: seq<string>)
    returns (started: set<string>, order: seq<string>, canContinue: bool, failed: Option<string>)
    requires Covers(transports, table) && Progress(table, failing, started0, order0)
    ensures failed.None? ==> Progress(table, failing, started, order)
    ensures failed.Some? ==>
      && Distinct(order) && InDependencyOrder(table, order)
      && failed.value in failing * table.Keys
      && |order| > 0 && order[|order| - 1] == failed.value
      && forall k :: 0 <= k < |order| - 1 ==> order[k] !in failing
    ensures failed.None? && canContinue ==> started0 < started
    ensures failed.None? && !canContinue ==>
      started == started0 && forall j :: 0 <= j < |transports| ==> CannotStart(transports[j], started)
  {
    started, order, canContinue, failed := started0, order0, false, None;
    for i := 0 to |transports|
      invariant Progress(table, failing, started, order)
      invariant started0 <= started
      invariant canContinue ==> started0 < started
      invariant !canContinue ==>
        started == started0 && forall j :: 0 <= j < i ==> CannotStart(transports[j], started)
    {
      var transport := transports[i];
      var tag := transport.tag;
      if tag in started { continue; }
      if exists d :: d in transport.dependencies && d !in started { continue; }
      StartOne(table, failing, started, order, tag);
      order := order + [tag];
      if tag in failing {
        assert forall k :: 0 <= k < |order| - 1 ==> order[k] in started;
        return started, order, canContinue, Some(tag);
      }
      started := started + {tag};
      canContinue := true;
    }
  }

  /** common.Find: the first server that has not started, or none. */
  method FindUnstarted(transports: seq<Transport>, started: set<string>) returns (current: Option<Transport>)
    ensures current.None? <==> forall t :: t in transports ==> t.tag in started
    ensures current.Some? ==> current.value in transports && current.value.tag !in started
  {
    for k := 0 to |transports|
      invariant forall t :: t in transports[..k] ==> t.tag in started
    {
      if transports[k].tag !in started { return Some(transports[k]); }
    }
    return None;
  }

  lemma AllStarted(transports: seq<Transport>, table: Table, started: set<string>)
    requires Covers(transports, table) && started <= table.Keys
    ensures |started| == |transports| <==> started == table.Keys && DistinctTags(transports)
  {
    TagCount(transports);
    assert Tags(transports) == table.Keys;
    if |started| == |transports| {
      assert |table.Keys - started| == |table.Keys| - |started|;
      SubsetOfSameSize(started, table.Keys);
    }
  }

  /**
   startTransports. `failing` are the tags whose server's own Start returns an error; `order` is
   the sequence of Start calls made. Starting succeeds exactly when the tags are distinct, the
   dependencies are all present and free of cycles, and no server's own Start fails; it panics
   exactly when nothing but the distinct tags is missing.
   */
  method StartTransports(transports: seq<Transport>, table: Table, failing: set<string>)
    returns (error: Option<StartError>, order: seq<string>)
    requires Covers(transports, table)
    ensures Distinct(order) && InDependencyOrder(table, order)
    ensures forall k :: 0 <= k < |order| - 1 ==> order[k] !in failing
    ensures var startable := DependenciesPresent(table) && Acyclic(table) && failing !! table.Keys;
      && (error.None? <==> startable && DistinctTags(transports))
      && (error == Some(Panics) <==> startable && !DistinctTags(transports))
    ensures error.None? ==> forall tag :: tag in table ==> tag in order
    ensures error.Some? && !error.value.Panics? ==>
      if error.value.StartFailed? then
        error.value.tag in failing && |order| > 0 && order[|order| - 1] == error.value.tag
      else Truthful(table, error.value)
  {
    var started: set<string> := {};
    order := [];
    while true
      invariant Progress(table, failing, started, order)
      decreases table.Keys - started
    {
      ghost var before := started;
      var canContinue, failed;
      started, order, canContinue, failed := StartPass(transports, table, failing, started, order);
      if failed.Some? {
        return Some(StartFailed(failed.value)), order;
      }
      AllStarted(transports, table, started);
      if |started| == |transports| { break; }
      if canContinue {
        assert exists tag :: tag in started && tag !in before;
        continue;
      }
      assert Stuck(table, started);
      var current := FindUnstarted(transports, started);
      if current.None? {
        assert started == table.Keys;
        OrderedTableIsAcyclic(table, order);
        return Some(Panics), order;
      }
      var e := Lint(table, started, [current.value.tag], current.value.tag);
      NotBoth(table, e);
      return Some(e), order;
    }
    OrderedTableIsAcyclic(table, order);
    error := None;
  }

  lemma NotBoth(table: Table, e: StartError)
    requires Truthful(table, e)
    ensures !(DependenciesPresent(table) && Acyclic(table))
  {
    match e
    case Circular(path) =>
      var k :| 0 <= k < |path| - 1 && IsCycle(table, path[k..]);
    case DependencyNotFound(dependency, server) =>
    case _ =>
  }

  /** The list without the server of this tag. */
  function Without(transports: seq<Transport>, tag: string): seq<Transport> {
    if transports == [] then []
    else if transports[0].tag == tag then Without(transports[1..], tag)
    else [transports[0]] + Without(transports[1..], tag)
  }

  lemma {:induction false} WithoutAbsent(transports: seq<Transport>, tag: string)
    requires forall t :: t in transports ==> t.tag != tag
    ensures Without(transports, tag) == transports
  {
    if transports != [] {
      WithoutAbsent(transports[1..], tag);
    }
  }

  lemma {:induction false} CutOut(transports: seq<Transport>, index: nat)
    requires DistinctTags(transports) && index < |transports|
    ensures Without(transports, transports[index].tag) == transports[..index] + transports[index + 1..]
  {
    if index == 0 {
      WithoutAbsent(transports[1..], transports[0].tag);
    } else {
      CutOut(transports[1..], index - 1);
      assert transports[1..][..index - 1] == transports[1..index];
    }
  }

  lemma {:induction false} WithoutMembers(transports: seq<Transport>, tag: string, t: Transport)
    ensures t in Without(transports, tag) <==> t in transports && t.tag != tag
  {
    if transports != [] {
      WithoutMembers(transports[1..], tag, t);
    }
  }

  lemma {:induction false} WithoutDistinct(transports: seq<Transport>, tag: string)
    requires DistinctTags(transports)
    ensures DistinctTags(Without(transports, tag))
  {
    if transports != [] {
      var rest := Without(transports[1..], tag);
      WithoutDistinct(transports[1..], tag);
      forall i | 0 <= i < |rest| ensures rest[i].tag != transports[0].tag {
        WithoutMembers(transports[1..], tag, rest[i]);
        assert rest[i] in transports[1..];
      }
    }
  }

  lemma AgreeWithReplacement(transports: seq<Transport>, table: Table, t: Transport)
    requires Agree(transports, table)
    ensures Agree(Without(transports, t.tag) + [t], table[t.tag := t])
  {
    WithoutDistinct(transports, t.tag);
    var rest := Without(transports, t.tag);
    forall i | 0 <= i < |rest| ensures rest[i].tag != t.tag && rest[i].tag in table && table[rest[i].tag] == rest[i] {
      WithoutMembers(transports, t.tag, rest[i]);
      assert rest[i] in transports;
    }
    forall tag | tag in table && tag != t.tag ensures table[tag] in rest + [t] {
      WithoutMembers(transports, t.tag, table[tag]);
    }
    assert t in rest + [t];
  }

  function TagsOf(transports: seq<Transport>): seq<string> {
    seq(|transports|, i requires 0 <= i < |transports| => transports[i].tag)
  }

  /** The stages other than the server stage: every server in list order, up to the first failure. */
  method StartInOrder(transports: seq<Transport>, failing: set<string>)
    returns (error: Option<StartError>, calls: seq<string>)
    ensures if error.None? then calls == TagsOf(transports) && forall tag :: tag in calls ==> tag !in failing
      else calls != [] && calls <= TagsOf(transports) && error == Some(StartFailed(calls[|calls| - 1]))
           && calls[|calls| - 1] in failing && forall tag :: tag in calls[..|calls| - 1] ==> tag !in failing
  {
    calls := [];
    for i := 0 to |transports|
      invariant calls == TagsOf(transports)[..i]
      invariant forall tag :: tag in calls ==> tag !in failing
    {
      calls := calls + [transports[i].tag];
      if transports[i].tag in failing {
        return Some(StartFailed(transports[i].tag)), calls;
      }
    }
    error := None;
  }

  // ----- The table itself -----

  datatype Stage = Initialize | StartServers | PostStart | Finished {
    function Rank(): nat {
      match this
      case Initialize => 0
      case StartServers => 1
      case PostStart => 2
      case Finished => 3
    }
  }

  class Manager {
    const defaultTag: string
    var started: bool
    var stage: Stage
    var transports: seq<Transport>
    var transportByTag: Table
    var defaultTransport: Option<Transport>
    var fakeIPTransport: Option<Transport>

    /** List and table agree, and the default server is never a fakeip server. */
    ghost predicate Valid()
      reads this
    {
      && Agree(transports, transportByTag)
      && "" !in transportByTag
      && (defaultTransport.Some? ==> !defaultTransport.value.kind.FakeIP?)
    }

    /** The default server is the table's server of its tag. */
    predicate DefaultIsCurrent()
      reads this
    {
      defaultTransport.Some? ==>
        var tag := defaultTransport.value.tag;
        tag in transportByTag && transportByTag[tag] == defaultTransport.value
    }

    /** No server was refused: without a default server there is no server at all. */
    ghost predicate Healthy()
      reads this
    {
      defaultTag == "" && defaultTransport.None? ==> transports == []
    }

    constructor (defaultTag: string)
      ensures Valid() && Healthy() && !started && this.defaultTag == defaultTag
      ensures transports == [] && transportByTag == map[] && defaultTransport.None? && fakeIPTransport.None?
    {
      this.defaultTag := defaultTag;
      started, stage, transports, transportByTag := false, Initialize, [], map[];
      defaultTransport, fakeIPTransport := None, None;
    }

    /** What Create stops at before it touches the table. */
    predicate Accepts(tag: string, created: Option<Transport>, startOk: bool, closeOk: bool)
      reads this
    {
      tag != "" && created.Some? && (started ==> startOk && (tag in transportByTag ==> closeOk))
    }

    predicate BecomesDefault(tag: string)
      reads this
    {
      tag == defaultTag || (defaultTag == "" && defaultTransport.None?)
    }

    /** The default server is replaced in the table by another that does not become the default. */
    predicate Strands(tag: string, created: Option<Transport>, startOk: bool, closeOk: bool)
      reads this
    {
      && Accepts(tag, created, startOk, closeOk)
      && defaultTransport.Some? && defaultTransport.value.tag == tag && created != defaultTransport
      && (tag != defaultTag || created.value.kind.FakeIP?)
    }

    /**
     Create. `created` is what the registry built, if it built anything; `startOk` and `closeOk`
     say whether starting the new server and closing a replaced one succeed. A fakeip server
     that would be the default, or the second of its kind, is refused when it is already in
     the table; it never becomes the default.
     */
    method Create(tag: string, created: Option<Transport>, startOk: bool, closeOk: bool)
      returns (ok: bool)
      requires Valid()
      requires created.Some? ==> created.value.tag == tag
      modifies this
      ensures Valid() && started == old(started) && stage == old(stage)
      ensures ok && old(Healthy()) ==> Healthy()
      ensures old(DefaultIsCurrent()) ==> (DefaultIsCurrent() <==> !old(Strands(tag, created, startOk, closeOk)))
      ensures ok <==>
        && old(Accepts(tag, created, startOk, closeOk))
        && (created.value.kind.FakeIP? ==> !old(BecomesDefault(tag)) && old(fakeIPTransport).None?)
      ensures !old(Accepts(tag, created, startOk, closeOk)) ==>
        && unchanged(`transports) && unchanged(`transportByTag)
        && unchanged(`defaultTransport) && unchanged(`fakeIPTransport)
      ensures old(Accepts(tag, created, startOk, closeOk)) ==>
        && transportByTag == old(transportByTag)[tag := created.value]
        && transports == Without(old(transports), tag) + [created.value]
        && defaultTransport == (if ok && old(BecomesDefault(tag)) then created else old(defaultTransport))
        && fakeIPTransport == (if ok && created.value.kind.FakeIP? then created else old(fakeIPTransport))
    {
      if tag == "" || created.None? { return false; }
      var transport := created.value;
      if started && !startOk { return false; }
      if tag in transportByTag && started && !closeOk { return false; }
      Install(transport);
      if tag == defaultTag || (defaultTag == "" && defaultTransport.None?) {
        if transport.kind.FakeIP? { return false; }
        defaultTransport := Some(transport);
      }
      if transport.kind.FakeIP? {
        if fakeIPTransport.Some? { return false; }
        fakeIPTransport := Some(transport);
      }
      ok := true;
    }

    /** Puts a server at the end of the list, replacing the one with the same tag. */
    method Install(transport: Transport)
      requires Valid() && transport.tag != ""
      modifies this`transports, this`transportByTag
      ensures Valid()
      ensures transportByTag == old(transportByTag)[transport.tag := transport]
      ensures transports == Without(old(transports), transport.tag) + [transport]
    {
      AgreeWithReplacement(transports, transportByTag, transport);
      if transport.tag in transportByTag {
        RemoveFromList(transport.tag);
      } else {
        WithoutAbsent(transports, transport.tag);
      }
      transports := transports + [transport];
      transportByTag := transportByTag[transport.tag := transport];
    }

    /** Cuts the server with this tag out of the list; the table still holds it. */
    method RemoveFromList(tag: string)
      requires Valid() && tag in transportByTag
      modifies this`transports
      ensures transports == Without(old(transports), tag)
    {
      var index := 0;
      while transports[index] != transportByTag[tag]
        invariant 0 <= index < |transports|
        invariant transportByTag[tag] in transports[index..]
        decreases |transports| - index
      {
        index := index + 1;
      }
      CutOut(transports, index);
      transports := transports[..index] + transports[index + 1..];
    }

    /** The fallback server comes on top of a server with its tag. */
    predicate Clashes(next: Stage, fallback: Option<Transport>)
      reads this
    {
      AddsFallback(next, fallback) && fallback.value.tag in transportByTag
    }

    predicate AddsFallback(next: Stage, fallback: Option<Transport>)
      reads this
    {
      next.StartServers? && defaultTag == "" && defaultTransport.None? && fallback.Some?
    }

    /** The fallback becomes the default; list and table still agree, unless its tag is taken. */
    method AddFallback(fallback: Transport)
      requires Valid() && fallback.tag != "" && !fallback.kind.FakeIP? && fallback.dependencies == []
      modifies this`transports, this`transportByTag, this`defaultTransport
      ensures defaultTransport == Some(fallback) && transports == old(transports) + [fallback]
      ensures transportByTag == old(transportByTag)[fallback.tag := fallback]
      ensures Covers(transports, transportByTag)
      ensures DistinctTags(transports) <==> fallback.tag !in old(transportByTag)
      ensures fallback.tag !in old(transportByTag) ==> Valid()
    {
      FallbackIsCovered(transports, transportByTag, fallback);
      transports := transports + [fallback];
      transportByTag := transportByTag[fallback.tag := fallback];
      defaultTransport := Some(fallback);
    }

    /**
     Start. `fallback` is what the default-server fallback returns: the `local` server, or
     nothing on failure; `failing` are the servers whose own Start returns an error at this
     stage, `calls` the Start calls made. At the server stage it succeeds exactly when there
     is a default server, no two servers share a tag, the dependencies are present and acyclic,
     and no server fails; the calls are then made in dependency order. At the other stages the
     calls follow the list.
     */
    method Start(next: Stage, fallback: Option<Transport>, failing: set<string>)
      returns (error: Option<StartError>, calls: seq<string>)
      requires Valid()
      requires !(started && stage.Rank() >= next.Rank())
      requires fallback.Some? ==>
        fallback.value.tag == "local" && fallback.value.kind == Local && fallback.value.dependencies == []
      modifies this
      ensures started && stage == next && unchanged(`fakeIPTransport)
      ensures !old(Clashes(next, fallback)) ==> Valid()
      ensures old(Healthy()) ==> Healthy() && !old(Clashes(next, fallback))
      ensures old(DefaultIsCurrent()) ==> DefaultIsCurrent()
      ensures if old(AddsFallback(next, fallback)) then
          && defaultTransport == fallback && transports == old(transports) + [fallback.value]
          && transportByTag == old(transportByTag)["local" := fallback.value]
        else unchanged(`transports) && unchanged(`transportByTag) && unchanged(`defaultTransport)
      ensures next.StartServers? ==>
        var startable :=
          DependenciesPresent(transportByTag) && Acyclic(transportByTag) && failing !! transportByTag.Keys;
        && (error.None? <==> defaultTransport.Some? && startable && !old(Clashes(next, fallback)))
        && (error == Some(Panics) <==> startable && old(Clashes(next, fallback)))
        && InDependencyOrder(transportByTag, calls) && Distinct(calls)
        && (error.None? ==> forall tag :: tag in transportByTag <==> tag in calls)
      ensures !next.StartServers? ==>
        if error.None? then calls == TagsOf(transports) && forall tag :: tag in calls ==> tag !in failing
        else calls != [] && calls <= TagsOf(transports) && error == Some(StartFailed(calls[|calls| - 1]))
             && calls[|calls| - 1] in failing && forall tag :: tag in calls[..|calls| - 1] ==> tag !in failing
    {
      started, stage, calls := true, next, [];
      if next == StartServers {
        if defaultTag != "" && defaultTransport.None? {
          return Some(DefaultNotFound(defaultTag)), [];
        }
        if defaultTransport.None? {
          if fallback.None? { return Some(FallbackFailed), []; }
          AddFallback(fallback.value);
        }
        error, calls := StartTransports(transports, transportByTag, failing);
      } else {
        error, calls := StartInOrder(transports, failing);
      }
    }
  }

  /** Adding the fallback server keeps list and table in agreement, unless its tag is taken. */
  lemma FallbackIsCovered(transports: seq<Transport>, table: Table, fallback: Transport)
    requires Agree(transports, table) && fallback.dependencies == []
    ensures Covers(transports + [fallback], table[fallback.tag := fallback])
    ensures fallback.tag !in table ==> Agree(transports + [fallback], table[fallback.tag := fallback])
    ensures DistinctTags(transports + [fallback]) <==> fallback.tag !in table
  {
    var all := transports + [fallback];
    assert all[|transports|] == fallback;
    if fallback.tag in table {
      var i :| 0 <= i < |transports| && transports[i] == table[fallback.tag];
      assert all[i].tag == all[|transports|].tag;
    }
    forall tag | tag in table && tag != fallback.tag ensures table[tag] in all {
      assert table[tag] in transports;
    }
  }

  /**
   Without a configured default, a second server under the default's tag takes its place in the
   table only: the default is then a server that the table does not know any more.
   */
  method StrandedDefault() returns (manager: Manager)
    ensures fresh(manager) && manager.Valid()
    ensures manager.defaultTransport == Some(Transport(0, "a", Local, []))
    ensures manager.transportByTag == map["a" := Transport(1, "a", Local, [])]
    ensures !manager.DefaultIsCurrent()
  {
    manager := new Manager("");
    var first := manager.Create("a", Some(Transport(0, "a", Local, [])), true, true);
    var second := manager.Create("a", Some(Transport(1, "a", Local, [])), true, true);
  }

  /** A refused fakeip server named `local` makes the later start panic on the fallback of that name. */
  method ClashingFallback() returns (manager: Manager, error: Option<StartError>)
    ensures fresh(manager) && error == Some(Panics)
  {
    manager := new Manager("");
    var ok := manager.Create("local", Some(Transport(0, "local", FakeIP, [])), true, true);
    var calls;
    error, calls := manager.Start(StartServers, Some(Transport(1, "local", Local, [])), {});
    assert manager.transportByTag == map["local" := Transport(1, "local", Local, [])];
    OrderedTableIsAcyclic(manager.transportByTag, ["local"]);
  }
}
