/**
 The caching DNS client: what it stores, how stored answers age, and when an expired answer
 may still be served. Time is counted in nanoseconds.
 */
module DnsClient {
  import opened Wrappers
  import opened DnsRules
  import opened DnsTtl

  const SECOND := 1_000_000_000
  const TYPE_A := 1
  const TYPE_AAAA := 28

  datatype Question = Question(name: string, qtype: nat, qclass: nat)

  datatype Options = Options(
    strategy: Strategy,
    disableCache: bool,
    disableOptimisticCache: bool,
    rewriteTTL: Option<Ttl>)

  /** The strategy rules this query type out. */
  predicate Conflicts(qtype: nat, strategy: Strategy) {
    (qtype == TYPE_A && strategy.IPv6Only?) || (qtype == TYPE_AAAA && strategy.IPv4Only?)
  }

  type Checker = Option<Message -> bool>

  /** The part of a key that both caches agree on. */
  datatype Name = Name(tag: string, name: string, qtype: nat)

  /** The memory cache also distinguishes the query class. */
  datatype Key = Key(name: Name, qclass: nat)

  datatype Entry = Entry(message: Message, expireAt: int)

  function NameOf(tag: string, q: Question): Name {
    Name(tag, q.name, q.qtype)
  }

  // ----- What is stored -----

  /** A hint for the family the strategy excludes. */
  predicate Excluded(p: SvcParam, strategy: Strategy) {
    if strategy.IPv4Only? then p.IPv6Hint? else p.IPv4Hint?
  }

  function FilterHints(params: seq<SvcParam>, strategy: Strategy): seq<SvcParam> {
    if params == [] then []
    else if Excluded(params[0], strategy) then FilterHints(params[1..], strategy)
    else [params[0]] + FilterHints(params[1..], strategy)
  }

  lemma {:induction false} FilterHintsMembers(params: seq<SvcParam>, strategy: Strategy, p: SvcParam)
    ensures p in FilterHints(params, strategy) <==> p in params && !Excluded(p, strategy)
  {
    if params != [] {
      FilterHintsMembers(params[1..], strategy, p);
    }
  }

  /** Hint by hint: the order of those that stay and how often each occurs are kept. */
  lemma {:induction false} FilterHintsOneMore(params: seq<SvcParam>, p: SvcParam, strategy: Strategy)
    ensures FilterHints(params + [p], strategy) ==
      FilterHints(params, strategy) + (if Excluded(p, strategy) then [] else [p])
  {
    var all := params + [p];
    if params == [] {
      assert all[1..] == [] && FilterHints([], strategy) == [];
    } else {
      assert all[1..] == params[1..] + [p];
      FilterHintsOneMore(params[1..], p, strategy);
    }
  }

  function FilterRecord(r: Record, strategy: Strategy): Record {
    if r.data.HTTPS? then r.(data := HTTPS(FilterHints(r.data.params, strategy))) else r
  }

  predicate Filters(qtype: nat, strategy: Strategy) {
    qtype == TYPE_HTTPS && (strategy.IPv4Only? || strategy.IPv6Only?)
  }

  function FilterAnswer(m: Message, qtype: nat, strategy: Strategy): Message {
    if !Filters(qtype, strategy) then m
    else m.(answer := seq(|m.answer|, i requires 0 <= i < |m.answer| => FilterRecord(m.answer[i], strategy)))
  }

  lemma FilteringKeepsLifetime(m: Message, qtype: nat, strategy: Strategy, t: nat)
    requires IsLifetime(FilterAnswer(m, qtype, strategy), t)
    ensures IsLifetime(m, t)
  {
    var f := FilterAnswer(m, qtype, strategy);
    if !(m.answer == [] && FirstSOA(m.ns).Some?) {
      FilteringKeepsTtls(m, qtype, strategy);
      LeastPositiveOfLike(All(f), All(m), t);
    }
  }

  ghost predicate SameTtls(a: seq<Record>, b: seq<Record>) {
    |a| == |b| && forall i :: 0 <= i < |a| ==> a[i].ttl == b[i].ttl && a[i].data.OPT? == b[i].data.OPT?
  }

  lemma FilteringKeepsTtls(m: Message, qtype: nat, strategy: Strategy)
    ensures SameTtls(All(FilterAnswer(m, qtype, strategy)), All(m))
  {
  }

  /** The lifetime only depends on the TTLs and on which records are OPT. */
  lemma LeastPositiveOfLike(a: seq<Record>, b: seq<Record>, t: nat)
    requires SameTtls(a, b) && LeastPositive(a, t)
    ensures LeastPositive(b, t)
  {
    forall x | x in b && !x.data.OPT? && x.ttl > 0 ensures 0 < t <= x.ttl {
      var i :| 0 <= i < |b| && b[i] == x;
      assert a[i] in a;
    }
    if t > 0 {
      var x :| x in a && !x.data.OPT? && x.ttl == t;
      var i :| 0 <= i < |a| && a[i] == x;
      assert b[i] in b;
    }
  }

  /** applyResponseOptions. */
  method ApplyResponseOptions(qtype: nat, response: Response, options: Options) returns (ttl: Ttl)
    requires response.Valid()
    modifies response.answer, response.ns, response.extra
    ensures response.Value() == Stamp(FilterAnswer(old(response.Value()), qtype, options.strategy), ttl)
    ensures if options.rewriteTTL.Some? then ttl == options.rewriteTTL.value
            else IsLifetime(old(response.Value()), ttl)
  {
    ghost var upstream := response.Value();
    if Filters(qtype, options.strategy) {
      var answer := response.answer;
      for i := 0 to answer.Length
        modifies answer
        invariant forall j :: 0 <= j < i ==> answer[j] == FilterRecord(old(answer[j]), options.strategy)
        invariant forall j :: i <= j < answer.Length ==> answer[j] == old(answer[j])
      {
        if !answer[i].data.HTTPS? { continue; }
        answer[i] := answer[i].(data := HTTPS(FilterHints(answer[i].data.params, options.strategy)));
      }
      assert answer[..] == FilterAnswer(upstream, qtype, options.strategy).answer;
    }
    assert response.Value() == FilterAnswer(upstream, qtype, options.strategy);
    ttl := ComputeTimeToLive(response);
    FilteringKeepsLifetime(upstream, qtype, options.strategy, ttl);
    if options.rewriteTTL.Some? { ttl := options.rewriteTTL.value; }
    NormalizeTTL(response, ttl);
  }

  /** One store: what was kept, when, and the exchange that produced it. */
  datatype Stored = Stored(
    name: Name,
    message: Message,
    ttl: Ttl,
    at: int,
    upstream: Message,
    options: Options,
    checker: Checker)

  predicate Cacheable(rcode: nat) {
    rcode == RCODE_SUCCESS || rcode == RCODE_NAME_ERROR
  }

  ghost predicate Accepts(checker: Checker, m: Message) {
    checker.None? || checker.value(m)
  }

  /**
   Every store is of a successful or name-error answer that the checker of its exchange
   accepted, with a positive lifetime that all its records (but OPT) carry; unless rewritten,
   that lifetime is the one the answer asks for.
   */
  ghost predicate StoredWell(h: Stored) {
    && Cacheable(h.upstream.rcode) && Accepts(h.checker, h.upstream)
    && h.ttl > 0
    && h.message == Stamp(FilterAnswer(h.upstream, h.name.qtype, h.options.strategy), h.ttl)
    && (if h.options.rewriteTTL.Some? then h.ttl == h.options.rewriteTTL.value else IsLifetime(h.upstream, h.ttl))
  }

  // ----- What is served -----

  datatype Served = Served(message: Message, ttl: nat, stale: bool)

  /** loadResponse on an entry, if there is one. */
  function Serve(entry: Option<Entry>, disableExpire: bool, optimistic: nat, now: int): Option<Served> {
    if entry.None? then None else
    var Entry(message, expireAt) := entry.value;
    if disableExpire then Some(Served(message, 0, false))
    else if now > expireAt then
      if optimistic > 0 && now < expireAt + optimistic then Some(Served(Stamp(message, 1), 0, true)) else None
    else
      var left := (expireAt - now) / SECOND;
      Some(Served(Stamp(message, left % UINT32_LIMIT), left, false))
  }

  function WholeSeconds(t: int): (r: int)
    ensures t - SECOND < r <= t
    ensures r % SECOND == 0 && (t % SECOND == 0 ==> r == t)
  {
    t - t % SECOND
  }

  /** `e` holds what `h` stored; a store that reached the disk lost the fraction of a second. */
  ghost predicate HoldsOn(e: Entry, h: Stored) {
    var expireAt := h.at + h.ttl * SECOND;
    e.message == h.message && (e.expireAt == expireAt || e.expireAt == WholeSeconds(expireAt))
  }

  /** What may be served at `now` from the store `h`. */
  ghost predicate ServedRightly(s: Served, h: Stored, disableExpire: bool, optimistic: nat, now: int) {
    if disableExpire then s == Served(h.message, 0, false)
    else if s.stale then
      // Expired, but strictly within the optimistic window: section 4 of RFC 8767.
      && s.message == Stamp(h.message, 1)
      && h.at + h.ttl * SECOND - SECOND < now < h.at + h.ttl * SECOND + optimistic
    else
      // The age of the answer and the TTL it is served with never exceed the stored TTL, and
      // stay within two seconds of it.
      && s.ttl < UINT32_LIMIT && s.message == Stamp(h.message, s.ttl)
      && (now - h.at) + s.ttl * SECOND <= h.ttl * SECOND < (now - h.at) + (s.ttl + 2) * SECOND
  }

  lemma ServeIsRight(e: Entry, h: Stored, disableExpire: bool, optimistic: nat, now: int)
    requires HoldsOn(e, h) && now >= h.at
    ensures var s := Serve(Some(e), disableExpire, optimistic, now);
      s.Some? ==> ServedRightly(s.value, h, disableExpire, optimistic, now)
  {
    assert (e.expireAt - now) / SECOND <= h.ttl;
  }

  /**
   What is served, fresh or stale, is the server's own answer of the exchange that stored it:
   only its address hints are filtered and its TTLs rewritten.
   */
  lemma ServedDataIsTheServers(s: Served, h: Stored, optimistic: nat, now: int)
    requires StoredWell(h) && ServedRightly(s, h, false, optimistic, now)
    ensures s.message == Stamp(FilterAnswer(h.upstream, h.name.qtype, h.options.strategy), if s.stale then 1 else s.ttl)
  {
    StampTwice(FilterAnswer(h.upstream, h.name.qtype, h.options.strategy), h.ttl, if s.stale then 1 else s.ttl);
  }

  /** Some store made under this name is what the entry holds. */
  ghost predicate Backed(history: set<Stored>, name: Name, e: Entry) {
    exists h :: h in history && h.name == name && HoldsOn(e, h)
  }

  /** `s` is rightly served at `now` from something stored earlier under this name. */
  ghost predicate Genuine(history: set<Stored>, disableExpire: bool, optimistic: nat, name: Name, s: Served, now: int) {
    exists h :: h in history && h.name == name && ServedRightly(s, h, disableExpire, optimistic, now)
  }

  ghost predicate AllStoredWell(history: set<Stored>, clock: int) {
    forall h :: h in history ==> StoredWell(h) && h.at <= clock
  }

  lemma GenuineEntry(history: set<Stored>, disableExpire: bool, optimistic: nat, name: Name, e: Entry, now: int)
    requires Backed(history, name, e) && AllStoredWell(history, now)
    ensures var s := Serve(Some(e), disableExpire, optimistic, now);
      s.Some? ==> Genuine(history, disableExpire, optimistic, name, s.value, now)
  {
    var h :| h in history && h.name == name && HoldsOn(e, h);
    ServeIsRight(e, h, disableExpire, optimistic, now);
  }

  ghost predicate AllBacked(history: set<Stored>, memory: map<Key, Entry>, store: map<Name, Entry>) {
    && (forall k :: k in memory ==> Backed(history, k.name, memory[k]))
    && (forall n :: n in store ==> Backed(history, n, store[n]))
  }

  lemma BackedByMore(history: set<Stored>, h: Stored, name: Name, e: Entry)
    requires Backed(history, name, e)
    ensures Backed(history + {h}, name, e)
  {
    var g :| g in history && g.name == name && HoldsOn(e, g);
    assert g in history + {h};
  }

  /** Recording one more store, and keeping it in either cache, leaves every entry backed. */
  lemma StoreIsBacked(history: set<Stored>, memory: map<Key, Entry>, store: map<Name, Entry>, h: Stored, e: Entry,
                      qclass: nat)
    requires AllBacked(history, memory, store) && HoldsOn(e, h)
    ensures AllBacked(history + {h}, memory, store[h.name := e])
    ensures AllBacked(history + {h}, memory[Key(h.name, qclass) := e], store)
  {
    assert h in history + {h} && Backed(history + {h}, h.name, e);
    forall k | k in memory ensures Backed(history + {h}, k.name, memory[k]) {
      BackedByMore(history, h, k.name, memory[k]);
    }
    forall n | n in store ensures Backed(history + {h}, n, store[n]) {
      BackedByMore(history, h, n, store[n]);
    }
  }

  function Flushed(e: Entry): Entry {
    e.(expireAt := WholeSeconds(e.expireAt))
  }

  lemma FlushedIsBacked(history: set<Stored>, name: Name, e: Entry)
    requires Backed(history, name, e)
    ensures Backed(history, name, Flushed(e))
  {
    var h :| h in history && h.name == name && HoldsOn(e, h);
    assert HoldsOn(Flushed(e), h);
  }

  // ----- EDNS in the answer passed on -----

  function LastOPT(records: seq<Record>): (r: Option<Record>)
    ensures r.None? <==> forall x :: x in records ==> !x.data.OPT?
    ensures r.Some? ==> r.value in records && r.value.data.OPT?
  {
    if records == [] then None
    else if records[|records| - 1].data.OPT? then Some(records[|records| - 1])
    else LastOPT(records[..|records| - 1])
  }

  /** The EDNS version and the DO bit are kept in the TTL field of an OPT record. */
  function Version(opt: Record): nat {
    opt.ttl / 0x1_0000 % 256
  }

  predicate DnssecOk(opt: Record) {
    opt.ttl / 0x8000 % 2 == 1
  }

  function WithoutOPT(records: seq<Record>): (r: seq<Record>)
    ensures forall x :: x in r <==> x in records && !x.data.OPT?
  {
    if records == [] then []
    else if records[0].data.OPT? then WithoutOPT(records[1..])
    else [records[0]] + WithoutOPT(records[1..])
  }

  /** An OPT record of version 0 with the size and the DO bit of `opt`. */
  function Plain(opt: Record): (r: Record)
    requires opt.data.OPT?
    ensures r.data.OPT? && r.data.udpSize == opt.data.udpSize
    ensures Version(r) == 0 && DnssecOk(r) == DnssecOk(opt)
  {
    Record(".", if DnssecOk(opt) then 0x8000 else 0, OPT(opt.data.udpSize, ""))
  }

  /** `request` is the EDNS version of the request, if it has one. */
  function AdjustEDNS(m: Message, request: Option<nat>): Message {
    var opt := LastOPT(m.extra);
    if opt.None? || (request.Some? && request.value >= Version(opt.value)) then m
    else
      m.(extra := WithoutOPT(m.extra) + (if request.Some? then [Plain(opt.value)] else []))
  }

  /**
   The other records stay as they are; a request without EDNS gets none back, any other gets it
   exactly if the server sent it, in a version it knows and with the server's size and DO bit.
   */
  lemma AdjustEDNSMeaning(m: Message, request: Option<nat>)
    ensures var r := AdjustEDNS(m, request);
      && r == m.(extra := r.extra) && WithoutOPT(r.extra) == WithoutOPT(m.extra)
      && var before, after := LastOPT(m.extra), LastOPT(r.extra);
         if request.None? then after.None?
         else
           && (after.Some? <==> before.Some?)
           && (after.Some? ==>
                 && Version(after.value) <= request.value && after.value.data.udpSize == before.value.data.udpSize
                 && DnssecOk(after.value) == DnssecOk(before.value))
  {
    var opt := LastOPT(m.extra);
    if opt.Some? && !(request.Some? && request.value >= Version(opt.value)) {
      WithoutOPTTwice(m.extra);
      var kept := WithoutOPT(m.extra);
      if request.Some? {
        OneOPT(kept, Plain(opt.value));
      } else {
        assert kept + [] == kept;
      }
    }
  }

  lemma OneOPT(kept: seq<Record>, opt: Record)
    requires opt.data.OPT? && WithoutOPT(kept) == kept
    ensures LastOPT(kept + [opt]) == Some(opt) && WithoutOPT(kept + [opt]) == kept
  {
    WithoutOPTAppend(kept, [opt]);
    assert WithoutOPT([opt]) == [] && kept + [] == kept;
  }

  lemma {:induction false} WithoutOPTAppend(a: seq<Record>, b: seq<Record>)
    ensures WithoutOPT(a + b) == WithoutOPT(a) + WithoutOPT(b)
  {
    if a == [] {
      assert a + b == b;
    } else {
      assert (a + b)[1..] == a[1..] + b;
      WithoutOPTAppend(a[1..], b);
    }
  }

  lemma {:induction false} WithoutOPTTwice(records: seq<Record>)
    ensures WithoutOPT(WithoutOPT(records)) == WithoutOPT(records)
  {
    if records != [] {
      WithoutOPTTwice(records[1..]);
    }
  }

  // ----- The client -----

  datatype Result =
    | FormatError
    | StrategyRejected
    | FromCache(message: Message, stale: bool)
    | Loopback
    | RejectedFromCache
    | UpstreamFailed
    | RejectedAnswer(message: Message)
    | Answered(message: Message)

  /** The answer passed on, or rejected, is the server's, with filtered hints and one lifetime. */
  ghost predicate FromUpstream(result: Result, ttl: Ttl, qtype: nat, id: nat, edns: Option<nat>, options: Options,
                               checker: Checker, upstream: Message) {
    match result
    case RejectedAnswer(m) =>
      m == upstream && checker.Some? && !(Cacheable(upstream.rcode) && checker.value(upstream))
    case Answered(m) =>
      && (checker.Some? ==> Cacheable(upstream.rcode) && checker.value(upstream))
      && m == AdjustEDNS(Stamp(FilterAnswer(upstream, qtype, options.strategy), ttl).(id := id), edns)
      && (if options.rewriteTTL.Some? then ttl == options.rewriteTTL.value else IsLifetime(upstream, ttl))
    case _ => false
  }

  /** What others may do to the caches while an exchange waits for its server. */
  datatype Operation =
    | OtherAnswer(tag: string, question: Question, options: Options, checker: Checker, noCache: bool,
                  upstream: Message, at: int, packOk: bool)
    | OtherRefresh(tag: string, question: Question, options: Options, checker: Checker,
                   answer: Option<Message>, at: int, packOk: bool)
    | Loss(keys: set<Key>, names: set<Name>, forgotten: set<Name>)
    | Write(name: Name)

  /** The operations happen one after the other, from `start` to `end`. */
  predicate InOrder(operations: seq<Operation>, start: int, end: int) {
    if operations == [] then start <= end else
    var o := operations[0];
    if o.OtherAnswer? || o.OtherRefresh? then start <= o.at && InOrder(operations[1..], o.at, end)
    else InOrder(operations[1..], start, end)
  }

  /** A fresh copy of a stored message under a new TTL. */
  method Reissue(message: Message, ttl: Ttl) returns (response: Response)
    ensures fresh(response) && fresh(response.answer) && fresh(response.ns) && fresh(response.extra)
    ensures response.Valid() && response.Value() == Stamp(message, ttl)
  {
    response := new Response(message);
    NormalizeTTL(response, ttl);
  }

  /** What an entry turns into at `now`: null once it is too old. */
  method Present(entry: Entry, disableExpire: bool, optimistic: nat, now: int)
    returns (response: Response?, ttl: nat, stale: bool)
    ensures response == null <==> Serve(Some(entry), disableExpire, optimistic, now).None?
    ensures response != null ==>
      && fresh(response) && fresh(response.answer) && fresh(response.ns) && fresh(response.extra)
      && response.Valid()
      && Some(Served(response.Value(), ttl, stale)) == Serve(Some(entry), disableExpire, optimistic, now)
  {
    var Entry(message, expireAt) := entry;
    if disableExpire {
      response := new Response(message);
      return response, 0, false;
    }
    if now > expireAt {
      if optimistic > 0 && now < expireAt + optimistic {
        response := Reissue(message, 1);
        return response, 0, true;
      }
      return null, 0, false;
    }
    ttl := (expireAt - now) / SECOND;
    response := Reissue(message, ttl % UINT32_LIMIT);
    stale := false;
  }

  class Client {
    const disableCache: bool
    const disableExpire: bool
    const optimisticTimeout: nat
    const persistent: bool         // a persistent store is configured and replaces the memory cache
    const withRDRC: bool           // rejected answers are remembered
    var memory: map<Key, Entry>
    var store: map<Name, Entry>
    var rejected: set<Name>
    ghost var clock: int           // the latest time seen
    ghost var history: set<Stored> // every store ever made

    ghost predicate Valid()
      reads this
    {
      && AllStoredWell(history, clock)
      && AllBacked(history, memory, store)
    }

    constructor (disableCache: bool, disableExpire: bool, optimisticTimeout: nat, persistent: bool, withRDRC: bool,
                 now: int)
      ensures Valid() && history == {} && clock == now
    {
      this.disableCache, this.disableExpire, this.optimisticTimeout := disableCache, disableExpire, optimisticTimeout;
      this.persistent, this.withRDRC := persistent, withRDRC;
      memory, store, rejected, history, clock := map[], map[], {}, {}, now;
    }

    /** The entry a question would be answered from. */
    function EntryFor(tag: string, question: Question): Option<Entry>
      reads this
    {
      var name := NameOf(tag, question);
      if persistent then
        if name in store then Some(store[name]) else None
      else
        var key := Key(name, question.qclass);
        if key in memory then Some(memory[key]) else None
    }

    /** An answer with a positive lifetime is what the question would be answered from next. */
    ghost predicate Kept(tag: string, q: Question, options: Options, upstream: Message, ttl: Ttl, at: int, packOk: bool)
      reads this
    {
      ttl > 0 && Cacheable(upstream.rcode) && (if persistent then packOk else !disableCache) ==>
        EntryFor(tag, q) ==
          Some(Entry(Stamp(FilterAnswer(upstream, q.qtype, options.strategy), ttl), at + ttl * SECOND))
    }

    /** storeCache. `packOk`: the message could be packed for the persistent store. */
    method StoreCache(tag: string, question: Question, message: Message, ttl: Ttl, now: int, packOk: bool,
                      ghost h: Stored)
      requires Valid() && now >= clock
      requires h.name == NameOf(tag, question) && h.message == message && h.ttl == ttl && h.at == now
      requires ttl > 0 ==> StoredWell(h)
      modifies this`memory, this`store, this`history, this`clock
      ensures Valid() && clock == now
      ensures var kept := ttl > 0 && (if persistent then packOk else !disableCache);
        var e := Entry(message, now + ttl * SECOND);
        && history == (if kept then old(history) + {h} else old(history))
        && store == (if kept && persistent then old(store)[h.name := e] else old(store))
        && memory == (if kept && !persistent then old(memory)[Key(h.name, question.qclass) := e] else old(memory))
    {
      clock := now;
      if ttl == 0 { return; }
      var e := Entry(message, now + ttl * SECOND);
      StoreIsBacked(history, memory, store, h, e, question.qclass);
      if persistent {
        if packOk {
          store, history := store[NameOf(tag, question) := e], history + {h};
        }
        return;
      }
      if disableCache { return; }
      memory, history := memory[Key(NameOf(tag, question), question.qclass) := e], history + {h};
    }

    /** loadResponse and loadPersistentResponse: a fresh copy, with TTLs rewritten in place. */
    method LoadResponse(tag: string, question: Question, now: int) returns (response: Response?, ttl: nat, stale: bool)
      requires Valid() && now >= clock
      modifies this`memory, this`clock
      ensures Valid() && clock == now
      ensures response == null <==> Serve(old(EntryFor(tag, question)), disableExpire, optimisticTimeout, now).None?
      ensures response != null ==>
        && fresh(response) && fresh(response.answer) && fresh(response.ns) && fresh(response.extra)
        && response.Valid()
        && Some(Served(response.Value(), ttl, stale)) ==
             Serve(old(EntryFor(tag, question)), disableExpire, optimisticTimeout, now)
        && Genuine(history, disableExpire, optimisticTimeout, NameOf(tag, question),
                   Served(response.Value(), ttl, stale), now)
      ensures memory ==
        if response == null && !persistent then old(memory) - {Key(NameOf(tag, question), question.qclass)}
        else old(memory)
    {
      var entry := EntryFor(tag, question);
      clock := now;
      if entry.None? { return null, 0, false; }
      GenuineEntry(history, disableExpire, optimisticTimeout, NameOf(tag, question), entry.value, now);
      response, ttl, stale := Present(entry.value, disableExpire, optimisticTimeout, now);
      if response == null && !persistent {
        memory := memory - {Key(NameOf(tag, question), question.qclass)};
      }
    }

    /** `m` is a genuine answer from the cache, with the id of the request put in. */
    ghost predicate CacheAnswer(history: set<Stored>, name: Name, id: nat, m: Message, stale: bool, now: int) {
      exists s :: Genuine(history, disableExpire, optimisticTimeout, name, s, now)
        && m == s.message.(id := id) && stale == s.stale
    }

    /** The caches hold something that may be served for this question now. */
    predicate Servable(tag: string, question: Question, options: Options, now: int)
      reads this
    {
      var s := Serve(EntryFor(tag, question), disableExpire, optimisticTimeout, now);
      s.Some? && (s.value.stale ==> !options.disableOptimisticCache)
    }

    /** The cached answer Exchange returns, if it returns one. */
    method LoadCached(tag: string, question: Question, id: nat, options: Options,
                      now: int) returns (served: Option<Served>)
      requires Valid() && now >= clock
      modifies this`memory, this`clock
      ensures Valid() && clock == now
      ensures served.Some? ==>
        && CacheAnswer(history, NameOf(tag, question), id, served.value.message, served.value.stale, now)
        && (served.value.stale ==> !options.disableOptimisticCache)
      ensures served.Some? <==> old(Servable(tag, question, options, now))
    {
      var response, ttl, stale := LoadResponse(tag, question, now);
      if response == null || (stale && options.disableOptimisticCache) { return None; }
      ghost var s := Served(response.Value(), ttl, stale);
      response.id := id;
      assert response.Value() == s.message.(id := id);
      assert Genuine(history, disableExpire, optimisticTimeout, NameOf(tag, question), s, now);
      return Some(Served(response.Value(), ttl, stale));
    }

    /**
     Exchange, apart from waiting for another exchange of the same key. `simple`: the prepared
     request is a bare question; `edns`: its EDNS version, if it has one; `loopback`: the query
     came from this server; `upstream`: the server's answer, if it gives one. The cache is read at
     `now`, the answer stored at `later`, and `between` is what others do to the caches meanwhile.
     */
    method Exchange(tag: string, question: Option<Question>, id: nat, edns: Option<nat>, simple: bool, loopback: bool,
                    options: Options, checker: Checker, upstream: Option<Message>, now: int, later: int, packOk: bool,
                    between: seq<Operation>)
      returns (result: Result, ttl: Ttl)
      requires Valid() && clock <= now <= later && InOrder(between, now, later)
      modifies this
      ensures Valid() && clock <= later && old(history) <= history
      ensures result.FormatError? <==> question.None?
      ensures question.Some? ==>
        var q := question.value;
        var caching := simple && !disableCache && !options.disableCache;
        var hit := caching && old(Servable(tag, q, options, now));
        var known := caching && checker.Some? && withRDRC && NameOf(tag, q) in old(rejected);
        if Conflicts(q.qtype, options.strategy) then result.StrategyRejected?
        else if hit then result.FromCache?
        else if loopback then result.Loopback?
        else if known then result.RejectedFromCache?
        else if upstream.None? then result.UpstreamFailed?
        else result.Answered? || result.RejectedAnswer?
      ensures result.FromCache? ==>
        && CacheAnswer(history, NameOf(tag, question.value), id, result.message, result.stale, now)
        && (result.stale ==> !options.disableOptimisticCache)
      ensures result.Answered? || result.RejectedAnswer? ==>
        upstream.Some? && FromUpstream(result, ttl, question.value.qtype, id, edns, options, checker, upstream.value)
      ensures result.Answered? && simple && !disableCache && !options.disableCache ==>
        Kept(tag, question.value, options, upstream.value, ttl, later, packOk)
      ensures !result.Answered? && between == [] ==> history == old(history)
      ensures between == [] ==>
        rejected == if result.RejectedAnswer? && Remembers(simple, options, upstream.value)
                    then old(rejected) + {NameOf(tag, question.value)} else old(rejected)
      ensures result.RejectedAnswer? && Remembers(simple, options, upstream.value) ==>
        NameOf(tag, question.value) in rejected
    {
      ttl := 0;
      if question.None? { return FormatError, ttl; }
      var q := question.value;
      if Conflicts(q.qtype, options.strategy) { return StrategyRejected, ttl; }
      var noCache := !simple || disableCache || options.disableCache;
      if !noCache {
        var served := LoadCached(tag, q, id, options, now);
        if served.Some? { return FromCache(served.value.message, served.value.stale), ttl; }
      }
      if loopback { return Loopback, ttl; }
      if !noCache && checker.Some? && withRDRC && NameOf(tag, q) in rejected { return RejectedFromCache, ttl; }
      Meanwhile(between, now, later);
      if upstream.None? { return UpstreamFailed, ttl; }
      result, ttl := Receive(tag, q, id, edns, noCache, options, checker, upstream.value, later, packOk);
    }

    /** A rejected answer of such an exchange is remembered. */
    predicate Remembers(simple: bool, options: Options, upstream: Message) {
      simple && !disableCache && !options.disableCache && withRDRC && Cacheable(upstream.rcode)
    }

    /** Other exchanges receive their answers, refreshes end, entries get lost or written to disk. */
    method Meanwhile(operations: seq<Operation>, start: int, end: int)
      requires Valid() && clock <= start && InOrder(operations, start, end)
      modifies this
      ensures Valid() && clock <= end && old(history) <= history
      ensures operations == [] ==> history == old(history) && rejected == old(rejected)
      decreases |operations|
    {
      if operations == [] { return; }
      var next := start;
      match operations[0] {
        case OtherAnswer(tag, question, options, checker, noCache, upstream, at, packOk) =>
          var result, ttl := Receive(tag, question, 0, None, noCache, options, checker, upstream, at, packOk);
          next := at;
        case OtherRefresh(tag, question, options, checker, answer, at, packOk) =>
          var ttl := Refresh(tag, question, options, checker, answer, at, packOk);
          next := at;
        case Loss(keys, names, forgotten) =>
          Evict(keys, names, forgotten);
        case Write(name) =>
          Flush(name);
      }
      Meanwhile(operations[1..], next, end);
    }

    /** The part of Exchange behind the server's answer. */
    method Receive(tag: string, q: Question, id: nat, edns: Option<nat>, noCache: bool, options: Options,
                   checker: Checker, upstream: Message, later: int, packOk: bool)
      returns (result: Result, ttl: Ttl)
      requires Valid() && clock <= later
      modifies this
      ensures Valid() && clock <= later && old(history) <= history
      ensures FromUpstream(result, ttl, q.qtype, id, edns, options, checker, upstream)
      ensures !result.Answered? || noCache || !Cacheable(upstream.rcode) ==> history == old(history)
      ensures result.Answered? && !noCache ==> Kept(tag, q, options, upstream, ttl, later, packOk)
      ensures rejected ==
        if result.RejectedAnswer? && !noCache && withRDRC && Cacheable(upstream.rcode)
        then old(rejected) + {NameOf(tag, q)} else old(rejected)
    {
      var response := new Response(upstream);
      var disable := noCache || !Cacheable(response.rcode);
      if checker.Some? && (!Cacheable(response.rcode) || !checker.value(response.Value())) {
        if !disable && withRDRC { rejected := rejected + {NameOf(tag, q)}; }
        return RejectedAnswer(response.Value()), 0;
      }
      ttl := Accept(tag, q, response, !disable, options, checker, later, packOk);
      return Answered(AdjustEDNS(response.Value().(id := id), edns)), ttl;
    }

    /** What Exchange and Refresh do with an answer that was not rejected: rewrite it, and store it if asked to. */
    method Accept(tag: string, q: Question, response: Response, store: bool, options: Options, checker: Checker,
                  at: int, packOk: bool)
      returns (ttl: Ttl)
      requires Valid() && clock <= at && response.Valid()
      requires store ==> Cacheable(response.rcode) && Accepts(checker, response.Value())
      modifies this`memory, this`store, this`history, this`clock, response.answer, response.ns, response.extra
      ensures Valid() && clock <= at && old(history) <= history
      ensures var upstream := old(response.Value());
        && response.Value() == Stamp(FilterAnswer(upstream, q.qtype, options.strategy), ttl)
        && (if options.rewriteTTL.Some? then ttl == options.rewriteTTL.value else IsLifetime(upstream, ttl))
        && (if store then Kept(tag, q, options, upstream, ttl, at, packOk) else history == old(history))
    {
      ghost var upstream := response.Value();
      ttl := ApplyResponseOptions(q.qtype, response, options);
      if store {
        ghost var h := Stored(NameOf(tag, q), response.Value(), ttl, at, upstream, options, checker);
        assert ttl > 0 ==> StoredWell(h);
        StoreCache(tag, q, response.Value(), ttl, at, packOk, h);
      }
    }

    /** The goroutine started by backgroundRefreshDNS after a stale answer was served. */
    method Refresh(tag: string, question: Question, options: Options, checker: Checker, upstream: Option<Message>,
                   now: int, packOk: bool)
      returns (ttl: Ttl)
      requires Valid() && now >= clock
      modifies this
      ensures Valid() && clock <= now && old(history) <= history
      ensures history != old(history) ==>
        upstream.Some? && Cacheable(upstream.value.rcode) && Accepts(checker, upstream.value)
      ensures upstream.Some? && Cacheable(upstream.value.rcode) && Accepts(checker, upstream.value) ==>
        && Kept(tag, question, options, upstream.value, ttl, now, packOk)
        && (if options.rewriteTTL.Some? then ttl == options.rewriteTTL.value else IsLifetime(upstream.value, ttl))
      ensures rejected ==
        if withRDRC && checker.Some? && upstream.Some?
          && !(Cacheable(upstream.value.rcode) && checker.value(upstream.value))
        then old(rejected) + {NameOf(tag, question)} else old(rejected)
    {
      ttl := 0;
      if upstream.None? { return; }
      var response := new Response(upstream.value);
      if checker.Some? {
        if !Cacheable(response.rcode) || !checker.value(response.Value()) {
          if withRDRC { rejected := rejected + {NameOf(tag, question)}; }
          return;
        }
      } else if !Cacheable(response.rcode) {
        return;
      }
      ttl := Accept(tag, question, response, true, options, checker, now, packOk);
    }

    /** The caches may drop entries at any time, and rejections expire. */
    method Evict(keys: set<Key>, names: set<Name>, forgotten: set<Name>)
      requires Valid()
      modifies this`memory, this`store, this`rejected
      ensures Valid()
      ensures memory == old(memory) - keys && store == old(store) - names && rejected == old(rejected) - forgotten
    {
      memory, store, rejected := memory - keys, store - names, rejected - forgotten;
    }

    /** A pending save reaches the disk: its expiry keeps whole seconds only. */
    method Flush(name: Name)
      requires Valid()
      modifies this`store
      ensures Valid()
      ensures store == if name in old(store) then old(store)[name := Flushed(old(store)[name])] else old(store)
    {
      if name in store {
        FlushedIsBacked(history, name, store[name]);
        store := store[name := Flushed(store[name])];
      }
    }
  }
}
