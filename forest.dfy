/** The forest service of a Silva site: the switch on the Zope root that turns virtual hosting
    on (activate, deactivate, is_active), the registry of virtual hosts keyed by origin
    (set_hosts, query), its CSV import and export, and update_hostname. */
module Forest {
  import opened Base
  import opened Strings
  import opened UrlLib
  import opened Wsgi
  import opened Utils
  import opened CsvRows
  import opened Service

  // ---------------------------------------------------------------- activation

  /** What the service looks at on the Zope root: whether the root is marked as a forest
      application, and its __silva__ attribute, when it has one. */
  datatype RootState = RootState(marked: bool, silva: Option<seq<string>>)

  /** getattr(root, '__silva__', ()): the attribute, or the empty path when it is missing. */
  function SilvaAttr(s: RootState): seq<string>
  {
    if s.silva.Some? then s.silva.value else []
  }

  /** is_active: the root is marked and names the site at silvaPath. */
  predicate IsActiveIn(s: RootState, silvaPath: seq<string>)
  {
    s.marked && SilvaAttr(s) == silvaPath
  }

  /** get_silva_path, and getPhysicalPath()[1:] in ForestURL.url: a physical path without
      the empty name of the application root. */
  function SilvaPath(physicalPath: seq<string>): (r: seq<string>)
    ensures |physicalPath| > 0 ==> [physicalPath[0]] + r == physicalPath
    ensures |physicalPath| == 0 ==> r == []
  {
    if physicalPath == [] then [] else physicalPath[1..]
  }

  /** activate: refused on a marked root; otherwise the root names the site and is marked. */
  function Activated(s: RootState, silvaPath: seq<string>): (r: Result<RootState>)
    ensures r.Ok? <==> !s.marked
    ensures r.Err? ==> r.error == AlreadyActivated
    ensures r.Ok? ==> IsActiveIn(r.value, silvaPath)
  {
    if s.marked then Err(AlreadyActivated) else Ok(RootState(true, Some(silvaPath)))
  }

  /** deactivate: refused on an unmarked root and on a root that names another site; the
      attribute is then deleted, which fails when it was only defaulted; last the mark goes. */
  function Deactivated(s: RootState, silvaPath: seq<string>): (r: Result<RootState>)
    ensures r.Ok? <==> IsActiveIn(s, silvaPath) && s.silva.Some?
    ensures !s.marked ==> r == Err(NotActivated)
    ensures s.marked && SilvaAttr(s) != silvaPath ==> r == Err(ActivatedByAnother)
    ensures s.marked && SilvaAttr(s) == silvaPath && s.silva.None? ==> r == Err(MissingSilvaAttribute)
    ensures r.Ok? ==> forall p :: !IsActiveIn(r.value, p)
  {
    if !s.marked then Err(NotActivated)
    else if SilvaAttr(s) != silvaPath then Err(ActivatedByAnother)
    else if s.silva.None? then Err(MissingSilvaAttribute)
    else Ok(RootState(false, None))
  }

  /** Activating then deactivating for the same site leaves the root unmarked, without the
      attribute, and the feature inactive for every site. */
  lemma ActivateDeactivate(s: RootState, silvaPath: seq<string>)
    requires !s.marked
    ensures Activated(s, silvaPath).Ok?
    ensures Deactivated(Activated(s, silvaPath).value, silvaPath) == Ok(RootState(false, None))
    ensures forall p :: !IsActiveIn(Deactivated(Activated(s, silvaPath).value, silvaPath).value, p)
  {
  }

  /** A second activate is refused and a foreign site cannot deactivate. */
  lemma ActivateExclusive(s: RootState, silvaPath: seq<string>, other: seq<string>)
    requires !s.marked && other != silvaPath
    ensures Activated(Activated(s, silvaPath).value, other) == Err(AlreadyActivated)
    ensures Deactivated(Activated(s, silvaPath).value, other) == Err(ActivatedByAnother)
  {
  }

  /** The Zope root as the forest service changes it. */
  class Application {
    var marked: bool
    var silva: Option<seq<string>>

    constructor(marked: bool, silva: Option<seq<string>>)
      ensures this.marked == marked && this.silva == silva
    {
      this.marked := marked;
      this.silva := silva;
    }

    function State(): RootState
      reads this
    {
      RootState(marked, silva)
    }
  }

  // ---------------------------------------------------------------- update_hostname

  /** update_hostname: the scheme and netloc of url with the path, params, query and fragment
      of target. */
  function UpdateHostname(url: string, target: string): string
  {
    var original := UrlParse(url);
    var t := UrlParse(target);
    UrlUnparse(Url(original.scheme, original.netloc, t.path, t.params, t.query, t.fragment))
  }

  /** On host URLs, update_hostname moves the path of target under the origin of url. */
  lemma UpdateHostnameOrigin(scheme: string, netloc: string, path: string,
                             scheme2: string, netloc2: string, path2: string)
    requires ParsableOrigin(scheme, netloc, path) && ParsableOrigin(scheme2, netloc2, path2) && netloc != ""
    ensures UpdateHostname(OriginUrl(scheme, netloc, path), OriginUrl(scheme2, netloc2, path2)) ==
            OriginUrl(scheme, netloc, path2)
  {
    ParseOriginUrl(scheme, netloc, path);
    ParseOriginUrl(scheme2, netloc2, path2);
    UnparseOrigin(scheme, netloc, path2);
  }

  // ---------------------------------------------------------------- host registry

  /** The URLs a host is reachable at: its own, then its aliases. */
  function HostUrls(h: VirtualHost): (r: seq<string>)
    ensures |r| == |h.aliases| + 1 && r[0] == h.url
  {
    [h.url] + h.aliases
  }

  /** The key set_hosts files a host URL under: url2tuple of the URL, without the aliases
      check. */
  function OriginKey(url: string): Result<seq<string>>
  {
    Url2Tuple(url, false)
  }

  /** The type of the function that gives a URL its key. */
  type KeyOf = string -> Result<seq<string>>

  /** A URL of the registry and the host it is for. */
  datatype Entry<H> = Entry(url: string, host: H)

  /** The entries of urls, all for the host h. */
  function Keyed<H>(urls: seq<string>, h: H): (r: seq<Entry<H>>)
    ensures |r| == |urls| && forall i | 0 <= i < |urls| :: r[i] == Entry(urls[i], h)
  {
    seq(|urls|, i requires 0 <= i < |urls| => Entry(urls[i], h))
  }

  /** The entries of the URLs of a host. */
  function HostEntries(h: VirtualHost): seq<Entry<VirtualHost>>
  {
    Keyed(HostUrls(h), h)
  }

  /** The entries of each host, host by host. */
  function Registry(hosts: seq<VirtualHost>): (r: seq<seq<Entry<VirtualHost>>>)
    ensures |r| == |hosts| && forall i | 0 <= i < |hosts| :: r[i] == HostEntries(hosts[i])
  {
    seq(|hosts|, i requires 0 <= i < |hosts| => HostEntries(hosts[i]))
  }

  /** The entries of one more host follow those of the hosts before it. */
  lemma RegistrySnoc(hosts: seq<VirtualHost>, i: nat)
    requires i < |hosts|
    ensures Registry(hosts[..i + 1]) == Registry(hosts[..i]) + [HostEntries(hosts[i])]
  {
    var a, b := Registry(hosts[..i + 1]), Registry(hosts[..i]) + [HostEntries(hosts[i])];
    assert forall j | 0 <= j < i :: hosts[..i + 1][j] == hosts[..i][j];
    assert forall j | 0 <= j <= i :: a[j] == b[j];
  }

  /** The inner loop of set_hosts: enter the key of each URL, stopping at a malformed URL or
      at a key already entered. */
  function Enter<H>(keyOf: KeyOf, query: map<seq<string>, H>, entries: seq<Entry<H>>): Result<map<seq<string>, H>>
    decreases |entries|
  {
    if entries == [] then Ok(query)
    else
      var key :- keyOf(entries[0].url);
      if key in query then Err(DoubleHostEntry(entries[0].url))
      else Enter(keyOf, query[key := entries[0].host], entries[1..])
  }

  /** Entering the entries of urls is entering the key of the first URL, then the rest. */
  lemma EnterKeyedNext<H>(keyOf: KeyOf, query: map<seq<string>, H>, urls: seq<string>, h: H)
    requires urls != []
    ensures var first := keyOf(urls[0]);
      Enter(keyOf, query, Keyed(urls, h)) ==
        if first.Err? then Err(first.error)
        else if first.value in query then Err(DoubleHostEntry(urls[0]))
        else Enter(keyOf, query[first.value := h], Keyed(urls[1..], h))
  {
    var entries := Keyed(urls, h);
    assert entries[1..] == Keyed(urls[1..], h);
  }

  /** set_hosts over the entries of the hosts, group by group, given what each host's prepare
      returned: the first failing prepare or the first doubled origin stops it. */
  function Register<H>(keyOf: KeyOf, query: map<seq<string>, H>, groups: seq<seq<Entry<H>>>, prepared: seq<Result<()>>)
    : Result<map<seq<string>, H>>
    requires |prepared| == |groups|
    decreases |groups|
  {
    if groups == [] then Ok(query)
    else if prepared[0].Err? then Err(prepared[0].error)
    else
      match Enter(keyOf, query, groups[0])
      case Err(e) => Err(e)
      case Ok(q) => Register(keyOf, q, groups[1..], prepared[1..])
  }

  /** The entries of all the groups, in order. */
  function AllEntries<H>(groups: seq<seq<Entry<H>>>): seq<Entry<H>>
  {
    if groups == [] then [] else groups[0] + AllEntries(groups[1..])
  }

  /** Entering a + b is entering a, then b. */
  lemma {:induction false} EnterAppend<H>(keyOf: KeyOf, query: map<seq<string>, H>, a: seq<Entry<H>>, b: seq<Entry<H>>)
    ensures Enter(keyOf, query, a + b) ==
      match Enter(keyOf, query, a)
      case Err(e) => Err(e)
      case Ok(q) => Enter(keyOf, q, b)
    decreases |a|
  {
    if a != [] {
      assert (a + b)[0] == a[0] && (a + b)[1..] == a[1..] + b;
      var key := keyOf(a[0].url);
      if key.Ok? && key.value !in query {
        EnterAppend(keyOf, query[key.value := a[0].host], a[1..], b);
      }
    } else {
      assert a + b == b;
    }
  }

  /** Once every prepare went through, set_hosts enters the entries of all hosts in one go. */
  lemma {:induction false} RegisterAllEntries<H>(keyOf: KeyOf, query: map<seq<string>, H>, groups: seq<seq<Entry<H>>>,
                                                 prepared: seq<Result<()>>)
    requires |prepared| == |groups| && forall i | 0 <= i < |prepared| :: prepared[i].Ok?
    ensures Register(keyOf, query, groups, prepared) == Enter(keyOf, query, AllEntries(groups))
    decreases |groups|
  {
    if groups != [] {
      EnterAppend(keyOf, query, groups[0], AllEntries(groups[1..]));
      var e := Enter(keyOf, query, groups[0]);
      if e.Ok? {
        RegisterAllEntries(keyOf, e.value, groups[1..], prepared[1..]);
      }
    }
  }

  /** The keys of the entries are all well formed, new to query and pairwise different. */
  predicate FreshKeys<H>(keyOf: KeyOf, query: map<seq<string>, H>, entries: seq<Entry<H>>)
  {
    && (forall i | 0 <= i < |entries| :: keyOf(entries[i].url).Ok? && keyOf(entries[i].url).value !in query)
    && (forall i, j | 0 <= i < j < |entries| && keyOf(entries[i].url).Ok? && keyOf(entries[j].url).Ok? ::
          keyOf(entries[i].url).value != keyOf(entries[j].url).value)
  }

  /** The keys of entries are fresh when the first one is, and the rest are fresh once it is
      entered. */
  lemma FreshKeysCons<H>(keyOf: KeyOf, query: map<seq<string>, H>, entries: seq<Entry<H>>)
    requires entries != [] && keyOf(entries[0].url).Ok?
    ensures var key := keyOf(entries[0].url).value;
      FreshKeys(keyOf, query, entries) <==> key !in query && FreshKeys(keyOf, query[key := entries[0].host], entries[1..])
  {
    var key := keyOf(entries[0].url).value;
    var query' := query[key := entries[0].host];
    var rest := entries[1..];
    if FreshKeys(keyOf, query, entries) {
      forall i | 0 <= i < |rest| ensures keyOf(rest[i].url).Ok? && keyOf(rest[i].url).value !in query' {
        assert rest[i] == entries[i + 1];
      }
    }
    if key !in query && FreshKeys(keyOf, query', rest) {
      forall i, j | 0 <= i < j < |entries| && keyOf(entries[i].url).Ok? && keyOf(entries[j].url).Ok?
        ensures keyOf(entries[i].url).value != keyOf(entries[j].url).value {
        assert entries[j] == rest[j - 1];
        if i > 0 { assert entries[i] == rest[i - 1]; }
      }
    }
  }

  /** The entries go through exactly when their keys are fresh. */
  lemma {:induction false} EnterFresh<H>(keyOf: KeyOf, query: map<seq<string>, H>, entries: seq<Entry<H>>)
    ensures Enter(keyOf, query, entries).Ok? <==> FreshKeys(keyOf, query, entries)
    decreases |entries|
  {
    if entries != [] && keyOf(entries[0].url).Ok? {
      FreshKeysCons(keyOf, query, entries);
      var key := keyOf(entries[0].url).value;
      if key !in query {
        EnterFresh(keyOf, query[key := entries[0].host], entries[1..]);
      }
    }
  }

  /** Entries that go through add to query the key of each entry mapped to its host, and
      nothing else. */
  lemma {:induction false} EnterMaps<H>(keyOf: KeyOf, query: map<seq<string>, H>, entries: seq<Entry<H>>)
    requires Enter(keyOf, query, entries).Ok?
    ensures var q := Enter(keyOf, query, entries).value;
      && (forall k | k in query :: k in q && q[k] == query[k])
      && (forall i | 0 <= i < |entries| ::
            keyOf(entries[i].url).Ok? && keyOf(entries[i].url).value in q && q[keyOf(entries[i].url).value] == entries[i].host)
      && (forall k | k in q :: k in query || exists i | 0 <= i < |entries| :: keyOf(entries[i].url) == Ok(k))
    decreases |entries|
  {
    if entries != [] {
      var key := keyOf(entries[0].url).value;
      var rest := entries[1..];
      var query' := query[key := entries[0].host];
      EnterMaps(keyOf, query', rest);
      var q := Enter(keyOf, query, entries).value;
      forall i | 0 <= i < |entries|
        ensures keyOf(entries[i].url).Ok? && keyOf(entries[i].url).value in q && q[keyOf(entries[i].url).value] == entries[i].host {
        if i > 0 { assert entries[i] == rest[i - 1]; }
      }
      forall k | k in q ensures k in query || exists i | 0 <= i < |entries| :: keyOf(entries[i].url) == Ok(k) {
        if k !in query && k != key {
          var i :| 0 <= i < |rest| && keyOf(rest[i].url) == Ok(k);
          assert entries[i + 1] == rest[i];
        }
      }
    }
  }

  /** set_hosts goes through exactly when every prepare did and the origin keys of all the
      hosts are well formed and pairwise different. */
  lemma RegisterOk<H>(keyOf: KeyOf, groups: seq<seq<Entry<H>>>, prepared: seq<Result<()>>)
    requires |prepared| == |groups|
    ensures Register(keyOf, map[], groups, prepared).Ok? <==>
      (forall i | 0 <= i < |prepared| :: prepared[i].Ok?) && FreshKeys(keyOf, map[], AllEntries(groups))
  {
    RegisterPrepared(keyOf, map[], groups, prepared);
    if forall i | 0 <= i < |prepared| :: prepared[i].Ok? {
      RegisterAllEntries(keyOf, map[], groups, prepared);
      EnterFresh(keyOf, map[], AllEntries(groups));
    }
  }

  /** When set_hosts goes through, the key of each URL and alias leads to its host, and there
      is no other key. */
  lemma RegisterMaps<H>(keyOf: KeyOf, groups: seq<seq<Entry<H>>>, prepared: seq<Result<()>>)
    requires |prepared| == |groups| && Register(keyOf, map[], groups, prepared).Ok?
    ensures var q := Register(keyOf, map[], groups, prepared).value;
      && (forall e | e in AllEntries(groups) :: keyOf(e.url).Ok? && keyOf(e.url).value in q && q[keyOf(e.url).value] == e.host)
      && (forall k | k in q :: exists e | e in AllEntries(groups) :: keyOf(e.url) == Ok(k))
  {
    RegisterPrepared(keyOf, map[], groups, prepared);
    RegisterAllEntries(keyOf, map[], groups, prepared);
    var all := AllEntries(groups);
    EnterMaps(keyOf, map[], all);
    var q := Register(keyOf, map[], groups, prepared).value;
    forall k | k in q ensures exists e | e in all :: keyOf(e.url) == Ok(k) {
      var i :| 0 <= i < |all| && keyOf(all[i].url) == Ok(k);
      assert all[i] in all;
    }
  }

  /** set_hosts goes through only when every prepare did. */
  lemma {:induction false} RegisterPrepared<H>(keyOf: KeyOf, query: map<seq<string>, H>, groups: seq<seq<Entry<H>>>,
                                               prepared: seq<Result<()>>)
    requires |prepared| == |groups|
    ensures Register(keyOf, query, groups, prepared).Ok? ==> forall i | 0 <= i < |prepared| :: prepared[i].Ok?
    decreases |groups|
  {
    if groups != [] && prepared[0].Ok? {
      var e := Enter(keyOf, query, groups[0]);
      if e.Ok? {
        RegisterPrepared(keyOf, e.value, groups[1..], prepared[1..]);
        assert forall i | 1 <= i < |prepared| :: prepared[i] == prepared[1..][i - 1];
      }
    }
  }

  /** Registering one more host is registering it on what the hosts before it gave. */
  lemma {:induction false} RegisterSnoc<H>(keyOf: KeyOf, query: map<seq<string>, H>, groups: seq<seq<Entry<H>>>,
                                           prepared: seq<Result<()>>, g: seq<Entry<H>>, p: Result<()>)
    requires |prepared| == |groups|
    ensures Register(keyOf, query, groups + [g], prepared + [p]) ==
      match Register(keyOf, query, groups, prepared)
      case Err(e) => Err(e)
      case Ok(q) => Register(keyOf, q, [g], [p])
    decreases |groups|
  {
    if groups == [] {
      assert groups + [g] == [g] && prepared + [p] == [p];
    } else {
      assert (groups + [g])[1..] == groups[1..] + [g] && (prepared + [p])[1..] == prepared[1..] + [p];
      assert (groups + [g])[0] == groups[0] && (prepared + [p])[0] == prepared[0];
      var e := Enter(keyOf, query, groups[0]);
      if prepared[0].Ok? && e.Ok? {
        RegisterSnoc(keyOf, e.value, groups[1..], prepared[1..], g, p);
      }
    }
  }

  /** One more pass of set_hosts on top of a registration that went through. */
  lemma RegisterStep<H>(keyOf: KeyOf, groups: seq<seq<Entry<H>>>, prepared: seq<Result<()>>, q: map<seq<string>, H>,
                        g: seq<Entry<H>>, p: Result<()>)
    requires |prepared| == |groups| && Register(keyOf, map[], groups, prepared) == Ok(q)
    ensures Register(keyOf, map[], groups + [g], prepared + [p]) == if p.Err? then Err(p.error) else Enter(keyOf, q, g)
  {
    RegisterSnoc(keyOf, map[], groups, prepared, g, p);
    var e := Enter(keyOf, q, g);
    if p.Ok? && e.Ok? {
      assert Register(keyOf, e.value, [], []) == Ok(e.value);
    }
  }

  // ---------------------------------------------------------------- the hosts as the CSV sees them

  function RuleSpecOf(rw: Rewrite): RuleSpec
  {
    RuleSpec(rw.original, rw.rewrite, rw.skin, rw.skinEnforce)
  }

  function RuleSpecs(rws: seq<Rewrite>): (r: seq<RuleSpec>)
    ensures |r| == |rws| && forall i | 0 <= i < |rws| :: r[i] == RuleSpecOf(rws[i])
  {
    seq(|rws|, i requires 0 <= i < |rws| => RuleSpecOf(rws[i]))
  }

  function HostSpecOf(h: VirtualHost): HostSpec
  {
    HostSpec(h.url, RuleSpecs(h.rewrites))
  }

  /** What the CSV says of each host. */
  function Specs(hosts: seq<VirtualHost>): (r: seq<HostSpec>)
    ensures |r| == |hosts|
  {
    if hosts == [] then [] else [HostSpecOf(hosts[0])] + Specs(hosts[1..])
  }

  lemma {:induction false} SpecsSnoc(hosts: seq<VirtualHost>, h: VirtualHost)
    ensures Specs(hosts + [h]) == Specs(hosts) + [HostSpecOf(h)]
    decreases |hosts|
  {
    if hosts == [] {
      assert hosts + [h] == [h];
    } else {
      assert (hosts + [h])[0] == hosts[0] && (hosts + [h])[1..] == hosts[1..] + [h];
      SpecsSnoc(hosts[1..], h);
    }
  }

  /** The host the import is filling, as the CSV sees it: its URL, once a row opened it, and
      the rules of its rows so far. */
  function Pending(url: Option<string>, rules: seq<Rewrite>): Option<HostSpec>
  {
    if url.None? then None else Some(HostSpec(url.value, RuleSpecs(rules)))
  }

  /** The two tries of every host are different objects. */
  predicate Separate(hosts: seq<VirtualHost>)
  {
    forall h | h in hosts :: h.byUrl != h.byPath
  }

  /** The tries of the hosts. */
  function Tries(hosts: seq<VirtualHost>): set<TupleMap<Rewrite>>
  {
    (set h | h in hosts :: h.byUrl) + (set h | h in hosts :: h.byPath)
  }

  /** Every trie is consistent. */
  ghost predicate TriesValid(tries: set<TupleMap<Rewrite>>)
    reads tries
  {
    forall t | t in tries :: t.Valid()
  }

  /** The rules of the hosts. */
  ghost function Rules(hosts: seq<VirtualHost>): set<Rewrite>
  {
    set h, rw | h in hosts && rw in h.rewrites :: rw
  }

  /** No two hosts share a trie. */
  predicate Disjoint(hosts: seq<VirtualHost>)
  {
    forall i, j | 0 <= i < j < |hosts| :: {hosts[i].byUrl, hosts[i].byPath} !! {hosts[j].byUrl, hosts[j].byPath}
  }

  /** The stores of the two tries of a host. */
  ghost function Stores(h: VirtualHost): (Node<Rewrite>, Node<Rewrite>)
    reads h.byUrl, h.byPath
  {
    (h.byUrl.store, h.byPath.store)
  }

  /** What VirtualHost.prepare of h returns when its tries start from the given stores. */
  function PrepareResult(h: VirtualHost, tree: Tree, stores: (Node<Rewrite>, Node<Rewrite>)): Result<()>
  {
    HostIndex(h.url, h.rewrites, tree, stores.0, stores.1).0
  }

  /** The inner loop of set_hosts: the key of each URL of h, entered on query one URL after the
      other; a malformed URL or a key already entered stops it. */
  method EnterUrls<H>(keyOf: KeyOf, query: map<seq<string>, H>, urls: seq<string>, h: H)
    returns (r: Result<map<seq<string>, H>>)
    ensures r == Enter(keyOf, query, Keyed(urls, h))
  {
    var q := query;
    var k := 0;
    while k < |urls|
      invariant k <= |urls|
      invariant Enter(keyOf, query, Keyed(urls, h)) == Enter(keyOf, q, Keyed(urls[k..], h))
    {
      EnterKeyedNext(keyOf, q, urls[k..], h);
      assert urls[k..][0] == urls[k] && urls[k..][1..] == urls[k + 1..];
      var key := keyOf(urls[k]);
      if key.Err? {
        return Err(key.error);
      }
      if key.value in q {
        return Err(DoubleHostEntry(urls[k]));
      }
      q := q[key.value := h];
      k := k + 1;
    }
    return Ok(q);
  }

  /** prepared holds what the prepares of the first hosts returned, each from the stores in
      before. */
  ghost predicate PreparedFrom(hosts: seq<VirtualHost>, tree: Tree, prepared: seq<Result<()>>,
                               before: seq<(Node<Rewrite>, Node<Rewrite>)>)
  {
    && |prepared| == |before| <= |hosts|
    && forall k {:trigger PrepareResult(hosts[k], tree, before[k])} | 0 <= k < |prepared| ::
         prepared[k] == PrepareResult(hosts[k], tree, before[k])
  }

  /** A prepare's result appended to the results of the hosts before it. */
  lemma PreparedSnoc(hosts: seq<VirtualHost>, tree: Tree, prepared: seq<Result<()>>,
                     before: seq<(Node<Rewrite>, Node<Rewrite>)>, p: Result<()>,
                     start: (Node<Rewrite>, Node<Rewrite>))
    requires |prepared| < |hosts| && PreparedFrom(hosts, tree, prepared, before)
    requires PreparedFrom([hosts[|prepared|]], tree, [p], [start])
    ensures PreparedFrom(hosts, tree, prepared + [p], before + [start])
  {
    var i := |prepared|;
    forall k | 0 <= k < i + 1
      ensures (prepared + [p])[k] == PrepareResult(hosts[k], tree, (before + [start])[k])
    {
      if k < i {
        assert (before + [start])[k] == before[k];
      } else {
        assert PrepareResult([hosts[i]][0], tree, [start][0]) == [p][0];
      }
    }
  }

  /** set_hosts fails when the prepare of a host it reached fails, that is, when HostIndex
      fails from the stores that host's tries held. */
  lemma PrepareFailureStops(hosts: seq<VirtualHost>, tree: Tree, prepared: seq<Result<()>>,
                            before: seq<(Node<Rewrite>, Node<Rewrite>)>, k: nat)
    requires PreparedFrom(hosts, tree, prepared, before) && k < |prepared|
    requires HostIndex(hosts[k].url, hosts[k].rewrites, tree, before[k].0, before[k].1).0.Err?
    ensures Register(OriginKey, map[], Registry(hosts[..|prepared|]), prepared).Err?
  {
    assert prepared[k] == PrepareResult(hosts[k], tree, before[k]);
    RegisterPrepared(OriginKey, map[], Registry(hosts[..|prepared|]), prepared);
  }

  /** VirtualHost.prepare, with its result stated as a PreparedFrom entry. */
  method PrepareHost(h: VirtualHost, tree: Tree) returns (r: Result<()>)
    requires h.Valid()
    modifies h.byUrl, h.byPath, h.rewrites
    ensures h.Valid()
    ensures PreparedFrom([h], tree, [r], [old(Stores(h))])
  {
    r := h.Prepare(tree);
  }

  /** One pass of set_hosts' loop over the hosts: prepare hosts[i], which indexes its rules
      in its own two tries and touches no other trie; every trie of the hosts stays
      consistent. */
  method PrepareAt(hosts: seq<VirtualHost>, i: nat, tree: Tree) returns (r: Result<()>)
    requires i < |hosts| && Separate(hosts) && TriesValid(Tries(hosts))
    modifies Tries(hosts), Rules(hosts)
    ensures TriesValid(Tries(hosts))
    ensures PreparedFrom([hosts[i]], tree, [r], [old(Stores(hosts[i]))])
  {
    var h := hosts[i];
    assert h.byUrl in Tries(hosts) && h.byPath in Tries(hosts);
    assert forall rw | rw in h.rewrites :: rw in Rules(hosts);
    r := PrepareHost(h, tree);
  }

  /** One pass of set_hosts' loop: prepare hosts[i], then enter the keys of its URL and
      aliases into the registry built from the hosts before it. p is what the prepare
      returned. */
  method RegisterAt(hosts: seq<VirtualHost>, i: nat, tree: Tree, query: map<seq<string>, VirtualHost>,
                    ghost prepared: seq<Result<()>>, ghost before: seq<(Node<Rewrite>, Node<Rewrite>)>)
    returns (p: Result<()>, r: Result<map<seq<string>, VirtualHost>>)
    requires i < |hosts| && |prepared| == i && Separate(hosts) && TriesValid(Tries(hosts))
    requires Register(OriginKey, map[], Registry(hosts[..i]), prepared) == Ok(query)
    requires PreparedFrom(hosts, tree, prepared, before)
    modifies Tries(hosts), Rules(hosts)
    ensures TriesValid(Tries(hosts))
    ensures PreparedFrom(hosts, tree, prepared + [p], before + [old(Stores(hosts[i]))])
    ensures r == Register(OriginKey, map[], Registry(hosts[..i + 1]), prepared + [p])
  {
    RegistrySnoc(hosts, i);
    p := PrepareAt(hosts, i, tree);
    PreparedSnoc(hosts, tree, prepared, before, p, old(Stores(hosts[i])));
    RegisterStep(OriginKey, Registry(hosts[..i]), prepared, query, HostEntries(hosts[i]), p);
    if p.Err? {
      return p, Err(p.error);
    }
    r := EnterUrls(OriginKey, query, HostUrls(hosts[i]), hosts[i]);
  }

  /** The loop of set_hosts: prepare and register the hosts one after the other, up to the
      first error. prepared holds what each prepare returned and before the stores of the
      host's tries it started from. */
  method RegisterAll(hosts: seq<VirtualHost>, tree: Tree)
    returns (r: Result<map<seq<string>, VirtualHost>>, ghost prepared: seq<Result<()>>,
             ghost before: seq<(Node<Rewrite>, Node<Rewrite>)>)
    requires Separate(hosts) && TriesValid(Tries(hosts))
    modifies Tries(hosts), Rules(hosts)
    ensures TriesValid(Tries(hosts))
    ensures |prepared| <= |hosts| && r == Register(OriginKey, map[], Registry(hosts[..|prepared|]), prepared)
    ensures |prepared| < |hosts| ==> r.Err?
    ensures PreparedFrom(hosts, tree, prepared, before)
  {
    var query: map<seq<string>, VirtualHost> := map[];
    prepared, before := [], [];
    var i := 0;
    while i < |hosts|
      invariant i <= |hosts| && |prepared| == i && |before| == i
      invariant TriesValid(Tries(hosts))
      invariant Register(OriginKey, map[], Registry(hosts[..i]), prepared) == Ok(query)
      invariant PreparedFrom(hosts, tree, prepared, before)
    {
      ghost var start := Stores(hosts[i]);
      var p, next := RegisterAt(hosts, i, tree, query, prepared, before);
      prepared, before := prepared + [p], before + [start];
      if next.Err? {
        return next, prepared, before;
      }
      query := next.value;
      i := i + 1;
    }
    assert hosts[..i] == hosts;
    return Ok(query), prepared, before;
  }

  /** A trie as a new host leaves it: nothing stored. */
  predicate Blank(t: TupleMap<Rewrite>)
    reads t
  {
    t.store == EmptyNode() && t.len == 0
  }

  /** The host import_csv closes: the URL of its first row, no alias, the rules of its rows,
      and two new empty tries. */
  method NewHost(url: string, rules: seq<Rewrite>) returns (h: VirtualHost)
    requires RStrip(url, '/') == url
    ensures fresh(h) && fresh(h.byUrl) && fresh(h.byPath) && h.byUrl != h.byPath
    ensures Blank(h.byUrl) && Blank(h.byPath)
    ensures HostSpecOf(h) == HostSpec(url, RuleSpecs(rules)) && h.aliases == [] && h.rewrites == rules
  {
    h := new VirtualHost(url, [], rules);
  }

  /** Closing the open host, when there is one: it joins the hosts built so far. */
  method CloseHost(built: seq<VirtualHost>, url: Option<string>, rules: seq<Rewrite>) returns (built': seq<VirtualHost>)
    requires url.Some? ==> RStrip(url.value, '/') == url.value
    ensures Specs(built') == Specs(built) + Flush(Pending(url, rules))
    ensures forall h | h in built' :: (h in built ||
      (&& fresh(h.byUrl) && fresh(h.byPath) && h.byUrl != h.byPath && Blank(h.byUrl) && Blank(h.byPath)
       && forall rw | rw in h.rewrites :: rw in rules))
    ensures Disjoint(built) ==> Disjoint(built')
  {
    built' := built;
    if url.Some? {
      var host := NewHost(url.value, rules);
      SpecsSnoc(built, host);
      built' := built + [host];
      assert forall i | 0 <= i < |built| :: built'[i] == built[i];
    }
  }

  /** One row of import_csv: a row whose URL differs from the URL of the open host closes
      that host and opens a new one; the rule of the row goes to the open host. */
  method ReadRow(row: seq<string>, built: seq<VirtualHost>, url: Option<string>, rules: seq<Rewrite>)
    returns (built': seq<VirtualHost>, url': Option<string>, rules': seq<Rewrite>)
    requires |row| == 5 && (url.Some? ==> RStrip(url.value, '/') == url.value)
    ensures url'.Some? && RStrip(url'.value, '/') == url'.value
    ensures url.None? || row[0] != url.value ==>
      && Specs(built') == Specs(built) + Flush(Pending(url, rules))
      && Pending(url', rules') == Some(HostSpec(RStrip(row[0], '/'), [RowRule(row)]))
    ensures url.Some? && row[0] == url.value ==>
      && built' == built
      && Pending(url', rules') == Some(HostSpec(url.value, RuleSpecs(rules) + [RowRule(row)]))
    ensures forall h | h in built' :: (h in built ||
      (&& fresh(h.byUrl) && fresh(h.byPath) && h.byUrl != h.byPath && Blank(h.byUrl) && Blank(h.byPath)
       && forall rw | rw in h.rewrites :: rw in rules))
    ensures forall rw | rw in rules' :: rw in rules || fresh(rw)
    ensures Disjoint(built) ==> Disjoint(built')
  {
    var rw := new Rewrite(row[1], row[2], if row[3] == "" then None else Some(row[3]), row[4] == "on");
    assert RuleSpecOf(rw) == RowRule(row);
    built', rules' := built, rules;
    if url.None? || row[0] != url.value {
      built' := CloseHost(built, url, rules);
      url' := Some(RStrip(row[0], '/'));
      RStripIdempotent(row[0], '/');
      rules' := [rw];
      assert RuleSpecs(rules') == [RowRule(row)];
    } else {
      url' := url;
      rules' := rules + [rw];
      assert RuleSpecs(rules') == RuleSpecs(rules) + [RowRule(row)];
    }
  }

  /** The loop of import_csv: every row needs five fields; a row whose URL differs from the
      URL of the host being filled closes that host and opens a new one; every row adds its
      rule to the open host. The hosts are new objects, with new tries and new rules. */
  method ReadHosts(rows: seq<seq<string>>) returns (r: Result<seq<VirtualHost>>)
    ensures match GroupRows(rows)
      case Err(e) => r == Err(e)
      case Ok(specs) => r.Ok? && Specs(r.value) == specs
    ensures r.Ok? ==> forall h | h in r.value ::
      && fresh(h.byUrl) && fresh(h.byPath) && h.byUrl != h.byPath && Blank(h.byUrl) && Blank(h.byPath)
      && forall rw | rw in h.rewrites :: fresh(rw)
    ensures r.Ok? ==> Disjoint(r.value)
  {
    var built: seq<VirtualHost> := [];
    var url: Option<string> := None;
    var rules: seq<Rewrite> := [];
    var line := 0;
    while line < |rows|
      invariant line <= |rows|
      invariant GroupRows(rows) == Group(rows[line..], line, Specs(built), Pending(url, rules))
      invariant url.Some? ==> RStrip(url.value, '/') == url.value
      invariant forall h | h in built ::
        && fresh(h.byUrl) && fresh(h.byPath) && h.byUrl != h.byPath && Blank(h.byUrl) && Blank(h.byPath)
        && forall rw | rw in h.rewrites :: fresh(rw)
      invariant forall rw | rw in rules :: fresh(rw)
      invariant Disjoint(built)
    {
      var row := rows[line];
      assert rows[line..][0] == row && rows[line..][1..] == rows[line + 1..];
      GroupNext(rows[line..], line, Specs(built), Pending(url, rules));
      if |row| != 5 {
        return Err(InvalidOptionCount(line));
      }
      built, url, rules := ReadRow(row, built, url, rules);
      line := line + 1;
    }
    built := CloseHost(built, url, rules);
    assert rows[line..] == [];
    return Ok(built);
  }

  /** import_csv up to set_hosts: the hosts of the rows, as new objects whose tries are empty,
      consistent and shared by no other host. */
  method ReadRows(rows: seq<seq<string>>) returns (r: Result<seq<VirtualHost>>)
    ensures match GroupRows(rows)
      case Err(e) => r == Err(e)
      case Ok(specs) => r.Ok? && Specs(r.value) == specs
    ensures r.Ok? ==> Separate(r.value) && Disjoint(r.value) && TriesValid(Tries(r.value))
    ensures r.Ok? ==> (forall t | t in Tries(r.value) :: fresh(t)) && (forall rw | rw in Rules(r.value) :: fresh(rw))
    ensures r.Ok? ==> forall h | h in r.value :: Stores(h) == (EmptyNode(), EmptyNode())
  {
    r := ReadHosts(rows);
    if r.Err? {
      return;
    }
    var built := r.value;
    forall t | t in Tries(built) ensures fresh(t) && t.Valid() {
      var h :| h in built && (t == h.byUrl || t == h.byPath);
      KeysEmpty<Rewrite>();
    }
    forall rw | rw in Rules(built) ensures fresh(rw) {
      var h :| h in built && rw in h.rewrites;
    }
  }

  /** The forest service of a Silva site. */
  class ForestService {
    /** The Zope root (getPhysicalRoot) and the physical path of the Silva site. */
    const root: Application
    const sitePhysicalPath: seq<string>
    var hosts: seq<VirtualHost>
    var queryHosts: map<seq<string>, VirtualHost>

    constructor(root: Application, sitePhysicalPath: seq<string>)
      ensures this.root == root && this.sitePhysicalPath == sitePhysicalPath
      ensures hosts == [] && queryHosts == map[]
    {
      this.root := root;
      this.sitePhysicalPath := sitePhysicalPath;
      hosts := [];
      queryHosts := map[];
    }

    /** is_active. */
    predicate IsActive()
      reads root
    {
      IsActiveIn(root.State(), SilvaPath(sitePhysicalPath))
    }

    /** activate: mark the root and record the site on it, or refuse. */
    method Activate() returns (r: Result<()>)
      modifies root
      ensures var next := Activated(old(root.State()), SilvaPath(sitePhysicalPath));
        && (next.Ok? ==> r == Ok(()) && root.State() == next.value && IsActive())
        && (next.Err? ==> r == Err(next.error) && root.State() == old(root.State()))
    {
      if root.marked {
        return Err(AlreadyActivated);
      }
      root.silva := Some(SilvaPath(sitePhysicalPath));
      root.marked := true;
      return Ok(());
    }

    /** deactivate: unmark the root and drop the site from it, or refuse. */
    method Deactivate() returns (r: Result<()>)
      modifies root
      ensures var next := Deactivated(old(root.State()), SilvaPath(sitePhysicalPath));
        && (next.Ok? ==> r == Ok(()) && root.State() == next.value && !IsActive())
        && (next.Err? ==> r == Err(next.error) && root.State() == old(root.State()))
    {
      if !root.marked {
        return Err(NotActivated);
      }
      var path := if root.silva.Some? then root.silva.value else [];
      if path != SilvaPath(sitePhysicalPath) {
        return Err(ActivatedByAnother);
      }
      if root.silva.None? {
        return Err(MissingSilvaAttribute);
      }
      root.silva := None;
      root.marked := false;
      return Ok(());
    }

    /** export_csv: one row per rule, host after host, in order. */
    method ExportCsv() returns (rows: seq<seq<string>>)
      ensures rows == ExportRows(Specs(hosts))
    {
      rows := [];
      var i := 0;
      while i < |hosts|
        invariant i <= |hosts| && rows == ExportRows(Specs(hosts[..i]))
      {
        var host := hosts[i];
        ghost var before := rows;
        var j := 0;
        while j < |host.rewrites|
          invariant j <= |host.rewrites|
          invariant rows == before + RuleRows(host.url, RuleSpecs(host.rewrites[..j]))
        {
          var rw := host.rewrites[j];
          var row := [ToStr(Text(host.url)), ToStr(Text(rw.original)), ToStr(Text(rw.rewrite)),
                      ToStr(SkinField(rw.skin)), ToStr(Flag(rw.skinEnforce))];
          assert row == RuleRow(host.url, RuleSpecOf(rw));
          RuleRowsSnoc(host.url, RuleSpecs(host.rewrites[..j]), RuleSpecOf(rw));
          assert RuleSpecs(host.rewrites[..j + 1]) == RuleSpecs(host.rewrites[..j]) + [RuleSpecOf(rw)];
          rows := rows + [row];
          j := j + 1;
        }
        assert host.rewrites[..j] == host.rewrites;
        assert hosts[..i + 1] == hosts[..i] + [host];
        SpecsSnoc(hosts[..i], host);
        ExportRowsSnoc(Specs(hosts[..i]), HostSpecOf(host));
        i := i + 1;
      }
      assert hosts[..i] == hosts;
    }

    /** import_csv: read the hosts of the rows, then set them; a row without five fields stops
        it before anything changes. built holds the hosts read. */
    method ImportCsv(rows: seq<seq<string>>, tree: Tree)
      returns (r: Result<()>, ghost built: seq<VirtualHost>, ghost prepared: seq<Result<()>>,
               ghost before: seq<(Node<Rewrite>, Node<Rewrite>)>)
      modifies this
      ensures match GroupRows(rows)
        case Err(e) => r == Err(e) && hosts == old(hosts) && queryHosts == old(queryHosts)
        case Ok(specs) =>
          && Specs(built) == specs && PreparedFrom(built, tree, prepared, before)
          && var outcome := Register(OriginKey, map[], Registry(built[..|prepared|]), prepared);
          && (|prepared| < |built| ==> outcome.Err?)
          && (outcome.Ok? ==> r == Ok(()) && hosts == built && queryHosts == outcome.value)
          && (outcome.Err? ==> r == Err(outcome.error) && hosts == old(hosts) && queryHosts == old(queryHosts))
    {
      built, prepared, before := [], [], [];
      var read := ReadRows(rows);
      if read.Err? {
        return Err(read.error), built, prepared, before;
      }
      built := read.value;
      r, prepared, before := SetHosts(read.value, tree);
    }

    /** query: the host registered under exactly this origin key, if any. */
    method Query(key: seq<string>) returns (r: VirtualHost?)
      ensures key in queryHosts ==> r == queryHosts[key]
      ensures key !in queryHosts ==> r == null
    {
      if key in queryHosts {
        return queryHosts[key];
      }
      return null;
    }

    /** set_hosts: prepare each host, then enter the keys of its URL and aliases; the first
        error stops it and keeps the registry as it was, while the hosts prepared so far keep
        what their prepare did. prepared holds what each prepare returned and before the
        stores of the host's tries it started from. */
    method SetHosts(newHosts: seq<VirtualHost>, tree: Tree)
      returns (r: Result<()>, ghost prepared: seq<Result<()>>, ghost before: seq<(Node<Rewrite>, Node<Rewrite>)>)
      requires Separate(newHosts) && TriesValid(Tries(newHosts))
      modifies this, Tries(newHosts), Rules(newHosts)
      ensures TriesValid(Tries(newHosts))
      ensures |prepared| <= |newHosts|
      ensures PreparedFrom(newHosts, tree, prepared, before)
      ensures var outcome := Register(OriginKey, map[], Registry(newHosts[..|prepared|]), prepared);
        && (|prepared| < |newHosts| ==> outcome.Err?)
        && (outcome.Ok? ==> r == Ok(()) && hosts == newHosts && queryHosts == outcome.value)
        && (outcome.Err? ==> r == Err(outcome.error) && hosts == old(hosts) && queryHosts == old(queryHosts))
    {
      var outcome;
      outcome, prepared, before := RegisterAll(newHosts, tree);
      if outcome.Err? {
        return Err(outcome.error), prepared, before;
      }
      label registered:
      hosts := newHosts;
      queryHosts := outcome.value;
      assert unchanged@registered(Tries(newHosts));
      return Ok(()), prepared, before;
    }
  }
}
