/** The rules of a virtual host (Rewrite) and the host itself (VirtualHost): preparing the rules
    and filling the two tries that route requests in and URLs out. */
module Service {
  import opened Base
  import opened Strings
  import opened UrlLib
  import opened Wsgi
  import opened Utils

  /** What Rewrite.prepare computes for a rule. */
  datatype Prepared = Prepared(path: seq<string>, url: string, serverUrl: string, serverScript: seq<string>)

  /** The server part of url: its scheme and netloc, unparsed again. */
  function ServerUrl(url: string): string
  {
    var parts := UrlParse(url);
    UrlUnparse(Url(parts.scheme, parts.netloc, "", "", "", ""))
  }

  /** The path of url, as urlparse reads it. */
  function UrlPath(url: string): string
  {
    UrlParse(url).path
  }

  /** Rewrite.prepare for the rule (original, rewrite) of the host at hostUrl: the internal path,
      the external URL, its server part and its script names; the rewrite path must traverse. */
  function PrepareRule(original: string, rewrite: string, hostUrl: string, tree: Tree): (r: Result<Prepared>)
    ensures r.Ok? ==> r.value.path in tree && AllSegments(r.value.path) && AllSegments(r.value.serverScript)
    ensures r.Ok? ==> r.value.url == RStrip(hostUrl + original, '/')
  {
    var path :- Path2Tuple(rewrite);
    var url := RStrip(hostUrl + original, '/');
    var script :- SplitPathInfo(UrlPath(url));
    if path !in tree then Err(InvalidRewritePath(rewrite))
    else Ok(Prepared(path, url, ServerUrl(url), script))
  }

  /** A rewrite path that does not traverse is refused. */
  lemma PrepareRuleOffTree(original: string, rewrite: string, hostUrl: string, tree: Tree)
    requires Path2Tuple(rewrite).Ok? && Path2Tuple(rewrite).value !in tree
    requires SplitPathInfo(UrlPath(RStrip(hostUrl + original, '/'))).Ok?
    ensures PrepareRule(original, rewrite, hostUrl, tree) == Err(InvalidRewritePath(rewrite))
  {
  }

  /** urlunparse puts a host URL back together from its scheme, netloc and path. */
  lemma UnparseOrigin(scheme: string, netloc: string, path: string)
    requires scheme != "" && netloc != "" && (path == "" || path[0] == '/')
    ensures UrlUnparse(Url(scheme, netloc, path, "", "", "")) == OriginUrl(scheme, netloc, path)
  {
  }

  /** The server part and the path of a host URL are its scheme://netloc and its path. */
  lemma OriginParts(scheme: string, netloc: string, path: string)
    requires ParsableOrigin(scheme, netloc, path) && netloc != ""
    ensures ServerUrl(OriginUrl(scheme, netloc, path)) == scheme + "://" + netloc
    ensures UrlPath(OriginUrl(scheme, netloc, path)) == path
  {
    ParseOriginUrl(scheme, netloc, path);
    UnparseOrigin(scheme, netloc, "");
  }

  /** The path string of a + b is that of a followed by that of b. */
  lemma {:induction false} PathStringAppend(a: seq<string>, b: seq<string>)
    ensures PathString(a + b) == PathString(a) + PathString(b)
  {
    if a != [] {
      assert (a + b)[0] == a[0] && (a + b)[1..] == a[1..] + b;
      PathStringAppend(a[1..], b);
    } else {
      assert a + b == b;
    }
  }

  /** A character that is neither '/' nor in any name is not in their path string. */
  lemma {:induction false} PathStringAvoids(segs: seq<string>, c: char)
    requires c != '/' && forall i | 0 <= i < |segs| :: c !in segs[i]
    ensures c !in PathString(segs)
  {
    if segs != [] {
      PathStringAvoids(segs[1..], c);
    }
  }

  /** The path string of names is empty or ends in a name character, never in '/'. */
  lemma {:induction false} PathStringEnd(segs: seq<string>)
    requires AllSegments(segs)
    ensures PathString(segs) == "" || PathString(segs)[|PathString(segs)| - 1] != '/'
  {
    if segs != [] {
      PathStringEnd(segs[1..]);
      var s := "/" + segs[0] + PathString(segs[1..]);
      if PathString(segs[1..]) == "" {
        assert s[|s| - 1] == segs[0][|segs[0]| - 1];
      } else {
        assert s[|s| - 1] == PathString(segs[1..])[|PathString(segs[1..])| - 1];
      }
    }
  }

  /** Names that a host URL can carry in its path: no '?', '#' or ';'. */
  predicate PlainSegments(segs: seq<string>)
  {
    AllSegments(segs) && forall i | 0 <= i < |segs| :: '?' !in segs[i] && '#' !in segs[i] && ';' !in segs[i]
  }

  /** A host URL whose path is made of plain names parses into its parts. */
  lemma PlainParsable(scheme: string, netloc: string, segs: seq<string>)
    requires (scheme == "http" || scheme == "https")
    requires forall k | 0 <= k < |netloc| :: netloc[k] !in "/?#"
    requires PlainSegments(segs)
    ensures ParsableOrigin(scheme, netloc, PathString(segs))
  {
    var path := PathString(segs);
    PathStringAvoids(segs, '?');
    PathStringAvoids(segs, '#');
    PathStringAvoids(segs, ';');
    forall k | 0 <= k < |path| ensures path[k] !in "?#;" {
      assert path[k] in path;
    }
  }

  /** The host URL scheme://netloc/hostSegs with the rule original /ruleSegs. */
  lemma RuleUrl(scheme: string, netloc: string, hostSegs: seq<string>, ruleSegs: seq<string>)
    requires netloc != "" && netloc[|netloc| - 1] != '/'
    requires AllSegments(hostSegs + ruleSegs)
    ensures RStrip(OriginUrl(scheme, netloc, PathString(hostSegs)) + PathString(ruleSegs), '/') ==
            OriginUrl(scheme, netloc, PathString(hostSegs + ruleSegs))
  {
    PathStringAppend(hostSegs, ruleSegs);
    var path := PathString(hostSegs + ruleSegs);
    var url := OriginUrl(scheme, netloc, path);
    assert OriginUrl(scheme, netloc, PathString(hostSegs)) + PathString(ruleSegs) == url;
    PathStringEnd(hostSegs + ruleSegs);
    if path == "" {
      assert url[|url| - 1] == netloc[|netloc| - 1];
    } else {
      assert url[|url| - 1] == path[|path| - 1];
    }
    RStripNoop(url, '/');
  }

  /** prepare succeeds once its three steps do. */
  lemma PrepareRuleOk(original: string, rewrite: string, hostUrl: string, tree: Tree, url: string, script: seq<string>)
    requires Path2Tuple(rewrite).Ok? && Path2Tuple(rewrite).value in tree
    requires url == RStrip(hostUrl + original, '/')
    requires SplitPathInfo(UrlPath(url)) == Ok(script)
    ensures PrepareRule(original, rewrite, hostUrl, tree) == Ok(Prepared(Path2Tuple(rewrite).value, url, ServerUrl(url), script))
  {
  }

  /** For a host URL and a rule original made of plain names, prepare gives the rule the URL
      host + original, the server URL scheme://netloc, and the names of both paths as its script,
      so that the server URL followed by the script is the rule URL. */
  lemma PrepareRuleLocation(original: string, rewrite: string, tree: Tree,
                            scheme: string, netloc: string, hostSegs: seq<string>, ruleSegs: seq<string>)
    requires (scheme == "http" || scheme == "https") && netloc != ""
    requires forall k | 0 <= k < |netloc| :: netloc[k] !in "/?#"
    requires PlainSegments(hostSegs + ruleSegs)
    requires original == PathString(ruleSegs)
    requires Path2Tuple(rewrite).Ok? && Path2Tuple(rewrite).value in tree
    ensures var r := PrepareRule(original, rewrite, OriginUrl(scheme, netloc, PathString(hostSegs)), tree);
      && r.Ok?
      && r.value.url == OriginUrl(scheme, netloc, PathString(hostSegs + ruleSegs))
      && r.value.serverUrl == scheme + "://" + netloc
      && r.value.serverScript == hostSegs + ruleSegs
      && r.value.serverUrl + PathString(r.value.serverScript) == r.value.url
  {
    var segs := hostSegs + ruleSegs;
    var url := OriginUrl(scheme, netloc, PathString(segs));
    assert netloc[|netloc| - 1] !in "/?#";
    RuleUrl(scheme, netloc, hostSegs, ruleSegs);
    PlainParsable(scheme, netloc, segs);
    OriginParts(scheme, netloc, PathString(segs));
    SplitPathInfoRoundTrip(segs);
    PrepareRuleOk(original, rewrite, OriginUrl(scheme, netloc, PathString(hostSegs)), tree, url, segs);
  }

  /** A rule of a virtual host: an external path (original) served from an internal path
      (rewrite), with an optional skin. */
  class Rewrite {
    const original: string
    const rewrite: string
    const skin: Option<string>
    const skinEnforce: bool
    var path: seq<string>
    var url: Option<string>
    var serverUrl: Option<string>
    var serverScript: Option<seq<string>>

    constructor(original: string, rewrite: string, skin: Option<string>, skinEnforce: bool)
      ensures this.original == original && this.rewrite == rewrite
      ensures this.skin == skin && this.skinEnforce == skinEnforce
      ensures path == [] && url == None && serverUrl == None && serverScript == None
    {
      this.original := original;
      this.rewrite := rewrite;
      this.skin := skin;
      this.skinEnforce := skinEnforce;
      path := [];
      url := None;
      serverUrl := None;
      serverScript := None;
    }

    /** The constructor called with its defaults: no skin, and the skin enforced. */
    constructor WithDefaults(original: string, rewrite: string)
      ensures this.original == original && this.rewrite == rewrite
      ensures skin == None && skinEnforce
      ensures path == [] && url == None && serverUrl == None && serverScript == None
    {
      this.original := original;
      this.rewrite := rewrite;
      skin := None;
      skinEnforce := true;
      path := [];
      url := None;
      serverUrl := None;
      serverScript := None;
    }

    /** Whether the fields prepare sets hold p. */
    predicate Holds(p: Prepared)
      reads this
    {
      path == p.path && url == Some(p.url) && serverUrl == Some(p.serverUrl) && serverScript == Some(p.serverScript)
    }

    /** prepare: set the fields one after the other; a failure leaves the fields set before it. */
    method Prepare(hostUrl: string, tree: Tree) returns (r: Result<()>)
      modifies this
      ensures r.Ok? <==> PrepareRule(original, rewrite, hostUrl, tree).Ok?
      ensures r.Ok? ==> Holds(PrepareRule(original, rewrite, hostUrl, tree).value)
      ensures r.Err? ==> r.error == PrepareRule(original, rewrite, hostUrl, tree).error
      ensures Path2Tuple(rewrite).Err? ==> path == old(path) && url == old(url) && serverUrl == old(serverUrl) && serverScript == old(serverScript)
    {
      var p := Path2Tuple(rewrite);
      if p.Err? {
        return Err(p.error);
      }
      var u := RStrip(hostUrl + original, '/');
      var script := SplitPathInfo(UrlPath(u));
      path, url, serverUrl := p.value, Some(u), Some(ServerUrl(u));
      if script.Err? {
        return Err(script.error);
      }
      serverScript := Some(script.value);
      if p.value !in tree {
        return Err(InvalidRewritePath(rewrite));
      }
      return Ok(());
    }
  }

  /** What VirtualHost.prepare does with one rule once the rule is prepared: the key to add
      to by_url, the path to add to by_path, and the error each add reports on a duplicate. */
  datatype Step = Step(urlKey: seq<string>, prepared: Prepared, urlDup: Error, pathDup: Error)

  /** The step of rule rw of the host at hostUrl, whose path names are base. */
  function RuleStep(hostUrl: string, base: seq<string>, rw: Rewrite, tree: Tree): (r: Result<Step>)
    ensures r.Ok? <==> PrepareRule(rw.original, rw.rewrite, hostUrl, tree).Ok? && Path2Tuple(rw.original).Ok?
    ensures r.Ok? ==> PrepareRule(rw.original, rw.rewrite, hostUrl, tree) == Ok(r.value.prepared)
    ensures r.Ok? ==> r.value.urlKey == base + Path2Tuple(rw.original).value
  {
    var prep :- PrepareRule(rw.original, rw.rewrite, hostUrl, tree);
    var segs :- Path2Tuple(rw.original);
    Ok(Step(base + segs, prep, DuplicateUrlEntry(rw.original, hostUrl), DuplicatePathEntry(rw.rewrite, hostUrl)))
  }

  /** The steps of the rules, in order. */
  function RuleSteps(hostUrl: string, base: seq<string>, rules: seq<Rewrite>, tree: Tree): (r: seq<Result<Step>>)
    ensures |r| == |rules|
    decreases |rules|
  {
    if rules == [] then [] else [RuleStep(hostUrl, base, rules[0], tree)] + RuleSteps(hostUrl, base, rules[1..], tree)
  }

  lemma {:induction false} RuleStepsAt(hostUrl: string, base: seq<string>, rules: seq<Rewrite>, tree: Tree, i: nat)
    requires i < |rules|
    ensures RuleSteps(hostUrl, base, rules, tree)[i] == RuleStep(hostUrl, base, rules[i], tree)
    decreases i
  {
    if i > 0 {
      RuleStepsAt(hostUrl, base, rules[1..], tree, i - 1);
    }
  }

  /** One step on the tries u and p for value v: Ok to go on, or the error to stop with, and
      the tries as the step leaves them (a failed by_path add keeps the by_url add). */
  function StepOnce<V>(step: Result<Step>, v: V, u: Node<V>, p: Node<V>): (Result<()>, Node<V>, Node<V>)
  {
    match step
    case Err(e) => (Err(e), u, p)
    case Ok(st) =>
      var u' := Insert(u, st.urlKey, v);
      if u'.Err? then (Err(st.urlDup), u, p)
      else
        var p' := Insert(p, st.prepared.path, v);
        if p'.Err? then (Err(st.pathDup), u'.value, p)
        else (Ok(()), u'.value, p'.value)
  }

  /** The loop of VirtualHost.prepare: the steps in order, stopping at the first error. */
  function IndexSteps<V>(steps: seq<Result<Step>>, values: seq<V>, u: Node<V>, p: Node<V>): (Result<()>, Node<V>, Node<V>)
    requires |steps| == |values|
    decreases |steps|
  {
    if steps == [] then (Ok(()), u, p)
    else
      var next := StepOnce(steps[0], values[0], u, p);
      if next.0.Err? then next
      else IndexSteps(steps[1..], values[1..], next.1, next.2)
  }

  /** The names of the host URL's path, which prefix every external key of the host. */
  function HostBase(hostUrl: string): (r: Result<seq<string>>)
    ensures r.Ok? ==> AllSegments(r.value)
  {
    var key :- Url2Tuple(hostUrl, false);
    Ok(key[3..])
  }

  /** VirtualHost.prepare on the tries u and p. */
  function HostIndex(hostUrl: string, rules: seq<Rewrite>, tree: Tree, u: Node<Rewrite>, p: Node<Rewrite>): (Result<()>, Node<Rewrite>, Node<Rewrite>)
  {
    match HostBase(hostUrl)
    case Err(e) => (Err(e), u, p)
    case Ok(base) => IndexSteps(RuleSteps(hostUrl, base, rules, tree), rules, u, p)
  }

  /** The loop from rule i on is step i followed, if it went well, by the loop from i + 1 on. */
  lemma IndexStepsUnroll<V>(steps: seq<Result<Step>>, values: seq<V>, i: nat, u: Node<V>, p: Node<V>)
    requires |steps| == |values| && i < |steps|
    ensures var next := StepOnce(steps[i], values[i], u, p);
      IndexSteps(steps[i..], values[i..], u, p) ==
      if next.0.Err? then next else IndexSteps(steps[i + 1..], values[i + 1..], next.1, next.2)
  {
    assert steps[i..][0] == steps[i] && steps[i..][1..] == steps[i + 1..];
    assert values[i..][0] == values[i] && values[i..][1..] == values[i + 1..];
  }

  /** Whatever the outcome, the loop only adds: every key held before holds the same value. */
  lemma {:induction false} IndexStepsKeeps<V>(steps: seq<Result<Step>>, values: seq<V>, u: Node<V>, p: Node<V>)
    requires |steps| == |values|
    ensures var (_, u2, p2) := IndexSteps(steps, values, u, p);
      && (forall k | Find(u, k).Some? :: Find(u2, k) == Find(u, k))
      && (forall k | Find(p, k).Some? :: Find(p2, k) == Find(p, k))
    decreases |steps|
  {
    if steps != [] && steps[0].Ok? {
      var st := steps[0].value;
      if Insert(u, st.urlKey, values[0]).Ok? {
        InsertFinds(u, st.urlKey, values[0]);
        if Insert(p, st.prepared.path, values[0]).Ok? {
          InsertFinds(p, st.prepared.path, values[0]);
          var next := StepOnce(steps[0], values[0], u, p);
          IndexStepsKeeps(steps[1..], values[1..], next.1, next.2);
        }
      }
    }
  }

  /** After a successful loop every value is found under its key in u and its path in p. */
  lemma {:induction false} IndexStepsStores<V>(steps: seq<Result<Step>>, values: seq<V>, u: Node<V>, p: Node<V>)
    requires |steps| == |values|
    requires IndexSteps(steps, values, u, p).0.Ok?
    ensures var (_, u2, p2) := IndexSteps(steps, values, u, p);
      forall i | 0 <= i < |steps| ::
        steps[i].Ok? && Find(u2, steps[i].value.urlKey) == Some(values[i]) && Find(p2, steps[i].value.prepared.path) == Some(values[i])
    decreases |steps|
  {
    if steps != [] {
      var st := steps[0].value;
      var next := StepOnce(steps[0], values[0], u, p);
      InsertFinds(u, st.urlKey, values[0]);
      InsertFinds(p, st.prepared.path, values[0]);
      IndexStepsStores(steps[1..], values[1..], next.1, next.2);
      IndexStepsKeeps(steps[1..], values[1..], next.1, next.2);
      forall i | 0 < i < |steps| ensures steps[i] == steps[1..][i - 1] && values[i] == values[1..][i - 1] {
      }
    }
  }

  /** Steps whose keys and paths are pairwise distinct and new to the tries. */
  predicate FreshSteps<V>(steps: seq<Result<Step>>, u: Node<V>, p: Node<V>)
  {
    && (forall i | 0 <= i < |steps| ::
         steps[i].Ok? && Find(u, steps[i].value.urlKey).None? && Find(p, steps[i].value.prepared.path).None?)
    && (forall i, j | 0 <= i < j < |steps| && steps[i].Ok? && steps[j].Ok? ::
         steps[i].value.urlKey != steps[j].value.urlKey && steps[i].value.prepared.path != steps[j].value.prepared.path)
  }

  /** The loop succeeds exactly when every rule prepares and its key and path are fresh. */
  lemma {:induction false} IndexStepsOk<V>(steps: seq<Result<Step>>, values: seq<V>, u: Node<V>, p: Node<V>)
    requires |steps| == |values|
    ensures IndexSteps(steps, values, u, p).0.Ok? <==> FreshSteps(steps, u, p)
    decreases |steps|
  {
    if steps != [] {
      var rest := steps[1..];
      if steps[0].Ok? && Insert(u, steps[0].value.urlKey, values[0]).Ok? && Insert(p, steps[0].value.prepared.path, values[0]).Ok? {
        var st := steps[0].value;
        var next := StepOnce(steps[0], values[0], u, p);
        InsertFinds(u, st.urlKey, values[0]);
        InsertFinds(p, st.prepared.path, values[0]);
        IndexStepsOk(rest, values[1..], next.1, next.2);
        assert forall i | 0 < i < |steps| :: steps[i] == rest[i - 1];
        if FreshSteps(rest, next.1, next.2) {
          assert FreshSteps(steps, u, p) by {
            forall i, j | 0 <= i < j < |steps| && steps[i].Ok? && steps[j].Ok?
              ensures steps[i].value.urlKey != steps[j].value.urlKey && steps[i].value.prepared.path != steps[j].value.prepared.path
            {
              if i > 0 { assert steps[i] == rest[i - 1] && steps[j] == rest[j - 1]; }
            }
          }
        }
        if FreshSteps(steps, u, p) {
          assert FreshSteps(rest, next.1, next.2) by {
            forall i, j | 0 <= i < j < |rest| && rest[i].Ok? && rest[j].Ok?
              ensures rest[i].value.urlKey != rest[j].value.urlKey && rest[i].value.prepared.path != rest[j].value.prepared.path
            {
              assert rest[i] == steps[i + 1] && rest[j] == steps[j + 1];
            }
          }
        }
      } else {
        assert !FreshSteps(steps, u, p) by {
          if steps[0].Ok? {
            assert Find(u, steps[0].value.urlKey).Some? || Find(p, steps[0].value.prepared.path).Some?;
          }
        }
      }
    }
  }

  /** prepare never clears the tries: preparing a host with rules a second time reports the
      first rule's external key as a duplicate. */
  lemma PrepareTwiceFails(hostUrl: string, rules: seq<Rewrite>, tree: Tree, u: Node<Rewrite>, p: Node<Rewrite>)
    requires rules != []
    requires HostIndex(hostUrl, rules, tree, u, p).0.Ok?
    ensures var (_, u2, p2) := HostIndex(hostUrl, rules, tree, u, p);
      HostIndex(hostUrl, rules, tree, u2, p2).0 == Err(DuplicateUrlEntry(rules[0].original, hostUrl))
  {
    var base := HostBase(hostUrl).value;
    var steps := RuleSteps(hostUrl, base, rules, tree);
    IndexStepsStores(steps, rules, u, p);
    assert steps[0] == RuleStep(hostUrl, base, rules[0], tree);
  }

  /** A virtual host: its URL without trailing slashes, its aliases, its rules, and the tries
      from external keys (by_url) and from internal paths (by_path) to rules. */
  class VirtualHost {
    const url: string
    const aliases: seq<string>
    const rewrites: seq<Rewrite>
    const byUrl: TupleMap<Rewrite>
    const byPath: TupleMap<Rewrite>

    ghost predicate Valid()
      reads this, byUrl, byPath
    {
      byUrl != byPath && byUrl.Valid() && byPath.Valid()
    }

    constructor(url: string, aliases: seq<string>, rewrites: seq<Rewrite>)
      ensures this.url == RStrip(url, '/') && this.aliases == aliases && this.rewrites == rewrites
      ensures fresh(byUrl) && fresh(byPath) && Valid()
      ensures byUrl.store == EmptyNode() && byPath.store == EmptyNode() && byUrl.len == 0 && byPath.len == 0
    {
      this.url := RStrip(url, '/');
      this.aliases := aliases;
      this.rewrites := rewrites;
      byUrl := new TupleMap();
      byPath := new TupleMap();
    }

    /** One pass of the loop of prepare: prepare rule i, then add it to both tries. */
    method IndexRule(i: nat, base: seq<string>, tree: Tree, ghost steps: seq<Result<Step>>)
      returns (r: Result<()>)
      requires Valid() && i < |rewrites|
      requires steps == RuleSteps(url, base, rewrites, tree)
      modifies byUrl, byPath, rewrites[i]
      ensures Valid()
      ensures (r, byUrl.store, byPath.store) == StepOnce(steps[i], rewrites[i], old(byUrl.store), old(byPath.store))
    {
      RuleStepsAt(url, base, rewrites, tree, i);
      r := IndexStep(rewrites[i], base, tree, steps[i]);
    }

    /** Prepare the rule rw, then add it to both tries. */
    method IndexStep(rw: Rewrite, base: seq<string>, tree: Tree, ghost step: Result<Step>)
      returns (r: Result<()>)
      requires Valid()
      requires step == RuleStep(url, base, rw, tree)
      modifies byUrl, byPath, rw
      ensures Valid()
      ensures (r, byUrl.store, byPath.store) == StepOnce(step, rw, old(byUrl.store), old(byPath.store))
    {
      label preparing:
      var prepared := rw.Prepare(url, tree);
      if prepared.Err? {
        return Err(prepared.error);
      }
      assert unchanged@preparing(byUrl, byPath);
      var segs := Path2Tuple(rw.original);
      if segs.Err? {
        return Err(segs.error);
      }
      ghost var added := Step(base + segs.value, PrepareRule(rw.original, rw.rewrite, url, tree).value,
        DuplicateUrlEntry(rw.original, url), DuplicatePathEntry(rw.rewrite, url));
      assert step == Ok(added);
      r := AddStep(base + segs.value, rw, added);
    }

    /** The two adds of one rule: by_url under its external key, then by_path under its path. */
    method AddStep(key: seq<string>, rw: Rewrite, ghost step: Step) returns (r: Result<()>)
      requires Valid()
      requires step.urlKey == key && step.prepared.path == rw.path
      requires step.urlDup == DuplicateUrlEntry(rw.original, url) && step.pathDup == DuplicatePathEntry(rw.rewrite, url)
      modifies byUrl, byPath
      ensures Valid()
      ensures (r, byUrl.store, byPath.store) == StepOnce(Ok(step), rw, old(byUrl.store), old(byPath.store))
    {
      label indexing:
      var added := byUrl.Add(key, rw);
      if added.Err? {
        return Err(DuplicateUrlEntry(rw.original, url));
      }
      assert unchanged@indexing(byPath);
      added := byPath.Add(rw.path, rw);
      if added.Err? {
        return Err(DuplicatePathEntry(rw.rewrite, url));
      }
      return Ok(());
    }

    /** The loop of prepare, for the host path names base. */
    method IndexRules(base: seq<string>, tree: Tree) returns (r: Result<()>)
      requires Valid()
      modifies byUrl, byPath, rewrites
      ensures Valid()
      ensures (r, byUrl.store, byPath.store) == IndexSteps(RuleSteps(url, base, rewrites, tree), rewrites, old(byUrl.store), old(byPath.store))
    {
      ghost var steps := RuleSteps(url, base, rewrites, tree);
      var i := 0;
      while i < |rewrites|
        invariant i <= |rewrites| && |steps| == |rewrites|
        invariant Valid()
        invariant IndexSteps(steps, rewrites, old(byUrl.store), old(byPath.store)) ==
                  IndexSteps(steps[i..], rewrites[i..], byUrl.store, byPath.store)
      {
        IndexStepsUnroll(steps, rewrites, i, byUrl.store, byPath.store);
        var indexed := IndexRule(i, base, tree, steps);
        if indexed.Err? {
          return indexed;
        }
        i := i + 1;
      }
      return Ok(());
    }

    /** prepare: prepare every rule and index it in both tries, stopping at the first error and
        leaving whatever was done before it. */
    method Prepare(tree: Tree) returns (r: Result<()>)
      requires Valid()
      modifies byUrl, byPath, rewrites
      ensures Valid()
      ensures (r, byUrl.store, byPath.store) == HostIndex(url, rewrites, tree, old(byUrl.store), old(byPath.store))
    {
      var base := HostBase(url);
      if base.Err? {
        return Err(base.error);
      }
      r := IndexRules(base.value, tree);
    }

    /** query: the rule for an external key, by longest prefix, with the depth it matched. */
    method Query(key: seq<string>) returns (r: Result<(Option<Rewrite>, nat)>)
      ensures r == Lookup(byUrl.store, key, true)
    {
      r := byUrl.Get(key, true);
    }
  }
}
