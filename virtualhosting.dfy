/** Inbound routing: the request plugin that maps the URL a front-end proxy announces to a
    virtual host, a rule of that host, and the content the rule leads to. */
module Hosting {
  import opened Base
  import opened UrlLib
  import opened Utils
  import opened Service
  import opened Forest

  // ---------------------------------------------------------------- the request path

  /** The publisher holds the request path innermost first; the tries are keyed outermost
      first. */
  function Reverse<T>(s: seq<T>): (r: seq<T>)
    ensures |r| == |s|
  {
    seq(|s|, i requires 0 <= i < |s| => s[|s| - 1 - i])
  }

  /** Reversing twice gives the path back. */
  lemma ReverseReverse<T>(s: seq<T>)
    ensures Reverse(Reverse(s)) == s
  {
    assert forall i | 0 <= i < |s| :: Reverse(Reverse(s))[i] == s[i];
  }

  /** The first k names of the key are the last k entries of the path, and the rest of the key
      is the rest of the path. */
  lemma ReverseSplit<T>(s: seq<T>, k: nat)
    requires k <= |s|
    ensures Reverse(s)[..k] == Reverse(s[|s| - k..])
    ensures Reverse(s)[k..] == Reverse(s[..|s| - k])
  {
    var tail, head := s[|s| - k..], s[..|s| - k];
    assert forall i | 0 <= i < k :: Reverse(s)[..k][i] == Reverse(tail)[i];
    assert forall i | 0 <= i < |s| - k :: Reverse(s)[k..][i] == Reverse(head)[i];
  }

  // ---------------------------------------------------------------- rewrite_url

  /** rewrite_url: the path, params, query and fragment of originalUrl under the scheme and
      netloc of baseUrl, or under none when baseUrl is missing or empty. */
  function RewriteUrl(baseUrl: Option<string>, originalUrl: string): string
  {
    var base := if baseUrl.Some? && baseUrl.value != "" then UrlParse(baseUrl.value) else Url("", "", "", "", "", "");
    var original := UrlParse(originalUrl);
    UrlUnparse(Url(base.scheme, base.netloc, original.path, original.params, original.query, original.fragment))
  }

  /** With a base URL, rewrite_url is update_hostname. */
  lemma RewriteUrlIsUpdateHostname(baseUrl: string, originalUrl: string)
    requires baseUrl != ""
    ensures RewriteUrl(Some(baseUrl), originalUrl) == UpdateHostname(baseUrl, originalUrl)
  {
  }

  /** On host URLs: the path of the original under the origin of the base. */
  lemma RewriteUrlOrigin(scheme: string, netloc: string, path: string,
                         scheme2: string, netloc2: string, path2: string)
    requires ParsableOrigin(scheme, netloc, path) && ParsableOrigin(scheme2, netloc2, path2) && netloc != ""
    ensures RewriteUrl(Some(OriginUrl(scheme, netloc, path)), OriginUrl(scheme2, netloc2, path2)) ==
            OriginUrl(scheme, netloc, path2)
  {
    RewriteUrlIsUpdateHostname(OriginUrl(scheme, netloc, path), OriginUrl(scheme2, netloc2, path2));
    UpdateHostnameOrigin(scheme, netloc, path, scheme2, netloc2, path2);
  }

  /** Without a base URL only the path of a host URL is left. */
  lemma RewriteUrlNoBase(baseUrl: Option<string>, scheme: string, netloc: string, path: string)
    requires baseUrl.None? || baseUrl == Some("")
    requires ParsableOrigin(scheme, netloc, path)
    ensures RewriteUrl(baseUrl, OriginUrl(scheme, netloc, path)) == path
  {
    ParseOriginUrl(scheme, netloc, path);
  }

  // ---------------------------------------------------------------- __call__

  /** What a request resolved to: the rule applied to it (null: the application root is
      published; otherwise the content at the rule's internal path), the method, and the path
      left to traverse, innermost first. */
  datatype Routed = Routed(rule: Rewrite?, verb: string, path: seq<string>)

  /** The rule whose key __call__ consumed is the deepest rule of the host for the request:
      its key is the outermost index names of the path, no longer prefix of the path holds a
      rule, and what is left for traversal is the rest of the path. */
  lemma RouteConsumes(store: Node<Rewrite>, path: seq<string>, rule: Rewrite, index: nat)
    requires Lookup(store, Reverse(path), true) == Ok((Some(rule), index))
    ensures index <= |path|
    ensures Find(store, Reverse(path[|path| - index..])) == Some(rule)
    ensures forall q | index < q <= |path| :: Find(store, Reverse(path)[..q]).None?
    ensures Reverse(path)[..index] + Reverse(path[..|path| - index]) == Reverse(path)
  {
    LookupDeepest(store, Reverse(path));
    ReverseSplit(path, index);
  }

  /** A host with no rule for any prefix of the path refuses the request. */
  lemma RouteMisses(store: Node<Rewrite>, path: seq<string>, index: nat)
    requires Lookup(store, Reverse(path), true) == Ok((None, index))
    ensures index == 0 && forall q | 0 <= q <= |path| :: Find(store, Reverse(path)[..q]).None?
  {
    LookupDeepest(store, Reverse(path));
  }

  /** The deepest rule of host h for the request path, and the path left to traverse. */
  method Route(h: VirtualHost, verb: string, path: seq<string>) returns (r: Result<Routed>)
    ensures match Lookup(h.byUrl.store, Reverse(path), true)
      case Err(e) => r == Err(e)
      case Ok((rule, index)) =>
        if rule.None? then r == Err(NotInVirtualHost)
        else r == Ok(Routed(rule.value, verb, path[..|path| - index]))
  {
    var found := h.Query(Reverse(path));
    if found.Err? {
      return Err(found.error);
    }
    var rule, index := found.value.0, found.value.1;
    if rule.None? {
      return Err(NotInVirtualHost);
    }
    var rest := if index != 0 then path[..|path| - index] else path;
    assert rest == path[..|path| - index];
    return Ok(Routed(rule.value, verb, rest));
  }

  class VirtualHosting {
    /** The host of the request, once the front end announced a known one. */
    var host: VirtualHost?
    /** The rule applied to the request: the content published is the one at its internal
        path. */
    var root: Rewrite?

    constructor()
      ensures host == null && root == null
    {
      host := null;
      root := null;
    }

    /** What __call__ leaves once the header gave the key: the host is the one the forest
        service holds for the key, if any; with no host the request goes to the application
        root untouched; otherwise the deepest rule of the host for the request path is applied
        and the rest of the path is left for traversal, and a path no rule covers is refused. */
    twostate predicate Entered(service: ForestService, key: seq<string>, verb: string, path: seq<string>,
                               new r: Result<Routed>)
      reads this, service, set h | h in service.queryHosts.Values :: h.byUrl
    {
      && host == (if key in service.queryHosts then service.queryHosts[key] else null)
      && (host == null ==> r == Ok(Routed(null, verb, path)) && root == old(root))
      && (host != null ==>
            match Lookup(host.byUrl.store, Reverse(path), true)
            case Err(e) => r == Err(e) && root == old(root)
            case Ok((rule, index)) =>
              if rule.None? then r == Err(NotInVirtualHost) && root == old(root)
              else root == rule.value && r == Ok(Routed(rule.value, verb, path[..|path| - index])))
    }

    /** __call__ once the header URL gave the key: the host the forest service holds for it,
        then, when there is one, the deepest rule of that host for the request path. */
    method Enter(service: ForestService, key: seq<string>, verb: string, path: seq<string>)
      returns (r: Result<Routed>)
      modifies this
      ensures Entered(service, key, verb, path, r)
    {
      var h := service.Query(key);
      if h == null {
        host := null;
        return Ok(Routed(null, verb, path));
      }
      r := Route(h, verb, path);
      host := h;
      if r.Ok? {
        root := r.value.rule;
      }
    }

    /** __call__: resolve the URL of the X-VHM-Url header to a host, then the request path to
        the deepest rule of that host. service is the forest service of the site. */
    method Call(service: ForestService, header: Option<string>, verb: string, path: seq<string>)
      returns (r: Result<Routed>)
      modifies this
      ensures header.None? || header.value == "" ==>
        r == Ok(Routed(null, verb, path)) && host == old(host) && root == old(root)
      ensures header.Some? && header.value != "" ==>
        match Url2Tuple(header.value, false)
        case Err(e) => r == Err(e) && host == old(host) && root == old(root)
        case Ok(key) => Entered(service, key, verb, path, r)
    {
      if header.None? || header.value == "" {
        return Ok(Routed(null, verb, path));
      }
      var key := Url2Tuple(header.value, false);
      if key.Err? {
        return Err(key.error);
      }
      r := Enter(service, key.value, verb, path);
    }
  }
}
