/** Outbound URLs: the absolute URL of a content seen through the virtual host that served the
    request, found by the longest internal path of a rule that covers the content. */
module AbsoluteUrl {
  import opened Base
  import opened Strings
  import opened Utils
  import opened Service
  import opened Forest
  import opened Hosting

  /** list.insert(i, x) at a position that is not negative: past the end it appends. */
  function InsertAt<T>(s: seq<T>, i: nat, x: T): (r: seq<T>)
    ensures |r| == |s| + 1
  {
    var j := if i < |s| then i else |s|;
    s[..j] + [x] + s[j..]
  }

  /** The inserted element sits at the position asked for, clamped to the end, and taking it
      out gives the list back. */
  lemma InsertAtRemove<T>(s: seq<T>, i: nat, x: T)
    ensures var j := if i < |s| then i else |s|;
      && InsertAt(s, i, x)[j] == x
      && InsertAt(s, i, x)[..j] + InsertAt(s, i, x)[j + 1..] == s
  {
    var j := if i < |s| then i else |s|;
    var r := InsertAt(s, i, x);
    assert r[..j] == s[..j] && r[j + 1..] == s[j..];
  }

  /** max(len(root physical path) - index, 0): where the preview marker goes among the names
      left after the rule's internal path. */
  function PreviewPosition(rootDepth: nat, index: nat): (p: nat)
    ensures index <= rootDepth ==> index + p == rootDepth
    ensures rootDepth <= index ==> p == 0
  {
    if rootDepth > index then rootDepth - index else 0
  }

  /** The names after the rule URL: what the rule's internal path leaves of the path of the
      content, with the preview marker spliced in when asked for. */
  function UrlNames(rest: seq<string>, preview: bool, rootDepth: nat, index: nat, previewNs: string): seq<string>
  {
    if preview then InsertAt(rest, PreviewPosition(rootDepth, index), previewNs) else rest
  }

  /** rule.url + '/' + '/'.join(names). */
  function ExternalUrl(ruleUrl: string, names: seq<string>): string
  {
    ruleUrl + "/" + Join(names, '/')
  }

  /** The URL starts with the URL of the rule, and what follows its '/' splits back into the
      names, as long as there is one and none holds a '/'. */
  lemma ExternalUrlNames(ruleUrl: string, names: seq<string>)
    requires |names| >= 1 && forall k | 0 <= k < |names| :: '/' !in names[k]
    ensures var u := ExternalUrl(ruleUrl, names);
      && u[..|ruleUrl| + 1] == ruleUrl + "/"
      && Split(u[|ruleUrl| + 1..], '/') == names
  {
    var u := ExternalUrl(ruleUrl, names);
    assert u[|ruleUrl| + 1..] == Join(names, '/');
    SplitJoin(names, '/');
  }

  /** In preview, the names are those of the content with the marker at its position; taking
      the marker out leaves the names of the plain URL. */
  lemma PreviewNames(rest: seq<string>, rootDepth: nat, index: nat, previewNs: string)
    ensures var names := UrlNames(rest, true, rootDepth, index, previewNs);
      var j := if PreviewPosition(rootDepth, index) < |rest| then PreviewPosition(rootDepth, index) else |rest|;
      && names[j] == previewNs
      && names[..j] + names[j + 1..] == UrlNames(rest, false, rootDepth, index, previewNs)
  {
    InsertAtRemove(rest, PreviewPosition(rootDepth, index), previewNs);
  }

  /** The rule that ForestURL.url uses is the one of the longest internal path that starts the
      path of the content, and the names after the rule URL are the rest of that path. */
  lemma ForestUrlDeepest(store: Node<Rewrite>, path: seq<string>, rule: Rewrite, index: nat)
    requires Lookup(store, path, true) == Ok((Some(rule), index))
    ensures index <= |path| && path[..index] + path[index..] == path
    ensures Find(store, path[..index]) == Some(rule)
    ensures forall q | index < q <= |path| :: Find(store, path[..q]).None?
  {
    LookupDeepest(store, path);
  }

  /** ForestURL.url. hosting is the virtual hosting plugin of the request, null when there is
      none or when it is not the forest's; physicalPath is the physical path of the content and
      rootPath that of its Silva root; previewNs names the preview namespace. Ok(None) stands
      for the URL the base class computes. */
  method ForestUrl(hosting: VirtualHosting?, physicalPath: seq<string>, rootPath: seq<string>,
                   preview: bool, previewNs: string)
    returns (r: Result<Option<string>>)
    ensures hosting == null || hosting.host == null ==> r == Ok(None)
    ensures hosting != null && hosting.host != null ==>
      var path := SilvaPath(physicalPath);
      match Lookup(hosting.host.byPath.store, path, true)
      case Err(e) => r == Err(e)
      case Ok((rule, index)) =>
        if rule.None? then r == Err(NoVirtualHostFor(physicalPath))
        else if rule.value.url.None? then r == Err(UnpreparedRule)
        else r == Ok(Some(ExternalUrl(rule.value.url.value, UrlNames(path[index..], preview, |rootPath|, index, previewNs))))
  {
    if hosting == null || hosting.host == null {
      return Ok(None);
    }
    var path := SilvaPath(physicalPath);
    var found := hosting.host.byPath.Get(path, true);
    if found.Err? {
      return Err(found.error);
    }
    var rule, index := found.value.0, found.value.1;
    if rule.None? {
      return Err(NoVirtualHostFor(physicalPath));
    }
    if rule.value.url.None? {
      return Err(UnpreparedRule);
    }
    var names := path[index..];
    if preview {
      var position := if |rootPath| - index > 0 then |rootPath| - index else 0;
      names := InsertAt(names, position, previewNs);
    }
    return Ok(Some(rule.value.url.value + "/" + Join(names, '/')));
  }
}
