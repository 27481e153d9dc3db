/** Python 2.7's urlparse.urlparse and urlparse.urlunparse on the 6-field URL record.
    The IPv6 bracket check of urlsplit and its result cache are not modelled. */
module UrlLib {
  import opened Strings

  /** (scheme, netloc, path, params, query, fragment), the tuple urlparse returns. */
  datatype Url = Url(scheme: string, netloc: string, path: string, params: string, query: string, fragment: string)

  /** The characters urlparse accepts in a scheme. */
  predicate IsSchemeChar(ch: char)
  {
    'a' <= ch <= 'z' || 'A' <= ch <= 'Z' || '0' <= ch <= '9' || ch == '+' || ch == '-' || ch == '.'
  }

  predicate IsDigit(ch: char)
  {
    '0' <= ch <= '9'
  }
  const UsesParams: seq<string> :=
    ["ftp", "hdl", "prospero", "http", "imap", "https", "shttp", "rtsp", "rtspu",
     "sip", "sips", "mms", "", "sftp", "tel"]
  const UsesNetloc: seq<string> :=
    ["ftp", "http", "gopher", "nntp", "telnet", "imap", "wais", "file", "mms", "https",
     "shttp", "snews", "prospero", "rtsp", "rtspu", "rsync", "", "svn", "svn+ssh",
     "sftp", "nfs", "git", "git+ssh"]

  /** The scheme, and what follows it. The scheme is the text before the first ':' when it is
      "http", or when it is made of scheme characters and what follows is not a port number. */
  function SplitScheme(url: string): (r: (string, string))
    ensures |r.1| <= |url| && r.1 == url[|url| - |r.1|..]
    ensures '#' !in url[..|url| - |r.1|]
  {
    var i := IndexOf(url, ':');
    if i <= 0 then ("", url)
    else if url[..i] == "http" then
      assert url[..i + 1] == "http:";
      ("http", url[i + 1..])
    else if forall k | 0 <= k < i :: IsSchemeChar(url[k]) then
      var rest := url[i + 1..];
      if rest == "" || exists k | 0 <= k < |rest| :: !IsDigit(rest[k]) then
        assert forall k | 0 <= k < i + 1 :: url[..i + 1][k] == url[k];
        (Lower(url[..i]), rest)
      else ("", url)
    else ("", url)
  }

  /** The first index from start on whose character is one of chars, or |s|. */
  function FirstOf(s: string, chars: string, start: nat): (d: nat)
    requires start <= |s|
    ensures start <= d <= |s|
    ensures forall k | start <= k < d :: s[k] !in chars
    ensures d < |s| ==> s[d] in chars
    decreases |s| - start
  {
    if start == |s| then |s|
    else if s[start] in chars then start
    else FirstOf(s, chars, start + 1)
  }

  /** The netloc after a leading "//" runs to the first '/', '?' or '#' (_splitnetloc). */
  function SplitNetloc(rest: string): (r: (string, string))
    ensures |r.1| <= |rest| && r.1 == rest[|rest| - |r.1|..]
    ensures forall k | 0 <= k < |r.0| :: r.0[k] !in "/?#"
    ensures '#' !in rest[..|rest| - |r.1|]
  {
    if |rest| >= 2 && rest[..2] == "//" then
      var d := FirstOf(rest, "/?#", 2);
      assert forall k | 0 <= k < d :: rest[..d][k] == rest[k];
      (rest[2..d], rest[d..])
    else ("", rest)
  }

  /** s.split(c, 1) when c occurs in s. */
  function SplitOnce(s: string, c: char): (r: (string, string))
    requires c in s
    ensures c !in r.0 && s == r.0 + [c] + r.1
  {
    var i := IndexOf(s, c);
    assert s == s[..i] + [c] + s[i + 1..];
    (s[..i], s[i + 1..])
  }

  /** Splitting at the first c of a + c + b, when a holds no c, gives a and b. */
  lemma SplitOnceAt(a: string, b: string, c: char)
    requires c !in a
    ensures SplitOnce(a + [c] + b, c) == (a, b)
  {
    var s := a + [c] + b;
    assert s == a + ([c] + b);
    IndexOfAppend(a, [c] + b, c);
    assert s[..|a|] == a && s[|a| + 1..] == b;
  }

  /** _splitparams: the parameters start at the first ';' of the last path segment. */
  function SplitParams(url: string): (string, string)
    requires ';' in url
  {
    if '/' in url then
      var i := IndexFrom(url, ';', LastIndexOf(url, '/'));
      if i < 0 then (url, "") else (url[..i], url[i + 1..])
    else
      var i := IndexOf(url, ';');
      (url[..i], url[i + 1..])
  }

  /** s.split(c, 1) padded with an empty second part when c does not occur. */
  function SplitOptional(s: string, c: char): (r: (string, string))
    ensures c !in s ==> r == (s, "")
  {
    if c in s then SplitOnce(s, c) else (s, "")
  }

  /** urlparse.urlparse(url). */
  function UrlParse(url: string): Url
  {
    var scheme := SplitScheme(url).0;
    var afterScheme := SplitScheme(url).1;
    var netloc := SplitNetloc(afterScheme).0;
    var afterNetloc := SplitNetloc(afterScheme).1;
    var fragment := SplitOptional(afterNetloc, '#');
    var query := SplitOptional(fragment.0, '?');
    var params := if ';' in query.0 && scheme in UsesParams then SplitParams(query.0) else (query.0, "");
    Url(scheme, netloc, params.0, params.1, query.1, fragment.1)
  }

  /** urlparse.urlunparse(u). */
  function UrlUnparse(u: Url): string
  {
    var url := if u.params != "" then u.path + ";" + u.params else u.path;
    var url1 :=
      if u.netloc != "" || (u.scheme != "" && u.scheme in UsesNetloc && !(|url| >= 2 && url[..2] == "//")) then
        "//" + u.netloc + (if url != "" && url[0] != '/' then "/" + url else url)
      else url;
    var url2 := if u.scheme != "" then u.scheme + ":" + url1 else url1;
    var url3 := if u.query != "" then url2 + "?" + u.query else url2;
    if u.fragment != "" then url3 + "#" + u.fragment else url3
  }

  /** A URL of the shape scheme://netloc/path, the shape of every configured host URL. */
  function OriginUrl(scheme: string, netloc: string, path: string): string
  {
    scheme + "://" + netloc + path
  }

  /** The character conditions under which OriginUrl parses back into its parts. */
  predicate ParsableOrigin(scheme: string, netloc: string, path: string)
  {
    && (scheme == "http" || scheme == "https")
    && (forall k | 0 <= k < |netloc| :: netloc[k] !in "/?#")
    && (path == "" || path[0] == '/')
    && (forall k | 0 <= k < |path| :: path[k] !in "?#;")
  }

  /** Where the first ':' of a host URL is, and what precedes and follows it. */
  lemma ColonOfOrigin(scheme: string, rest: string)
    requires ':' !in scheme && |scheme| > 0
    ensures var url := scheme + ":" + rest;
      IndexOf(url, ':') == |scheme| && url[..|scheme|] == scheme && url[|scheme| + 1..] == rest
  {
    var url := scheme + ":" + rest;
    assert url == scheme + (":" + rest);
    IndexOfAppend(scheme, ":" + rest, ':');
  }

  /** The scheme of a host URL is split off as written. */
  lemma SchemeOfOrigin(scheme: string, rest: string)
    requires scheme == "http" || scheme == "https"
    requires |rest| > 0 && rest[0] == '/'
    ensures SplitScheme(scheme + ":" + rest) == (scheme, rest)
  {
    ColonOfOrigin(scheme, rest);
    if scheme == "https" {
      var url := scheme + ":" + rest;
      assert url[..5] != "http";
      assert forall k | 0 <= k < 5 :: IsSchemeChar(url[k]) by {
        forall k | 0 <= k < 5 ensures IsSchemeChar(url[k]) { assert url[k] == scheme[k]; }
      }
      assert !IsDigit(url[6..][0]);
      LowerNoop(scheme);
    }
  }

  /** The netloc of a host URL runs up to its path. */
  lemma NetlocOfOrigin(netloc: string, path: string)
    requires forall k | 0 <= k < |netloc| :: netloc[k] !in "/?#"
    requires path == "" || path[0] == '/'
    ensures SplitNetloc("//" + netloc + path) == (netloc, path)
  {
    var rest := "//" + netloc + path;
    var d := FirstOf(rest, "/?#", 2);
    assert d == 2 + |netloc| by {
      if path != "" { assert rest[2 + |netloc|] == '/'; }
      forall k | 2 <= k < 2 + |netloc| ensures rest[k] !in "/?#" { assert rest[k] == netloc[k - 2]; }
    }
    assert rest[..2] == "//";
    assert rest[2..d] == netloc && rest[d..] == path;
  }

  /** A URL whose scheme and netloc split off as given, and whose rest holds no '#', '?' or ';',
      parses into exactly those parts. */
  lemma ParseOfParts(url: string, scheme: string, rest: string, netloc: string, path: string)
    requires SplitScheme(url) == (scheme, rest)
    requires SplitNetloc(rest) == (netloc, path)
    requires '#' !in path && '?' !in path && ';' !in path
    ensures UrlParse(url) == Url(scheme, netloc, path, "", "", "")
  {
  }

  /** A URL that starts with '/' has no scheme: '/' is not a scheme character. */
  lemma SchemeOfSlash(url: string)
    requires |url| > 0 && url[0] == '/'
    ensures SplitScheme(url) == ("", url)
  {
    var i := IndexOf(url, ':');
    if i > 0 {
      assert url[..i][0] == '/';
      assert !IsSchemeChar(url[0]);
    }
  }

  /** urlparse of //netloc/path: no scheme, that netloc and that path. */
  lemma ParseSchemeless(netloc: string, path: string)
    requires forall k | 0 <= k < |netloc| :: netloc[k] !in "/?#"
    requires path == "" || path[0] == '/'
    requires forall k | 0 <= k < |path| :: path[k] !in "?#;"
    ensures UrlParse("//" + netloc + path) == Url("", netloc, path, "", "", "")
  {
    var url := "//" + netloc + path;
    SchemeOfSlash(url);
    NetlocOfOrigin(netloc, path);
    assert forall k | 0 <= k < |path| :: path[k] != '#' && path[k] != '?' && path[k] != ';';
    ParseOfParts(url, "", url, netloc, path);
  }

  /** A well-formed host URL loses its scheme, then its netloc, and what is left is its path. */
  lemma OriginSplits(scheme: string, netloc: string, path: string)
    requires ParsableOrigin(scheme, netloc, path)
    ensures SplitScheme(OriginUrl(scheme, netloc, path)) == (scheme, "//" + netloc + path)
    ensures SplitNetloc("//" + netloc + path) == (netloc, path)
  {
    var rest := "//" + netloc + path;
    assert OriginUrl(scheme, netloc, path) == scheme + ":" + rest;
    SchemeOfOrigin(scheme, rest);
    NetlocOfOrigin(netloc, path);
  }

  /** urlparse recovers scheme, netloc and path of a well-formed host URL. */
  lemma ParseOriginUrl(scheme: string, netloc: string, path: string)
    requires ParsableOrigin(scheme, netloc, path)
    ensures UrlParse(OriginUrl(scheme, netloc, path)) == Url(scheme, netloc, path, "", "", "")
  {
    OriginSplits(scheme, netloc, path);
    assert forall k | 0 <= k < |path| :: path[k] != '#' && path[k] != '?' && path[k] != ';';
    ParseOfParts(OriginUrl(scheme, netloc, path), scheme, "//" + netloc + path, netloc, path);
  }

  /** Whatever follows the scheme and the netloc is a suffix of the URL, and no '#' was consumed. */
  lemma AfterNetloc(url: string)
    ensures var rest1 := SplitNetloc(SplitScheme(url).1).1;
      |rest1| <= |url| && rest1 == url[|url| - |rest1|..] && '#' !in url[..|url| - |rest1|]
  {
    HashFreeSuffix(url, SplitScheme(url).1, SplitNetloc(SplitScheme(url).1).1);
  }

  /** A suffix of a suffix, each cut after text without '#', is a suffix cut after text
      without '#'. */
  lemma HashFreeSuffix(s: string, rest: string, rest1: string)
    requires |rest| <= |s| && rest == s[|s| - |rest|..] && '#' !in s[..|s| - |rest|]
    requires |rest1| <= |rest| && rest1 == rest[|rest| - |rest1|..] && '#' !in rest[..|rest| - |rest1|]
    ensures |rest1| <= |s| && rest1 == s[|s| - |rest1|..] && '#' !in s[..|s| - |rest1|]
  {
    var j, m, n := |s| - |rest|, |s| - |rest1|, |rest| - |rest1|;
    forall k | 0 <= k < m ensures s[..m][k] != '#' {
      if k < j {
        assert s[k] == s[..j][k];
      } else {
        assert s[k] == rest[..n][k - j];
      }
    }
  }

  /** The fragment urlparse reports is what follows the first '#' after the netloc. */
  lemma FragmentAfterNetloc(url: string)
    ensures UrlParse(url).fragment == SplitOptional(SplitNetloc(SplitScheme(url).1).1, '#').1
  {
  }

  /** A '#' followed by something, in a suffix that holds every '#' of s, leaves a fragment. */
  lemma HashInSuffix(s: string, m: nat, i: nat)
    requires m <= |s| && '#' !in s[..m]
    requires i < |s| - 1 && s[i] == '#'
    ensures SplitOptional(s[m..], '#').1 != ""
  {
    assert i >= m;
    var rest1 := s[m..];
    assert rest1[i - m] == '#';
    var parts := SplitOnce(rest1, '#');
    assert |parts.0| <= i - m;
  }

  /** The fragment urlparse reports is not empty as soon as a '#' is followed by anything:
      neither the scheme nor the netloc can swallow a '#'. */
  lemma HashMakesFragment(url: string, i: nat)
    requires i < |url| - 1 && url[i] == '#'
    ensures UrlParse(url).fragment != ""
  {
    var rest1 := SplitNetloc(SplitScheme(url).1).1;
    AfterNetloc(url);
    HashInSuffix(url, |url| - |rest1|, i);
    FragmentAfterNetloc(url);
  }
}
