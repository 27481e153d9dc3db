/** Key construction (path2tuple, url2tuple) and the segment trie TupleMap. */
module Utils {
  import opened Base
  import opened Strings
  import opened UrlLib
  import opened Wsgi

  // ---------------------------------------------------------------- keys

  /** path2tuple: the names of a path as split_path_info resolves them. */
  function Path2Tuple(path: string): (r: Result<seq<string>>)
    ensures r.Ok? ==> AllSegments(r.value)
  {
    SplitPathInfo(path)
  }

  /** path2tuple gives back the names of every path string made of names. */
  lemma Path2TupleRoundTrip(segs: seq<string>)
    requires AllSegments(segs)
    ensures Path2Tuple(PathString(segs)) == Ok(segs)
  {
    SplitPathInfoRoundTrip(segs);
  }

  function DefaultPort(scheme: string): string
  {
    if scheme == "https" then "443" else "80"
  }

  /** The body of url2tuple once url has been parsed into info. */
  function KeyOfParse(url: string, info: Url, strict: bool): (r: Result<seq<string>>)
    ensures r.Err? <==> (strict && info.query != "") || info.fragment != "" || Path2Tuple(info.path).Err?
    ensures r.Ok? ==> |r.value| >= 3 && AllSegments(r.value[3..])
    ensures r.Ok? ==> Path2Tuple(info.path).Ok? && r.value[3..] == Path2Tuple(info.path).value
    ensures r.Ok? ==> r.value[0] != "" && r.value[0] == (if info.scheme == "" then "http" else info.scheme)
    ensures r.Ok? && ':' !in info.netloc ==> r.value[1] == info.netloc && r.value[2] == DefaultPort(r.value[0])
    ensures r.Ok? && ':' in info.netloc ==> ':' !in r.value[1] && r.value[1] + ":" + r.value[2] == info.netloc
  {
    // `strict and info[4] or info[5]`: a fragment is refused whatever strict says.
    if (strict && info.query != "") || info.fragment != "" then Err(InvalidUrl(url))
    else
      var scheme := if info.scheme == "" then "http" else info.scheme;
      var hostPort := if ':' in info.netloc then SplitOnce(info.netloc, ':') else (info.netloc, DefaultPort(scheme));
      var segs :- Path2Tuple(info.path);
      assert ([scheme, hostPort.0, hostPort.1] + segs)[3..] == segs;
      Ok([scheme, hostPort.0, hostPort.1] + segs)
  }

  /** url2tuple: (scheme, host, port) followed by the resolved path names; the scheme is
      never empty. */
  function Url2Tuple(url: string, strict: bool): (r: Result<seq<string>>)
  {
    KeyOfParse(url, UrlParse(url), strict)
  }

  /** The key of a URL whose parse has no query or fragment. */
  lemma Url2TupleOfParse(url: string, strict: bool, scheme: string, netloc: string, path: string)
    requires UrlParse(url) == Url(scheme, netloc, path, "", "", "")
    ensures Url2Tuple(url, strict) == KeyOfParse(url, Url(scheme, netloc, path, "", "", ""), strict)
  {
  }

  /** A host URL without a port gets the default port of its scheme: 80, or 443 for https. */
  lemma Url2TupleDefaultPort(scheme: string, host: string, path: string, strict: bool)
    requires ParsableOrigin(scheme, host, path) && ':' !in host
    ensures SplitPathInfo(path).Ok? ==>
      Url2Tuple(OriginUrl(scheme, host, path), strict) ==
      Ok([scheme, host, if scheme == "https" then "443" else "80"] + SplitPathInfo(path).value)
    ensures SplitPathInfo(path).Err? ==>
      Url2Tuple(OriginUrl(scheme, host, path), strict) == Err(SplitPathInfo(path).error)
  {
    ParseOriginUrl(scheme, host, path);
    Url2TupleOfParse(OriginUrl(scheme, host, path), strict, scheme, host, path);
  }

  /** An explicit port, everything after the first ':' of the netloc, is kept as written. */
  lemma Url2TupleExplicitPort(scheme: string, host: string, port: string, path: string, strict: bool)
    requires ParsableOrigin(scheme, host + ":" + port, path) && ':' !in host
    ensures SplitPathInfo(path).Ok? ==>
      Url2Tuple(OriginUrl(scheme, host + ":" + port, path), strict) ==
      Ok([scheme, host, port] + SplitPathInfo(path).value)
    ensures SplitPathInfo(path).Err? ==>
      Url2Tuple(OriginUrl(scheme, host + ":" + port, path), strict) == Err(SplitPathInfo(path).error)
  {
    var netloc := host + ":" + port;
    ParseOriginUrl(scheme, netloc, path);
    Url2TupleOfParse(OriginUrl(scheme, netloc, path), strict, scheme, netloc, path);
    SplitOnceAt(host, port, ':');
  }

  /** A URL without a scheme, //host/path, is read as http, with port 80. */
  lemma Url2TupleNoScheme(host: string, path: string, strict: bool)
    requires forall k | 0 <= k < |host| :: host[k] !in "/?#:"
    requires path == "" || path[0] == '/'
    requires forall k | 0 <= k < |path| :: path[k] !in "?#;"
    ensures SplitPathInfo(path).Ok? ==> Url2Tuple("//" + host + path, strict) == Ok(["http", host, "80"] + SplitPathInfo(path).value)
    ensures SplitPathInfo(path).Err? ==> Url2Tuple("//" + host + path, strict) == Err(SplitPathInfo(path).error)
  {
    ParseSchemeless(host, path);
    assert ':' !in host by {
      forall k | 0 <= k < |host| ensures host[k] != ':' { assert host[k] !in "/?#:"; }
    }
    Url2TupleOfParse("//" + host + path, strict, "", host, path);
  }

  /** Any '#' followed by something makes url2tuple refuse the URL, strict or not. */
  lemma Url2TupleRejectsFragment(url: string, i: nat, strict: bool)
    requires i < |url| - 1 && url[i] == '#'
    ensures Url2Tuple(url, strict) == Err(InvalidUrl(url))
  {
    HashMakesFragment(url, i);
  }

  // ---------------------------------------------------------------- trie

  /** A level of the nested dictionaries: the value under the reserved None slot, and the
      sub-levels under each path segment. */
  datatype Node<V> = Node(value: Option<V>, children: map<string, Node<V>>)

  function EmptyNode<V>(): Node<V>
  {
    Node(None, map[])
  }

  /** The level the segments of key lead to, if the dictionaries have one. */
  function Reach<V>(n: Node<V>, key: seq<string>): Option<Node<V>>
    decreases |key|
  {
    if key == [] then Some(n)
    else if key[0] in n.children then Reach(n.children[key[0]], key[1..])
    else None
  }

  /** The value stored under exactly key. */
  function Find<V>(n: Node<V>, key: seq<string>): Option<V>
  {
    match Reach(n, key)
    case Some(m) => m.value
    case None => None
  }

  /** The keys that hold a value. */
  ghost function Keys<V>(n: Node<V>): set<seq<string>>
    decreases n
  {
    (if n.value.Some? then {[]} else {})
    + set c, k | c in n.children && k in Keys(n.children[c]) :: [c] + k
  }

  /** The setdefault walk of add: every level on the way to key exists afterwards. */
  function Extend<V>(n: Node<V>, key: seq<string>): Node<V>
    decreases |key|
  {
    if key == [] then n
    else
      var child := if key[0] in n.children then n.children[key[0]] else EmptyNode();
      n.(children := n.children[key[0] := Extend(child, key[1..])])
  }

  /** `store[None] = value` at the level of key. */
  function SetValue<V>(n: Node<V>, key: seq<string>, v: V): Node<V>
    decreases |key|
  {
    if key == [] then n.(value := Some(v))
    else
      var child := if key[0] in n.children then n.children[key[0]] else EmptyNode();
      n.(children := n.children[key[0] := SetValue(child, key[1..], v)])
  }

  /** The deepest of the first j prefixes of key (lengths 0 .. j-1) that holds a value, with
      its length; (None, 0) when none does. */
  function DeepestBelow<V>(n: Node<V>, key: seq<string>, j: nat): (r: (Option<V>, nat))
    requires j <= |key|
    ensures r.1 <= j && (r.1 < j || r == (None, 0))
    ensures r.0.None? ==> r.1 == 0
  {
    if j == 0 then (None, 0)
    else if Find(n, key[..j - 1]).Some? then (Find(n, key[..j - 1]), j - 1)
    else DeepestBelow(n, key, j - 1)
  }

  /** What TupleMap.get(key, None, fallback) returns: None stands for the caller's default. */
  function Lookup<V>(n: Node<V>, key: seq<string>, fallback: bool): (r: Result<(Option<V>, nat)>)
    ensures r.Ok? ==> r.value.1 <= |key|
  {
    if Find(n, key).Some? then
      if key == [] then Err(UnboundIndex) else Ok((Find(n, key), |key|))
    else if fallback then Ok(DeepestBelow(n, key, |key|))
    else Ok((None, 0))
  }

  // ---------------------------------------------------------------- trie lemmas

  /** Walking one more segment from the level of a. */
  lemma {:induction false} ReachAppend<V>(n: Node<V>, a: seq<string>, c: string)
    ensures Reach(n, a + [c]) ==
      match Reach(n, a)
      case Some(m) => if c in m.children then Some(m.children[c]) else None
      case None => None
    decreases |a|
  {
    if a != [] {
      assert (a + [c])[0] == a[0] && (a + [c])[1..] == a[1..] + [c];
      if a[0] in n.children {
        ReachAppend(n.children[a[0]], a[1..], c);
      }
    } else {
      assert a + [c] == [c];
      assert Reach(n, [c][1..]) == Some(n) by { assert [c][1..] == []; }
    }
  }

  /** A level that exists has every level above it. */
  lemma {:induction false} ReachPrefix<V>(n: Node<V>, key: seq<string>, j: nat)
    requires j <= |key| && Reach(n, key).Some?
    ensures Reach(n, key[..j]).Some?
    decreases |key|
  {
    if j > 0 {
      assert key[..j][0] == key[0] && key[..j][1..] == key[1..][..j - 1];
      ReachPrefix(n.children[key[0]], key[1..], j - 1);
    }
  }

  /** The setdefault walk stores no value: every key finds what it found before. */
  lemma {:induction false} FindExtend<V>(n: Node<V>, key: seq<string>, k: seq<string>)
    ensures Find(Extend(n, key), k) == Find(n, k)
    decreases |key|
  {
    if key != [] && k != [] && k[0] == key[0] {
      var child := if key[0] in n.children then n.children[key[0]] else EmptyNode();
      FindExtend(child, key[1..], k[1..]);
      if key[0] !in n.children {
        EmptyFindsNothing<V>(Extend(child, key[1..]), k[1..]);
      }
    }
  }

  /** Below a fresh, empty level nothing is found, however deep the walk made it. */
  lemma {:induction false} EmptyFindsNothing<V>(m: Node<V>, k: seq<string>)
    requires exists key :: m == Extend(EmptyNode(), key)
    ensures Find(m, k) == None
    decreases |k|
  {
    var key :| m == Extend(EmptyNode(), key);
    if k != [] && key != [] && k[0] == key[0] {
      var child := Extend(EmptyNode<V>(), key[1..]);
      assert m.children[k[0]] == child;
      EmptyFindsNothing(child, k[1..]);
    }
  }

  /** After the walk the level of key exists. */
  lemma {:induction false} ExtendReaches<V>(n: Node<V>, key: seq<string>)
    ensures Reach(Extend(n, key), key).Some?
    decreases |key|
  {
    if key != [] {
      var child := if key[0] in n.children then n.children[key[0]] else EmptyNode();
      ExtendReaches(child, key[1..]);
    }
  }

  /** When the level of key already exists, the walk creates nothing. */
  lemma {:induction false} ExtendExisting<V>(n: Node<V>, key: seq<string>)
    requires Reach(n, key).Some?
    ensures Extend(n, key) == n
    decreases |key|
  {
    if key != [] {
      ExtendExisting(n.children[key[0]], key[1..]);
      assert n.children[key[0] := n.children[key[0]]] == n.children;
    }
  }

  /** Storing under key changes what key finds and nothing else. */
  lemma {:induction false} FindSetValue<V>(n: Node<V>, key: seq<string>, v: V, k: seq<string>)
    ensures Find(SetValue(n, key, v), k) == if k == key then Some(v) else Find(n, k)
    decreases |key|
  {
    if key == [] {
      if k != [] {
        assert Reach(SetValue(n, key, v), k) == Reach(n, k);
      }
    } else if k != [] && k[0] == key[0] {
      var child := if key[0] in n.children then n.children[key[0]] else EmptyNode();
      FindSetValue(child, key[1..], v, k[1..]);
      assert k == key <==> k[1..] == key[1..] by {
        if k[1..] == key[1..] { assert k == [k[0]] + k[1..] && key == [key[0]] + key[1..]; }
      }
      if key[0] !in n.children {
        EmptyFindsNothing<V>(EmptyNode(), k[1..]) by { assert EmptyNode<V>() == Extend(EmptyNode(), []); }
      }
    } else if k == [] {
      assert Reach(SetValue(n, key, v), k) == Some(SetValue(n, key, v));
    } else {
      assert k != key;
    }
  }

  /** Keys(n) is exactly the set of keys that find a value. */
  lemma {:induction false} KeysFind<V>(n: Node<V>, k: seq<string>)
    ensures k in Keys(n) <==> Find(n, k).Some?
    decreases |k|
  {
    if k == [] {
      assert forall c, k' | c in n.children && k' in Keys(n.children[c]) :: [c] + k' != [];
    } else {
      if k[0] in n.children {
        KeysFind(n.children[k[0]], k[1..]);
        if k[1..] in Keys(n.children[k[0]]) {
          assert k == [k[0]] + k[1..];
        }
      }
      if k in Keys(n) {
        var c, k' :| c in n.children && k' in Keys(n.children[c]) && k == [c] + k';
        assert c == k[0] && k' == k[1..];
      }
    }
  }

  /** An empty level holds no key. */
  lemma KeysEmpty<V>()
    ensures Keys(EmptyNode<V>()) == {}
  {
    forall k ensures k !in Keys(EmptyNode<V>()) {
      KeysFind(EmptyNode<V>(), k);
    }
  }

  /** Storing under a key that held no value adds exactly that key. */
  lemma KeysSetValue<V>(n: Node<V>, key: seq<string>, v: V)
    ensures Keys(SetValue(n, key, v)) == Keys(n) + {key}
  {
    forall k ensures k in Keys(SetValue(n, key, v)) <==> k in Keys(n) + {key} {
      KeysFind(SetValue(n, key, v), k);
      KeysFind(n, k);
      FindSetValue(n, key, v, k);
    }
  }

  /** The walk adds no key. */
  lemma KeysExtend<V>(n: Node<V>, key: seq<string>)
    ensures Keys(Extend(n, key)) == Keys(n)
  {
    forall k ensures k in Keys(Extend(n, key)) <==> k in Keys(n) {
      KeysFind(Extend(n, key), k);
      KeysFind(n, k);
      FindExtend(n, key, k);
    }
  }

  /** The fallback result is the deepest proper prefix holding a value, or nothing when none does. */
  lemma {:induction false} DeepestBelowIsDeepest<V>(n: Node<V>, key: seq<string>, j: nat)
    requires j <= |key|
    ensures var r := DeepestBelow(n, key, j);
      && (r.0.Some? ==> r.1 < j && Find(n, key[..r.1]) == r.0)
      && (forall q | r.1 < q < j :: Find(n, key[..q]).None?)
      && (r.0.None? ==> forall q | 0 <= q < j :: Find(n, key[..q]).None?)
  {
    if j > 0 && Find(n, key[..j - 1]).None? {
      DeepestBelowIsDeepest(n, key, j - 1);
    }
  }

  /** Prefixes with no value beyond the first j leave the fallback result unchanged. */
  lemma {:induction false} DeepestBelowStable<V>(n: Node<V>, key: seq<string>, j: nat, m: nat)
    requires j <= m <= |key|
    requires forall q | j <= q < m :: Find(n, key[..q]).None?
    ensures DeepestBelow(n, key, m) == DeepestBelow(n, key, j)
    decreases m
  {
    if m > j {
      DeepestBelowStable(n, key, j, m - 1);
    }
  }

  /** An exact value wins over any fallback, and reports the whole key as matched. */
  lemma LookupExactWins<V>(n: Node<V>, key: seq<string>, fallback: bool)
    requires key != [] && Find(n, key).Some?
    ensures Lookup(n, key, fallback) == Ok((Find(n, key), |key|))
  {
  }

  /** Without fallback a key with no value yields the default at depth 0. */
  lemma LookupMiss<V>(n: Node<V>, key: seq<string>)
    requires Find(n, key).None?
    ensures Lookup(n, key, false) == Ok((None, 0))
  {
  }

  /** With fallback and no exact value, the result is the deepest proper prefix that holds a
      value, with its depth, and (default, 0) when there is none. */
  lemma LookupFallbackDeepest<V>(n: Node<V>, key: seq<string>)
    requires Find(n, key).None?
    ensures var r := Lookup(n, key, true);
      && r.Ok?
      && (r.value.0.Some? ==> r.value.1 < |key| && Find(n, key[..r.value.1]) == r.value.0)
      && (forall q | r.value.1 < q <= |key| :: Find(n, key[..q]).None?)
      && (r.value.0.None? ==> r.value.1 == 0 && forall q | 0 <= q <= |key| :: Find(n, key[..q]).None?)
  {
    DeepestBelowIsDeepest(n, key, |key|);
    assert key[..|key|] == key;
  }

  /** What get with fallback reports: a value found at the returned depth, and no value at any
      deeper prefix of the key; no value found means no prefix holds one. */
  lemma LookupDeepest<V>(n: Node<V>, key: seq<string>)
    requires Lookup(n, key, true).Ok?
    ensures var r := Lookup(n, key, true).value;
      && r.1 <= |key|
      && (r.0.Some? ==> Find(n, key[..r.1]) == r.0)
      && (forall q | r.1 < q <= |key| :: Find(n, key[..q]).None?)
      && (r.0.None? ==> r.1 == 0 && Find(n, key[..0]).None?)
  {
    if Find(n, key).Some? {
      assert key[..|key|] == key;
    } else {
      LookupFallbackDeepest(n, key);
    }
  }

  /** The empty key, when the root holds a value, reaches the unbound loop index. */
  lemma EmptyKeyUnbound<V>(n: Node<V>, fallback: bool)
    requires n.value.Some?
    ensures Lookup(n, [], fallback) == Err(UnboundIndex)
  {
  }

  /** add followed by get: the stored value comes back with the whole key as its depth. */
  lemma AddThenLookup<V>(n: Node<V>, key: seq<string>, v: V, fallback: bool)
    requires key != []
    ensures Lookup(SetValue(Extend(n, key), key, v), key, fallback) == Ok((Some(v), |key|))
  {
    FindSetValue(Extend(n, key), key, v, key);
  }

  /** What a successful add leaves in the trie; a key that holds a value is refused. */
  function Insert<V>(n: Node<V>, key: seq<string>, v: V): (r: Result<Node<V>>)
    ensures r.Err? <==> Find(n, key).Some?
  {
    if Find(n, key).Some? then Err(DuplicateKey(key)) else Ok(SetValue(Extend(n, key), key, v))
  }

  /** A successful insert makes key find v and leaves every other key as it was. */
  lemma InsertFinds<V>(n: Node<V>, key: seq<string>, v: V)
    requires Insert(n, key, v).Ok?
    ensures forall k :: Find(Insert(n, key, v).value, k) == if k == key then Some(v) else Find(n, k)
  {
    forall k ensures Find(Insert(n, key, v).value, k) == if k == key then Some(v) else Find(n, k) {
      FindSetValue(Extend(n, key), key, v, k);
      FindExtend(n, key, k);
    }
  }

  /** A sequence without repetitions has as many elements as the set of its elements. */
  lemma {:induction false} DistinctCard<T>(s: seq<T>)
    requires forall i, j | 0 <= i < j < |s| :: s[i] != s[j]
    ensures |set x | x in s| == |s|
  {
    if s != [] {
      var last := s[|s| - 1];
      var init := s[..|s| - 1];
      DistinctCard(init);
      assert (set x | x in s) == (set x | x in init) + {last};
      assert last !in (set x | x in init);
    }
  }

  /** The keys below a child, with the child's name in front. */
  function Prefixed(c: string, keys: seq<seq<string>>): (r: seq<seq<string>>)
    ensures |r| == |keys| && forall i | 0 <= i < |keys| :: r[i] == [c] + keys[i]
  {
    seq(|keys|, i requires 0 <= i < |keys| => [c] + keys[i])
  }

  /** What the walk of list has gathered from n, once every child outside rest is done: each
      key once, with its value, and every key of n that does not go through rest. */
  ghost predicate Listed<V>(n: Node<V>, values: seq<V>, keys: seq<seq<string>>, rest: set<string>)
  {
    && |values| == |keys|
    && (forall i | 0 <= i < |keys| :: Find(n, keys[i]) == Some(values[i]))
    && (forall i, j | 0 <= i < j < |keys| :: keys[i] != keys[j])
    && (forall i | 0 <= i < |keys| :: keys[i] == [] || keys[i][0] !in rest)
    && (forall k :: Find(n, k).Some? && (k == [] || k[0] !in rest) ==> k in keys)
  }

  /** The keys of a child are keys of n once its name is put in front, and they are all of the
      keys of n that start with that name. */
  lemma PrefixedFind<V>(n: Node<V>, c: string, below: seq<V>, belowKeys: seq<seq<string>>)
    requires c in n.children && |below| == |belowKeys|
    requires forall i | 0 <= i < |belowKeys| :: Find(n.children[c], belowKeys[i]) == Some(below[i])
    requires forall k :: Find(n.children[c], k).Some? ==> k in belowKeys
    ensures forall i | 0 <= i < |belowKeys| :: Find(n, Prefixed(c, belowKeys)[i]) == Some(below[i])
    ensures forall k :: Find(n, k).Some? && k != [] && k[0] == c ==> k in Prefixed(c, belowKeys)
  {
    var added := Prefixed(c, belowKeys);
    forall i | 0 <= i < |added| ensures Find(n, added[i]) == Some(below[i]) {
      assert added[i][0] == c && added[i][1..] == belowKeys[i];
    }
    forall k | Find(n, k).Some? && k != [] && k[0] == c ensures k in added {
      assert Find(n.children[c], k[1..]).Some?;
      var i :| 0 <= i < |belowKeys| && belowKeys[i] == k[1..];
      assert added[i] == k;
    }
  }

  /** Distinct keys stay distinct with a name put in front. */
  lemma PrefixedDistinct(c: string, keys: seq<seq<string>>)
    requires forall i, j | 0 <= i < j < |keys| :: keys[i] != keys[j]
    ensures forall i, j | 0 <= i < j < |keys| :: Prefixed(c, keys)[i] != Prefixed(c, keys)[j]
  {
    var added := Prefixed(c, keys);
    forall i, j | 0 <= i < j < |added| ensures added[i] != added[j] {
      assert added[i][1..] == keys[i] && added[j][1..] == keys[j];
    }
  }

  /** One pass of the loop of list: the keys of child c join the keys gathered so far. */
  lemma ListedStep<V>(n: Node<V>, values: seq<V>, keys: seq<seq<string>>, rest: set<string>, c: string,
                      below: seq<V>, belowKeys: seq<seq<string>>)
    requires Listed(n, values, keys, rest) && c in rest && c in n.children && |below| == |belowKeys|
    requires forall i | 0 <= i < |belowKeys| :: Find(n.children[c], belowKeys[i]) == Some(below[i])
    requires forall i, j | 0 <= i < j < |belowKeys| :: belowKeys[i] != belowKeys[j]
    requires forall k :: Find(n.children[c], k).Some? ==> k in belowKeys
    ensures Listed(n, values + below, keys + Prefixed(c, belowKeys), rest - {c})
  {
    var added := Prefixed(c, belowKeys);
    PrefixedFind(n, c, below, belowKeys);
    PrefixedDistinct(c, belowKeys);
    var keys', values' := keys + added, values + below;
    forall i | 0 <= i < |keys'| ensures Find(n, keys'[i]) == Some(values'[i]) {
      if i >= |keys| { assert keys'[i] == added[i - |keys|] && values'[i] == below[i - |keys|]; }
    }
    forall i, j | 0 <= i < j < |keys'| ensures keys'[i] != keys'[j] {
      if j >= |keys| {
        assert keys'[j] == added[j - |keys|];
        if i < |keys| { assert keys'[j][0] == c; } else { assert keys'[i] == added[i - |keys|]; }
      }
    }
    forall i | 0 <= i < |keys'| ensures keys'[i] == [] || keys'[i][0] !in rest - {c} {
      if i >= |keys| { assert keys'[i] == added[i - |keys|]; }
    }
  }

  // ---------------------------------------------------------------- TupleMap

  /** The trie keyed by segment tuples; `len` counts successful adds since the last clear. */
  class TupleMap<V> {
    var store: Node<V>
    var len: nat

    ghost predicate Valid()
      reads this
    {
      len == |Keys(store)|
    }

    constructor()
      ensures Valid() && store == EmptyNode() && len == 0
    {
      store := EmptyNode();
      len := 0;
      new;
      assert Keys(store) == {} by {
        forall k ensures k !in Keys(store) { KeysFind(store, k); }
      }
    }

    method Clear()
      modifies this
      ensures Valid() && store == EmptyNode() && len == 0
    {
      store := EmptyNode();
      len := 0;
      assert Keys(store) == {} by {
        forall k ensures k !in Keys(store) { KeysFind(store, k); }
      }
    }

    /** add: refuse a key that holds a value, else store it and count it. */
    method Add(key: seq<string>, value: V) returns (r: Result<V>)
      requires Valid()
      modifies this
      ensures Valid()
      ensures old(Find(store, key)).Some? ==>
        r == Err(DuplicateKey(key)) && store == old(store) && len == old(len)
      ensures old(Find(store, key)).None? ==>
        && r == Ok(value)
        && store == SetValue(Extend(old(store), key), key, value)
        && len == old(len) + 1
        && Keys(store) == old(Keys(store)) + {key}
    {
      var extended := Extend(store, key);
      FindExtend(store, key, key);
      KeysExtend(store, key);
      if Find(extended, key).Some? {
        ExtendExisting(store, key);
        store := extended;
        return Err(DuplicateKey(key));
      }
      KeysFind(store, key);
      KeysSetValue(extended, key, value);
      store, len := SetValue(extended, key, value), len + 1;
      return Ok(value);
    }

    /** get(key, None, fallback): the walk down the levels, remembering the deepest value met
        on the way when fallback is on. */
    method Get(key: seq<string>, fallback: bool) returns (r: Result<(Option<V>, nat)>)
      ensures r == Lookup(store, key, fallback)
    {
      var level := store;
      var default: Option<V> := None;
      var defaultIndex: nat := 0;
      var i := 0;
      while i < |key|
        invariant 0 <= i <= |key|
        invariant Reach(store, key[..i]) == Some(level)
        invariant (default, defaultIndex) == if fallback then DeepestBelow(store, key, i) else (None, 0)
      {
        ReachAppend(store, key[..i], key[i]);
        assert key[..i + 1] == key[..i] + [key[i]];
        var following := if key[i] in level.children then Some(level.children[key[i]]) else None;
        if fallback && level.value.Some? {
          default := level.value;
          defaultIndex := i;
        }
        if following.None? {
          forall q | i + 1 <= q <= |key| ensures Find(store, key[..q]).None? {
            assert key[..q][..i + 1] == key[..i + 1];
            if Reach(store, key[..q]).Some? {
              ReachPrefix(store, key[..q], i + 1);
            }
          }
          assert key[..|key|] == key;
          DeepestBelowStable(store, key, i + 1, |key|);
          return Ok((default, defaultIndex));
        }
        level := following.value;
        i := i + 1;
      }
      assert key[..i] == key;
      if level.value.Some? {
        if |key| == 0 {
          return Err(UnboundIndex);
        }
        return Ok((level.value, |key|));
      }
      return Ok((default, defaultIndex));
    }

    /** __getitem__: the exact value, KeyError when there is none. */
    method GetItem(key: seq<string>) returns (r: Result<V>)
      ensures r.Ok? <==> key != [] && Find(store, key).Some?
      ensures r.Ok? ==> Find(store, key) == Some(r.value)
      ensures Find(store, key).None? ==> r == Err(MissingKey(key))
      ensures key == [] && Find(store, key).Some? ==> r == Err(UnboundIndex)
    {
      var got := Get(key, false);
      if got.Err? {
        return Err(got.error);
      }
      if got.value.0.None? {
        return Err(MissingKey(key));
      }
      return Ok(got.value.0.value);
    }

    /** __len__: the number of keys holding a value. */
    function Len(): (n: nat)
      requires Valid()
      reads this
      ensures n == |Keys(store)|
    {
      len
    }

    /** list: every stored value, once per key; the order of the dictionaries is not modelled,
        the keys returned beside the values say which key each value came from. */
    method List() returns (values: seq<V>, ghost keys: seq<seq<string>>)
      requires Valid()
      ensures |values| == |keys| == len
      ensures forall i | 0 <= i < |keys| :: Find(store, keys[i]) == Some(values[i])
      ensures forall i, j | 0 <= i < j < |keys| :: keys[i] != keys[j]
      ensures forall k :: Find(store, k).Some? ==> k in keys
    {
      values, keys := Walk(store);
      assert (set x | x in keys) == Keys(store) by {
        forall k ensures k in keys <==> k in Keys(store) { KeysFind(store, k); }
      }
      DistinctCard(keys);
    }

    /** The recursive walk of list over one level and everything below it. */
    static method Walk(n: Node<V>) returns (values: seq<V>, ghost keys: seq<seq<string>>)
      ensures |values| == |keys|
      ensures forall i | 0 <= i < |keys| :: Find(n, keys[i]) == Some(values[i])
      ensures forall i, j | 0 <= i < j < |keys| :: keys[i] != keys[j]
      ensures forall k :: Find(n, k).Some? ==> k in keys
      decreases n
    {
      values, keys := [], [];
      if n.value.Some? {
        values, keys := [n.value.value], [[]];
      }
      var rest := n.children.Keys;
      while rest != {}
        invariant rest <= n.children.Keys
        invariant Listed(n, values, keys, rest)
        decreases rest
      {
        var c :| c in rest;
        var below, belowKeys := Walk(n.children[c]);
        ghost var added := Prefixed(c, belowKeys);
        ListedStep(n, values, keys, rest, c, below, belowKeys);
        values, keys := values + below, keys + added;
        rest := rest - {c};
      }
    }
  }
}
