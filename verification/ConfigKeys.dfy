/** Paths, store keys and listing prefixes (server/server.go:80-110, server/watch.go:54-63). */
module ConfigKeys {
  import opened Wrappers
  import opened Text
  import opened Entries

  const CONFIG_ROUTE := "/api/v1/config/"
  const WATCH_ROUTE := "/api/v1/watch/"

  datatype ConfigPath = ConfigPath(tenant: string, namespace: string, name: string)

  predicate SlashFree(s: string) {
    '/' !in s
  }

  predicate HasSuffix(s: string, suffix: string) {
    |suffix| <= |s| && s[|s| - |suffix|..] == suffix
  }

  function TrimPrefix(s: string, prefix: string): string {
    if HasPrefix(s, prefix) then s[|prefix|..] else s
  }

  function TrimSuffix(s: string, suffix: string): string {
    if HasSuffix(s, suffix) then s[..|s| - |suffix|] else s
  }

  /** The position of the first slash, or the length when there is none. */
  function IndexOfSlash(s: string): (i: nat)
    ensures i <= |s| && SlashFree(s[..i]) && (i < |s| ==> s[i] == '/')
    ensures forall j | 0 <= j < i :: s[j] != '/'
    ensures i == |s| <==> SlashFree(s)
  {
    if s == [] || s[0] == '/' then 0 else 1 + IndexOfSlash(s[1..])
  }

  /** Splits at the first slashes into at most `n` parts. */
  function SplitN(s: string, n: nat): (parts: seq<string>)
    requires n > 0
    ensures 1 <= |parts| <= n
    ensures forall i | 0 <= i < |parts| - 1 :: SlashFree(parts[i])
    ensures |parts| < n ==> SlashFree(parts[|parts| - 1])
  {
    var i := IndexOfSlash(s);
    if n == 1 || i == |s| then [s] else [s[..i]] + SplitN(s[i + 1..], n - 1)
  }

  /** A path never splits into more than three parts, so the source's error branch is never taken. */
  function ParsePath(path: string): ConfigPath {
    ParseRest(TrimPrefix(path, CONFIG_ROUTE))
  }

  function ParseRest(rest: string): ConfigPath {
    var parts := SplitN(TrimSuffix(rest, "/"), 3);
    if |parts| == 1 then ConfigPath(parts[0], "", "")
    else if |parts| == 2 then ConfigPath(parts[0], parts[1], "")
    else ConfigPath(parts[0], parts[1], parts[2])
  }

  function StoreKey(p: ConfigPath): Key {
    p.tenant + "/" + p.namespace + "/" + p.name
  }

  function ListPrefix(tenant: string, namespace: string): string {
    if namespace == "" then tenant + "/" else tenant + "/" + namespace + "/"
  }

  /** The prefix that a watch path asks for; a path without a tenant is refused. */
  function WatchPrefix(path: string): Option<string> {
    WatchRest(TrimPrefix(path, WATCH_ROUTE))
  }

  function WatchRest(rest: string): Option<string> {
    var trimmed := TrimSuffix(rest, "/");
    if trimmed == "" then None else Some(trimmed + "/")
  }

  // ----- Splitting -----

  /** A slash-free head is determined by the whole. */
  lemma CutUnique(a: string, x: string, b: string, y: string)
    requires SlashFree(a) && SlashFree(b)
    requires a + "/" + x == b + "/" + y
    ensures a == b && x == y
  {
    var s := a + "/" + x;
    assert s[|a|] == '/' && s[|b|] == '/';
    assert forall i | 0 <= i < |a| :: s[i] == a[i];
    assert forall i | 0 <= i < |b| :: s[i] == b[i];
    assert |a| == |b|;
    assert a == s[..|a|] && b == s[..|b|] && x == s[|a| + 1..] && y == s[|b| + 1..];
  }

  lemma FirstSlashIs(a: string, x: string)
    requires SlashFree(a)
    ensures IndexOfSlash(a + "/" + x) == |a|
  {
    var s := a + "/" + x;
    var i := IndexOfSlash(s);
    assert s[|a|] == '/' && forall j | 0 <= j < |a| :: s[j] == a[j];
  }

  lemma SplitCut(a: string, x: string, n: nat)
    requires SlashFree(a) && n >= 2
    ensures SplitN(a + "/" + x, n) == [a] + SplitN(x, n - 1)
  {
    var s := a + "/" + x;
    FirstSlashIs(a, x);
    assert s[..|a|] == a && s[|a| + 1..] == x;
  }

  lemma SplitWhole(s: string, n: nat)
    requires SlashFree(s) && n > 0
    ensures SplitN(s, n) == [s]
  {
  }

  function Join(parts: seq<string>): string
    requires parts != []
  {
    if |parts| == 1 then parts[0] else parts[0] + "/" + Join(parts[1..])
  }

  lemma JoinCons(head: string, rest: seq<string>)
    requires rest != []
    ensures Join([head] + rest) == head + "/" + Join(rest)
  {
    assert ([head] + rest)[1..] == rest;
  }

  /** What SplitN took apart is put together again by slashes. */
  lemma {:induction false} SplitJoins(s: string, n: nat)
    requires n > 0
    ensures Join(SplitN(s, n)) == s
  {
    var i := IndexOfSlash(s);
    if n > 1 && i < |s| {
      var head, tail := s[..i], s[i + 1..];
      assert s == head + "/" + tail by {
        assert s[i] == '/';
      }
      SplitJoins(tail, n - 1);
      JoinCons(head, SplitN(tail, n - 1));
    }
  }

  lemma JoinThree(a: string, b: string, c: string)
    ensures Join([a, b]) == a + "/" + b
    ensures Join([a, b, c]) == a + "/" + b + "/" + c
  {
    JoinCons(b, [c]);
    JoinCons(a, [b, c]);
    JoinCons(a, [b]);
    assert [b, c] == [b] + [c] && [a, b, c] == [a] + [b, c] && [a, b] == [a] + [b];
    assert a + "/" + (b + "/" + c) == a + "/" + b + "/" + c;
  }

  // ----- Printing and parsing -----

  lemma TrimRoute(route: string, rest: string)
    ensures TrimPrefix(route + rest, route) == rest
  {
  }

  lemma KeySuffix(p: ConfigPath)
    ensures p.name != "" ==> (HasSuffix(StoreKey(p), "/") <==> HasSuffix(p.name, "/"))
    ensures p.name == "" ==> HasSuffix(StoreKey(p), "/") && TrimSuffix(StoreKey(p), "/") == p.tenant + "/" + p.namespace
  {
    var key := StoreKey(p);
    if p.name != "" {
      assert key[|key| - 1..] == p.name[|p.name| - 1..];
    } else {
      assert key == p.tenant + "/" + p.namespace + "/";
    }
  }

  /** What parsing yields: slash-free parts, and the text itself when a name is present. */
  lemma PrintParsedRest(rest: string)
    ensures var p := ParseRest(rest);
            && SlashFree(p.tenant) && SlashFree(p.namespace)
            && (p.name != "" ==> StoreKey(p) == TrimSuffix(rest, "/"))
  {
    var text := TrimSuffix(rest, "/");
    var parts := SplitN(text, 3);
    SplitJoins(text, 3);
    if |parts| == 3 {
      JoinThree(parts[0], parts[1], parts[2]);
      assert parts == [parts[0], parts[1], parts[2]];
    }
  }

  lemma SplitKey(p: ConfigPath)
    requires SlashFree(p.tenant) && SlashFree(p.namespace)
    ensures SplitN(StoreKey(p), 3) == [p.tenant, p.namespace, p.name]
  {
    var rest := p.namespace + "/" + p.name;
    assert StoreKey(p) == p.tenant + "/" + rest;
    SplitCut(p.tenant, rest, 3);
    SplitCut(p.namespace, p.name, 2);
    assert SplitN(p.name, 1) == [p.name];
  }

  lemma {:induction false} SplitPair(tenant: string, namespace: string)
    requires SlashFree(tenant) && SlashFree(namespace)
    ensures SplitN(tenant + "/" + namespace, 3) == [tenant, namespace]
  {
    SplitCut(tenant, namespace, 3);
    SplitWhole(namespace, 2);
  }

  lemma ParsePrintedRest(p: ConfigPath)
    requires SlashFree(p.tenant) && SlashFree(p.namespace) && !HasSuffix(p.name, "/")
    ensures ParseRest(StoreKey(p)) == p
  {
    KeySuffix(p);
    if p.name == "" {
      SplitPair(p.tenant, p.namespace);
    } else {
      SplitKey(p);
    }
  }

  /**
    Parsing a printed key gives the triple back if and only if tenant and
    namespace hold no slash and the name does not end in one.
   */
  lemma {:induction false} ParsePrintedIff(p: ConfigPath)
    ensures ParsePath(CONFIG_ROUTE + StoreKey(p)) == p
            <==> SlashFree(p.tenant) && SlashFree(p.namespace) && !HasSuffix(p.name, "/")
  {
    TrimRoute(CONFIG_ROUTE, StoreKey(p));
    PrintParsedRest(StoreKey(p));
    if SlashFree(p.tenant) && SlashFree(p.namespace) && !HasSuffix(p.name, "/") {
      ParsePrintedRest(p);
    } else if HasSuffix(p.name, "/") {
      KeySuffix(p);
    }
  }

  /**
    Printing a parsed path that names a key gives the path after the route,
    without one trailing slash, and the parsed tenant and namespace are slash-free.
   */
  lemma PrintParsed(rest: string)
    ensures var p := ParsePath(CONFIG_ROUTE + rest);
            && SlashFree(p.tenant) && SlashFree(p.namespace)
            && (p.name != "" ==> StoreKey(p) == TrimSuffix(rest, "/"))
  {
    TrimRoute(CONFIG_ROUTE, rest);
    PrintParsedRest(rest);
  }

  /** Different triples have different keys, as long as tenant and namespace are slash-free. */
  lemma StoreKeyInjective(p: ConfigPath, q: ConfigPath)
    requires SlashFree(p.tenant) && SlashFree(p.namespace) && SlashFree(q.tenant) && SlashFree(q.namespace)
    ensures StoreKey(p) == StoreKey(q) <==> p == q
  {
    if StoreKey(p) == StoreKey(q) {
      var x, y := p.namespace + "/" + p.name, q.namespace + "/" + q.name;
      assert StoreKey(p) == p.tenant + "/" + x && StoreKey(q) == q.tenant + "/" + y;
      CutUnique(p.tenant, x, q.tenant, y);
      CutUnique(p.namespace, p.name, q.namespace, q.name);
    }
  }

  /** A stored key has the listing prefix exactly when it was stored under that tenant and namespace. */
  lemma ListPrefixSelects(p: ConfigPath, tenant: string, namespace: string)
    requires SlashFree(p.tenant) && SlashFree(p.namespace) && SlashFree(tenant) && SlashFree(namespace)
    ensures HasPrefix(StoreKey(p), ListPrefix(tenant, namespace))
            <==> p.tenant == tenant && (namespace == "" || p.namespace == namespace)
  {
    var key, prefix := StoreKey(p), ListPrefix(tenant, namespace);
    assert key == p.tenant + "/" + (p.namespace + "/" + p.name);
    if p.tenant == tenant && namespace == "" {
      assert key == prefix + (p.namespace + "/" + p.name);
    } else if p.tenant == tenant && p.namespace == namespace {
      assert key == prefix + p.name;
    } else if HasPrefix(key, prefix) {
      var tail := key[|prefix|..];
      assert key == prefix + tail;
      if namespace == "" {
        CutUnique(p.tenant, p.namespace + "/" + p.name, tenant, tail);
      } else {
        assert key == tenant + "/" + (namespace + "/" + tail);
        CutUnique(p.tenant, p.namespace + "/" + p.name, tenant, namespace + "/" + tail);
        CutUnique(p.namespace, p.name, namespace, tail);
      }
    }
  }

  /** Listing (tenant, namespace) returns exactly the entries stored under that pair. */
  lemma NamespaceListing(data: map<Key, Entry>, tenant: string, namespace: string, entries: seq<Entry>, p: ConfigPath)
    requires KeysAgree(data) && namespace != ""
    requires SlashFree(p.tenant) && SlashFree(p.namespace) && SlashFree(tenant) && SlashFree(namespace)
    requires IsListing(data, ListPrefix(tenant, namespace), entries)
    ensures (exists e :: e in entries && e.key == StoreKey(p))
            <==> StoreKey(p) in data && p.tenant == tenant && p.namespace == namespace
  {
    ListPrefixSelects(p, tenant, namespace);
  }

  // ----- The prefixes that a client pulls and watches -----

  /**
    What the multiplexer in front of the handlers makes of a path without dot
    segments: repeated slashes become one. It redirects a client there.
   */
  function Cleaned(path: string): string {
    if |path| < 2 then path
    else if path[0] == '/' && path[1] == '/' then Cleaned(path[1..])
    else [path[0]] + Cleaned(path[1..])
  }

  predicate IsDotSegment(s: string) {
    s == "." || s == ".."
  }

  ghost predicate NoDoubleSlash(s: string) {
    forall i | 0 <= i < |s| - 1 :: s[i] == '/' ==> s[i + 1] != '/'
  }

  lemma {:induction false} CleanedAlready(s: string)
    requires NoDoubleSlash(s)
    ensures Cleaned(s) == s
  {
    if |s| >= 2 {
      assert forall i | 0 <= i < |s| - 1 :: s[1..][i] == s[i + 1];
      CleanedAlready(s[1..]);
    }
  }

  lemma {:induction false} OneSlashLess(a: string, b: string)
    ensures Cleaned(a + "//" + b) == Cleaned(a + "/" + b)
  {
    var two, one := a + "//" + b, a + "/" + b;
    if a == "" {
      assert two[1..] == one;
    } else {
      assert two[1..] == a[1..] + "//" + b && one[1..] == a[1..] + "/" + b;
      OneSlashLess(a[1..], b);
    }
  }

  /** A route: it begins and ends with a slash and has no empty segment. */
  ghost predicate IsRoute(route: string) {
    NoDoubleSlash(route) && HasSuffix(route, "/")
  }

  lemma RouteThen(route: string, rest: string)
    requires IsRoute(route) && NoDoubleSlash(rest) && (rest != "" ==> rest[0] != '/')
    ensures Cleaned(route + rest) == route + rest
    ensures Cleaned(route + ("/" + rest)) == route + rest
  {
    CleanedAlready(route + rest);
    var front := route[..|route| - 1];
    assert route == front + "/";
    assert route + ("/" + rest) == front + "//" + rest && route + rest == front + "/" + rest;
    OneSlashLess(front, rest);
  }

  /** What follows the route on the cleaned path of a pull, and on that of a watch. */
  function PullRest(tenant: string, namespace: string): string {
    if tenant == "" then namespace else tenant + "/" + namespace
  }

  function WatchedRest(tenant: string, namespace: string): string {
    if tenant == "" && namespace == "" then ""
    else if tenant == "" then namespace + "/"
    else if namespace == "" then tenant + "/"
    else tenant + "/" + namespace + "/"
  }

  lemma CleanedPull(route: string, tenant: string, namespace: string)
    requires IsRoute(route) && SlashFree(tenant) && SlashFree(namespace)
    ensures Cleaned(route + (tenant + "/" + namespace)) == route + PullRest(tenant, namespace)
  {
    RouteThen(route, PullRest(tenant, namespace));
    assert tenant == "" ==> tenant + "/" + namespace == "/" + namespace;
  }

  lemma CleanedWatch(route: string, tenant: string, namespace: string)
    requires IsRoute(route) && SlashFree(tenant) && SlashFree(namespace)
    ensures Cleaned(route + (tenant + "/" + namespace + "/")) == route + WatchedRest(tenant, namespace)
  {
    var rest := tenant + "/" + namespace + "/";
    RouteThen(route, WatchedRest(tenant, namespace));
    if tenant != "" && namespace == "" {
      assert route + rest == (route + tenant) + "//" + "" && route + (tenant + "/") == (route + tenant) + "/" + "";
      OneSlashLess(route + tenant, "");
    } else if tenant == "" && namespace != "" {
      assert rest == "/" + (namespace + "/");
    } else if tenant == "" {
      assert route + rest == route + "//" + "" && route + "/" == route + "/" + "";
      OneSlashLess(route, "");
      assert route + "/" == route + ("/" + "");
    }
  }

  lemma RestsAgreeIff(tenant: string, namespace: string)
    requires SlashFree(tenant) && SlashFree(namespace)
    ensures var pulled := ParseRest(PullRest(tenant, namespace));
            var watched := WatchRest(WatchedRest(tenant, namespace));
            && pulled.name == ""
            && (tenant != "" ==> pulled == ConfigPath(tenant, namespace, ""))
            && (watched == Some(ListPrefix(pulled.tenant, pulled.namespace)) <==> tenant != "" || namespace != "")
  {
    if tenant == "" {
      assert namespace != "" ==> namespace[|namespace| - 1..] == [namespace[|namespace| - 1]];
      assert !HasSuffix(namespace, "/");
      SplitWhole(namespace, 3);
      TrimLast(namespace);
    } else if namespace == "" {
      assert PullRest(tenant, namespace) == tenant + "/";
      TrimLast(tenant);
      SplitWhole(tenant, 3);
    } else {
      var pair := tenant + "/" + namespace;
      assert pair[|pair| - 1..] == namespace[|namespace| - 1..];
      TrimLast(pair);
      SplitPair(tenant, namespace);
    }
  }

  lemma TrimLast(s: string)
    ensures TrimSuffix(s + "/", "/") == s
  {
    assert (s + "/")[|s|..] == "/";
  }

  /**
    A client asks for its namespace on two routes. Where the multiplexer sends
    it, the two handlers build the same prefix, also for a client without a
    namespace or without a tenant, except when it has neither: then the watch
    is refused.
   */
  lemma {:induction false} PullAndWatchAgreeIff(tenant: string, namespace: string)
    requires SlashFree(tenant) && SlashFree(namespace) && !IsDotSegment(tenant) && !IsDotSegment(namespace)
    ensures var pulled := ParsePath(Cleaned(CONFIG_ROUTE + (tenant + "/" + namespace)));
            var watched := WatchPrefix(Cleaned(WATCH_ROUTE + (tenant + "/" + namespace + "/")));
            && pulled.name == ""
            && (tenant != "" ==> pulled == ConfigPath(tenant, namespace, ""))
            && (watched == Some(ListPrefix(pulled.tenant, pulled.namespace)) <==> tenant != "" || namespace != "")
  {
    CleanedPull(CONFIG_ROUTE, tenant, namespace);
    CleanedWatch(WATCH_ROUTE, tenant, namespace);
    TrimRoute(CONFIG_ROUTE, PullRest(tenant, namespace));
    TrimRoute(WATCH_ROUTE, WatchedRest(tenant, namespace));
    RestsAgreeIff(tenant, namespace);
  }
}
