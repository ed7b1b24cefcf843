/**
 * Compilation of Kubernetes Ingress paths to ELBv2 path patterns
 * (pkg/ingress/model_build_listener_rules.go).
 */
module PathPatterns {
  import opened Globs
  import opened Text

  datatype PathType = ImplementationSpecific | Exact | Prefix | Unsupported(name: string)

  datatype Patterns = Built(values: seq<string>) | Rejected

  function TrimSlash(path: string): string {
    if path != "" && path[|path| - 1] == '/' then path[..|path| - 1] else path
  }

  function ForPrefix(path: string): Patterns {
    if path == "/" then Built(["/*"])
    else if !WildcardFree(path) then Rejected
    else Built([TrimSlash(path), TrimSlash(path) + "/*"])
  }

  function ForExact(path: string): Patterns {
    if !WildcardFree(path) then Rejected else Built([path])
  }

  /** An absent path type means ImplementationSpecific. */
  function BuildPathPatterns(path: string, pathType: Option<PathType>): Patterns {
    match pathType
    case None => Built([path])
    case Some(ImplementationSpecific) => Built([path])
    case Some(Exact) => ForExact(path)
    case Some(Prefix) => ForPrefix(path)
    case Some(Unsupported(_)) => Rejected
  }

  lemma BuiltSome(path: string, pathType: Option<PathType>)
    ensures BuildPathPatterns(path, pathType).Built? ==> BuildPathPatterns(path, pathType).values != []
  {
  }

  predicate AnyMatches(patterns: seq<string>, text: string) {
    exists i :: 0 <= i < |patterns| && Matches(patterns[i], text)
  }

  // ---------------------------------------------------------------- the Kubernetes meaning

  /** The elements of a path: what lies between its slashes. */
  function Elements(path: string): (es: seq<string>)
    ensures |es| > 0
  {
    if path == "" then [""] else Front(path[0], Elements(path[1..]))
  }

  /** A slash in front begins another element, any other character extends the first. */
  function Front(c: char, es: seq<string>): (r: seq<string>)
    requires es != []
    ensures r != []
  {
    if c == '/' then [""] + es else [[c] + es[0]] + es[1..]
  }

  /** A trailing slash does not count. */
  function WithoutTrailing(es: seq<string>): seq<string> {
    if es != [] && es[|es| - 1] == "" then es[..|es| - 1] else es
  }

  /** pathType Prefix: the elements of the path are an element-wise prefix of the request's. */
  predicate PrefixOfElements(path: string, request: string) {
    WithoutTrailing(Elements(path)) <= Elements(request)
  }

  lemma {:induction false} SlashAdded(p: string)
    ensures Elements(p + "/") == Elements(p) + [""]
  {
    if p == "" {
      assert p + "/" == "/" && "/"[1..] == "";
    } else {
      SlashAdded(p[1..]);
      assert (p + "/")[1..] == p[1..] + "/";
    }
  }

  lemma {:induction false} LastElement(p: string)
    requires p != "" && p[|p| - 1] != '/'
    ensures var es := Elements(p); es[|es| - 1] != ""
  {
    if |p| > 1 { LastElement(p[1..]); }
  }

  lemma TrimmedElements(path: string)
    requires path != ""
    ensures Elements(TrimSlash(path)) == WithoutTrailing(Elements(path))
  {
    var n := |path| - 1;
    if path[n] == '/' {
      SlashAdded(path[..n]);
      assert path == path[..n] + "/";
    } else {
      LastElement(path);
    }
  }

  lemma ConsPrefix<T>(x: T, xs: seq<T>, y: T, ys: seq<T>)
    ensures [x] + xs <= [y] + ys <==> x == y && xs <= ys
  {
    var a, b := [x] + xs, [y] + ys;
    assert a[0] == x && b[0] == y;
    if a <= b {
      assert forall i :: 0 <= i < |xs| ==> xs[i] == a[i + 1] == b[i + 1] == ys[i];
    }
  }

  /** Consuming one equal character of both paths keeps the question the same. */
  lemma HeadStep(p: string, request: string)
    requires p != "" && request != ""
    ensures Elements(p) <= Elements(request)
       <==> p[0] == request[0] && Elements(p[1..]) <= Elements(request[1..])
  {
    FrontStep(p[0], Elements(p[1..]), request[0], Elements(request[1..]));
  }

  lemma FrontStep(c: char, ps: seq<string>, d: char, rs: seq<string>)
    requires ps != [] && rs != []
    ensures Front(c, ps) <= Front(d, rs) <==> c == d && ps <= rs
  {
    var x := if c == '/' then "" else [c] + ps[0];
    var y := if d == '/' then "" else [d] + rs[0];
    ConsPrefix(x, if c == '/' then ps else ps[1..], y, if d == '/' then rs else rs[1..]);
    ConsPrefix(ps[0], ps[1..], rs[0], rs[1..]);
    assert ps == [ps[0]] + ps[1..] && rs == [rs[0]] + rs[1..];
    if c != '/' && d != '/' && x == y {
      assert x[0] == c && y[0] == d;
      assert x[1..] == ps[0] && y[1..] == rs[0];
    }
  }

  /** Element-wise prefixes are string prefixes that end at an element boundary. */
  lemma {:induction false} ElementPrefix(p: string, request: string)
    ensures Elements(p) <= Elements(request) <==> request == p || p + "/" <= request
  {
    var es := Elements(request);
    if p == "" {
      assert Elements(p) <= es <==> es[0] == "";
    } else if request != "" {
      ElementPrefix(p[1..], request[1..]);
      assert p == [p[0]] + p[1..] && request == [request[0]] + request[1..];
      HeadStep(p, request);
      assert p + "/" == [p[0]] + (p[1..] + "/");
      ConsPrefix(p[0], p[1..] + "/", request[0], request[1..]);
    } else {
      assert es == [""];
      assert if p[0] == '/' then |Elements(p)| > 1 else Elements(p)[0] != "";
    }
  }

  /** A request path of origin form (section 3.2.1 of RFC 9112). */
  predicate OriginForm(path: string) { path != "" && path[0] == '/' }

  /**
   * pathType Prefix is compiled faithfully: for every wildcard-free path, the generated
   * patterns match a request path exactly when Kubernetes says they should.
   */
  lemma PrefixFaithful(path: string, request: string)
    requires WildcardFree(path) && OriginForm(request)
    ensures BuildPathPatterns(path, Some(Prefix)).Built?
    ensures AnyMatches(BuildPathPatterns(path, Some(Prefix)).values, request) <==> PrefixOfElements(path, request)
  {
    var ps := BuildPathPatterns(path, Some(Prefix)).values;
    var n := TrimSlash(path);
    ElementPrefix(n, request);
    if path != "" { TrimmedElements(path); }
    assert WildcardFree(n + "/");
    LiteralStarMatches(n + "/", request);
    assert n + "/" + "*" == n + "/*";
    if path == "/" {
      assert n == "";
      assert ps[0] == n + "/*";
    } else {
      LiteralMatches(n, request);
      assert ps[0] == n && ps[1] == n + "/*";
    }
  }

  /** pathType Exact matches the path itself and nothing else; wildcards are rejected. */
  lemma ExactFaithful(path: string, request: string)
    ensures BuildPathPatterns(path, Some(Exact)).Rejected? <==> !WildcardFree(path)
    ensures WildcardFree(path) ==>
      (AnyMatches(BuildPathPatterns(path, Some(Exact)).values, request) <==> request == path)
  {
    if WildcardFree(path) {
      LiteralMatches(path, request);
      assert BuildPathPatterns(path, Some(Exact)).values[0] == path;
    }
  }

  /** Wildcards are allowed where the path is a pattern. */
  predicate PathAllowed(path: string, pathType: Option<PathType>) {
    match pathType
    case None => true
    case Some(ImplementationSpecific) => true
    case Some(Unsupported(_)) => false
    case Some(_) => WildcardFree(path)
  }

  /** What a path asks of a request's path, by its type. */
  predicate PathMeans(path: string, pathType: Option<PathType>, request: string) {
    match pathType
    case None => Matches(path, request)
    case Some(ImplementationSpecific) => Matches(path, request)
    case Some(Exact) => request == path
    case Some(Prefix) => PrefixOfElements(path, request)
    case Some(Unsupported(_)) => false
  }

  /** Without a type, or with the implementation's own, a path is a pattern and means itself. */
  lemma PatternFaithful(path: string, pathType: Option<PathType>, request: string)
    requires pathType == None || pathType == Some(ImplementationSpecific)
    ensures BuildPathPatterns(path, pathType).Built?
    ensures AnyMatches(BuildPathPatterns(path, pathType).values, request) <==> Matches(path, request)
  {
    var ps := BuildPathPatterns(path, pathType).values;
    assert |ps| == 1 && ps[0] == path;
  }

  /**
   * Whatever the type: patterns are built exactly for the allowed paths, and a request path
   * matches one of them exactly when the type says that it should.
   */
  lemma PathFaithful(path: string, pathType: Option<PathType>, request: string)
    requires OriginForm(request)
    ensures BuildPathPatterns(path, pathType).Built? <==> PathAllowed(path, pathType)
    ensures PathAllowed(path, pathType) ==>
      (AnyMatches(BuildPathPatterns(path, pathType).values, request) <==> PathMeans(path, pathType, request))
  {
    hide Matches, PrefixOfElements, AnyMatches;
    match pathType
    case None => PatternFaithful(path, pathType, request);
    case Some(ImplementationSpecific) => PatternFaithful(path, pathType, request);
    case Some(Exact) => ExactFaithful(path, request);
    case Some(Prefix) => if WildcardFree(path) { PrefixFaithful(path, request); }
    case Some(Unsupported(_)) =>
  }
}
