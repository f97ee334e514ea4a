/**
 A redirect rule of go-import-redirector: its construction from an
 `(import, repo)` pattern pair, and the resolution of one request path into
 a "not found", a plain redirect to the documentation page, or the data of the
 `go-import` metadata page.
 */
module Redirect {
  import opened Wrappers
  import opened GoStrings
  import opened GoPath
  import opened GoUrl

  /** The documentation viewer every page and redirect points at. */
  const DocBase := "https://godoc.org/"

  /** Why a pattern pair does not make a rule. */
  datatype ConfigError =
    | NotFullUrl               // the repo pattern holds no "://"
    | WildcardMismatch         // exactly one of the two patterns ends in "/*"
    | ParseError(message: string)  // url.Parse refused the repo pattern

  /** One configured rule (`redirectPath`). */
  datatype Rule = Rule(wildcard: bool, importPath: string, repo: URL, vcs: string)

  /** The data the metadata page is rendered from (`data`). */
  datatype PageData = PageData(importRoot: string, vcs: string, vcsRoot: string, suffix: string)

  /** What a rule answers to one request. */
  datatype Response =
    | NotFound                   // 404
    | Found(location: string)    // 302 to `location`
    | Page(data: PageData)       // 200 with the metadata page

  /** The text a wildcard pattern ends in, and "" for a plain one. */
  function Marker(wildcard: bool): string {
    if wildcard then "/*" else ""
  }

  /** A `<vcs>+<scheme>` scheme split at its first '+'; without one, the default kind and the scheme. */
  function SplitVcs(scheme: string, defaultVcs: string): (r: (string, string))
    ensures '+' in scheme ==> r.0 + "+" + r.1 == scheme && '+' !in r.0
    ensures '+' !in scheme ==> r == (defaultVcs, scheme)
  {
    var sep := IndexByte(scheme, '+');
    if sep != -1 then
      assert scheme == scheme[..sep] + "+" + scheme[sep + 1..];
      (scheme[..sep], scheme[sep + 1..])
    else (defaultVcs, scheme)
  }

  /** The import pattern with its wildcard marker and then one trailing '/' removed. */
  function ImportPrefix(importPattern: string, wildcard: bool): string {
    TrimSuffix(TrimSuffix(importPattern, Marker(wildcard)), "/")
  }

  /** The repo pattern with its wildcard marker removed: the text handed to the URL parser. */
  function RepoText(repoPattern: string, wildcard: bool): string {
    TrimSuffix(repoPattern, Marker(wildcard))
  }

  /** newRedirect */
  function NewRedirect(importPattern: string, repoPattern: string, defaultVcs: string, parse: Parser)
    : Result<Rule, ConfigError>
  {
    if !Contains(repoPattern, "://") then Err(NotFullUrl)
    else
      var wildcard := HasSuffix(importPattern, "/*");
      if wildcard != HasSuffix(repoPattern, "/*") then Err(WildcardMismatch)
      else
        match parse(RepoText(repoPattern, wildcard))
        case Err(msg) => Err(ParseError(msg))
        case Ok(u) =>
          var (vcs, scheme) := SplitVcs(u.scheme, defaultVcs);
          Ok(Rule(wildcard, ImportPrefix(importPattern, wildcard), u.(scheme := scheme), vcs))
  }

  /** redirectPath.root: the pattern the rule is registered under. */
  function Root(rule: Rule): string {
    rule.importPath + "/"
  }

  /** The path a request is resolved on: host and URL path with one trailing '/' removed. */
  function RequestPath(host: string, urlPath: string): string {
    TrimSuffix(host + urlPath, "/")
  }

  /** A URL path that does not end in '/' is kept whole; one that does loses exactly that '/'. */
  lemma RequestPathTrim(host: string, urlPath: string)
    ensures urlPath != [] && urlPath[|urlPath| - 1] != '/' ==> RequestPath(host, urlPath) == host + urlPath
    ensures RequestPath(host, urlPath + "/") == host + urlPath
  {
    HasSuffixConcat(host + urlPath, "/");
    assert host + urlPath + "/" == host + (urlPath + "/");
    var s := host + urlPath;
    if urlPath != [] && urlPath[|urlPath| - 1] != '/' {
      assert s[|s| - 1] == urlPath[|urlPath| - 1];
    }
  }

  /** The resolution part of redirectPath.ServeHTTP, on the effective request path. */
  function Resolve(rule: Rule, reqPath: string, render: Renderer): Response
  {
    if rule.wildcard then
      if reqPath == rule.importPath then Found(DocBase + rule.importPath)
      else if !HasPrefix(reqPath, Root(rule)) then NotFound
      else
        var rest := reqPath[|rule.importPath| + 1..];
        var i := IndexByte(rest, '/');
        var elem := if i >= 0 then rest[..i] else rest;
        var suffix := if i >= 0 then rest[i..] else "";
        var repo := rule.repo.(path := Join(rule.repo.path, elem));
        Page(PageData(Join(rule.importPath, elem), rule.vcs, render(repo), suffix))
    else
      if reqPath != rule.importPath && !HasPrefix(reqPath, Root(rule)) then NotFound
      else Page(PageData(rule.importPath, rule.vcs, render(rule.repo), reqPath[|rule.importPath|..]))
  }

  /** redirectPath.ServeHTTP, up to the rendering of the response. */
  function ServeHTTP(rule: Rule, host: string, urlPath: string, render: Renderer): Response {
    Resolve(rule, RequestPath(host, urlPath), render)
  }

  /** The documentation URL the page refreshes to. */
  function DocUrl(d: PageData): string {
    DocBase + d.importRoot + d.suffix
  }

  // ---------------------------------------------------------------------------
  // Rule construction

  /** A `<vcs>+<scheme>` scheme whose kind holds no '+' splits back into its two parts. */
  lemma SplitVcsJoin(vcs: string, scheme: string, defaultVcs: string)
    requires '+' !in vcs
    ensures SplitVcs(vcs + "+" + scheme, defaultVcs) == (vcs, scheme)
  {
    var s := vcs + "+" + scheme;
    assert s[..|vcs|] == vcs;
    IndexByteAt(s, '+', |vcs|);
    assert s[|vcs| + 1..] == scheme;
  }

  /** newRedirect fails exactly in its three error cases, each with its own error; a parse error passes the parser's message on. */
  lemma NewRedirectErrors(importPattern: string, repoPattern: string, defaultVcs: string, parse: Parser)
    ensures var r := NewRedirect(importPattern, repoPattern, defaultVcs, parse);
      && (r == Err(NotFullUrl) <==> !Contains(repoPattern, "://"))
      && (r == Err(WildcardMismatch) <==>
            Contains(repoPattern, "://") && HasSuffix(importPattern, "/*") != HasSuffix(repoPattern, "/*"))
      && (r.Err? && r.error.ParseError? <==>
            && Contains(repoPattern, "://")
            && HasSuffix(importPattern, "/*") == HasSuffix(repoPattern, "/*")
            && parse(RepoText(repoPattern, HasSuffix(repoPattern, "/*"))).Err?)
      && (r.Err? && r.error.ParseError? ==>
            r.error.message == parse(RepoText(repoPattern, HasSuffix(repoPattern, "/*"))).error)
  {
  }

  /**
   What a rule made by newRedirect holds: the wildcard flag says whether the import
   pattern ended in the wildcard marker; the import path is the pattern without that marker and
   without at most one more '/'; the repo URL is what the parser made of the repo
   pattern without its marker, with a `<vcs>+` scheme prefix moved into the VCS kind.
   */
  lemma NewRedirectRule(importPattern: string, repoPattern: string, defaultVcs: string, parse: Parser)
    requires NewRedirect(importPattern, repoPattern, defaultVcs, parse).Ok?
    ensures var rule := NewRedirect(importPattern, repoPattern, defaultVcs, parse).value;
      var m := Marker(rule.wildcard);
      && (rule.wildcard <==> HasSuffix(importPattern, "/*"))
      && (rule.wildcard <==> HasSuffix(repoPattern, "/*"))
      && (importPattern == rule.importPath + m || importPattern == rule.importPath + "/" + m)
      && (importPattern == rule.importPath + "/" + m <==> HasSuffix(importPattern, "/" + m))
      && (HasSuffix(rule.importPath, "/") ==> HasSuffix(importPattern, "//" + m))
      && RepoText(repoPattern, rule.wildcard) + m == repoPattern
      && parse(RepoText(repoPattern, rule.wildcard)).Ok?
      && var u := parse(RepoText(repoPattern, rule.wildcard)).value;
         && rule.repo == u.(scheme := rule.repo.scheme)
         && ('+' in u.scheme ==> rule.vcs + "+" + rule.repo.scheme == u.scheme && '+' !in rule.vcs)
         && ('+' !in u.scheme ==> rule.vcs == defaultVcs && rule.repo == u)
  {
    var rule := NewRedirect(importPattern, repoPattern, defaultVcs, parse).value;
    ImportPrefixTrims(importPattern, rule.wildcard);
  }

  /**
   The import prefix of a pattern that ends in its marker: the pattern is the prefix
   and the marker, with at most one '/' between them, and a '/' left at the end of
   the prefix means the pattern ended in two.
   */
  lemma ImportPrefixTrims(importPattern: string, wildcard: bool)
    requires HasSuffix(importPattern, Marker(wildcard))
    ensures var p, m := ImportPrefix(importPattern, wildcard), Marker(wildcard);
      && (importPattern == p + m || importPattern == p + "/" + m)
      && (importPattern == p + "/" + m <==> HasSuffix(importPattern, "/" + m))
      && (HasSuffix(p, "/") ==> HasSuffix(importPattern, "//" + m))
  {
    var p, m := ImportPrefix(importPattern, wildcard), Marker(wildcard);
    var t := TrimSuffix(importPattern, m);
    assert t + m == importPattern;
    if HasSuffix(t, "/") {
      assert p + "/" == t;
      assert importPattern == p + "/" + m;
      assert HasSuffix(importPattern, "/" + m) by {
        assert importPattern[|importPattern| - |"/" + m|..] == "/" + m;
      }
      if HasSuffix(p, "/") {
        assert importPattern == p[..|p| - 1] + "//" + m;
        assert importPattern[|importPattern| - |"//" + m|..] == "//" + m;
      }
    } else {
      assert p == t;
      HasSuffixCancel(t, "/", m);
      if importPattern == p + "/" + m {
        HasSuffixConcat(p + "/", m);
      }
    }
  }

  /**
   A plain pattern pair with a full repo URL and no trailing '/' on the import
   pattern makes the rule of exactly those two, with the VCS kind split off.
   */
  lemma NewRedirectPlain(importPattern: string, repoPattern: string, defaultVcs: string, parse: Parser)
    requires Contains(repoPattern, "://") && parse(repoPattern).Ok?
    requires !HasSuffix(importPattern, "/*") && !HasSuffix(repoPattern, "/*") && !HasSuffix(importPattern, "/")
    ensures var u := parse(repoPattern).value;
      var split := SplitVcs(u.scheme, defaultVcs);
      NewRedirect(importPattern, repoPattern, defaultVcs, parse) ==
        Ok(Rule(false, importPattern, u.(scheme := split.1), split.0))
  {
    assert RepoText(repoPattern, false) == repoPattern by {
      assert repoPattern[..|repoPattern|] == repoPattern;
    }
    assert ImportPrefix(importPattern, false) == importPattern by {
      assert importPattern[..|importPattern|] == importPattern;
    }
  }

  // The wildcard pattern pair `prefix/*`, `repoText/*` makes the wildcard rule of
  // `prefix` and the URL the parser makes of `repoText`, with the VCS kind split off.
  lemma NewRedirectWildcard(prefix: string, repoText: string, defaultVcs: string, parse: Parser)
    requires Contains(repoText + "/*", "://") && parse(repoText).Ok?
    requires !HasSuffix(prefix, "/")
    ensures var u := parse(repoText).value;
      var split := SplitVcs(u.scheme, defaultVcs);
      NewRedirect(prefix + "/*", repoText + "/*", defaultVcs, parse) ==
        Ok(Rule(true, prefix, u.(scheme := split.1), split.0))
  {
    HasSuffixConcat(prefix, "/*");
    HasSuffixConcat(repoText, "/*");
  }

  // ---------------------------------------------------------------------------
  // Request resolution

  /**
   A rule answers a request path (with a page or a redirect) exactly when the path
   is the import path or lies under the rule's root; the plain redirect is the
   wildcard rule's answer to its own import path, and points at its documentation.
   */
  lemma ResolveMatches(rule: Rule, reqPath: string, render: Renderer)
    ensures var r := Resolve(rule, reqPath, render);
      && (r != NotFound <==> reqPath == rule.importPath || HasPrefix(reqPath, Root(rule)))
      && (r.Found? <==> rule.wildcard && reqPath == rule.importPath)
      && (r.Found? ==> r.location == DocBase + reqPath)
  {
  }

  /**
   A plain rule serves every path it matches with its own import path and repo URL;
   the suffix is what follows the import path, empty or starting with '/', and the
   documentation link is the requested path.
   */
  lemma PlainPage(rule: Rule, reqPath: string, render: Renderer)
    requires !rule.wildcard
    requires reqPath == rule.importPath || HasPrefix(reqPath, Root(rule))
    ensures var r := Resolve(rule, reqPath, render);
      && r.Page?
      && r.data.importRoot == rule.importPath
      && r.data.vcs == rule.vcs
      && r.data.vcsRoot == render(rule.repo)
      && r.data.importRoot + r.data.suffix == reqPath
      && (r.data.suffix == "" || r.data.suffix[0] == '/')
      && DocUrl(r.data) == DocBase + reqPath
  {
    var r := Resolve(rule, reqPath, render);
    if reqPath != rule.importPath {
      assert reqPath[..|rule.importPath| + 1] == Root(rule);
      assert r.data.suffix[0] == reqPath[|rule.importPath|];
    }
    assert reqPath == rule.importPath + reqPath[|rule.importPath|..];
  }

  /** A plain rule serves any suffix that is empty or starts with '/', keeping the suffix whole. */
  lemma PlainPageSuffix(rule: Rule, suffix: string, render: Renderer)
    requires !rule.wildcard
    requires suffix == "" || suffix[0] == '/'
    ensures Resolve(rule, rule.importPath + suffix, render) ==
      Page(PageData(rule.importPath, rule.vcs, render(rule.repo), suffix))
  {
    var reqPath := rule.importPath + suffix;
    assert reqPath[|rule.importPath|..] == suffix;
    if suffix != "" {
      assert reqPath[..|rule.importPath| + 1] == Root(rule);
    }
  }

  /**
   A wildcard rule serves `importPath/elem suffix` -- `elem` free of '/', `suffix`
   empty or starting with '/' -- with `elem` joined to both the import path and the
   path of the repo URL; the suffix passes through unchanged.
   */
  lemma WildcardPage(rule: Rule, elem: string, suffix: string, render: Renderer)
    requires rule.wildcard
    requires '/' !in elem && (suffix == "" || suffix[0] == '/')
    ensures Resolve(rule, rule.importPath + "/" + elem + suffix, render) ==
      Page(PageData(Join(rule.importPath, elem), rule.vcs,
                    render(rule.repo.(path := Join(rule.repo.path, elem))), suffix))
  {
    var reqPath := rule.importPath + "/" + elem + suffix;
    assert reqPath[..|Root(rule)|] == Root(rule);
    var rest := reqPath[|rule.importPath| + 1..];
    assert rest == elem + suffix;
    if suffix == "" {
      assert rest == elem;
    } else {
      assert rest[..|elem|] == elem;
      IndexByteAt(rest, '/', |elem|);
      assert rest[|elem|..] == suffix;
    }
  }

  /**
   Every path under a wildcard rule's root is `importPath/elem suffix` for exactly one
   `elem` free of '/' and `suffix` empty or starting with '/': one path element is taken.
   */
  lemma WildcardElement(rule: Rule, reqPath: string) returns (elem: string, suffix: string)
    requires HasPrefix(reqPath, Root(rule))
    ensures '/' !in elem && (suffix == "" || suffix[0] == '/')
    ensures reqPath == rule.importPath + "/" + elem + suffix
  {
    var rest := reqPath[|rule.importPath| + 1..];
    assert reqPath == Root(rule) + rest;
    var i := IndexByte(rest, '/');
    if i < 0 {
      elem, suffix := rest, "";
    } else {
      elem, suffix := rest[..i], rest[i..];
      assert rest == elem + suffix;
    }
  }

  /** The split of WildcardElement is unique. */
  lemma ElementUnique(e1: string, s1: string, e2: string, s2: string)
    requires '/' !in e1 && (s1 == "" || s1[0] == '/')
    requires '/' !in e2 && (s2 == "" || s2[0] == '/')
    requires e1 + s1 == e2 + s2
    ensures e1 == e2 && s1 == s2
  {
    var w := e1 + s1;
    assert e1 == w[..|e1|] && e2 == w[..|e2|];
    assert s1 == w[|e1|..] && s2 == w[|e2|..];
  }

  /**
   With a clean import path and a plain element, the wildcard page names the import
   root `importPath/elem` and its documentation link is the requested path.
   */
  lemma WildcardPlainElement(rule: Rule, elem: string, suffix: string, render: Renderer)
    requires rule.wildcard && CleanBase(rule.importPath)
    requires Plain(elem) && (suffix == "" || suffix[0] == '/')
    ensures var reqPath := rule.importPath + "/" + elem + suffix;
      var r := Resolve(rule, reqPath, render);
      && r.Page?
      && r.data.importRoot == rule.importPath + "/" + elem
      && r.data.importRoot + r.data.suffix == reqPath
      && DocUrl(r.data) == DocBase + reqPath
  {
    var reqPath := rule.importPath + "/" + elem + suffix;
    WildcardPage(rule, elem, suffix, render);
    JoinPlain(rule.importPath, elem);
    var root := rule.importPath + "/" + elem;
    assert root + suffix == reqPath;
  }

  /** The plain rule a wildcard rule stands for once its element is `elem`. */
  function Instantiate(rule: Rule, elem: string): Rule {
    Rule(false, Join(rule.importPath, elem), rule.repo.(path := Join(rule.repo.path, elem)), rule.vcs)
  }

  /**
   A wildcard rule answers a request under element `elem` as the plain rule with
   `elem` already joined to its import path and repo path would.
   */
  lemma WildcardAsPlain(rule: Rule, elem: string, suffix: string, render: Renderer)
    requires rule.wildcard && CleanBase(rule.importPath)
    requires Plain(elem) && (suffix == "" || suffix[0] == '/')
    ensures var reqPath := rule.importPath + "/" + elem + suffix;
      Resolve(rule, reqPath, render) == Resolve(Instantiate(rule, elem), reqPath, render)
  {
    WildcardPage(rule, elem, suffix, render);
    JoinPlain(rule.importPath, elem);
    var plain := Instantiate(rule, elem);
    assert rule.importPath + "/" + elem + suffix == plain.importPath + suffix;
    PlainPageSuffix(plain, suffix, render);
  }

  /**
   The request path `importPath + "//"`, handed to the handler, loses only one '/':
   a wildcard rule then sees an empty element, and the import root is the cleaned
   import path.
   */
  lemma WildcardEmptyElement(rule: Rule, host: string, urlPath: string, render: Renderer)
    requires rule.wildcard && host + urlPath == rule.importPath + "//"
    ensures var r := ServeHTTP(rule, host, urlPath, render);
      && r == Page(PageData(Join(rule.importPath, ""), rule.vcs,
                            render(rule.repo.(path := Join(rule.repo.path, ""))), ""))
      && (CleanBase(rule.importPath) ==> r.data.importRoot == rule.importPath)
  {
    var p := host + urlPath;
    assert p == rule.importPath + "/" + "/";
    assert RequestPath(host, urlPath) == rule.importPath + "/" + "" + "";
    WildcardPage(rule, "", "", render);
    JoinEmpty(rule.importPath);
    if CleanBase(rule.importPath) {
      CleanNonEmpty(rule.importPath);
    }
  }
}
