/**
 The two worked examples of go-import-redirector's documentation, an `hg+https`
 case of the `<vcs>+` scheme prefix the -vcs flag documents, and the redirect a
 wildcard rule gives for its own import path. Each states the values `url.Parse` and `URL.String`
 give on the URLs involved and derives the page the redirector serves. The page
 data are the three fields of the go-import meta tag and the suffix of the
 documentation URL.
 */
module Examples {
  import opened Wrappers
  import opened GoStrings
  import opened GoPath
  import opened GoUrl
  import opened Redirect
  import opened Startup

  /** A URL with only a scheme, a host and a path. */
  function Web(scheme: string, host: string, path: string): URL {
    URL(scheme, "", "", host, path, "", "", "")
  }

  /** `9fans.net/go https://github.com/9fans/go`, asked for 9fans.net/go/acme/editinacme. */
  lemma PlainExample(parse: Parser, render: Renderer)
    requires parse("https://github.com/9fans/go") == Ok(Web("https", "github.com", "/9fans/go"))
    requires render(Web("https", "github.com", "/9fans/go")) == "https://github.com/9fans/go"
    ensures NewRedirect("9fans.net/go", "https://github.com/9fans/go", DefaultVcs, parse) ==
      Ok(Rule(false, "9fans.net/go", Web("https", "github.com", "/9fans/go"), "git"))
    ensures var rule := NewRedirect("9fans.net/go", "https://github.com/9fans/go", DefaultVcs, parse).value;
      ServeHTTP(rule, "9fans.net", "/go/acme/editinacme", render) ==
        Page(PageData("9fans.net/go", "git", "https://github.com/9fans/go", "/acme/editinacme"))
  {
    NineFansRule(parse);
    var rule := Rule(false, "9fans.net/go", Web("https", "github.com", "/9fans/go"), "git");
    NineFansRequest();
    PlainPageSuffix(rule, "/acme/editinacme", render);
  }

  // The rule of `9fans.net/go https://github.com/9fans/go`.
  lemma NineFansRule(parse: Parser)
    requires parse("https://github.com/9fans/go") == Ok(Web("https", "github.com", "/9fans/go"))
    ensures NewRedirect("9fans.net/go", "https://github.com/9fans/go", DefaultVcs, parse) ==
      Ok(Rule(false, "9fans.net/go", Web("https", "github.com", "/9fans/go"), "git"))
  {
    NineFansRepo();
    NineFansShape();
    NewRedirectPlain("9fans.net/go", "https://github.com/9fans/go", DefaultVcs, parse);
  }

  lemma NineFansRepo()
    ensures Contains("https://github.com/9fans/go", "://")
  {
    assert "https://github.com/9fans/go" == "https" + "://" + "github.com/9fans/go";
    ContainsMiddle("https", "://", "github.com/9fans/go");
  }

  lemma NineFansShape()
    ensures !HasSuffix("9fans.net/go", "/*") && !HasSuffix("https://github.com/9fans/go", "/*")
    ensures !HasSuffix("9fans.net/go", "/")
    ensures SplitVcs("https", "git") == ("git", "https")
  {
  }

  lemma NineFansRequest()
    ensures RequestPath("9fans.net", "/go/acme/editinacme") == "9fans.net/go" + "/acme/editinacme"
  {
    RequestPathTrim("9fans.net", "/go/acme/editinacme");
    assert "9fans.net" + "/go/acme/editinacme" == "9fans.net/go" + "/acme/editinacme";
  }

  // `rsc.io/* https://github.com/rsc/*`, asked for rsc.io/x86/x86asm.
  lemma WildcardExample(parse: Parser, render: Renderer)
    requires parse("https://github.com/rsc") == Ok(Web("https", "github.com", "/rsc"))
    requires render(Web("https", "github.com", "/rsc/x86")) == "https://github.com/rsc/x86"
    ensures NewRedirect("rsc.io/*", "https://github.com/rsc/*", DefaultVcs, parse) ==
      Ok(Rule(true, "rsc.io", Web("https", "github.com", "/rsc"), "git"))
    ensures var rule := NewRedirect("rsc.io/*", "https://github.com/rsc/*", DefaultVcs, parse).value;
      ServeHTTP(rule, "rsc.io", "/x86/x86asm", render) ==
        Page(PageData("rsc.io/x86", "git", "https://github.com/rsc/x86", "/x86asm"))
  {
    RscRule(parse);
    var rule := Rule(true, "rsc.io", Web("https", "github.com", "/rsc"), "git");
    RscRequest();
    WildcardPage(rule, "x86", "/x86asm", render);
    RscJoins();
  }

  // The rule of `rsc.io/* https://github.com/rsc/*`.
  lemma RscRule(parse: Parser)
    requires parse("https://github.com/rsc") == Ok(Web("https", "github.com", "/rsc"))
    ensures NewRedirect("rsc.io/*", "https://github.com/rsc/*", DefaultVcs, parse) ==
      Ok(Rule(true, "rsc.io", Web("https", "github.com", "/rsc"), "git"))
  {
    RscRuleParts(parse);
    assert "rsc.io/*" == "rsc.io" + "/*";
    assert "https://github.com/rsc/*" == "https://github.com/rsc" + "/*";
  }

  lemma RscRuleParts(parse: Parser)
    requires parse("https://github.com/rsc") == Ok(Web("https", "github.com", "/rsc"))
    ensures NewRedirect("rsc.io" + "/*", "https://github.com/rsc" + "/*", DefaultVcs, parse) ==
      Ok(Rule(true, "rsc.io", Web("https", "github.com", "/rsc"), "git"))
  {
    RscRepo();
    RscShape();
    NewRedirectWildcard("rsc.io", "https://github.com/rsc", DefaultVcs, parse);
  }

  lemma RscRepo()
    ensures Contains("https://github.com/rsc" + "/*", "://")
  {
    assert "https://github.com/rsc" + "/*" == "https" + "://" + "github.com/rsc/*";
    ContainsMiddle("https", "://", "github.com/rsc/*");
  }

  lemma RscShape()
    ensures !HasSuffix("rsc.io", "/")
    ensures SplitVcs("https", "git") == ("git", "https")
  {
  }

  lemma RscRequest()
    ensures RequestPath("rsc.io", "/x86/x86asm") == "rsc.io" + "/" + "x86" + "/x86asm"
  {
    RequestPathTrim("rsc.io", "/x86/x86asm");
    assert "rsc.io" + "/x86/x86asm" == "rsc.io" + "/" + "x86" + "/x86asm";
  }

  lemma RscJoins()
    ensures Join("rsc.io", "x86") == "rsc.io/x86"
    ensures Join("/rsc", "x86") == "/rsc/x86"
  {
    RscImportJoin();
    RscRepoJoin();
  }

  lemma RscImportJoin()
    ensures Join("rsc.io", "x86") == "rsc.io/x86"
  {
    RscPlain();
    CleanBasePlain("rsc.io");
    JoinPlain("rsc.io", "x86");
  }

  lemma RscRepoJoin()
    ensures Join("/rsc", "x86") == "/rsc/x86"
  {
    RscPlain();
    CleanRootedPlain("rsc");
    JoinPlain("/rsc", "x86");
  }

  lemma RscPlain()
    ensures Plain("rsc.io") && Plain("rsc") && Plain("x86")
  {
  }

  // `example.com/* hg+https://example.org/*`, asked for example.com/foo.
  lemma VcsPrefixExample(parse: Parser, render: Renderer)
    requires parse("hg+https://example.org") == Ok(Web("hg+https", "example.org", ""))
    requires render(Web("https", "example.org", "foo")) == "https://example.org/foo"
    ensures NewRedirect("example.com/*", "hg+https://example.org/*", DefaultVcs, parse) ==
      Ok(Rule(true, "example.com", Web("https", "example.org", ""), "hg"))
    ensures var rule := NewRedirect("example.com/*", "hg+https://example.org/*", DefaultVcs, parse).value;
      ServeHTTP(rule, "example.com", "/foo", render) ==
        Page(PageData("example.com/foo", "hg", "https://example.org/foo", ""))
  {
    HgRule(parse);
    var rule := Rule(true, "example.com", Web("https", "example.org", ""), "hg");
    HgRequest();
    WildcardPage(rule, "foo", "", render);
    HgJoins();
  }

  // The rule of `example.com/* hg+https://example.org/*`.
  lemma HgRule(parse: Parser)
    requires parse("hg+https://example.org") == Ok(Web("hg+https", "example.org", ""))
    ensures NewRedirect("example.com/*", "hg+https://example.org/*", DefaultVcs, parse) ==
      Ok(Rule(true, "example.com", Web("https", "example.org", ""), "hg"))
  {
    HgRuleParts(parse);
    HgPatterns();
  }

  lemma HgPatterns()
    ensures "example.com/*" == "example.com" + "/*"
    ensures "hg+https://example.org/*" == "hg+https://example.org" + "/*"
  {
  }

  lemma HgRuleParts(parse: Parser)
    requires parse("hg+https://example.org") == Ok(Web("hg+https", "example.org", ""))
    ensures NewRedirect("example.com" + "/*", "hg+https://example.org" + "/*", DefaultVcs, parse) ==
      Ok(Rule(true, "example.com", Web("https", "example.org", ""), "hg"))
  {
    HgRepo();
    HgShape();
    NewRedirectWildcard("example.com", "hg+https://example.org", DefaultVcs, parse);
  }

  lemma HgRepo()
    ensures Contains("hg+https://example.org" + "/*", "://")
  {
    assert "hg+https://example.org" + "/*" == "hg+https" + "://" + "example.org/*";
    ContainsMiddle("hg+https", "://", "example.org/*");
  }

  lemma HgShape()
    ensures !HasSuffix("example.com", "/")
    ensures SplitVcs("hg+https", "git") == ("hg", "https")
  {
    assert "hg+https" == "hg" + "+" + "https";
    SplitVcsJoin("hg", "https", "git");
  }

  lemma HgRequest()
    ensures RequestPath("example.com", "/foo") == "example.com" + "/" + "foo" + ""
  {
    RequestPathTrim("example.com", "/foo");
    assert "example.com" + "/foo" == "example.com" + "/" + "foo" + "";
  }

  lemma HgJoins()
    ensures Join("example.com", "foo") == "example.com/foo"
    ensures Join("", "foo") == "foo"
  {
    HgImportJoin();
    HgPlain();
    CleanPlain("foo");
  }

  lemma HgImportJoin()
    ensures Join("example.com", "foo") == "example.com/foo"
  {
    HgPlain();
    CleanBasePlain("example.com");
    JoinPlain("example.com", "foo");
    HgImportPath();
  }

  lemma HgImportPath()
    ensures "example.com" + "/" + "foo" == "example.com/foo"
  {
  }

  lemma HgPlain()
    ensures Plain("example.com") && Plain("foo")
  {
  }

  /** A wildcard rule asked for its own import path redirects to the documentation. */
  lemma WildcardRootExample(parse: Parser, render: Renderer)
    requires parse("https://github.com/rsc") == Ok(Web("https", "github.com", "/rsc"))
    ensures NewRedirect("rsc.io/*", "https://github.com/rsc/*", DefaultVcs, parse).Ok?
    ensures var rule := NewRedirect("rsc.io/*", "https://github.com/rsc/*", DefaultVcs, parse).value;
      ServeHTTP(rule, "rsc.io", "/", render) == Found("https://godoc.org/rsc.io")
  {
    RscRule(parse);
    RequestPathTrim("rsc.io", "");
    assert "" + "/" == "/";
  }
}
