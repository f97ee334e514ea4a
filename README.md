# go-import-redirector: the redirect rule

go-import-redirector is an HTTP server for vanity Go import paths. It is started
with `(import, repo)` pattern pairs such as `rsc.io/* https://github.com/rsc/*`.
For each request it serves a page with a `go-import` meta tag that points the
`go` tool at the repository. The page also refreshes to the package's
documentation on godoc.org.

This project models in Dafny the part of `main.go` that decides what is served:

- **Rule construction** (`Redirect.NewRedirect`, for `newRedirect`). The repo pattern must
  hold `://`. Both patterns end in the `/*` wildcard marker, or neither does.
  The marker and then one trailing `/` come off the import pattern. The marker
  comes off the repo pattern, which is then handed to the URL parser. A
  `<vcs>+<scheme>` scheme is split into the VCS kind and the real scheme;
  without a `+`, the default VCS kind is used.
- **The root** a rule is registered under (`Redirect.Root`, for `root`): `importPath + "/"`.
- **Request resolution** (`Redirect.ServeHTTP`, for the body of `ServeHTTP`). The request
  path (`Redirect.RequestPath`) is host plus URL path, with one trailing `/` trimmed.
  `Redirect.Resolve` answers it with "not found", a 302
  redirect to the documentation (a wildcard rule asked for its own import path),
  or the page data: import root, VCS kind, VCS root and suffix. A wildcard rule
  takes exactly one path element. It joins that element to both its import path
  and the path of a copy of its repo URL.
- **Start-up** (`Startup.RegisterRules` and `Startup.ListenTarget`, for `main`). The positional arguments are checked: at least
  two, and an even count. Each pair in order makes one rule. The rules are
  registered under their roots, and the first failing pair ends start-up. A
  `unix:` listen address selects a Unix socket.

Supporting modules:

- `GoStrings` models the Go `strings` functions the code uses.
- `GoPath` models `path.Join` (`GoPath.Join`) and `path.Clean` (`GoPath.Clean`) by the element rules the Go `path`
  package documents. Lemma `JoinPlain` proves that joining a clean path and an
  ordinary element is plain concatenation with one `/`.
- `GoUrl` models a `url.URL` value. `url.Parse` and `URL.String` are function
  parameters (`Parser`, `Renderer`).
- `Examples` derives from the model:
  - the two documented examples (main.go:19-38): the `9fans.net/go` plain rule and the `rsc.io/*` wildcard rule;
  - an `hg+https` case of the `<vcs>+` scheme prefix that main.go:43-45 documents;
  - the redirect a wildcard rule gives for its own import path (main.go:230-232).

  Each example states, as hypotheses, the values the URL parser and renderer
  give on the URLs involved.

The page data's three leading fields are the three words of the `go-import` tag
(main.go:166). The documentation URL is `https://godoc.org/` followed by the
import root and the suffix (main.go:167); `Redirect.DocUrl` models it.

A rule's import path might be expected never to end in `/`, but the code does
not ensure that, and the model follows the code. `newRedirect` trims only one
`/` after the marker (main.go:202). So the pattern `a//*` gives the import path
`a`, but `a///*` gives `a/`, and so does the plain pattern `a//`.
`Redirect.NewRedirectRule` states this case: an import path ending in `/` means
the pattern ended in `//` followed by the marker (`///*` for a wildcard, `//`
for a plain pattern).

## Model

| member | source | states |
|---|---|---|
| GoStrings.TrimSuffix | main.go:198-202 | trimming removes one copy of the suffix when it is there, and otherwise leaves the string unchanged |
| GoStrings.IndexByte | main.go:209 | the result is -1 exactly when the byte is absent; otherwise it is an index holding the byte with no earlier occurrence |
| GoStrings.Contains | main.go:190 | true exactly when the substring occurs at some position |
| GoPath.Split | main.go:244 | a path splits into at least one element, and no element contains a '/' |
| GoPath.SplitJoinElems | main.go:244 | writing the split elements back out with '/' between them gives the path again |
| GoPath.JoinPlain | main.go:244-246 | joining a clean path (not "." or "/") and a plain element gives `a + "/" + e` |
| GoPath.CleanPlain | main.go:244-246 | path.Clean leaves a single plain element unchanged |
| GoPath.CleanRootedPlain | main.go:246 | "/" followed by one plain element is clean, so it can be joined onto |
| GoPath.JoinEmpty | main.go:244-246 | joining an empty element only cleans the base, and gives "" for an empty base |
| Redirect.SplitVcs | main.go:208-211 | with a '+', the VCS kind (which holds no '+'), then '+', then the new scheme spell the old scheme; without one, the default kind and the unchanged scheme |
| Redirect.SplitVcsJoin | main.go:208-211 | a `<vcs>+<scheme>` scheme whose kind has no '+' splits back into exactly that kind and scheme |
| Redirect.NewRedirectErrors | main.go:189-206 | each of the three errors (no "://", wildcard mismatch, parse failure) happens exactly when its condition holds and the earlier checks pass; a parse error carries the parser's message |
| Redirect.NewRedirectRule | main.go:193-218 | a rule's wildcard flag is set exactly when either pattern ends in "/*"; the import path is the pattern minus the marker and at most one more '/'; the parsed text is the repo pattern minus the marker; the repo URL is the parsed one with the VCS split applied |
| Redirect.ImportPrefixTrims | main.go:198-202 | the import pattern is the prefix plus the marker, with at most one '/' between; the '/' was removed exactly when the pattern had one there; a prefix still ending in '/' means the pattern ended in "//" and the marker |
| Redirect.NewRedirectPlain | main.go:189-220 | a plain pattern pair with a full URL and no trailing '/' makes the plain rule of exactly that import path and the parsed URL, with the VCS split applied |
| Redirect.NewRedirectWildcard | main.go:193-220 | the pair `prefix/*`, `repo/*` makes the wildcard rule of `prefix`, with the URL parsed from `repo` |
| Redirect.RequestPathTrim | main.go:227 | a URL path not ending in '/' is kept whole; one '/' at the end is removed |
| Redirect.ResolveMatches | main.go:229-252 | a rule answers (not 404) exactly when the path is its import path or lies under its root; it redirects exactly when it is a wildcard rule asked for its import path, and the redirect goes to `https://godoc.org/` plus that path |
| Redirect.PlainPage | main.go:249-255 | a plain rule's page has its own import path, VCS kind and rendered repo URL; the import root plus the suffix is the request path; the suffix is empty or starts with '/'; the documentation link is `https://godoc.org/` plus the request path |
| Redirect.PlainPageSuffix | main.go:249-255 | a plain rule serves `importPath + suffix` with that suffix, for every suffix that is empty or starts with '/' |
| Redirect.WildcardPage | main.go:238-247 | a wildcard rule serves `importPath/elem suffix` with `join(importPath, elem)` as its import root and with the repo URL copy's path set to `join(repo.path, elem)`; the suffix is unchanged |
| Redirect.WildcardElement | main.go:238-242 | every path under a wildcard rule's root is `importPath/elem suffix` for an element free of '/' and a suffix that is empty or starts with '/' |
| Redirect.ElementUnique | main.go:238-242 | that split of a path into element and suffix is unique |
| Redirect.WildcardPlainElement | main.go:238-247 | with a clean import path and a plain element, the import root is `importPath/elem`, the import root plus the suffix is the request path, and the documentation link is the request path |
| Redirect.WildcardAsPlain | main.go:229-256 | a wildcard rule answers a request under element `elem` as the plain rule would whose import path and repo path already have `elem` joined on |
| Redirect.WildcardEmptyElement | main.go:227-247 | the request path `importPath + "//"`, handed to the handler, loses one '/' and gives a wildcard rule an empty element; the import root is then the cleaned import path |
| Startup.RegisterRules | main.go:92-106 | usage error exactly when there are fewer than two arguments or an odd count; on failure, the reported pair fails with that error and every earlier pair succeeds; otherwise one route per pair, in order, each under its rule's root |
| Startup.ExitStatus | main.go:83-104 | start-up exits with status 2 exactly on a usage error, with 1 (log.Fatalf) exactly on a failing pair, and goes on to serve otherwise |
| Startup.DefaultListen | main.go:71-111 | the default listen address `:9001` is a TCP address, used unchanged |
| Startup.ListenTarget | main.go:108-111 | a "unix:" address gives a Unix socket at the rest of the address; any other address listens on TCP unchanged |
| Startup.ListenUnix | main.go:108-111 | "unix:" followed by a socket path listens on exactly that path |
| Examples.PlainExample | main.go:19-26 | `9fans.net/go https://github.com/9fans/go`, asked for 9fans.net/go/acme/editinacme, serves import root 9fans.net/go, VCS kind git, VCS root https://github.com/9fans/go and suffix /acme/editinacme |
| Examples.WildcardExample | main.go:28-38 | `rsc.io/* https://github.com/rsc/*`, asked for rsc.io/x86/x86asm, serves import root rsc.io/x86, VCS kind git, VCS root https://github.com/rsc/x86 and suffix /x86asm |
| Examples.VcsPrefixExample | main.go:43-45 | `example.com/* hg+https://example.org/*` makes an hg rule with scheme https, and asked for example.com/foo serves import root example.com/foo, VCS kind hg and VCS root https://example.org/foo |
| Examples.WildcardRootExample | main.go:229-233 | the `rsc.io/*` rule asked for rsc.io/ redirects to https://godoc.org/rsc.io |

## Left out

- HTTP serving is left out because it is library plumbing: the `http.ServeMux` longest-prefix dispatch, and the writing of the 404, 302, 500 and page responses (main.go:97, 226-270). Only the resolved `Response` is modelled, as the handler computes it when called directly. The mux first answers a non-canonical path (one holding `//`, `.` or `..` elements) with a 301 redirect to the cleaned path, so through the running server `Redirect.WildcardEmptyElement` describes the handler, not a reachable request.
- `mux.Handle` panics when two rules have the same root. The model does not capture this: `Startup.RegisterRules` returns every route, duplicates included.
- Opening the listener and closing it on exit, `errgroup`, signal handling and graceful shutdown with the `-grace` period (main.go:113-159) are left out as I/O, concurrency and timing.
- `html/template` rendering and HTML escaping (main.go:162-173, 263-269) are left out, being a foreign library. The page is modelled by its data, and the documentation URL by `Redirect.DocUrl`.
- `url.Parse` and `URL.String` are function parameters, since their code is not part of this model. The examples fix the values these give as hypotheses.
- The copy of the repo URL gets a new `Path` and keeps its `RawPath` unchanged, as in the source (main.go:245-246).
- `GoUrl.URL` omits Go's `ForceQuery`, `RawFragment` and `OmitHost` fields. No operation here reads or changes them, so carrying them would not change any result.
- `strings.Index(elem, "/")` (main.go:239) is modelled by `GoStrings.IndexByte`: for a one-byte needle both give the first index of that byte.
- A Dafny `string` stands for a Go string's bytes, one `char` per byte. Every byte the code tests (`/`, `+`, `*`, `:`) is ASCII, so decoding makes no difference.
- `flag` parsing and the usage text are not modelled. The `-listen` default is `Startup.DefaultListenAddr` and the `-vcs` default is `Startup.DefaultVcs`.
- Startup.RegisterRules: the failure message of `log.Fatalf` is not modelled; the outcome carries the pair's index and error instead. The format at main.go:103 has three verbs but only one argument; that affects logging only.
- Logging (main.go:88, 240) and `pong` (main.go:272-274) are left out, because they do not affect what is served.
- Startup.RegisterRules: it loops over the pair index `k` (arguments `2k` and `2k+1`) instead of stepping `i` by two. The pairs it visits, and their order, are the same.
