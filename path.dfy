/**
 Go's `path.Join` for two elements and the `path.Clean` it applies, stated by
 the rules the `path` package documents for Clean:
   1. runs of slashes become one slash;
   2. each `.` element is dropped;
   3. each inner `..` element is dropped together with the non-`..` element before it;
   4. `..` elements at the start of a rooted path are dropped;
 and the result is "/" for a rooted path with nothing left, "." for an unrooted one.
 */
module GoPath {
  import opened GoStrings

  /** The '/'-separated elements of `s`, empty ones included: "a//b" has elements "a", "", "b". */
  function Split(s: string): (parts: seq<string>)
    ensures |parts| >= 1
    ensures forall k :: 0 <= k < |parts| ==> '/' !in parts[k]
    decreases |s|
  {
    var i := IndexByte(s, '/');
    if i < 0 then [s] else [s[..i]] + Split(s[i + 1..])
  }

  /** The elements `parts` written out with one '/' between neighbours. */
  function JoinElems(parts: seq<string>): string
  {
    if parts == [] then ""
    else if |parts| == 1 then parts[0]
    else parts[0] + "/" + JoinElems(parts[1..])
  }

  /** An element that Clean keeps as it is. */
  predicate Plain(e: string) {
    e != "" && e != "." && e != ".." && '/' !in e
  }

  /** One element of the input applied to the elements kept so far. */
  function Step(kept: seq<string>, e: string, rooted: bool): seq<string>
  {
    if e == "" || e == "." then kept
    else if e == ".." then
      if |kept| > 0 && kept[|kept| - 1] != ".." then kept[..|kept| - 1]
      else if rooted then kept
      else kept + [".."]
    else kept + [e]
  }

  /** The elements Clean keeps of `parts`, processed left to right. */
  function Reduce(parts: seq<string>, rooted: bool): seq<string>
  {
    if parts == [] then [] else Step(Reduce(parts[..|parts| - 1], rooted), parts[|parts| - 1], rooted)
  }

  /** path.Clean */
  function Clean(p: string): string
  {
    if p == "" then "."
    else
      var rooted := p[0] == '/';
      var kept := Reduce(Split(p), rooted);
      if rooted then "/" + JoinElems(kept)
      else if kept == [] then "."
      else JoinElems(kept)
  }

  /** path.Join(a, b): the non-empty arguments joined by '/', then cleaned; "" if both are empty. */
  function Join(a: string, b: string): string
  {
    if a == "" && b == "" then ""
    else if a == "" then Clean(b)
    else Clean(a + "/" + b)
  }

  /** A path that Join extends by plain concatenation: already clean, and neither "." nor "/". */
  predicate CleanBase(a: string) {
    a == Clean(a) && a != "." && a != "/"
  }

  /** Splitting a path and writing its elements out again gives the path back. */
  lemma {:induction false} SplitJoinElems(s: string)
    ensures JoinElems(Split(s)) == s
    decreases |s|
  {
    var i := IndexByte(s, '/');
    if i >= 0 {
      var head, tail := s[..i], s[i + 1..];
      var rest := Split(tail);
      assert ([head] + rest)[1..] == rest;
      assert JoinElems([head] + rest) == head + "/" + JoinElems(rest);
      SplitJoinElems(tail);
      assert s == head + "/" + tail;
    }
  }

  /** Split at the first '/' of `s`. */
  lemma SplitAt(s: string, i: nat)
    requires i < |s| && s[i] == '/' && '/' !in s[..i]
    ensures Split(s) == [s[..i]] + Split(s[i + 1..])
  {
    IndexByteAt(s, '/', i);
  }

  /** A '/'-free `e` after a '/' adds exactly one element to the split. */
  lemma {:induction false} SplitAppend(a: string, e: string)
    requires '/' !in e
    ensures Split(a + "/" + e) == Split(a) + [e]
    decreases |a|
  {
    var i := IndexByte(a, '/');
    if i < 0 {
      SplitAppendLast(a, e);
    } else {
      var p := a + "/" + e;
      var head, tail := a[..i], a[i + 1..];
      assert p[..i] == head;
      assert p[i + 1..] == tail + "/" + e;
      SplitAt(p, i);
      SplitAt(a, i);
      SplitAppend(tail, e);
    }
  }

  /** The base case of SplitAppend: `a` holds no '/'. */
  lemma SplitAppendLast(a: string, e: string)
    requires '/' !in a && '/' !in e
    ensures Split(a + "/" + e) == [a, e]
  {
    var p := a + "/" + e;
    assert p[..|a|] == a;
    assert p[|a| + 1..] == e;
    SplitAt(p, |a|);
  }

  /** Writing out one more element adds it after a '/'. */
  lemma {:induction false} JoinElemsAppend(parts: seq<string>, e: string)
    requires parts != []
    ensures JoinElems(parts + [e]) == JoinElems(parts) + "/" + e
    decreases |parts|
  {
    if |parts| > 1 {
      assert (parts + [e])[1..] == parts[1..] + [e];
      JoinElemsAppend(parts[1..], e);
    }
  }

  /** Every element Clean keeps is non-empty, not ".", and free of '/'. */
  lemma {:induction false} ReduceElems(parts: seq<string>, rooted: bool)
    requires forall k :: 0 <= k < |parts| ==> '/' !in parts[k]
    ensures forall k :: 0 <= k < |Reduce(parts, rooted)| ==>
      var e := Reduce(parts, rooted)[k]; e != "" && e != "." && '/' !in e
    decreases |parts|
  {
    if parts != [] {
      ReduceElems(parts[..|parts| - 1], rooted);
    }
  }

  /** Clean never returns the empty string. */
  lemma CleanNonEmpty(p: string)
    ensures Clean(p) != ""
  {
    if p != "" && p[0] != '/' {
      var kept := Reduce(Split(p), false);
      ReduceElems(Split(p), false);
      if kept != [] {
        JoinElemsNonEmpty(kept);
      }
    }
  }

  lemma JoinElemsNonEmpty(parts: seq<string>)
    requires parts != [] && parts[0] != ""
    ensures JoinElems(parts) != ""
  {
  }

  /** The elements Clean keeps of `a + "/" + e` are those of `a`, then the plain `e`. */
  lemma CleanAppend(a: string, e: string)
    requires a != "" && Plain(e)
    ensures
      var rooted := a[0] == '/';
      Clean(a + "/" + e) == (if rooted then "/" else "") + JoinElems(Reduce(Split(a), rooted) + [e])
  {
    var p := a + "/" + e;
    assert p[0] == a[0];
    SplitAppend(a, e);
    var parts := Split(a);
    assert (parts + [e])[..|parts + [e]| - 1] == parts;
  }

  /**
   Joining a clean path and a plain element is concatenation with one '/'.
   This is the case the redirector relies on for the wildcard element.
   */
  lemma JoinPlain(a: string, e: string)
    requires CleanBase(a) && Plain(e)
    ensures Join(a, e) == a + "/" + e
  {
    CleanNonEmpty(a);
    CleanAppend(a, e);
    var rooted := a[0] == '/';
    var kept := Reduce(Split(a), rooted);
    assert kept != [];
    JoinElemsAppend(kept, e);
  }

  /** A single plain element is clean. */
  lemma CleanPlain(e: string)
    requires Plain(e)
    ensures Clean(e) == e
  {
    assert e[0] != '/' by { assert e[0] in e; }
    assert Split(e) == [e];
    assert [e][..0] == [];
    assert Reduce([e], false) == Step([], e, false);
  }

  /** A plain element is a clean base to join onto. */
  lemma CleanBasePlain(e: string)
    requires Plain(e)
    ensures CleanBase(e)
  {
    CleanPlain(e);
  }

  /** A single plain element under the root is clean. */
  lemma CleanRootedPlain(e: string)
    requires Plain(e)
    ensures CleanBase("/" + e)
  {
    SplitAppendLast("", e);
    assert "" + "/" + e == "/" + e;
    var parts := ["", e];
    assert parts[..1] == [""];
    assert [""][..0] == [];
    assert Reduce([""], true) == [];
    assert Reduce(parts, true) == Step([], e, true);
  }

  /** A trailing '/' does not change the cleaned path. */
  lemma CleanTrailingSlash(a: string)
    requires a != ""
    ensures Clean(a + "/") == Clean(a)
  {
    var p := a + "/";
    assert p == a + "/" + "";
    SplitAppend(a, "");
    var parts := Split(a);
    assert (parts + [""])[..|parts + [""]| - 1] == parts;
    assert p[0] == a[0];
  }

  /** Join with an empty element only cleans the base. */
  lemma JoinEmpty(a: string)
    ensures Join(a, "") == if a == "" then "" else Clean(a)
  {
    if a != "" {
      CleanTrailingSlash(a);
      assert a + "/" + "" == a + "/";
    }
  }
}
