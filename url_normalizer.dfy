/**
 * The URL canonicaliser of the trend service (`cleanUrl`): a URL is rebuilt
 * from its protocol, `//`, host and pathname, which drops the query and the
 * fragment; a string that does not parse as a URL is passed through unchanged.
 *
 * The WHATWG `URL` parser the service relies on is stood in for by an explicit
 * splitter into the components of section 3 of RFC 3986:
 * `scheme "://" authority path [ "?" query ] [ "#" fragment ]`.
 */
module UrlNormalizer {
  import opened Wrappers
  import opened Strings

  /** The components of a URL, each as the raw text it spans in the input. */
  datatype UrlParts = UrlParts(
    scheme: string,             // without the ':'
    authority: string,          // the authority as written, userinfo included
    path: string,               // empty, or starting with '/'
    query: Option<string>,      // the text after '?', when there is a '?'
    fragment: Option<string>)   // the text after '#', when there is a '#'

  predicate IsAsciiLetter(ch: char) {
    'a' <= ch <= 'z' || 'A' <= ch <= 'Z'
  }

  /** A character allowed in a scheme after its first letter (RFC 3986, section 3.1). */
  predicate IsSchemeChar(ch: char) {
    IsAsciiLetter(ch) || '0' <= ch <= '9' || ch == '+' || ch == '-' || ch == '.'
  }

  /** Characters that end the authority. */
  const AuthorityEnd: set<char> := {'/', '?', '#'}

  /** Characters that end the path. */
  const PathEnd: set<char> := {'?', '#'}

  /** Length of the longest prefix of `s` made of scheme characters. */
  function SchemeLength(s: string): (n: nat)
    ensures n <= |s|
    ensures forall k :: 0 <= k < n ==> IsSchemeChar(s[k])
    ensures n < |s| ==> !IsSchemeChar(s[n])
  {
    if s == [] || !IsSchemeChar(s[0]) then 0 else 1 + SchemeLength(s[1..])
  }

  /** The scheme characters of `a + b` run exactly to the end of `a` when `b` does not continue them. */
  lemma {:induction false} SchemeLengthAt(a: string, b: string)
    requires forall k :: 0 <= k < |a| ==> IsSchemeChar(a[k])
    requires b == [] || !IsSchemeChar(b[0])
    ensures SchemeLength(a + b) == |a|
    decreases |a|
  {
    if a != [] {
      assert (a + b)[0] == a[0];
      assert (a + b)[1..] == a[1..] + b;
      SchemeLengthAt(a[1..], b);
    }
  }

  /** Components that the splitter can produce: what each may and may not contain. */
  predicate WellFormed(p: UrlParts) {
    && |p.scheme| > 0 && IsAsciiLetter(p.scheme[0])
    && (forall k :: 0 <= k < |p.scheme| ==> IsSchemeChar(p.scheme[k]))
    && |p.authority| > 0
    && (forall k :: 0 <= k < |p.authority| ==> p.authority[k] !in AuthorityEnd)
    && (p.path == [] || p.path[0] == '/')
    && (forall k :: 0 <= k < |p.path| ==> p.path[k] !in PathEnd)
    && (p.query.Some? ==> '#' !in p.query.value)
  }

  /** The text a URL is written as, component by component. */
  function Unparse(p: UrlParts): (u: string) {
    p.scheme + "://" + p.authority + p.path + Marked('?', p.query) + Marked('#', p.fragment)
  }

  /** An optional component written after its marker character. */
  function Marked(marker: char, component: Option<string>): (s: string) {
    if component.Some? then [marker] + component.value else ""
  }

  /**
   * Splits a URL into its components, or None when it is malformed: no scheme
   * starting with a letter, no "://" after it, or an empty authority. Every
   * URL it accepts is written exactly as its components say.
   */
  function ParseUrl(u: string): (r: Option<UrlParts>)
    ensures r.Some? ==> WellFormed(r.value) && Unparse(r.value) == u
  {
    var n := SchemeLength(u);
    if n == 0 || !IsAsciiLetter(u[0]) || |u| < n + 3 || u[n..n + 3] != "://" then None
    else
      var r := ParseAuthority(u[..n], u[n + 3..]);
      SchemeSplit(u, n);
      r
  }

  /** A URL is its scheme, "://" and what follows. */
  lemma SchemeSplit(u: string, n: nat)
    requires n + 3 <= |u| && u[n..n + 3] == "://"
    ensures u[..n] + "://" + u[n + 3..] == u
  {
    assert u == u[..n] + u[n..n + 3] + u[n + 3..];
  }

  /** Splits what follows "://" into the authority and the rest, once the scheme is known. */
  function ParseAuthority(scheme: string, rest: string): (r: Option<UrlParts>)
    requires |scheme| > 0 && IsAsciiLetter(scheme[0])
    requires forall k :: 0 <= k < |scheme| ==> IsSchemeChar(scheme[k])
    ensures r.Some? ==> WellFormed(r.value) && Unparse(r.value) == scheme + "://" + rest
  {
    var a := IndexOfAny(rest, AuthorityEnd);
    if a == 0 then None
    else
      var authority := rest[..a];
      AuthorityPrefix(scheme + "://", rest, a);
      var r := ParsePath(scheme, authority, rest[a..]);
      Some(r)
  }

  /** The authority found after "://" is free of '/', '?' and '#', and the rest of the URL follows it. */
  lemma AuthorityPrefix(head: string, rest: string, a: nat)
    requires a <= |rest| && forall k :: 0 <= k < a ==> rest[k] !in AuthorityEnd
    ensures forall k :: 0 <= k < |rest[..a]| ==> rest[..a][k] !in AuthorityEnd
    ensures rest[..a] + rest[a..] == rest
    ensures head + rest[..a] + rest[a..] == head + rest
  {
    assert forall k :: 0 <= k < |rest[..a]| ==> rest[..a][k] == rest[k];
  }


  /** Splits what follows the authority into the path, the query and the fragment. */
  function ParsePath(scheme: string, authority: string, afterAuthority: string): (r: UrlParts)
    requires |scheme| > 0 && IsAsciiLetter(scheme[0])
    requires forall k :: 0 <= k < |scheme| ==> IsSchemeChar(scheme[k])
    requires |authority| > 0 && forall k :: 0 <= k < |authority| ==> authority[k] !in AuthorityEnd
    requires afterAuthority == [] || afterAuthority[0] in AuthorityEnd
    ensures WellFormed(r)
    ensures Unparse(r) == scheme + "://" + authority + afterAuthority
  {
    var p := IndexOfAny(afterAuthority, PathEnd);
    var path := afterAuthority[..p];
    PathPrefix(afterAuthority, p);
    var (query, fragment) := SplitTail(afterAuthority[p..]);
    AppendAssoc(scheme + "://" + authority + path, Marked('?', query), Marked('#', fragment));
    AppendAssoc(scheme + "://" + authority, path, afterAuthority[p..]);
    UrlParts(scheme, authority, path, query, fragment)
  }

  /** The path found after the authority is empty or a '/' followed by characters other than '?' and '#'. */
  lemma PathPrefix(afterAuthority: string, p: nat)
    requires afterAuthority == [] || afterAuthority[0] in AuthorityEnd
    requires p <= |afterAuthority| && forall k :: 0 <= k < p ==> afterAuthority[k] !in PathEnd
    ensures var path := afterAuthority[..p];
      && (path == [] || path[0] == '/')
      && (forall k :: 0 <= k < |path| ==> path[k] !in PathEnd)
      && path + afterAuthority[p..] == afterAuthority
  {
    var path := afterAuthority[..p];
    assert forall k :: 0 <= k < |path| ==> path[k] == afterAuthority[k];
    assert path + afterAuthority[p..] == afterAuthority;
  }

  /** Splits what follows the path into the query (after '?') and the fragment (after '#'). */
  function SplitTail(tail: string): (r: (Option<string>, Option<string>))
    requires tail == [] || tail[0] in PathEnd
    ensures r.0.Some? ==> '#' !in r.0.value
    ensures Marked('?', r.0) + Marked('#', r.1) == tail
  {
    var h := IndexOfAny(tail, {'#'});
    var query := if h == 0 then None else Some(tail[1..h]);
    var fragment := if h == |tail| then None else Some(tail[h + 1..]);
    TailSplit(tail, h);
    (query, fragment)
  }

  /** The text after a path is the query part followed by the fragment part. */
  lemma TailSplit(tail: string, h: nat)
    requires tail == [] || tail[0] in PathEnd
    requires h <= |tail| && (h < |tail| ==> tail[h] == '#')
    requires forall k :: 0 <= k < h ==> tail[k] != '#'
    ensures h > 0 ==> '#' !in tail[1..h]
    ensures tail == Marked('?', if h == 0 then None else Some(tail[1..h]))
                    + Marked('#', if h == |tail| then None else Some(tail[h + 1..]))
  {
    if h > 0 {
      assert tail[0] == '?';
      assert tail[..h] == "?" + tail[1..h];
      assert forall k :: 0 <= k < h - 1 ==> tail[1..h][k] == tail[k + 1];
    }
    if h < |tail| {
      assert tail[h..] == "#" + tail[h + 1..];
    }
    assert tail == tail[..h] + tail[h..];
  }

  /** The pathname the `URL` object reports: "/" when the path is empty. */
  function Pathname(p: UrlParts): (pathname: string) {
    if p.path == [] then "/" else p.path
  }

  /** `${protocol}//${host}${pathname}`; the protocol includes the ':'. */
  function Rebuild(p: UrlParts): (u: string) {
    p.scheme + "://" + p.authority + Pathname(p)
  }

  /**
   * `cleanUrl`: drops the query and the fragment of a URL that parses; any
   * other string comes back unchanged.
   */
  function CleanUrl(u: string): (r: string)
    ensures ParseUrl(u).None? ==> r == u
  {
    match ParseUrl(u)
    case None => u
    case Some(p) => Rebuild(p)
  }

  /** Every well-formed set of components is what `ParseUrl` finds in its own text. */
  lemma ParseUnparse(p: UrlParts)
    requires WellFormed(p)
    ensures ParseUrl(Unparse(p)) == Some(p)
  {
    var tail := Marked('?', p.query) + Marked('#', p.fragment);
    var afterAuthority := p.path + tail;
    var rest := p.authority + afterAuthority;
    var u := Unparse(p);
    assert u == p.scheme + ("://" + rest);
    SchemeLengthAt(p.scheme, "://" + rest);
    var n := |p.scheme|;
    assert u[..n] == p.scheme;
    assert u[n..n + 3] == "://";
    assert u[n + 3..] == rest;
    ParseAuthorityUnparse(p);
  }

  /** `ParseAuthority` finds the components in the text after "://". */
  lemma ParseAuthorityUnparse(p: UrlParts)
    requires WellFormed(p)
    ensures ParseAuthority(p.scheme, p.authority + p.path + Marked('?', p.query) + Marked('#', p.fragment)) == Some(p)
  {
    var afterAuthority := p.path + Marked('?', p.query) + Marked('#', p.fragment);
    var rest := p.authority + afterAuthority;
    assert rest == p.authority + p.path + Marked('?', p.query) + Marked('#', p.fragment);
    IndexOfAnyAt(p.authority, afterAuthority, AuthorityEnd);
    assert rest[..|p.authority|] == p.authority;
    assert rest[|p.authority|..] == afterAuthority;
    ParsePathUnparse(p);
  }

  /** `ParsePath` finds the path, the query and the fragment in the text after the authority. */
  lemma ParsePathUnparse(p: UrlParts)
    requires WellFormed(p)
    ensures ParsePath(p.scheme, p.authority, p.path + Marked('?', p.query) + Marked('#', p.fragment)) == p
  {
    var tail := Marked('?', p.query) + Marked('#', p.fragment);
    var afterAuthority := p.path + tail;
    assert afterAuthority == p.path + Marked('?', p.query) + Marked('#', p.fragment);
    IndexOfAnyAt(p.path, tail, PathEnd);
    assert afterAuthority[..|p.path|] == p.path;
    assert afterAuthority[|p.path|..] == tail;
    SplitTailMarked(p.query, p.fragment);
  }

  /** `SplitTail` gives back the query and the fragment it is shown. */
  lemma SplitTailMarked(query: Option<string>, fragment: Option<string>)
    requires query.Some? ==> '#' !in query.value
    ensures SplitTail(Marked('?', query) + Marked('#', fragment)) == (query, fragment)
  {
    var mq, mf := Marked('?', query), Marked('#', fragment);
    var tail := mq + mf;
    IndexOfAnyAt(mq, mf, {'#'});
    assert tail[..|mq|] == mq;
    assert tail[|mq|..] == mf;
    if query.Some? {
      assert tail[1..|mq|] == mq[1..] == query.value;
    }
    if fragment.Some? {
      assert tail[|mq| + 1..] == mf[1..] == fragment.value;
    }
  }

  /** The components `cleanUrl` keeps: the same scheme, host and pathname, with no query and no fragment. */
  function Cleaned(p: UrlParts): (cleaned: UrlParts) {
    p.(path := Pathname(p), query := None, fragment := None)
  }

  /** Characters outside `stops` on both sides of a concatenation are outside it in the whole. */
  lemma NoneInConcat(a: string, b: string, stops: set<char>)
    requires forall k :: 0 <= k < |a| ==> a[k] !in stops
    requires forall k :: 0 <= k < |b| ==> b[k] !in stops
    ensures forall k :: 0 <= k < |a + b| ==> (a + b)[k] !in stops
  {
    forall k | 0 <= k < |a + b|
      ensures (a + b)[k] !in stops
    {
      if k >= |a| {
        assert (a + b)[k] == b[k - |a|];
      }
    }
  }

  /** A URL rebuilt from well-formed components holds no '?' and no '#'. */
  lemma RebuildHasNoMarkers(p: UrlParts)
    requires WellFormed(p)
    ensures forall k :: 0 <= k < |Rebuild(p)| ==> Rebuild(p)[k] !in PathEnd
  {
    assert forall k :: 0 <= k < |p.scheme| ==> IsSchemeChar(p.scheme[k]);
    NoneInConcat(p.scheme, "://", PathEnd);
    NoneInConcat(p.scheme + "://", p.authority, PathEnd);
    NoneInConcat(p.scheme + "://" + p.authority, Pathname(p), PathEnd);
  }

  /**
   * Every URL that parses is the text of well-formed components (`ParseUrl`
   * and `ParseUnparse`). For such a URL `cleanUrl` gives scheme, "://", host
   * and pathname, whatever the query and the fragment are: the text holds no
   * '?' and no '#', it parses back to the same scheme, host and pathname, and
   * when the URL has a path it is the URL with its query part and its
   * fragment part cut off the end.
   */
  lemma CleanUrlParsed(p: UrlParts)
    requires WellFormed(p)
    ensures CleanUrl(Unparse(p)) == p.scheme + "://" + p.authority + Pathname(p)
    ensures '?' !in CleanUrl(Unparse(p)) && '#' !in CleanUrl(Unparse(p))
    ensures ParseUrl(CleanUrl(Unparse(p))) == Some(Cleaned(p))
    ensures p.path != [] ==> Unparse(p) == CleanUrl(Unparse(p)) + Marked('?', p.query) + Marked('#', p.fragment)
  {
    ParseUnparse(p);
    var r := CleanUrl(Unparse(p));
    assert r == Rebuild(p);
    assert '?' !in r && '#' !in r by {
      RebuildHasNoMarkers(p);
    }
    assert ParseUrl(r) == Some(Cleaned(p)) by {
      CleanedWellFormed(p);
      ParseUnparse(Cleaned(p));
    }
  }

  /** The components `cleanUrl` keeps are well-formed and are written as the cleaned URL. */
  lemma CleanedWellFormed(p: UrlParts)
    requires WellFormed(p)
    ensures WellFormed(Cleaned(p))
    ensures Unparse(Cleaned(p)) == Rebuild(p)
  {
    var c := Cleaned(p);
    assert Marked('?', c.query) == "" && Marked('#', c.fragment) == "";
    assert Unparse(c) == c.scheme + "://" + c.authority + c.path + "" + "";
  }

  /** Cleaning a URL twice is cleaning it once. */
  lemma CleanUrlIdempotent(u: string)
    ensures CleanUrl(CleanUrl(u)) == CleanUrl(u)
  {
    match ParseUrl(u)
    case None =>
    case Some(p) =>
      assert u == Unparse(p);
      CleanUrlParsed(p);
      assert Pathname(Cleaned(p)) == Pathname(p);
  }

  /** The components of a Qiita item link carrying a tracking query. */
  predicate TrackedItemLink(p: UrlParts) {
    && p.scheme == "https" && p.authority == "qiita.com" && p.path == "/items/abc"
    && p.query == Some("utm_source=x") && p.fragment == None
  }

  /** Those components are well-formed. */
  lemma TrackedItemLinkWellFormed(p: UrlParts)
    requires TrackedItemLink(p)
    ensures WellFormed(p)
  {
  }

  /**
   * The Qiita item link `https://qiita.com/items/abc?utm_source=x` is the
   * text of well-formed components whose rebuilt form is the bare item URL,
   * so by `CleanUrlParsed` it cleans to `https://qiita.com/items/abc`.
   */
  lemma CleanUrlExample(p: UrlParts)
    requires TrackedItemLink(p)
    ensures WellFormed(p)
    ensures Unparse(p) == "https://qiita.com/items/abc?utm_source=x"
    ensures Rebuild(p) == "https://qiita.com/items/abc"
  {
    TrackedItemLinkWellFormed(p);
  }

  /** `cleanUrl` drops the tracking query of a Qiita item link. */
  lemma CleanUrlTrackedLink()
    ensures CleanUrl("https://qiita.com/items/abc?utm_source=x") == "https://qiita.com/items/abc"
  {
    var p := UrlParts("https", "qiita.com", "/items/abc", Some("utm_source=x"), None);
    CleanUrlExample(p);
    CleanUrlParsed(p);
  }
}
