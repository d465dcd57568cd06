/**
 * What the extractors see of a fetched page, and the URL arithmetic they do:
 * the base URL `'/'.join(url.split('/')[:3])`, the absolutisation of a
 * relative link against it, and the hostname `urllib.parse.urlparse` reports.
 */
module Web {
  import opened Wrappers
  import opened Text

  /** One element a CSS selector returned: tag name, text content and `href` attribute. */
  datatype Element = Element(name: string, text: string, href: Option<string>) {
    /** `elemento.get('href', '')`. */
    function HrefOrEmpty(): (h: string)
      ensures href.None? ==> h == ""
      ensures href.Some? ==> h == href.value
    {
      if href.Some? then href.value else ""
    }
  }

  /**
   * The outcome of `requests.get` plus `BeautifulSoup(...)`: either the fetch or
   * the parse raised, or a parsed page on which `soup.select(selector)` gives
   * the matched elements in document order, or None when the selector raises.
   */
  datatype Page = FetchError | Fetched(select: string -> Option<seq<Element>>)

  /** A (topic name, topic URL) tuple. */
  datatype Par = Par(nombre: string, url: string)

  /** `url.startswith(('http://', 'https://'))`. */
  predicate IsAbsolute(url: string) {
    StartsWith(url, "http://") || StartsWith(url, "https://")
  }

  /** The prefix of `u` before its `n`-th slash, or all of `u` when it has fewer. */
  function PrefixBeforeNth(u: string, n: nat): string
    requires n >= 1
  {
    if |u| == 0 then ""
    else if u[0] == '/' then (if n == 1 then "" else "/" + PrefixBeforeNth(u[1..], n - 1))
    else [u[0]] + PrefixBeforeNth(u[1..], n)
  }

  /**
   * What the cut keeps: a prefix of `u` with fewer than `n` slashes which, when
   * shorter than `u`, stops right at the `n`-th slash.
   */
  lemma {:induction false} PrefixBeforeNthShape(u: string, n: nat)
    requires n >= 1
    ensures PrefixBeforeNth(u, n) <= u
    ensures Count(PrefixBeforeNth(u, n), '/') < n
    ensures |PrefixBeforeNth(u, n)| < |u| ==>
      u[|PrefixBeforeNth(u, n)|] == '/' && Count(PrefixBeforeNth(u, n), '/') == n - 1
  {
    if |u| > 0 {
      var r := PrefixBeforeNth(u, n);
      if u[0] == '/' {
        if n > 1 {
          PrefixBeforeNthShape(u[1..], n - 1);
          var t := PrefixBeforeNth(u[1..], n - 1);
          assert r == "/" + t;
          assert r[1..] == t;
        }
      } else {
        PrefixBeforeNthShape(u[1..], n);
        var t := PrefixBeforeNth(u[1..], n);
        assert r == [u[0]] + t;
        assert r[1..] == t;
      }
    }
  }

  lemma PrefixBeforeNthStep(p: string, rest: string, n: nat)
    requires n >= 1 && |p| > 0 && (p[0] == '/' ==> n >= 2)
    ensures p[0] == '/' ==> PrefixBeforeNth(p + rest, n) == "/" + PrefixBeforeNth(p[1..] + rest, n - 1)
    ensures p[0] != '/' ==> PrefixBeforeNth(p + rest, n) == [p[0]] + PrefixBeforeNth(p[1..] + rest, n)
  {
    assert (p + rest)[0] == p[0] && (p + rest)[1..] == p[1..] + rest;
  }

  /** A prefix with fewer than `n` slashes is kept whole. */
  lemma {:induction false} PrefixBeforeNthAppend(p: string, rest: string, n: nat)
    requires n >= 1 && Count(p, '/') < n
    ensures PrefixBeforeNth(p + rest, n) == p + PrefixBeforeNth(rest, n - Count(p, '/'))
  {
    if |p| == 0 {
      assert p + rest == rest;
    } else {
      var c := if p[0] == '/' then 1 else 0;
      assert Count(p, '/') == c + Count(p[1..], '/');
      PrefixBeforeNthStep(p, rest, n);
      PrefixBeforeNthAppend(p[1..], rest, n - c);
      ConsAppend(p, PrefixBeforeNth(rest, n - Count(p, '/')));
    }
  }

  lemma ConsAppend<T>(p: seq<T>, q: seq<T>)
    requires |p| > 0
    ensures [p[0]] + (p[1..] + q) == p + q
  {
  }

  lemma JoinConsChar(parts: seq<string>, c: char, sep: char)
    requires |parts| >= 1
    ensures Join([[c] + parts[0]] + parts[1..], sep) == [c] + Join(parts, sep)
  {
    var q := [[c] + parts[0]] + parts[1..];
    assert q[1..] == parts[1..];
  }

  /** Splitting on '/', keeping `n` pieces and joining them back cuts before the `n`-th slash. */
  lemma {:induction false} JoinTakeSplit(u: string, n: nat)
    requires n >= 1
    ensures Join(Take(Split(u, '/'), n), '/') == PrefixBeforeNth(u, n)
  {
    if |u| > 0 {
      var rest := Split(u[1..], '/');
      if u[0] == '/' {
        if n > 1 {
          JoinTakeSplit(u[1..], n - 1);
          var t := Take(rest, n - 1);
          assert Take(Split(u, '/'), n) == [""] + t;
          assert ([""] + t)[1..] == t;
        }
      } else {
        JoinTakeSplit(u[1..], n);
        var t := Take(rest, n);
        assert Take(Split(u, '/'), n) == [[u[0]] + t[0]] + t[1..];
        JoinConsChar(t, u[0], '/');
      }
    }
  }

  /**
   * `'/'.join(url.split('/')[:3])`: the scheme and host of the page URL. It is
   * the prefix of `url` before its third slash (all of `url` when it has
   * fewer), so it holds at most two slashes and is followed by one if shorter.
   */
  function BaseUrl(url: string): (b: string)
    ensures b <= url
    ensures Count(b, '/') <= 2
    ensures |b| < |url| ==> url[|b|] == '/' && Count(b, '/') == 2
  {
    JoinTakeSplit(url, 3);
    PrefixBeforeNthShape(url, 3);
    Join(Take(Split(url, '/'), 3), '/')
  }

  /**
   * A link target as app.py and services/scanner.py resolve it: unchanged when
   * it starts with http:// or https://, otherwise the page's base URL followed
   * by the target, with a '/' inserted iff the target does not start with one.
   */
  function Absolutize(pageUrl: string, href: string): (r: string)
    ensures IsAbsolute(href) ==> r == href
    ensures !IsAbsolute(href) ==> BaseUrl(pageUrl) <= r && |r| > |BaseUrl(pageUrl)|
    ensures !IsAbsolute(href) ==> r[|BaseUrl(pageUrl)|] == '/'
    ensures !IsAbsolute(href) ==> r[|BaseUrl(pageUrl)| + 1..] == if StartsWith(href, "/") then href[1..] else href
  {
    if IsAbsolute(href) then href
    else BaseUrl(pageUrl) + (if StartsWith(href, "/") then href else "/" + href)
  }

  /** A relative href is made absolute against the first three "/"-pieces of the page url. */
  method ResolveUrl(url: string, href: string) returns (urlTema: string)
    ensures urlTema == Absolutize(url, href)
  {
    urlTema := href;
    if !IsAbsolute(urlTema) {
      var baseUrl := BaseUrl(url);
      urlTema := baseUrl + (if StartsWith(urlTema, "/") then urlTema else "/" + urlTema);
    }
  }

  /** The base URL of an http(s) page URL keeps its scheme. */
  lemma BaseUrlKeepsScheme(url: string)
    requires IsAbsolute(url)
    ensures IsAbsolute(BaseUrl(url))
  {
    var p := if StartsWith(url, "https://") then "https://" else "http://";
    assert url == p + url[|p|..];
    assert Count(p, '/') == 2;
    PrefixBeforeNthAppend(p, url[|p|..], 3);
    JoinTakeSplit(url, 3);
    var b := BaseUrl(url);
    assert b == p + PrefixBeforeNth(url[|p|..], 1);
    assert b[..|p|] == p;
  }

  /** Resolving against an http(s) page always yields an http(s) URL. */
  lemma AbsolutizeIsAbsolute(pageUrl: string, href: string)
    requires IsAbsolute(pageUrl)
    ensures IsAbsolute(Absolutize(pageUrl, href))
  {
    if !IsAbsolute(href) {
      BaseUrlKeepsScheme(pageUrl);
      var b := BaseUrl(pageUrl);
      var r := Absolutize(pageUrl, href);
      assert r == b + r[|b|..];
      var p := if StartsWith(b, "https://") then "https://" else "http://";
      assert b[..|p|] == p;
      assert r[..|p|] == b[..|p|];
    }
  }

  /** For an http(s) page, resolving an already resolved link changes nothing. */
  lemma AbsolutizeIdempotent(pageUrl: string, href: string)
    requires IsAbsolute(pageUrl)
    ensures Absolutize(pageUrl, Absolutize(pageUrl, href)) == Absolutize(pageUrl, href)
  {
    AbsolutizeIsAbsolute(pageUrl, href);
  }

  /** The base URL of `scheme + host + "/" + path` is `scheme + host`, for a scheme part with two slashes. */
  lemma {:induction false} BaseUrlOfSite(scheme: string, host: string, path: string)
    requires Count(scheme, '/') == 2 && Count(host, '/') == 0
    ensures BaseUrl(scheme + host + "/" + path) == scheme + host
  {
    var u := scheme + host + "/" + path;
    assert u == scheme + (host + ("/" + path));
    PrefixBeforeNthAppend(scheme, host + ("/" + path), 3);
    PrefixBeforeNthAppend(host, "/" + path, 1);
    JoinTakeSplit(u, 3);
  }

  /**
   * On a site URL `scheme://host/path`, a link starting with '/' resolves to
   * `scheme://host` followed by the link, e.g. "https://a.example/home" with
   * "/tema/x" gives "https://a.example/tema/x".
   */
  lemma AbsolutizeRootRelative(scheme: string, host: string, path: string, href: string)
    requires scheme == "https://" || scheme == "http://"
    requires Count(host, '/') == 0
    requires StartsWith(href, "/")
    ensures Absolutize(scheme + host + "/" + path, href) == scheme + host + href
  {
    SchemeSlashes(scheme);
    BaseUrlOfSite(scheme, host, path);
    RootRelativeIsRelative(href);
  }

  lemma SchemeSlashes(scheme: string)
    requires scheme == "https://" || scheme == "http://"
    ensures Count(scheme, '/') == 2
  {
    if scheme == "https://" {
      assert Count("https://", '/') == Count("//", '/');
    } else {
      assert Count("http://", '/') == Count("//", '/');
    }
  }

  lemma RootRelativeIsRelative(href: string)
    requires StartsWith(href, "/")
    ensures !IsAbsolute(href)
  {
    assert href[0] == '/';
  }

  predicate IsAsciiLetter(c: char) {
    ('a' <= c <= 'z') || ('A' <= c <= 'Z')
  }

  /** The characters `urllib.parse` accepts in a scheme. */
  predicate IsSchemeChar(c: char) {
    IsAsciiLetter(c) || ('0' <= c <= '9') || c == '+' || c == '-' || c == '.'
  }

  /** What `urlsplit` leaves after removing a scheme and its ':' (if any). */
  function AfterScheme(url: string): (r: string)
    ensures |r| <= |url|
  {
    var i := IndexOf(url, ':');
    if i > 0 && IsAsciiLetter(url[0]) && forall k :: 0 <= k < i ==> IsSchemeChar(url[k])
    then url[i + 1..] else url
  }

  /** `urlsplit(url).netloc`: after "//", up to the first '/', '?' or '#'. */
  function Netloc(url: string): string {
    var rest := AfterScheme(url);
    if StartsWith(rest, "//") then PrefixUntil(rest[2..], {'/', '?', '#'}) else ""
  }

  /**
   * `urlparse(url).hostname or ""`: the netloc without user info and port (or
   * the bracketed IPv6 literal), lower-cased before any '%' zone suffix.
   */
  function Hostname(url: string): string {
    var hostinfo := AfterLast(Netloc(url), '@');
    var bracket := IndexOf(hostinfo, '[');
    var host := if bracket >= 0 then PrefixUntil(hostinfo[bracket + 1..], {']'})
                else PrefixUntil(hostinfo, {':'});
    var beforeZone := PrefixUntil(host, {'%'});
    Lower(beforeZone) + host[|beforeZone|..]
  }

  lemma PrefixUntilWhole(s: string, stops: set<char>)
    requires forall k :: 0 <= k < |s| ==> s[k] !in stops
    ensures PrefixUntil(s, stops) == s
  {
  }

  lemma {:induction false} PrefixUntilStop(s: string, c: char, rest: string, stops: set<char>)
    requires forall k :: 0 <= k < |s| ==> s[k] !in stops
    requires c in stops
    ensures PrefixUntil(s + [c] + rest, stops) == s
  {
    var t := s + [c] + rest;
    var r := PrefixUntil(t, stops);
    assert t[|s|] == c;
    assert forall k :: 0 <= k < |s| ==> t[k] == s[k];
    assert |r| == |s|;
  }

  lemma {:induction false} AfterLastWhole(s: string, c: char)
    requires forall k :: 0 <= k < |s| ==> s[k] != c
    ensures AfterLast(s, c) == s
  {
    if |s| > 0 {
      AfterLastWhole(s[..|s| - 1], c);
      assert s[..|s| - 1] + [s[|s| - 1]] == s;
    }
  }

  lemma IndexOfAt(p: string, c: char, rest: string)
    requires forall k :: 0 <= k < |p| ==> p[k] != c
    ensures IndexOf(p + [c] + rest, c) == |p|
  {
    var t := p + [c] + rest;
    assert t[|p|] == c;
    assert forall k :: 0 <= k < |p| ==> t[k] == p[k];
  }

  lemma AfterSchemeOfSite(scheme: string, tail: string)
    requires |scheme| > 0 && forall k :: 0 <= k < |scheme| ==> IsAsciiLetter(scheme[k])
    ensures AfterScheme(scheme + [':'] + tail) == tail
  {
    var u := scheme + [':'] + tail;
    IndexOfAt(scheme, ':', tail);
    assert forall k :: 0 <= k < |scheme| ==> u[k] == scheme[k];
    assert u[|scheme| + 1..] == tail;
  }

  lemma NetlocOfSite(scheme: string, host: string, path: string)
    requires |scheme| > 0 && forall k :: 0 <= k < |scheme| ==> IsAsciiLetter(scheme[k])
    requires forall k :: 0 <= k < |host| ==> host[k] !in {'/', '?', '#'}
    ensures Netloc(scheme + "://" + host + "/" + path) == host
  {
    var tail := "//" + host + "/" + path;
    assert scheme + "://" + host + "/" + path == scheme + [':'] + tail;
    AfterSchemeOfSite(scheme, tail);
    assert tail[..2] == "//";
    assert tail[2..] == host + ['/'] + path;
    PrefixUntilStop(host, '/', path, {'/', '?', '#'});
  }

  /**
   * The hostname of a site URL `scheme://host/path` is the lower-cased host,
   * when the host carries no user info, port, IPv6 bracket or zone.
   */
  lemma HostnameOfSiteUrl(scheme: string, host: string, path: string)
    requires |scheme| > 0 && forall k :: 0 <= k < |scheme| ==> IsAsciiLetter(scheme[k])
    requires forall k :: 0 <= k < |host| ==> host[k] !in {'/', '?', '#', '@', '[', ':', '%'}
    ensures Hostname(scheme + "://" + host + "/" + path) == Lower(host)
  {
    NetlocOfSite(scheme, host, path);
    AfterLastWhole(host, '@');
    assert IndexOf(host, '[') == -1;
    PrefixUntilWhole(host, {':'});
    PrefixUntilWhole(host, {'%'});
    assert host[|host|..] == [];
  }
}
