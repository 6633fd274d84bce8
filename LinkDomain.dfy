/**
 * The link-domain extractor `PostClusterer.extract_domain`: no domain for a
 * missing link or a link to the aggregator itself ("reddit.com"), otherwise
 * the network location of the link with every "www." deleted.
 *
 * The network location follows the rule of Python's `urllib.parse.urlsplit`:
 * a scheme is removed when the text before the first ':' is a valid scheme
 * name; if what remains starts with "//", the network location runs from
 * there up to the first '/', '?' or '#'; otherwise it is empty. A network
 * location with an unmatched '[' or ']' makes `urlsplit` raise, and
 * `extract_domain` then returns no domain.
 */
module LinkDomain {
  import opened Wrappers

  /** Python's `pat in s` on strings. */
  predicate Contains(s: string, pat: string)
    decreases |s|
  {
    pat <= s || (s != [] && Contains(s[1..], pat))
  }

  predicate IsAsciiLetter(c: char) {
    ('a' <= c <= 'z') || ('A' <= c <= 'Z')
  }

  /** The characters `urlsplit` accepts in a scheme name. */
  predicate IsSchemeChar(c: char) {
    IsAsciiLetter(c) || ('0' <= c <= '9') || c == '+' || c == '-' || c == '.'
  }

  /** The characters that end a network location. */
  predicate IsAuthorityEnd(c: char) {
    c == '/' || c == '?' || c == '#'
  }

  /** `s.find(c)`, with None for -1. */
  function FirstIndex(s: string, c: char): (r: Option<nat>)
    ensures r.Some? ==> r.value < |s| && s[r.value] == c && forall j :: 0 <= j < r.value ==> s[j] != c
    ensures r.None? ==> forall j :: 0 <= j < |s| ==> s[j] != c
  {
    if s == [] then None
    else if s[0] == c then Some(0)
    else match FirstIndex(s[1..], c)
      case Some(k) => Some(k + 1)
      case None => None
  }

  /** The text before the first ':' is a scheme: non-empty, a letter first, scheme characters only. */
  predicate IsScheme(s: string) {
    s != [] && IsAsciiLetter(s[0]) && forall j :: 0 <= j < |s| ==> IsSchemeChar(s[j])
  }

  /** What `urlsplit` goes on reading once it has taken off a scheme and its colon, if any. */
  function AfterScheme(url: string): (rest: string)
    ensures |rest| <= |url|
  {
    match FirstIndex(url, ':')
    case Some(i) => if IsScheme(url[..i]) then url[i + 1..] else url
    case None => url
  }

  /** Length of the network location at the start of t: up to the first '/', '?' or '#'. */
  function AuthorityLength(t: string): (n: nat)
    ensures n <= |t|
    ensures forall j :: 0 <= j < n ==> !IsAuthorityEnd(t[j])
    ensures n == |t| || IsAuthorityEnd(t[n])
  {
    if t == [] || IsAuthorityEnd(t[0]) then 0 else 1 + AuthorityLength(t[1..])
  }

  /** `urlparse(url).netloc`, or None where `urlsplit` raises ValueError for unbalanced brackets. */
  function Netloc(url: string): (r: Option<string>)
    ensures r.Some? ==> forall j :: 0 <= j < |r.value| ==> !IsAuthorityEnd(r.value[j])
  {
    var rest := AfterScheme(url);
    if |rest| >= 2 && rest[..2] == "//" then
      var t := rest[2..];
      var host := t[..AuthorityLength(t)];
      if ('[' in host) != (']' in host) then None else Some(host)
    else Some("")
  }

  /** `s.replace('www.', '')`: deletes every occurrence of "www.", scanning left to right. */
  function RemoveWww(s: string): (r: string)
    ensures |r| <= |s|
    ensures forall i :: 0 <= i < |r| ==> r[i] in s
  {
    if s == [] then []
    else if "www." <= s then RemoveWww(s[4..])
    else [s[0]] + RemoveWww(s[1..])
  }

  /**
   * `extract_domain(url)`. No domain for an empty link or one mentioning
   * "reddit.com"; any domain returned is a bare network location, never
   * containing a path, query or fragment separator.
   */
  function ExtractDomain(url: string): (d: string)
    ensures url == "" ==> d == ""
    ensures Contains(url, "reddit.com") ==> d == ""
    ensures forall i :: 0 <= i < |d| ==> !IsAuthorityEnd(d[i])
  {
    if url == "" then ""
    else if Contains(url, "reddit.com") then ""
    else match Netloc(url)
      case None => ""
      case Some(host) => RemoveWww(host)
  }

  // ---------------------------------------------------------------------
  // Properties

  /** With no "www." in it, deleting every "www." changes nothing. */
  lemma {:induction false} RemoveWwwAbsent(d: string)
    requires !Contains(d, "www.")
    ensures RemoveWww(d) == d
    decreases |d|
  {
    if d != [] {
      RemoveWwwAbsent(d[1..]);
    }
  }

  /**
   * A network location "www." + d, for a d without "www.", gives the domain d
   * (when the link is not a link to the aggregator itself).
   */
  lemma ExtractDomainStripsWww(url: string, d: string)
    requires url != "" && !Contains(url, "reddit.com")
    requires Netloc(url) == Some("www." + d) && !Contains(d, "www.")
    ensures ExtractDomain(url) == d
  {
    assert "www." <= "www." + d;
    assert ("www." + d)[4..] == d;
    RemoveWwwAbsent(d);
  }

  /**
   * The network location of scheme + "://" + host + tail is the host,
   * provided the host holds no separator and no bracket and the tail is
   * empty or starts with a separator.
   */
  lemma NetlocOfUrl(scheme: string, host: string, tail: string)
    requires IsScheme(scheme)
    requires forall j :: 0 <= j < |host| ==> !IsAuthorityEnd(host[j]) && host[j] != '[' && host[j] != ']'
    requires tail == [] || IsAuthorityEnd(tail[0])
    ensures Netloc(scheme + "://" + host + tail) == Some(host)
  {
    var rest := "//" + (host + tail);
    assert scheme + "://" + host + tail == scheme + ([':'] + rest);
    AfterSchemeOf(scheme, rest);
    NetlocOfAuthority(scheme + ([':'] + rest), host, tail);
  }

  /** A valid scheme and its colon are taken off the front of a link. */
  lemma AfterSchemeOf(scheme: string, rest: string)
    requires IsScheme(scheme)
    ensures AfterScheme(scheme + ([':'] + rest)) == rest
  {
    var url := scheme + ([':'] + rest);
    FirstIndexAfter(scheme, [':'] + rest, ':');
    assert url[..|scheme|] == scheme;
    assert url[|scheme| + 1..] == rest;
  }

  /** Once the scheme is off, "//" + host + tail gives the host as network location. */
  lemma NetlocOfAuthority(url: string, host: string, tail: string)
    requires AfterScheme(url) == "//" + (host + tail)
    requires forall j :: 0 <= j < |host| ==> !IsAuthorityEnd(host[j]) && host[j] != '[' && host[j] != ']'
    requires tail == [] || IsAuthorityEnd(tail[0])
    ensures Netloc(url) == Some(host)
  {
    var rest := "//" + (host + tail);
    assert rest[..2] == "//";
    assert rest[2..] == host + tail;
    AuthorityLengthOf(host, tail);
    assert (host + tail)[..|host|] == host;
    assert '[' !in host && ']' !in host;
  }

  /** The first c in a + b is b's first character when a holds no c. */
  lemma {:induction false} FirstIndexAfter(a: string, b: string, c: char)
    requires forall j :: 0 <= j < |a| ==> a[j] != c
    requires b != [] && b[0] == c
    ensures FirstIndex(a + b, c) == Some(|a|)
    decreases |a|
  {
    if a == [] {
      assert a + b == b;
    } else {
      assert (a + b)[1..] == a[1..] + b;
      FirstIndexAfter(a[1..], b, c);
    }
  }

  lemma {:induction false} AuthorityLengthOf(host: string, tail: string)
    requires forall j :: 0 <= j < |host| ==> !IsAuthorityEnd(host[j])
    requires tail == [] || IsAuthorityEnd(tail[0])
    ensures AuthorityLength(host + tail) == |host|
    decreases |host|
  {
    if host == [] {
      assert host + tail == tail;
    } else {
      assert (host + tail)[1..] == host[1..] + tail;
      AuthorityLengthOf(host[1..], tail);
    }
  }

  /** The domain of a typical news link: the host, with the scheme and the path removed. */
  lemma ExtractDomainNewsExample()
    ensures ExtractDomain("https://news.example.com/story") == "news.example.com"
  {
    var url, host := "https://news.example.com/story", "news.example.com";
    NewsUrlParts();
    NewsUrlNetloc();
    NoRedditInExample();
    NoWwwInExample();
    ExtractDomainPlain(url, host);
  }

  /** A link not to the aggregator whose network location holds no "www." has that location as its domain. */
  lemma ExtractDomainPlain(url: string, host: string)
    requires url != "" && !Contains(url, "reddit.com")
    requires Netloc(url) == Some(host) && !Contains(host, "www.")
    ensures ExtractDomain(url) == host
  {
    RemoveWwwAbsent(host);
  }

  lemma NewsUrlParts()
    ensures "https://news.example.com/story" == "https" + "://" + "news.example.com" + "/story"
    ensures IsScheme("https")
    ensures forall j :: 0 <= j < |"news.example.com"| ==>
      var c := "news.example.com"[j]; !IsAuthorityEnd(c) && c != '[' && c != ']'
  {
  }

  lemma NewsUrlNetloc()
    ensures Netloc("https://news.example.com/story") == Some("news.example.com")
  {
    NewsUrlParts();
    NetlocOfUrl("https", "news.example.com", "/story");
  }

  lemma NoRedditInExample()
    ensures !Contains("https://news.example.com/story", "reddit.com")
  {
    var url := "https://news.example.com/story";
    assert forall i :: 0 <= i < |url| ==> url[i] != 'd';
    MissingPairAbsent(url, "reddit.com", 2);
  }

  lemma NoWwwInExample()
    ensures !Contains("news.example.com", "www.")
  {
    var host := "news.example.com";
    assert forall i :: 0 <= i < |host| - 1 ==> !(host[i] == 'w' && host[i + 1] == 'w');
    MissingPairAbsent(host, "www.", 0);
  }

  /** If two adjacent characters of pat never appear side by side in s, then pat does not occur in s. */
  lemma MissingPairAbsent(s: string, pat: string, k: nat)
    requires k + 1 < |pat|
    requires forall i :: 0 <= i < |s| - 1 ==> !(s[i] == pat[k] && s[i + 1] == pat[k + 1])
    ensures !Contains(s, pat)
  {
    forall i: nat ensures !OccursAt(s, pat, i) {
      if i + |pat| <= |s| {
        assert s[i..i + |pat|][k] == s[i + k];
        assert s[i..i + |pat|][k + 1] == s[i + k + 1];
      }
    }
    ContainsIff(s, pat);
  }

  /** pat occurs in s starting at index i. */
  predicate OccursAt(s: string, pat: string, i: nat) {
    i + |pat| <= |s| && s[i..i + |pat|] == pat
  }

  /** `pat in s` holds exactly when pat occurs in s at some index. */
  lemma ContainsIff(s: string, pat: string)
    ensures Contains(s, pat) <==> exists i: nat :: OccursAt(s, pat, i)
  {
    forall i: nat | OccursAt(s, pat, i) ensures Contains(s, pat) {
      OccursContains(s, pat, i);
    }
    if Contains(s, pat) {
      var i := ContainsOccurs(s, pat);
    }
  }

  lemma {:induction false} OccursContains(s: string, pat: string, i: nat)
    requires OccursAt(s, pat, i)
    ensures Contains(s, pat)
    decreases i
  {
    if i == 0 {
      assert s[..|pat|] == pat;
    } else {
      assert s[1..][i - 1..i - 1 + |pat|] == s[i..i + |pat|];
      OccursContains(s[1..], pat, i - 1);
    }
  }

  lemma {:induction false} ContainsOccurs(s: string, pat: string) returns (i: nat)
    requires Contains(s, pat)
    ensures OccursAt(s, pat, i)
    decreases |s|
  {
    if pat <= s {
      i := 0;
      assert s[..|pat|] == pat;
    } else {
      var j := ContainsOccurs(s[1..], pat);
      i := j + 1;
      assert s[1..][j..j + |pat|] == s[i..i + |pat|];
    }
  }
}
