/** The outbound target of a forwarded request: the upstream base address
    followed by the inbound path and, when there is one, "?" and the raw query. */
module Target {

  /** The target the proxy builds: base + path, then "?" + rawQuery unless the
      raw query is empty. It always starts with the base address. */
  function TargetURL(base: string, path: string, rawQuery: string): (url: string)
    ensures base <= url
    ensures |url| == |base| + |path| + (if rawQuery == "" then 0 else 1 + |rawQuery|)
  {
    var url := base + path;
    if rawQuery != "" then url + "?" + rawQuery else url
  }

  /** The index of the first occurrence of c in s, or |s| when there is none. */
  function IndexOf(s: string, c: char): (i: nat)
    ensures i <= |s|
    ensures i < |s| ==> s[i] == c
    ensures forall j :: 0 <= j < i ==> s[j] != c
  {
    if s == [] then 0
    else if s[0] == c then 0
    else 1 + IndexOf(s[1..], c)
  }

  /** The first occurrence of c in a + [c] + b is just after a when a does not hold c. */
  lemma IndexOfAfter(a: string, c: char, b: string)
    requires c !in a
    ensures IndexOf(a + [c] + b, c) == |a|
  {
    var s := a + [c] + b;
    assert s[|a|] == c;
    assert forall j :: 0 <= j < |a| ==> s[j] == a[j];
  }

  /** The index of the first c in s is |s| when s holds no c. */
  lemma IndexOfAbsent(s: string, c: char)
    requires c !in s
    ensures IndexOf(s, c) == |s|
  {
  }

  /** Reads a target back the way url.Parse splits a URL whose base address
      has the form scheme://host[:port] (an UpstreamAddress): everything from
      its first "#" is the fragment and is cut off, the rest is split at its
      first "?" into the address with the path and the raw query, and the path
      is what follows the base address. The path is returned as written:
      url.Parse's percent-decoding of it is not modelled. None when the part
      before the query does not start with the base. */
  function SplitTarget(base: string, url: string): Option<(string, string)> {
    var pre := url[..IndexOf(url, '#')];
    var i := IndexOf(pre, '?');
    var address := pre[..i];
    var query := if i == |pre| then "" else pre[i + 1..];
    if base <= address then Some((address[|base|..], query)) else None
  }

  /** A letter, a digit, "+", "-" or "." may follow the first letter of a URL scheme. */
  predicate IsSchemeChar(c: char) {
    ('a' <= c <= 'z') || ('A' <= c <= 'Z') || ('0' <= c <= '9') || c == '+' || c == '-' || c == '.'
  }

  /** A URL scheme as url.Parse recognises one: a letter followed by scheme characters. */
  predicate IsSchemeName(s: string) {
    && |s| > 0
    && (('a' <= s[0] <= 'z') || ('A' <= s[0] <= 'Z'))
    && forall j :: 0 < j < |s| ==> IsSchemeChar(s[j])
  }

  /** An upstream base address that url.Parse reads as scheme://authority...,
      such as "http://localhost:11434", holding no "?" or "#". A scheme-less
      address such as "localhost:11434" is not one: url.Parse would take
      "localhost" as its scheme and the rest as an opaque part. */
  predicate UpstreamAddress(base: string) {
    && (exists i | 0 < i && i + 3 <= |base| :: IsSchemeName(base[..i]) && base[i..i + 3] == "://")
    && '?' !in base && '#' !in base
  }

  /** The decoded inbound path and raw query survive the round trip through
      the target when the base is an UpstreamAddress and neither the path nor
      the query holds a character url.Parse gives a meaning there: no "?" or
      "#" in the path, no "#" in the query, and no "%" in the path, so that
      its second decoding changes nothing. */
  predicate ReadsBack(base: string, path: string, rawQuery: string) {
    && UpstreamAddress(base)
    && '?' !in path && '#' !in path && '%' !in path
    && '#' !in rawQuery
  }

  /** An address without a "/" has no "://" and so no scheme. */
  lemma NoSlashNoScheme(base: string)
    requires '/' !in base
    ensures !UpstreamAddress(base)
  {
    forall i | 0 < i && i + 3 <= |base|
      ensures !(IsSchemeName(base[..i]) && base[i..i + 3] == "://")
    {
      assert base[i..i + 3][1] == base[i + 1];
      assert base[i + 1] in base;
    }
  }

  /** A scheme, "://" and an authority free of "?" and "#" make an upstream address. */
  lemma SchemeMakesUpstream(scheme: string, authority: string)
    requires IsSchemeName(scheme)
    requires '?' !in scheme && '#' !in scheme && '?' !in authority && '#' !in authority
    ensures UpstreamAddress(scheme + "://" + authority)
  {
    var base := scheme + "://" + authority;
    assert base[..|scheme|] == scheme;
    assert base[|scheme|..|scheme| + 3] == "://";
  }

  /** Scheme-less addresses are not upstream addresses, and the usual one is. */
  lemma UpstreamAddressForms()
    ensures !UpstreamAddress("localhost:11434")
    ensures UpstreamAddress("http://localhost:11434")
  {
    NoSlashNoScheme("localhost:11434");
    assert "http://localhost:11434" == "http" + "://" + "localhost:11434";
    SchemeMakesUpstream("http", "localhost:11434");
  }

  datatype Option<T> = None | Some(value: T)

  /** Building a target and reading it back gives the path and the raw query,
      provided they read back at all. */
  lemma {:induction false} SplitTargetURL(base: string, path: string, rawQuery: string)
    requires ReadsBack(base, path, rawQuery)
    ensures SplitTarget(base, TargetURL(base, path, rawQuery)) == Some((path, rawQuery))
  {
    var url := TargetURL(base, path, rawQuery);
    var address := base + path;
    assert '?' !in address && '#' !in address;
    if rawQuery == "" {
      assert url == address;
    } else {
      assert url == address + ['?'] + rawQuery;
      IndexOfAfter(address, '?', rawQuery);
      assert url[..|address|] == address;
      assert url[|address| + 1..] == rawQuery;
    }
    assert '#' !in url;
    IndexOfAbsent(url, '#');
    assert url[..|url|] == url;
    assert address[|base|..] == path;
  }

  /** r.URL.Path is the decoded path, so a request for "/a%3Fb" reaches the
      proxy with path "/a?b"; the target built from it reads back as path "/a"
      with raw query "b". */
  lemma DecodedQuestionMarkMovesIntoQuery(base: string)
    requires UpstreamAddress(base)
    ensures SplitTarget(base, TargetURL(base, "/a?b", "")) == Some(("/a", "b"))
  {
    var url := TargetURL(base, "/a?b", "");
    var address := base + "/a";
    assert url == address + ['?'] + "b";
    assert '#' !in url;
    IndexOfAbsent(url, '#');
    assert url[..|url|] == url;
    assert '?' !in address;
    IndexOfAfter(address, '?', "b");
    assert url[..|address|] == address;
    assert address[|base|..] == "/a";
    assert url[|address| + 1..] == "b";
  }

  /** A decoded "#" cuts the target: a request for "/a%23b?q" reaches the proxy
      with path "/a#b" and raw query "q"; url.Parse takes "#b?q" as the
      fragment, so the upstream is asked for path "/a" with no query. */
  lemma DecodedHashCutsFragment(base: string)
    requires UpstreamAddress(base)
    ensures SplitTarget(base, TargetURL(base, "/a#b", "q")) == Some(("/a", ""))
  {
    var url := TargetURL(base, "/a#b", "q");
    var address := base + "/a";
    assert url == address + ['#'] + "b?q";
    assert '#' !in address;
    IndexOfAfter(address, '#', "b?q");
    var pre := url[..|address|];
    assert pre == address;
    assert '?' !in pre;
    IndexOfAbsent(pre, '?');
    assert pre[..|pre|] == pre;
    assert address[|base|..] == "/a";
  }
}
