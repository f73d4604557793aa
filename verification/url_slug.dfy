/** `extract_url_slug` (src/utils.py): the last path segment of a URL. */
module UrlSlug {
  import opened Text

  /** `s.split("/")[-1]`: everything after the last slash, or all of `s`
      when it has none. */
  function LastSegment(s: string): (r: string)
    ensures '/' !in r
    ensures |r| <= |s| && r == s[|s| - |r|..]
    ensures r == s || s[|s| - |r| - 1] == '/'
  {
    if s == [] then []
    else if s[|s| - 1] == '/' then []
    else LastSegment(s[..|s| - 1]) + [s[|s| - 1]]
  }

  /** The three properties above pin the segment down: any slash-free
      suffix that is the whole string or follows a slash is it. */
  lemma LastSegmentUnique(s: string, r: string)
    requires '/' !in r
    requires |r| <= |s| && r == s[|s| - |r|..]
    requires r == s || s[|s| - |r| - 1] == '/'
    ensures r == LastSegment(s)
  {
    var t := LastSegment(s);
    NoSlashInSuffix(s, r);
    NoSlashInSuffix(s, t);
    assert |t| == |r|;
  }

  /** A slash-free suffix leaves no slash in its part of the string. */
  lemma NoSlashInSuffix(s: string, r: string)
    requires '/' !in r
    requires |r| <= |s| && r == s[|s| - |r|..]
    ensures forall j :: |s| - |r| <= j < |s| ==> s[j] != '/'
  {
    forall j | |s| - |r| <= j < |s|
      ensures s[j] != '/'
    {
      assert s[j] == r[j - (|s| - |r|)];
    }
  }

  /** `url.rstrip("/").split("/")[-1]`. */
  function ExtractUrlSlug(url: string): (r: string)
    ensures '/' !in r
    ensures var t := RStrip(url, '/');
            |r| <= |t| && r == t[|t| - |r|..] && (r == t || t[|t| - |r| - 1] == '/')
  {
    LastSegment(RStrip(url, '/'))
  }

  /** A string without slashes is its own slug. */
  lemma NoSlashUnchanged(url: string)
    requires '/' !in url
    ensures ExtractUrlSlug(url) == url
  {
    assert RStrip(url, '/') == url;
    LastSegmentUnique(url, url);
  }

  /** Taking the slug of a slug changes nothing. */
  lemma Idempotent(url: string)
    ensures ExtractUrlSlug(ExtractUrlSlug(url)) == ExtractUrlSlug(url)
  {
    NoSlashUnchanged(ExtractUrlSlug(url));
  }

  /** The examples in the function's documentation. */
  lemma GithubExample()
    ensures ExtractUrlSlug("https://github.com/torvalds") == "torvalds"
  {
    var a := "https://github.com/torvalds";
    assert RStrip(a, '/') == a;
    LastSegmentUnique(a, "torvalds");
  }

  lemma LinkedinExample()
    ensures ExtractUrlSlug("https://linkedin.com/in/prettyman/") == "prettyman"
  {
    var b := "https://linkedin.com/in/prettyman/";
    var b1 := "https://linkedin.com/in/prettyman";
    assert RStrip(b1, '/') == b1;
    assert RStrip(b, '/') == b1;
    LastSegmentUnique(b1, "prettyman");
  }

  lemma BareNameExample()
    ensures ExtractUrlSlug("username") == "username"
  {
    NoSlashUnchanged("username");
  }
}
