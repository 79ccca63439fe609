/**
 * The username extraction of the quick-generate box (components/quick-generate.tsx):
 * a URL on exactly `github.com`, or the trimmed input with one leading `@` removed.
 */
module QuickGenerate {
  import opened Wrappers
  import opened Text
  import opened Urls
  import GithubForm

  /**
   * `extractGitHubUsername`. The fallback returns a string, possibly empty, so the
   * result `Some("")` is the empty string the guard then rejects.
   */
  function ExtractGitHubUsername(url: string, parse: UrlParser): Option<string> {
    match parse(url)
    case Some(u) => if u.hostname != "github.com" then None else FirstPathSegment(u.pathname)
    case None => Some(StripLeading(Trim(url), '@'))
  }

  /** The request `handleSubmit` would make, or the error it throws first. */
  datatype Submission = Abort(message: string) | PostGenerate(username: string)

  /** `handleSubmit` up to the `fetch`: null or the empty string throws. */
  function HandleSubmit(url: string, parse: UrlParser): Submission {
    match ExtractGitHubUsername(url, parse)
    case Some(u) => if u == [] then Abort("Invalid GitHub URL") else PostGenerate(u)
    case None => Abort("Invalid GitHub URL")
  }

  // ----- properties -----

  /** A parsed URL is accepted only when its host name is exactly `github.com`; then its first segment is the result. */
  lemma ParsedUrlNeedsExactHost(url: string, parse: UrlParser)
    requires parse(url).Some?
    ensures var u := parse(url).value;
      var seg := BeforeFirst(DropLeading(u.pathname, '/'), '/');
      ExtractGitHubUsername(url, parse) ==
        if u.hostname != "github.com" then None
        else if seg == [] then None else Some(seg)
  {
    FirstPathSegmentIsAfterSlashes(parse(url).value.pathname);
  }

  /**
   * Without a URL the result is the trimmed input minus one leading `@`, unvalidated:
   * it has no leading or trailing white space and is never null.
   */
  lemma FallbackIsUnvalidated(url: string, parse: UrlParser)
    requires parse(url).None?
    ensures var t := Trim(url);
      ExtractGitHubUsername(url, parse) ==
        Some(if t != [] && t[0] == '@' then t[1..] else t)
  {
  }

  /** Text that is no URL passes through, slash and all: `a/b` is returned as it is. */
  lemma FallbackKeepsSlash()
    ensures ExtractGitHubUsername("a/b", (s: string) => None) == Some("a/b")
  {
    assert !IsJsWhitespace('a') && !IsJsWhitespace('b');
    assert TrimStart("a/b") == "a/b";
    assert TrimEnd("a/b") == "a/b";
  }

  /** A request is sent exactly when the extracted username is a non-empty string. */
  lemma SubmitIffNonEmpty(url: string, parse: UrlParser)
    ensures HandleSubmit(url, parse).PostGenerate? <==> Truthy(ExtractGitHubUsername(url, parse))
    ensures HandleSubmit(url, parse).PostGenerate? ==>
      ExtractGitHubUsername(url, parse) == Some(HandleSubmit(url, parse).username)
  {
  }

  /** White space alone is the empty username and aborts the submission. */
  lemma BlankInputAborts()
    ensures HandleSubmit(" ", (s: string) => None) == Abort("Invalid GitHub URL")
  {
    assert IsJsWhitespace(' ');
    assert TrimStart(" ") == "";
  }

  lemma NormalizeKeepsPlainText()
    ensures GithubForm.Normalize("a_b") == "a_b"
  {
    assert StripTrailing("a_b", '/') == "a_b";
    assert BeforeFirst("b", '?') == "b";
    assert BeforeFirst("_b", '?') == "_b";
  }

  /** A URL on the gist host, with one path segment. */
  const GistUrl := "https://gist.github.com/a"

  /** The gist URL has no query and no trailing slash, so normalising keeps it. */
  lemma GistUrlIsNormal()
    ensures GithubForm.Normalize(GistUrl) == GistUrl
  {
    assert GistUrl[|GistUrl| - 1] == 'a';
    assert StripTrailing(GistUrl, '/') == GistUrl;
    assert '?' !in GistUrl;
    BeforeFirstAbsent(GistUrl, '?');
  }

  /** The `:` after the scheme stops the username pattern. */
  lemma GistUrlIsNoUsername()
    ensures !GithubForm.MatchesUsernamePattern(GistUrl)
  {
    assert GistUrl[5] == ':';
    GithubForm.StrayCharIsNoUsername(GistUrl, 5);
  }

  lemma GistHostContainsGithub()
    ensures Contains("gist.github.com", "github.com")
  {
    assert IsPrefix("github.com", "github.com");
    assert "gist.github.com"[5..] == "github.com";
    assert Contains("github.com", "github.com");
    assert Contains(".github.com", "github.com");
    assert Contains("t.github.com", "github.com");
    assert Contains("st.github.com", "github.com");
    assert Contains("ist.github.com", "github.com");
  }

  lemma FallbackCandidateOfPlainText()
    ensures GithubForm.FallbackCandidate("a_b") == "a_b"
  {
    assert !IsJsWhitespace('a') && !IsJsWhitespace('b');
    assert TrimStart("a_b") == "a_b";
    assert TrimEnd("a_b") == "a_b";
    assert BeforeFirst("b", '/') == "b";
    assert BeforeFirst("_b", '/') == "_b";
    assert BeforeFirst("a_b", '/') == "a_b";
    assert BeforeFirst("b", '@') == "b";
    assert BeforeFirst("_b", '@') == "_b";
    assert BeforeFirst("a_b", '@') == "a_b";
  }

  lemma SegmentOfSlashA()
    ensures FirstPathSegment("/a") == Some("a")
  {
    assert "/a"[1..] == "a" && '/' !in "a";
    LeadingSlashSegment("/a");
    NoSlashSegment("a");
  }

  lemma FormTakesGistUrl(parse: UrlParser)
    requires parse(GistUrl) == Some(Url("gist.github.com", "/a"))
    ensures GithubForm.ExtractGithubUsername(GistUrl, parse) == Some("a")
  {
    GistUrlIsNormal();
    GistUrlIsNoUsername();
    GistHostContainsGithub();
    SegmentOfSlashA();
  }

  lemma QuickRefusesGistUrl(parse: UrlParser)
    requires parse(GistUrl) == Some(Url("gist.github.com", "/a"))
    ensures ExtractGitHubUsername(GistUrl, parse) == None
  {
    assert |"gist.github.com"| != |"github.com"|;
  }

  /**
   * The two parsers disagree: `https://gist.github.com/a` is accepted by the form (its
   * host contains `github.com`) and refused here (its host is not exactly `github.com`).
   * The parser given is what the WHATWG parser answers for that URL.
   */
  lemma ParsersDisagreeOnHost(parse: UrlParser)
    requires parse(GistUrl) == Some(Url("gist.github.com", "/a"))
    ensures GithubForm.ExtractGithubUsername(GistUrl, parse) == Some("a")
    ensures ExtractGitHubUsername(GistUrl, parse) == None
  {
    FormTakesGistUrl(parse);
    QuickRefusesGistUrl(parse);
  }

  /**
   * The two parsers also disagree without a URL: the form validates the fallback and
   * refuses `a_b`, which the quick box passes through.
   */
  lemma ParsersDisagreeOnFallback()
    ensures var parse: UrlParser := (s: string) => None;
      GithubForm.ExtractGithubUsername("a_b", parse) == None
      && ExtractGitHubUsername("a_b", parse) == Some("a_b")
  {
    NormalizeKeepsPlainText();
    FallbackCandidateOfPlainText();
    assert !GithubForm.MatchUnits("_b", GithubForm.MaxUnits);
    assert TrimStart("a_b") == "a_b";
    assert TrimEnd("a_b") == "a_b";
  }
}
