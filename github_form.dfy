/**
 * The username extraction of the landing-page form (components/github-form.tsx):
 * a direct username, a github URL, or a fallback that strips `@` and a path.
 */
module GithubForm {
  import opened Wrappers
  import opened Text
  import opened Urls

  /** GitHub limits an account name to 39 characters: one leading character and 38 more units. */
  const MaxUnits: nat := 38

  /**
   * `/^[a-zA-Z0-9](?:[a-zA-Z0-9]|-(?=[a-zA-Z0-9])){0,38}$/.test(s)`, run the way the
   * regex engine runs it: a leading letter or digit, then at most 38 units.
   */
  predicate MatchesUsernamePattern(s: string) {
    s != [] && IsAsciiAlnum(s[0]) && MatchUnits(s[1..], MaxUnits)
  }

  /**
   * `(?:[a-zA-Z0-9]|-(?=[a-zA-Z0-9])){0,budget}$` against the remaining text `t`:
   * each unit is a letter or digit, or a `-` that a letter or digit follows.
   */
  predicate MatchUnits(t: string, budget: nat)
    decreases |t|
  {
    if t == [] then true
    else if budget == 0 then false
    else if IsAsciiAlnum(t[0]) then MatchUnits(t[1..], budget - 1)
    else t[0] == '-' && |t| >= 2 && IsAsciiAlnum(t[1]) && MatchUnits(t[1..], budget - 1)
  }

  /** What the pattern accepts, said without the regex. */
  predicate IsUsernameShape(s: string) {
    && 1 <= |s| <= 39
    && IsAsciiAlnum(s[0])
    && (forall i :: 0 <= i < |s| ==> IsAsciiAlnum(s[i]) || s[i] == '-')
    && s[|s| - 1] != '-'
    && (forall i :: 0 <= i < |s| - 1 ==> s[i] != '-' || s[i + 1] != '-')
  }

  /** The units part: letters, digits and hyphens, each hyphen followed by a letter or digit. */
  predicate UnitsShape(t: string) {
    && (forall i :: 0 <= i < |t| ==> IsAsciiAlnum(t[i]) || t[i] == '-')
    && (forall i :: 0 <= i < |t| && t[i] == '-' ==> i + 1 < |t| && IsAsciiAlnum(t[i + 1]))
  }

  lemma UnitsShapeCons(t: string)
    requires t != []
    ensures UnitsShape(t) <==>
      (IsAsciiAlnum(t[0]) || (t[0] == '-' && |t| >= 2 && IsAsciiAlnum(t[1]))) && UnitsShape(t[1..])
  {
    var u := t[1..];
    assert forall i :: 0 <= i < |u| ==> u[i] == t[i + 1];
    if (IsAsciiAlnum(t[0]) || (t[0] == '-' && |t| >= 2 && IsAsciiAlnum(t[1]))) && UnitsShape(u) {
      forall i | 0 <= i < |t| && t[i] == '-' ensures i + 1 < |t| && IsAsciiAlnum(t[i + 1]) {
        if i > 0 { assert u[i - 1] == '-'; }
      }
    }
  }

  lemma {:induction false} MatchUnitsIff(t: string, budget: nat)
    ensures MatchUnits(t, budget) <==> |t| <= budget && UnitsShape(t)
    decreases |t|
  {
    if t != [] {
      UnitsShapeCons(t);
      if budget > 0 {
        MatchUnitsIff(t[1..], budget - 1);
      }
    }
  }

  /** The regex accepts exactly the strings of the declarative shape. */
  lemma UsernamePatternIff(s: string)
    ensures MatchesUsernamePattern(s) <==> IsUsernameShape(s)
  {
    if s != [] {
      var t := s[1..];
      MatchUnitsIff(t, MaxUnits);
      assert forall i :: 0 <= i < |t| ==> t[i] == s[i + 1];
      if IsUsernameShape(s) {
        forall i | 0 <= i < |t| && t[i] == '-' ensures i + 1 < |t| && IsAsciiAlnum(t[i + 1]) {
          assert s[i + 1] == '-';
          assert i + 1 != |s| - 1;
          assert s[i + 2] != '-';
        }
      }
      if MatchesUsernamePattern(s) {
        assert UnitsShape(t);
        forall i | 0 <= i < |s| - 1 ensures s[i] != '-' || s[i + 1] != '-' {
          if i > 0 && s[i] == '-' { assert t[i - 1] == '-'; }
        }
        forall i | 0 <= i < |s| ensures IsAsciiAlnum(s[i]) || s[i] == '-' {
          if i > 0 { assert s[i] == t[i - 1]; }
        }
      }
    }
  }

  /** `input.replace(/\/+$/, '').split('?')[0]` */
  function Normalize(input: string): string {
    BeforeFirst(StripTrailing(input, '/'), '?')
  }

  /** The `catch` branch: `input.trim().split('/')[0].replace('@', '')` on the normalised input. */
  function FallbackCandidate(normalized: string): string {
    RemoveFirst(BeforeFirst(Trim(normalized), '/'), '@')
  }

  /** `extractGithubUsername` */
  function ExtractGithubUsername(input: string, parse: UrlParser): Option<string> {
    if input == [] then None
    else
      var n := Normalize(input);
      if MatchesUsernamePattern(n) then Some(n)
      else
        match parse(n)
        case Some(url) =>
          if !Contains(url.hostname, "github.com") then None
          else FirstPathSegment(url.pathname)
        case None =>
          var candidate := FallbackCandidate(n);
          if candidate != [] && MatchesUsernamePattern(candidate) then Some(candidate) else None
  }

  /** The request `handleSubmit` would make, or the error it throws before any request. */
  datatype Submission = Abort(message: string) | PostGenerate(username: string)

  /** `handleSubmit` up to the `fetch`: a falsy username throws. */
  function HandleSubmit(input: string, parse: UrlParser): Submission {
    match ExtractGithubUsername(input, parse)
    case Some(u) => if u == [] then Abort("Invalid GitHub URL or username") else PostGenerate(u)
    case None => Abort("Invalid GitHub URL or username")
  }

  // ----- properties -----

  /** A character other than a letter, a digit or `-` keeps a string from matching. */
  lemma StrayCharIsNoUsername(s: string, i: nat)
    requires i < |s| && !IsAsciiAlnum(s[i]) && s[i] != '-'
    ensures !MatchesUsernamePattern(s)
  {
    UsernamePatternIff(s);
  }

  /** Normalising drops everything from the first `?`, and keeps a prefix of the input. */
  lemma NormalizeShape(input: string)
    ensures '?' !in Normalize(input)
    ensures IsPrefix(Normalize(input), input)
    ensures '?' !in input && (input == [] || input[|input| - 1] != '/') ==> Normalize(input) == input
  {
    var stripped := StripTrailing(input, '/');
    assert stripped == input[..|stripped|];
    var n := Normalize(input);
    assert n == stripped[..|n|];
    assert input[..|n|] == stripped[..|n|];
    if '?' !in input && (input == [] || input[|input| - 1] != '/') {
      assert stripped == input;
    }
  }

  /**
   * The slashes are stripped before the query is cut, so a slash in front of `?`
   * survives normalisation.
   */
  lemma NormalizeKeepsSlashBeforeQuery()
    ensures Normalize("ab/?x") == "ab/"
  {
    assert StripTrailing("ab/?x", '/') == "ab/?x";
    assert BeforeFirst("?x", '?') == "";
    assert BeforeFirst("/?x", '?') == "/";
    assert BeforeFirst("b/?x", '?') == "b/";
  }

  /** Empty input gives null. */
  lemma EmptyInputIsNull(parse: UrlParser)
    ensures ExtractGithubUsername("", parse) == None
    ensures HandleSubmit("", parse) == Abort("Invalid GitHub URL or username")
  {
  }

  /** A normalised input that already has the username shape is returned unchanged, whatever the URL parser says. */
  lemma DirectUsernameIsReturned(input: string, parse1: UrlParser, parse2: UrlParser)
    requires input != []
    requires IsUsernameShape(Normalize(input))
    ensures ExtractGithubUsername(input, parse1) == Some(Normalize(input))
    ensures ExtractGithubUsername(input, parse1) == ExtractGithubUsername(input, parse2)
  {
    UsernamePatternIff(Normalize(input));
  }

  /** A URL whose host name does not contain `github.com` gives null. */
  lemma ForeignHostIsNull(input: string, parse: UrlParser)
    requires input != [] && !IsUsernameShape(Normalize(input))
    requires parse(Normalize(input)).Some? && !Contains(parse(Normalize(input)).value.hostname, "github.com")
    ensures ExtractGithubUsername(input, parse) == None
  {
    UsernamePatternIff(Normalize(input));
  }

  /**
   * For an accepted URL the result is the first non-empty path segment, that is, what
   * follows the leading slashes up to the next slash, or null when nothing does.
   */
  lemma GithubUrlGivesFirstSegment(input: string, parse: UrlParser)
    requires input != [] && !IsUsernameShape(Normalize(input))
    requires parse(Normalize(input)).Some? && Contains(parse(Normalize(input)).value.hostname, "github.com")
    ensures var seg := BeforeFirst(DropLeading(parse(Normalize(input)).value.pathname, '/'), '/');
      ExtractGithubUsername(input, parse) == if seg == [] then None else Some(seg)
  {
    UsernamePatternIff(Normalize(input));
    FirstPathSegmentIsAfterSlashes(parse(Normalize(input)).value.pathname);
  }

  /** The segment taken from a URL is not checked against the username pattern. */
  lemma UrlSegmentIsNotValidated()
    ensures var parse := (s: string) => Some(Url("github.com", "/a_b"));
      ExtractGithubUsername("a_b", parse) == Some("a_b") && !IsUsernameShape("a_b")
  {
    var parse := (s: string) => Some(Url("github.com", "/a_b"));
    assert Normalize("a_b") == "a_b";
    assert !IsAsciiAlnum('_');
    assert !MatchUnits("_b", MaxUnits);
    assert IsPrefix("github.com", "github.com");
    assert "/a_b"[1..] == "a_b" && '/' !in "a_b";
    LeadingSlashSegment("/a_b");
    NoSlashSegment("a_b");
  }

  /**
   * When the URL parser throws, the result is the fallback candidate exactly when that
   * candidate has the username shape; otherwise null.
   */
  lemma FallbackIsValidated(input: string, parse: UrlParser)
    requires input != [] && !IsUsernameShape(Normalize(input))
    requires parse(Normalize(input)).None?
    ensures var c := FallbackCandidate(Normalize(input));
      ExtractGithubUsername(input, parse) == if IsUsernameShape(c) then Some(c) else None
  {
    UsernamePatternIff(Normalize(input));
    UsernamePatternIff(FallbackCandidate(Normalize(input)));
  }

  /** The fallback candidate never holds a slash; the `@` it removes is the first one, wherever it stands. */
  lemma FallbackCandidateShape(normalized: string)
    ensures '/' !in FallbackCandidate(normalized)
    ensures var head := BeforeFirst(Trim(normalized), '/');
      '@' !in head ==> FallbackCandidate(normalized) == head
    ensures var head := BeforeFirst(Trim(normalized), '/');
      '@' in head ==> (exists i :: 0 <= i < |head| && head[i] == '@' && '@' !in head[..i] &&
                                   FallbackCandidate(normalized) == head[..i] + head[i + 1..])
  {
    var head := BeforeFirst(Trim(normalized), '/');
    var p := BeforeFirst(head, '@');
    if |p| < |head| {
      assert FallbackCandidate(normalized) == p + head[|p| + 1..];
      assert forall i :: 0 <= i < |p| ==> p[i] == head[i];
      assert forall i :: |p| + 1 <= i < |head| ==> head[i] in head;
    }
  }

  /** The `@` need not lead: `a@b` is read as `ab`. */
  lemma FallbackRemovesInnerAt()
    ensures FallbackCandidate("a@b") == "ab"
  {
    assert !IsJsWhitespace('a') && !IsJsWhitespace('b');
    assert TrimStart("a@b") == "a@b";
    assert TrimEnd("a@b") == "a@b";
    assert BeforeFirst("b", '/') == "b";
    assert BeforeFirst("@b", '/') == "@b";
    assert BeforeFirst("a@b", '/') == "a@b";
    assert BeforeFirst("@b", '@') == "";
    assert BeforeFirst("a@b", '@') == "a";
  }

  /**
   * Whatever branch produced it, a username is never empty and never holds a slash;
   * without a successful URL parse it always has the username shape.
   */
  lemma ResultShape(input: string, parse: UrlParser)
    ensures var r := ExtractGithubUsername(input, parse);
      r.Some? ==> r.value != [] && '/' !in r.value
    ensures var r := ExtractGithubUsername(input, parse);
      r.Some? && (input == [] || parse(Normalize(input)).None?) ==> IsUsernameShape(r.value)
  {
    var r := ExtractGithubUsername(input, parse);
    if input != [] {
      var n := Normalize(input);
      UsernamePatternIff(n);
      if r.Some? && MatchesUsernamePattern(n) {
        assert r.value == n;
        assert forall i :: 0 <= i < |n| ==> n[i] != '/';
      } else if parse(n).Some? {
        FirstPathSegmentShape(parse(n).value.pathname);
      } else {
        FallbackCandidateShape(n);
        UsernamePatternIff(FallbackCandidate(n));
      }
    }
  }

  /** A request is sent exactly when a username was extracted, and it carries that username. */
  lemma SubmitIffUsername(input: string, parse: UrlParser)
    ensures HandleSubmit(input, parse).PostGenerate? <==> ExtractGithubUsername(input, parse).Some?
    ensures HandleSubmit(input, parse).PostGenerate? ==>
      ExtractGithubUsername(input, parse) == Some(HandleSubmit(input, parse).username)
    ensures HandleSubmit(input, parse).Abort? ==> HandleSubmit(input, parse).message == "Invalid GitHub URL or username"
  {
    ResultShape(input, parse);
  }
}
