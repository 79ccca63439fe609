/** The JavaScript string operations that the username parsers use, on `seq<char>`. */
module Text {

  /** `[a-zA-Z0-9]` */
  predicate IsAsciiAlnum(c: char) {
    ('a' <= c <= 'z') || ('A' <= c <= 'Z') || ('0' <= c <= '9')
  }

  /** The characters `String.prototype.trim` removes: ECMAScript WhiteSpace and LineTerminator. */
  predicate IsJsWhitespace(c: char) {
    var n := c as int;
    (9 <= n <= 13) || n == 0x20 || n == 0xA0 || n == 0x1680 || (0x2000 <= n <= 0x200A)
    || n == 0x2028 || n == 0x2029 || n == 0x202F || n == 0x205F || n == 0x3000 || n == 0xFEFF
  }

  /** Leading white space removed. */
  function TrimStart(s: string): (r: string)
    ensures |r| <= |s| && r == s[|s| - |r|..]
    ensures forall i :: 0 <= i < |s| - |r| ==> IsJsWhitespace(s[i])
    ensures r == [] || !IsJsWhitespace(r[0])
  {
    if s != [] && IsJsWhitespace(s[0]) then TrimStart(s[1..]) else s
  }

  /** Trailing white space removed. */
  function TrimEnd(s: string): (r: string)
    ensures |r| <= |s| && r == s[..|r|]
    ensures forall i :: |r| <= i < |s| ==> IsJsWhitespace(s[i])
    ensures r == [] || !IsJsWhitespace(r[|r| - 1])
  {
    if s != [] && IsJsWhitespace(s[|s| - 1]) then TrimEnd(s[..|s| - 1]) else s
  }

  /** `s.trim()` */
  function Trim(s: string): string {
    TrimEnd(TrimStart(s))
  }

  /** `s.replace(/c+$/, '')`: every trailing `c` removed. */
  function StripTrailing(s: string, c: char): (r: string)
    ensures |r| <= |s| && r == s[..|r|]
    ensures forall i :: |r| <= i < |s| ==> s[i] == c
    ensures r == [] || r[|r| - 1] != c
  {
    if s != [] && s[|s| - 1] == c then StripTrailing(s[..|s| - 1], c) else s
  }

  /** `s.split(c)[0]`: the text before the first `c`, or all of `s`. */
  function BeforeFirst(s: string, c: char): (r: string)
    ensures |r| <= |s| && r == s[..|r|]
    ensures c !in r
    ensures |r| < |s| ==> s[|r|] == c
  {
    if s == [] || s[0] == c then [] else [s[0]] + BeforeFirst(s[1..], c)
  }

  /** Without a `c` the text before the first `c` is all of `s`. */
  lemma BeforeFirstAbsent(s: string, c: char)
    requires c !in s
    ensures BeforeFirst(s, c) == s
  {
  }

  /** `s.replace(c, '')` with a one-character pattern: the first `c` removed, if any. */
  function RemoveFirst(s: string, c: char): (r: string)
    ensures c !in s ==> r == s
    ensures c in s ==> exists i :: 0 <= i < |s| && s[i] == c && c !in s[..i] && r == s[..i] + s[i + 1..]
  {
    var p := BeforeFirst(s, c);
    if |p| == |s| then s
    else
      assert s[..|p|] == p;
      p + s[|p| + 1..]
  }

  /** `s.replace(/^c/, '')`: one leading `c` removed, if present. */
  function StripLeading(s: string, c: char): string {
    if s != [] && s[0] == c then s[1..] else s
  }

  /** `s.startsWith(p)` */
  predicate IsPrefix(p: string, s: string) {
    |p| <= |s| && s[..|p|] == p
  }

  /** `s.includes(sub)` */
  predicate Contains(s: string, sub: string)
    decreases |s|
  {
    IsPrefix(sub, s) || (s != [] && Contains(s[1..], sub))
  }

  /** `parts.join(c)`, the inverse of `split`. */
  function Join(parts: seq<string>, c: char): string
    requires |parts| >= 1
  {
    if |parts| == 1 then parts[0] else parts[0] + [c] + Join(parts[1..], c)
  }

  /**
   * `s.split(c)`, which always yields at least one (possibly empty) piece; joining the
   * pieces with `c` gives `s` back.
   */
  function Split(s: string, c: char): (parts: seq<string>)
    ensures |parts| >= 1
    ensures forall k :: 0 <= k < |parts| ==> c !in parts[k]
    ensures Join(parts, c) == s
    decreases |s|
  {
    var p := BeforeFirst(s, c);
    if |p| == |s| then [s]
    else
      var rest := Split(s[|p| + 1..], c);
      assert s == p + [c] + s[|p| + 1..];
      assert ([p] + rest)[1..] == rest;
      [p] + rest
  }

  /** `parts.filter(Boolean)`: the non-empty pieces, in order. */
  function NonEmpty(parts: seq<string>): (r: seq<string>)
    ensures |r| <= |parts|
    ensures forall x :: x in r <==> x in parts && x != []
  {
    if parts == [] then []
    else if parts[0] == [] then NonEmpty(parts[1..])
    else [parts[0]] + NonEmpty(parts[1..])
  }

  /** Every leading `c` removed. */
  function DropLeading(s: string, c: char): (r: string)
    ensures |r| <= |s| && r == s[|s| - |r|..]
    ensures forall i :: 0 <= i < |s| - |r| ==> s[i] == c
    ensures r == [] || r[0] != c
  {
    if s != [] && s[0] == c then DropLeading(s[1..], c) else s
  }

  /** The text before the first `c` of `p + [c] + t` is `p` when `p` holds no `c`. */
  lemma {:induction false} BeforeFirstOfPiece(p: string, t: string, c: char)
    requires c !in p
    ensures BeforeFirst(p + [c] + t, c) == p
  {
    if p != [] {
      assert (p + [c] + t)[1..] == p[1..] + [c] + t;
      BeforeFirstOfPiece(p[1..], t, c);
    }
  }

  /** Splitting a join of pieces without the separator gives the pieces back. */
  lemma {:induction false} SplitJoin(parts: seq<string>, c: char)
    requires |parts| >= 1
    requires forall k :: 0 <= k < |parts| ==> c !in parts[k]
    ensures Split(Join(parts, c), c) == parts
    decreases |parts|
  {
    if |parts| == 1 {
      assert BeforeFirst(parts[0], c) == parts[0];
    } else {
      var p, rest := parts[0], parts[1..];
      var t := Join(rest, c);
      var s := p + [c] + t;
      assert Join(parts, c) == s;
      BeforeFirstOfPiece(p, t, c);
      assert s[|p| + 1..] == t;
      SplitJoin(rest, c);
      assert Split(s, c) == [p] + Split(t, c);
      assert parts == [p] + rest;
    }
  }

  /** The filter distributes over concatenation, so the kept pieces stay in their order. */
  lemma {:induction false} NonEmptyAppend(a: seq<string>, b: seq<string>)
    ensures NonEmpty(a + b) == NonEmpty(a) + NonEmpty(b)
  {
    if a != [] {
      assert (a + b)[0] == a[0] && (a + b)[1..] == a[1..] + b;
      NonEmptyAppend(a[1..], b);
    } else {
      assert a + b == b;
    }
  }
}

/** What the components use of a parsed WHATWG URL. */
module Urls {
  import opened Wrappers
  import opened Text

  /** The `hostname` and `pathname` of a `URL` object. */
  datatype Url = Url(hostname: string, pathname: string)

  /**
   * `new URL(s)`: the parser itself is not modelled; a caller supplies it.
   * `None` stands for the `TypeError` the constructor throws.
   */
  type UrlParser = string -> Option<Url>

  /** `pathname.split('/').filter(Boolean)[0] || null` */
  function FirstPathSegment(pathname: string): Option<string> {
    var parts := NonEmpty(Split(pathname, '/'));
    if parts == [] then None else Some(parts[0])
  }

  /** A path without a slash is one piece: itself, unless it is empty. */
  lemma NoSlashSegment(pathname: string)
    requires '/' !in pathname
    ensures FirstPathSegment(pathname) == (if pathname == [] then None else Some(pathname))
  {
    assert BeforeFirst(pathname, '/') == pathname;
    assert Split(pathname, '/') == [pathname];
    if pathname != [] {
      assert NonEmpty([pathname]) == [pathname];
    }
  }

  /** A leading slash only contributes an empty piece, which the filter drops. */
  lemma LeadingSlashSegment(pathname: string)
    requires pathname != [] && pathname[0] == '/'
    ensures FirstPathSegment(pathname) == FirstPathSegment(pathname[1..])
  {
    assert BeforeFirst(pathname, '/') == [];
    var pieces := Split(pathname, '/');
    assert pieces == [[]] + Split(pathname[1..], '/');
    assert NonEmpty(pieces) == NonEmpty(pieces[1..]);
  }

  /** A path starting with a non-empty piece followed by a slash yields that piece first. */
  lemma InnerSlashSegment(pathname: string, p: string)
    requires p == BeforeFirst(pathname, '/') && p != [] && |p| < |pathname|
    ensures FirstPathSegment(pathname) == Some(p)
  {
    var rest := Split(pathname[|p| + 1..], '/');
    var pieces := Split(pathname, '/');
    assert pieces == [p] + rest;
    assert pieces[0] == p && pieces[1..] == rest;
    assert NonEmpty(pieces) == [p] + NonEmpty(rest);
  }

  /**
   * The first non-empty segment is what follows the leading slashes, up to the next
   * slash: an independent statement of the split-and-filter above.
   */
  lemma {:induction false} FirstPathSegmentIsAfterSlashes(pathname: string)
    ensures FirstPathSegment(pathname) ==
      (var seg := BeforeFirst(DropLeading(pathname, '/'), '/');
       if seg == [] then None else Some(seg))
    decreases |pathname|
  {
    var p := BeforeFirst(pathname, '/');
    if pathname != [] && pathname[0] == '/' {
      LeadingSlashSegment(pathname);
      FirstPathSegmentIsAfterSlashes(pathname[1..]);
    } else {
      assert DropLeading(pathname, '/') == pathname;
      if |p| == |pathname| {
        assert p == pathname;
        NoSlashSegment(pathname);
      } else {
        InnerSlashSegment(pathname, p);
      }
    }
  }

  /** A segment found is non-empty and holds no slash. */
  lemma FirstPathSegmentShape(pathname: string)
    ensures FirstPathSegment(pathname).Some? ==>
      FirstPathSegment(pathname).value != [] && '/' !in FirstPathSegment(pathname).value
  {
    FirstPathSegmentIsAfterSlashes(pathname);
  }
}
