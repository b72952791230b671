// The link check of a vacancy: the pattern
//   ^(https?://)?([\da-z.-]+)\.([a-z.]{2,6})([/\w .-]*)*/?$
// matched with IGNORECASE by `re.match`.
//
// The pattern's language is stated as a split s = P + H + "." + T + R (SplitsAsLink), and an
// executable recogniser (MatchLink) is proved to accept exactly that language. The repeated
// group `([/\w .-]*)*` and the optional trailing `/` together are just any run of path
// characters, since `/` is one of them. Python's `$` also matches just before a final newline,
// which LinkAccepted adds.
module Links {
  import opened PyValues

  // ---------------------------------------------------------------------------------------------
  // Character classes, with IGNORECASE applied

  predicate IsAsciiLetter(c: char) {
    'a' <= c <= 'z' || 'A' <= c <= 'Z'
  }

  /** IGNORECASE folding of the ASCII letters, which is all the pattern's letters need. */
  function AsciiLower(c: char): char {
    if 'A' <= c <= 'Z' then (c as int + 32) as char else c
  }

  /** `[\da-z.-]`, any letter case. */
  predicate IsHostChar(c: char) {
    IsDigit(c) || IsAsciiLetter(c) || c == '.' || c == '-'
  }

  /** `[a-z.]`, any letter case. */
  predicate IsTldChar(c: char) {
    IsAsciiLetter(c) || c == '.'
  }

  /** `\w`: ASCII letters, basic Cyrillic letters, ASCII digits and the underscore. */
  predicate IsWordChar(c: char) {
    IsAsciiLetter(c) || IsDigit(c) || c == '_' || 'Ѐ' <= c <= 'џ'
  }

  /** `[/\w .-]`. */
  predicate IsPathChar(c: char) {
    c == '/' || IsWordChar(c) || c == ' ' || c == '.' || c == '-'
  }

  predicate AllHost(s: string) {
    forall k :: 0 <= k < |s| ==> IsHostChar(s[k])
  }

  predicate AllTld(s: string) {
    forall k :: 0 <= k < |s| ==> IsTldChar(s[k])
  }

  predicate AllPath(s: string) {
    forall k :: 0 <= k < |s| ==> IsPathChar(s[k])
  }

  /** Equal up to the case of ASCII letters. */
  predicate CiEq(a: string, b: string) {
    |a| == |b| && forall k :: 0 <= k < |a| ==> AsciiLower(a[k]) == AsciiLower(b[k])
  }

  /** `(https?://)?`, any letter case. */
  predicate IsScheme(p: string) {
    p == "" || CiEq(p, "http://") || CiEq(p, "https://")
  }

  // ---------------------------------------------------------------------------------------------
  // The language of the pattern

  /** s is an optional scheme, a non-empty host, a dot, a 2..6 character top-level part, and a path. */
  ghost predicate SplitsAsLink(s: string, p: string, h: string, t: string, r: string) {
    && IsScheme(p)
    && |h| > 0 && AllHost(h)
    && 2 <= |t| <= 6 && AllTld(t)
    && AllPath(r)
    && s == p + h + "." + t + r
  }

  ghost predicate InLinkLanguage(s: string) {
    exists p, h, t, r :: SplitsAsLink(s, p, h, t, r)
  }

  /** What `re.match` accepts: the language, or a word of it followed by one newline (`$`). */
  ghost predicate LinkMatches(s: string) {
    InLinkLanguage(s) || (|s| > 0 && s[|s| - 1] == '\n' && InLinkLanguage(s[..|s| - 1]))
  }

  // ---------------------------------------------------------------------------------------------
  // The recogniser

  /** Some top-level part of length n..6 at the start of u is followed by path characters only. */
  function TldPathFrom(u: string, n: nat): bool
    decreases 7 - n
  {
    if n > 6 || n > |u| then false
    else (AllTld(u[..n]) && AllPath(u[n..])) || TldPathFrom(u, n + 1)
  }

  /** r[..d] is all host characters; some dot at d or later ends the host and starts the rest. */
  function HostFrom(r: string, d: nat): bool
    decreases |r| - d
  {
    if d >= |r| then false
    else (r[d] == '.' && TldPathFrom(r[d + 1..], 2)) || (IsHostChar(r[d]) && HostFrom(r, d + 1))
  }

  /** Host, dot, top-level part and path, with no scheme. */
  function MatchRest(r: string): bool {
    |r| > 0 && IsHostChar(r[0]) && HostFrom(r, 1)
  }

  /** The recogniser: accepts a string exactly when it is in the pattern's language. */
  function MatchLink(s: string): (b: bool)
    ensures b <==> InLinkLanguage(s)
  {
    InLinkLanguageBySchemes(s);
    MatchRestSpec(s);
    MatchRestSpec(if |s| >= 7 then s[7..] else s);
    MatchRestSpec(if |s| >= 8 then s[8..] else s);
    || MatchRest(s)
    || (|s| >= 7 && CiEq(s[..7], "http://") && MatchRest(s[7..]))
    || (|s| >= 8 && CiEq(s[..8], "https://") && MatchRest(s[8..]))
  }

  /** `bool(re.match(link_regex, s, re.IGNORECASE))`. */
  function LinkAccepted(s: string): (b: bool)
    ensures b <==> LinkMatches(s)
  {
    MatchLink(s) || (|s| > 0 && s[|s| - 1] == '\n' && MatchLink(s[..|s| - 1]))
  }

  // ---------------------------------------------------------------------------------------------
  // The recogniser accepts exactly the language

  ghost predicate TldPathAt(u: string, m: int) {
    2 <= m <= 6 && m <= |u| && AllTld(u[..m]) && AllPath(u[m..])
  }

  ghost predicate TldPathOk(u: string) {
    exists m :: TldPathAt(u, m)
  }

  ghost predicate DotAt(r: string, e: int) {
    1 <= e < |r| && AllHost(r[..e]) && r[e] == '.' && TldPathOk(r[e + 1..])
  }

  /** Host, dot, top-level part and path, stated as a split. */
  ghost predicate RestSplit(r: string, h: string, t: string, x: string) {
    |h| > 0 && AllHost(h) && 2 <= |t| <= 6 && AllTld(t) && AllPath(x) && r == h + "." + t + x
  }

  ghost predicate IsRest(r: string) {
    exists h, t, x :: RestSplit(r, h, t, x)
  }

  lemma {:induction false} TldPathFromSpec(u: string, n: nat)
    requires 2 <= n
    ensures TldPathFrom(u, n) <==> exists m :: n <= m && TldPathAt(u, m)
    decreases 7 - n
  {
    if n > 6 || n > |u| {
    } else {
      TldPathFromSpec(u, n + 1);
      if AllTld(u[..n]) && AllPath(u[n..]) {
        assert TldPathAt(u, n);
      }
      if !TldPathFrom(u, n) {
        forall m | n <= m
          ensures !TldPathAt(u, m)
        {
          if m > n {
            assert n + 1 <= m;
          }
        }
      }
    }
  }

  lemma {:induction false} HostFromSpec(r: string, d: nat)
    requires 1 <= d <= |r| && AllHost(r[..d])
    ensures HostFrom(r, d) <==> exists e :: d <= e && DotAt(r, e)
    decreases |r| - d
  {
    if d < |r| {
      TldPathFromSpec(r[d + 1..], 2);
      if IsHostChar(r[d]) {
        assert r[..d + 1] == r[..d] + [r[d]];
        HostFromSpec(r, d + 1);
      }
      if HostFrom(r, d) {
        if r[d] == '.' && TldPathFrom(r[d + 1..], 2) {
          assert DotAt(r, d);
        }
      } else {
        forall e | d <= e
          ensures !DotAt(r, e)
        {
        }
      }
    }
  }

  lemma MatchRestSpec(r: string)
    ensures MatchRest(r) <==> IsRest(r)
  {
    if |r| > 0 && IsHostChar(r[0]) {
      assert r[..1] == [r[0]];
      HostFromSpec(r, 1);
    } else {
      forall e | DotAt(r, e)
        ensures false
      {
      }
    }
    DotAtIsRest(r);
  }

  lemma DotAtIsRest(r: string)
    ensures (exists e :: DotAt(r, e)) <==> IsRest(r)
  {
    if e :| DotAt(r, e) {
      DotGivesRest(r, e);
    }
    if IsRest(r) {
      RestGivesDot(r);
    }
  }

  lemma DotGivesRest(r: string, e: int)
    requires DotAt(r, e)
    ensures IsRest(r)
  {
    var m :| TldPathAt(r[e + 1..], m);
    var h, t, x := r[..e], r[e + 1..][..m], r[e + 1..][m..];
    assert r == h + "." + t + x;
    assert RestSplit(r, h, t, x);
  }

  lemma RestGivesDot(r: string)
    requires IsRest(r)
    ensures exists e :: DotAt(r, e)
  {
    var h, t, x :| RestSplit(r, h, t, x);
    var e := |h|;
    assert r[..e] == h;
    assert r[e + 1..] == t + x;
    assert (t + x)[..|t|] == t && (t + x)[|t|..] == x;
    assert TldPathAt(r[e + 1..], |t|);
    assert DotAt(r, e);
  }

  /** A word of the language is its scheme followed by a host, dot, top-level part and path. */
  lemma SplitRest(s: string, p: string, h: string, t: string, r: string)
    requires SplitsAsLink(s, p, h, t, r)
    ensures s[..|p|] == p && IsRest(s[|p|..])
  {
    assert s == p + (h + "." + t + r);
    assert s[|p|..] == h + "." + t + r;
    assert RestSplit(s[|p|..], h, t, r);
  }

  /** A scheme followed by a host, dot, top-level part and path is a word of the language. */
  lemma RestSplits(s: string, n: nat)
    requires n <= |s| && IsScheme(s[..n]) && IsRest(s[n..])
    ensures InLinkLanguage(s)
  {
    var h, t, x :| RestSplit(s[n..], h, t, x);
    var p := s[..n];
    assert s == p + h + "." + t + x by {
      assert s == p + s[n..];
    }
    assert SplitsAsLink(s, p, h, t, x);
  }

  /** The language, split by which scheme starts the word. */
  lemma InLinkLanguageBySchemes(s: string)
    ensures InLinkLanguage(s) <==>
      || IsRest(s)
      || (|s| >= 7 && CiEq(s[..7], "http://") && IsRest(s[7..]))
      || (|s| >= 8 && CiEq(s[..8], "https://") && IsRest(s[8..]))
  {
    if InLinkLanguage(s) {
      var p, h, t, r :| SplitsAsLink(s, p, h, t, r);
      SplitRest(s, p, h, t, r);
    }
    if IsRest(s) {
      assert s[0..] == s;
      RestSplits(s, 0);
    }
    if |s| >= 7 && CiEq(s[..7], "http://") && IsRest(s[7..]) {
      RestSplits(s, 7);
    }
    if |s| >= 8 && CiEq(s[..8], "https://") && IsRest(s[8..]) {
      RestSplits(s, 8);
    }
  }

  // ---------------------------------------------------------------------------------------------
  // Consequences

  /** Every accepted link holds a dot. */
  lemma AcceptedLinkHasDot(s: string)
    ensures LinkAccepted(s) ==> exists k :: 0 <= k < |s| && s[k] == '.'
  {
    if LinkAccepted(s) {
      var w := if InLinkLanguage(s) then s else s[..|s| - 1];
      var p, h, t, r :| SplitsAsLink(w, p, h, t, r);
      assert w[|p| + |h|] == '.';
    }
  }
}
