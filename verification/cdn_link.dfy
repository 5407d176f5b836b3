/**
 * The download-link matcher of update.py: `re.search` of the pattern
 *
 *   (?P<url>http:\/\/addons\.curse\.cursecdn\.com\/files\/\d+\/\d+\/(?P<version>.+)\.zip)
 *
 * with `re.IGNORECASE` over the text of the lookup page.  IsMatch says
 * declaratively where a match of the pattern may lie, IsFirst which of them
 * `re.search` reports (the leftmost, with the greedy `.+` as long as it can
 * be), and Find computes it.
 */
module CdnLink {
  import opened Wrappers
  import opened Text

  /** The pattern's literal text before the first `\d+`, escapes removed. */
  const Prefix: string := "http://addons.curse.cursecdn.com/files/"
  /** The pattern's literal text after the `version` group. */
  const Suffix: string := ".zip"

  /** Case folding of ASCII letters, the only letters the literals contain. */
  function Fold(c: char): char {
    if 'A' <= c <= 'Z' then (c as int - 'A' as int + 'a' as int) as char else c
  }

  /** `lit` occurs in `s` at index `i`, ignoring case. */
  predicate LiteralAt(s: string, i: nat, lit: string) {
    i + |lit| <= |s| && forall k :: 0 <= k < |lit| ==> Fold(s[i + k]) == Fold(lit[k])
  }

  /** `s[lo..hi]` contains no newline: every character there matches `.`. */
  predicate NoNewline(s: string, lo: nat, hi: nat) {
    lo <= hi <= |s| && forall k :: lo <= k < hi ==> s[k] != '\n'
  }

  /**
   * The position of a match: it starts at `start`, the first `\d+` ends at
   * the slash at `slash1`, the second at the slash at `slash2`, the
   * `version` group runs from `slash2 + 1` to `zip`, where `.zip` begins.
   */
  datatype Span = Span(start: nat, slash1: nat, slash2: nat, zip: nat)

  /** The pattern matches `s` at the position `m`. */
  predicate IsMatch(s: string, m: Span) {
    && LiteralAt(s, m.start, Prefix)
    && m.start + |Prefix| < m.slash1 < |s| && AllDigits(s, m.start + |Prefix|, m.slash1) && s[m.slash1] == '/'
    && m.slash1 + 1 < m.slash2 < |s| && AllDigits(s, m.slash1 + 1, m.slash2) && s[m.slash2] == '/'
    && m.slash2 + 1 < m.zip && NoNewline(s, m.slash2 + 1, m.zip)
    && LiteralAt(s, m.zip, Suffix)
  }

  /**
   * `m` is the match `re.search` reports: no match starts further left,
   * and of the matches starting at `m.start` it has the longest version.
   */
  ghost predicate IsFirst(s: string, m: Span) {
    && IsMatch(s, m)
    && forall n: Span :: IsMatch(s, n) ==> m.start < n.start || (m.start == n.start && n.zip <= m.zip)
  }

  /** The `url` group. */
  function Url(s: string, m: Span): string
    requires IsMatch(s, m)
  {
    s[m.start..m.zip + |Suffix|]
  }

  /** The `version` group. */
  function Version(s: string, m: Span): string
    requires IsMatch(s, m)
  {
    s[m.slash2 + 1..m.zip]
  }

  /** Index of the first newline at or after `lo`, or the end of `s`. */
  function LineEnd(s: string, lo: nat): (e: nat)
    requires lo <= |s|
    ensures NoNewline(s, lo, e)
    ensures e < |s| ==> s[e] == '\n'
    decreases |s| - lo
  {
    if lo == |s| || s[lo] == '\n' then lo else LineEnd(s, lo + 1)
  }

  /** The last index in `(lo, hi]` where `.zip` occurs. */
  function LastZip(s: string, lo: nat, hi: nat): (r: Option<nat>)
    ensures r.Some? ==> lo < r.value <= hi && LiteralAt(s, r.value, Suffix)
    ensures forall z: nat :: lo < z <= hi && LiteralAt(s, z, Suffix) ==> r.Some? && z <= r.value
    decreases hi
  {
    if hi <= lo then None
    else if LiteralAt(s, hi, Suffix) then Some(hi)
    else LastZip(s, lo, hi - 1)
  }

  /**
   * The match starting at `start`, if there is one: the digit runs are as
   * long as they go, and the version reaches the last `.zip` on its line.
   */
  function MatchAt(s: string, start: nat): Option<Span> {
    if !LiteralAt(s, start, Prefix) then None
    else
      var a := start + |Prefix|;
      var slash1 := a + DigitsFrom(s, a);
      if slash1 == a || slash1 == |s| || s[slash1] != '/' then None
      else
        var slash2 := slash1 + 1 + DigitsFrom(s, slash1 + 1);
        if slash2 == slash1 + 1 || slash2 == |s| || s[slash2] != '/' then None
        else
          var z := LastZip(s, slash2 + 1, LineEnd(s, slash2 + 1));
          if z.None? then None else Some(Span(start, slash1, slash2, z.value))
  }

  /** Two matches starting at the same place agree on both digit runs. */
  lemma MatchForced(s: string, m: Span, n: Span)
    requires IsMatch(s, m) && IsMatch(s, n) && m.start == n.start
    ensures m.slash1 == n.slash1 && m.slash2 == n.slash2
  {
    var a := m.start + |Prefix|;
    DigitRunForced(s, a, m.slash1 - a, n.slash1 - a);
    DigitRunForced(s, m.slash1 + 1, m.slash2 - m.slash1 - 1, n.slash2 - n.slash1 - 1);
  }

  /** A `.zip` on the version's line ends a match; its start fits before any newline. */
  lemma ZipOnLine(s: string, lo: nat, z: nat)
    requires lo <= |s| && lo < z && NoNewline(s, lo, z) && LiteralAt(s, z, Suffix)
    ensures z <= LineEnd(s, lo)
  {
  }

  /** What MatchAt finds is a match at `start`. */
  lemma MatchAtSound(s: string, start: nat)
    ensures MatchAt(s, start).Some? ==> IsMatch(s, MatchAt(s, start).value) && MatchAt(s, start).value.start == start
  {
    var r := MatchAt(s, start);
    if r.Some? {
      var m := r.value;
      assert NoNewline(s, m.slash2 + 1, m.zip) by {
        var e := LineEnd(s, m.slash2 + 1);
        assert m.zip <= e;
      }
    }
  }

  /** MatchAt finds a match at `start` whenever there is one, with the longest version. */
  lemma MatchAtComplete(s: string, start: nat, n: Span)
    requires IsMatch(s, n) && n.start == start
    ensures MatchAt(s, start).Some? && n.zip <= MatchAt(s, start).value.zip
  {
    var a := start + |Prefix|;
    var slash1 := a + DigitsFrom(s, a);
    DigitRunForced(s, a, n.slash1 - a, slash1 - a);
    var slash2 := slash1 + 1 + DigitsFrom(s, slash1 + 1);
    DigitRunForced(s, slash1 + 1, n.slash2 - slash1 - 1, slash2 - slash1 - 1);
    ZipOnLine(s, slash2 + 1, n.zip);
  }

  /** The first match starting at `p` or later, searching left to right. */
  function FindFrom(s: string, p: nat): Option<Span>
    decreases |s| + 1 - p
  {
    if p > |s| then None
    else
      var r := MatchAt(s, p);
      if r.Some? then r else FindFrom(s, p + 1)
  }

  /** FindFrom finds a match at `p` or later exactly when there is one, and the one re.search would. */
  lemma {:induction false} FindFromCorrect(s: string, p: nat)
    ensures FindFrom(s, p).None? <==> forall n: Span :: IsMatch(s, n) ==> n.start < p
    ensures FindFrom(s, p).Some? ==>
      var m := FindFrom(s, p).value;
      && IsMatch(s, m) && p <= m.start
      && forall n: Span :: IsMatch(s, n) && p <= n.start ==> m.start < n.start || (m.start == n.start && n.zip <= m.zip)
    decreases |s| + 1 - p
  {
    if p > |s| {
      forall n: Span | IsMatch(s, n) ensures n.start < p {
        assert n.start + |Prefix| <= |s|;
      }
    } else {
      MatchAtSound(s, p);
      forall n: Span | IsMatch(s, n) && n.start == p
        ensures MatchAt(s, p).Some? && n.zip <= MatchAt(s, p).value.zip
      {
        MatchAtComplete(s, p, n);
      }
      if MatchAt(s, p).None? {
        FindFromCorrect(s, p + 1);
      }
    }
  }

  /**
   * `re.search(pattern, s, re.IGNORECASE)`: the match re.search reports,
   * and None exactly when the pattern matches nowhere in `s`.
   */
  function Find(s: string): (r: Option<Span>)
    ensures r.None? <==> forall n: Span :: !IsMatch(s, n)
    ensures r.Some? ==> IsFirst(s, r.value)
  {
    FindFromCorrect(s, 0);
    FindFrom(s, 0)
  }

  /** Only one match satisfies IsFirst: the search result is determined. */
  lemma FirstUnique(s: string, m: Span, n: Span)
    requires IsFirst(s, m) && IsFirst(s, n)
    ensures m == n
  {
    MatchForced(s, m, n);
  }

  /** The greedy `.+`: no `.zip` further along the version's line. */
  lemma FirstIsGreedy(s: string, m: Span, z: nat)
    requires IsFirst(s, m) && m.zip < z && NoNewline(s, m.slash2 + 1, z)
    ensures !LiteralAt(s, z, Suffix)
  {
    if LiteralAt(s, z, Suffix) {
      assert IsMatch(s, m.(zip := z));
    }
  }

  /** Cutting `s[i..j]` into the pieces around two single characters at `x` and `y`. */
  lemma SliceAround(s: string, i: nat, p: nat, x: nat, y: nat, j: nat)
    requires i <= p <= x < y < j <= |s|
    ensures s[i..j] == s[i..p] + s[p..x] + [s[x]] + s[x + 1..y] + [s[y]] + s[y + 1..j]
  {
    assert s[i..j] == s[i..p] + s[p..x] + s[x..x + 1] + s[x + 1..y] + s[y..y + 1] + s[y + 1..j];
  }

  /** A literal found in `s` is found at the same place in a slice that contains it. */
  lemma LiteralInSlice(s: string, i: nat, j: nat, k: nat, lit: string)
    requires i <= k && k + |lit| <= j <= |s| && LiteralAt(s, k, lit)
    ensures LiteralAt(s[i..j], k - i, lit)
  {
    forall n | 0 <= n < |lit| ensures Fold(s[i..j][k - i + n]) == Fold(lit[n]) {
      assert s[i..j][k - i + n] == s[k + n];
    }
  }

  /**
   * The `url` group is the CDN prefix, the two digit runs each followed by
   * a slash, the `version` group and `.zip`, where the prefix and `.zip` are
   * as in the text searched.
   */
  lemma UrlParts(s: string, m: Span)
    requires IsMatch(s, m)
    ensures Url(s, m) == s[m.start..m.start + |Prefix|] + s[m.start + |Prefix|..m.slash1] + "/"
                         + s[m.slash1 + 1..m.slash2] + "/" + Version(s, m) + s[m.zip..m.zip + |Suffix|]
  {
    var e := m.zip + |Suffix|;
    SliceAround(s, m.start, m.start + |Prefix|, m.slash1, m.slash2, e);
    assert s[m.slash2 + 1..e] == Version(s, m) + s[m.zip..e];
  }

  /** `url` begins with the CDN prefix and ends with `.zip`, up to case. */
  predicate CdnArchive(url: string) {
    LiteralAt(url, 0, Prefix) && LiteralAt(url, |url| - |Suffix|, Suffix)
  }

  /** The `url` group begins with the CDN prefix and ends with `.zip`, up to case. */
  lemma UrlEnds(s: string, m: Span)
    requires IsMatch(s, m)
    ensures CdnArchive(Url(s, m))
  {
    LiteralInSlice(s, m.start, m.zip + |Suffix|, m.start, Prefix);
    LiteralInSlice(s, m.start, m.zip + |Suffix|, m.zip, Suffix);
  }

  /** Both digit runs are non-empty runs of ASCII digits. */
  lemma DigitRuns(s: string, m: Span)
    requires IsMatch(s, m)
    ensures var d1, d2 := s[m.start + |Prefix|..m.slash1], s[m.slash1 + 1..m.slash2];
      |d1| > 0 && AllDigits(d1, 0, |d1|) && |d2| > 0 && AllDigits(d2, 0, |d2|)
  {
    var p := m.start + |Prefix|;
    var d1, d2 := s[p..m.slash1], s[m.slash1 + 1..m.slash2];
    forall k | 0 <= k < |d1| ensures IsDigit(d1[k]) {
      assert d1[k] == s[p + k];
    }
    forall k | 0 <= k < |d2| ensures IsDigit(d2[k]) {
      assert d2[k] == s[m.slash1 + 1 + k];
    }
  }

  /** The version is not empty and lies on one line, as `.+` requires. */
  lemma VersionOnOneLine(s: string, m: Span)
    requires IsMatch(s, m)
    ensures |Version(s, m)| > 0 && '\n' !in Version(s, m)
  {
  }

  /** The groups `re.search` returns: `m.group('url')` and `m.group('version')`. */
  datatype Link = Link(url: string, version: string)

  /**
   * The match object of `re.search`, reduced to its two groups: the groups
   * of the match re.search reports, and None exactly when the pattern
   * matches nowhere in the body.
   */
  function Search(body: string): (r: Option<Link>)
    ensures r.None? <==> forall n: Span :: !IsMatch(body, n)
    ensures r.Some? ==> exists m: Span :: IsFirst(body, m) && r.value == Link(Url(body, m), Version(body, m))
  {
    match Find(body)
    case None => None
    case Some(m) => Some(Link(Url(body, m), Version(body, m)))
  }
}
