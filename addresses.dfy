/**
 * The custom path's address handling in `handleSubmit`: every entry is
 * trimmed and blank entries are dropped, then the list must hold one entry
 * that the anchored dotted-quad pattern accepts and one entry in which the
 * unanchored IPv6 pattern finds a match.
 */
module Addresses {
  import opened Text

  /** `.map((a) => a.trim())`. */
  function TrimAll(xs: seq<string>): (r: seq<string>)
    ensures |r| == |xs|
    ensures forall i | 0 <= i < |xs| :: r[i] == Trim(xs[i])
  {
    if xs == [] then []
    else
      var rest := TrimAll(xs[1..]);
      assert forall i | 1 <= i < |xs| :: ([Trim(xs[0])] + rest)[i] == rest[i - 1];
      [Trim(xs[0])] + rest
  }

  /** The cleaned address list of line 296. */
  function Clean(xs: seq<string>): seq<string> {
    DropEmpty(TrimAll(xs))
  }

  /** Cleaning is applied entry by entry and keeps the entries' order:
      cleaning a concatenation concatenates the cleaned parts. */
  lemma {:induction false} CleanAppend(a: seq<string>, b: seq<string>)
    ensures Clean(a + b) == Clean(a) + Clean(b)
  {
    if a == [] {
      assert a + b == b;
    } else {
      assert (a + b)[1..] == a[1..] + b;
      CleanAppend(a[1..], b);
    }
  }

  /** One entry is kept, trimmed, unless it is blank. */
  lemma CleanSingle(x: string)
    ensures Clean([x]) == if Trim(x) == [] then [] else [Trim(x)]
  {
  }

  /** Every cleaned entry is non-empty, trimmed, and the trimmed form of some
      input entry; every input entry that is not blank appears, trimmed. */
  lemma CleanMembers(xs: seq<string>)
    ensures forall y | y in Clean(xs) :: y != [] && Trimmed(y)
    ensures forall y | y in Clean(xs) :: exists i | 0 <= i < |xs| :: Trim(xs[i]) == y
    ensures forall i | 0 <= i < |xs| && Trim(xs[i]) != [] :: Trim(xs[i]) in Clean(xs)
  {
    forall y | y in Clean(xs)
      ensures y != [] && Trimmed(y) && exists i | 0 <= i < |xs| :: Trim(xs[i]) == y
    {
      CleanedFrom(xs, y);
    }
    forall i | 0 <= i < |xs| && Trim(xs[i]) != []
      ensures Trim(xs[i]) in Clean(xs)
    {
      CleanKeeps(xs, i);
    }
  }

  lemma CleanedFrom(xs: seq<string>, y: string)
    requires y in Clean(xs)
    ensures y != [] && Trimmed(y) && exists i | 0 <= i < |xs| :: Trim(xs[i]) == y
  {
    var t := TrimAll(xs);
    var r := DropEmpty(t);
    var j :| 0 <= j < |r| && r[j] == y;
    assert y != [] && y in t;
    var i :| 0 <= i < |t| && t[i] == y;
    assert Trim(xs[i]) == y;
  }

  lemma CleanKeeps(xs: seq<string>, i: nat)
    requires i < |xs| && Trim(xs[i]) != []
    ensures Trim(xs[i]) in Clean(xs)
  {
    var t := TrimAll(xs);
    DropEmptyMembers(t);
    assert t[i] in t;
  }

  /** Cleaning a cleaned list changes nothing. */
  lemma CleanIdempotent(xs: seq<string>)
    ensures Clean(Clean(xs)) == Clean(xs)
  {
    var c := Clean(xs);
    CleanMembers(xs);
    forall i | 0 <= i < |c|
      ensures c[i] != [] && Trimmed(c[i])
    {
      assert c[i] in c;
    }
    CleanUnchanged(c);
  }

  /** A list of non-empty trimmed entries is already clean. */
  lemma {:induction false} CleanUnchanged(xs: seq<string>)
    requires forall i | 0 <= i < |xs| :: xs[i] != [] && Trimmed(xs[i])
    ensures Clean(xs) == xs
  {
    if xs != [] {
      var x := xs[0];
      assert Trim(x) == x by {
        TrimOfPadded([], x, []);
        assert [] + x + [] == x;
      }
      CleanSingle(x);
      CleanUnchanged(xs[1..]);
      CleanAppend([x], xs[1..]);
      assert [x] + xs[1..] == xs;
    }
  }

  // ----- The IPv4 pattern of line 297: ^(?:[0-9]{1,3}\.){3}[0-9]{1,3}$ -----

  predicate IsDigit(c: char) {
    '0' <= c <= '9'
  }

  predicate AllDigits(t: string) {
    forall i | 0 <= i < |t| :: IsDigit(t[i])
  }

  /** `[0-9]{1,3}`. */
  predicate IsDigitGroup(t: string) {
    1 <= |t| <= 3 && AllDigits(t)
  }

  /** The whole text is four groups of one to three digits separated by
      dots. No range check: `999.999.999.999` is accepted. */
  predicate IsIPv4(s: string) {
    var g := Split(s, '.');
    |g| == 4 && forall i | 0 <= i < 4 :: IsDigitGroup(g[i])
  }

  function Dotted(a: string, b: string, c: string, d: string): string {
    a + "." + b + "." + c + "." + d
  }

  lemma DottedIsJoin(a: string, b: string, c: string, d: string)
    ensures Dotted(a, b, c, d) == Join([a, b, c, d], '.')
  {
    var g := [a, b, c, d];
    assert Join(g[3..], '.') == d;
    assert Join(g[2..], '.') == c + "." + Join(g[3..], '.');
    assert Join(g[1..], '.') == b + "." + Join(g[2..], '.');
  }

  /** Every text the pattern describes is accepted. */
  lemma IPv4Sound(a: string, b: string, c: string, d: string)
    requires IsDigitGroup(a) && IsDigitGroup(b) && IsDigitGroup(c) && IsDigitGroup(d)
    ensures IsIPv4(Dotted(a, b, c, d))
  {
    DottedIsJoin(a, b, c, d);
    var g := [a, b, c, d];
    forall i, k | 0 <= i < 4 && 0 <= k < |g[i]| ensures g[i][k] != '.' {
      assert IsDigit(g[i][k]);
    }
    SplitJoin(g, '.');
  }

  /** The pattern has no range check: `999.999.999.999` is accepted. */
  lemma PermissiveIPv4()
    ensures IsIPv4("999.999.999.999")
  {
    assert IsDigitGroup("999") by {
      assert forall i | 0 <= i < 3 :: "999"[i] == '9';
    }
    IPv4Sound("999", "999", "999", "999");
    assert Dotted("999", "999", "999", "999") == "999.999.999.999";
  }

  /** Every accepted text is one the pattern describes. */
  lemma IPv4Complete(s: string)
    requires IsIPv4(s)
    ensures var g := Split(s, '.');
      IsDigitGroup(g[0]) && IsDigitGroup(g[1]) && IsDigitGroup(g[2]) && IsDigitGroup(g[3]) &&
      s == Dotted(g[0], g[1], g[2], g[3])
  {
    var g := Split(s, '.');
    JoinSplit(s, '.');
    DottedIsJoin(g[0], g[1], g[2], g[3]);
    assert g == [g[0], g[1], g[2], g[3]];
  }

  /** An accepted IPv4 text never contains a colon. */
  lemma IPv4HasNoColon(s: string)
    requires IsIPv4(s)
    ensures ':' !in s
  {
    forall k | 0 <= k < |s| ensures s[k] != ':' {
      if s[k] != '.' {
        SplitCovers(s, '.', k);
        var i :| 0 <= i < |Split(s, '.')| && s[k] in Split(s, '.')[i];
        var g := Split(s, '.')[i];
        var j :| 0 <= j < |g| && g[j] == s[k];
        assert IsDigit(g[j]);
      }
    }
  }

  // ----- The IPv6 pattern of line 298, matched without anchors -----
  //
  // Each alternative of the pattern is described by the colon-separated
  // fields (`Split(t, ':')`) of a text it matches in full; a hex group is
  // `[0-9a-fA-F]{1,4}` and the empty field marks a `::`.

  predicate IsHexChar(c: char) {
    '0' <= c <= '9' || 'a' <= c <= 'f' || 'A' <= c <= 'F'
  }

  /** `[0-9a-fA-F]{lo,hi}`. */
  predicate IsHexRun(t: string, lo: nat, hi: nat) {
    lo <= |t| <= hi && forall i | 0 <= i < |t| :: IsHexChar(t[i])
  }

  predicate AllHexGroups(f: seq<string>) {
    forall i | 0 <= i < |f| :: IsHexRun(f[i], 1, 4)
  }

  /** `([0-9a-fA-F]{1,4}:){7,7}[0-9a-fA-F]{1,4}`: eight groups. */
  predicate EightGroups(f: seq<string>) {
    |f| == 8 && AllHexGroups(f)
  }

  /** `([0-9a-fA-F]{1,4}:){1,7}:`: one to seven groups, then `::`. */
  predicate TrailingGap(f: seq<string>) {
    3 <= |f| <= 9 && AllHexGroups(f[..|f| - 2]) && f[|f| - 2] == [] && f[|f| - 1] == []
  }

  /** The six alternatives `(H:){k}(:H){m}` with k, m at least one and
      k + m at most seven: groups, one `::`, groups. */
  predicate InnerGap(f: seq<string>) {
    |f| <= 8 &&
    exists k | 1 <= k < |f| - 1 :: f[k] == [] && AllHexGroups(f[..k]) && AllHexGroups(f[k + 1..])
  }

  /** `:((:[0-9a-fA-F]{1,4}){1,7}|:)`: `::` alone or followed by one to
      seven groups. */
  predicate LeadingGap(f: seq<string>) {
    |f| >= 3 && f[0] == [] && f[1] == [] &&
    ((|f| == 3 && f[2] == []) || (|f| <= 9 && AllHexGroups(f[2..])))
  }

  /** `25[0-5]|(2[0-4]|1{0,1}[0-9]){0,1}[0-9]`: one or two digits, or three
      digits from 100 to 255. */
  predicate IsV6Octet(t: string) {
    AllDigits(t) &&
    (|t| == 1 || |t| == 2 ||
     (|t| == 3 && (t[0] == '1' || (t[0] == '2' && (t[1] <= '4' || (t[1] == '5' && t[2] <= '5'))))))
  }

  /** The dotted tail used inside the IPv6 pattern: four octets. */
  predicate IsV6Dotted(t: string) {
    var o := Split(t, '.');
    |o| == 4 && forall i | 0 <= i < 4 :: IsV6Octet(o[i])
  }

  predicate IsZeroRun(t: string) {
    1 <= |t| <= 4 && forall i | 0 <= i < |t| :: t[i] == '0'
  }

  /** `::(ffff(:0{1,4}){0,1}:){0,1}` followed by a dotted tail. */
  predicate MappedDotted(f: seq<string>) {
    3 <= |f| <= 5 && f[0] == [] && f[1] == [] && IsV6Dotted(f[|f| - 1]) &&
    (|f| == 3 || f[2] == "ffff") && (|f| == 5 ==> IsZeroRun(f[3]))
  }

  /** `([0-9a-fA-F]{1,4}:){1,4}:` followed by a dotted tail. */
  predicate EmbeddedDotted(f: seq<string>) {
    3 <= |f| <= 6 && AllHexGroups(f[..|f| - 2]) && f[|f| - 2] == [] && IsV6Dotted(f[|f| - 1])
  }

  predicate IsAlnum(c: char) {
    '0' <= c <= '9' || 'a' <= c <= 'z' || 'A' <= c <= 'Z'
  }

  /** `(:[0-9a-fA-F]{0,4}){0,4}`: the fields of such a text are an empty
      one followed by up to four hex runs of length 0 to 4. */
  predicate ZoneGroups(u: string) {
    var f := Split(u, ':');
    |f| <= 5 && f[0] == [] && forall i | 1 <= i < |f| :: IsHexRun(f[i], 0, 4)
  }

  /** `fe80:(:[0-9a-fA-F]{0,4}){0,4}%[0-9a-zA-Z]{1,}`: a link-local
      address with a zone index. */
  predicate LinkLocalZone(t: string) {
    |t| >= 7 && t[..5] == "fe80:" &&
    exists p | 5 <= p < |t| - 1 ::
      t[p] == '%' && ZoneGroups(t[5..p]) && forall i | p < i < |t| :: IsAlnum(t[i])
  }

  /** `t` as a whole matches one of the pattern's alternatives. */
  predicate MatchesIPv6Alternative(t: string) {
    var f := Split(t, ':');
    EightGroups(f) || TrailingGap(f) || InnerGap(f) || LeadingGap(f) ||
    MappedDotted(f) || EmbeddedDotted(f) || LinkLocalZone(t)
  }

  /** `ipv6Regex.test(s)`: the pattern is not anchored, so a match anywhere
      in `s` is enough. */
  predicate IPv6Test(s: string) {
    exists i, j | 0 <= i <= j <= |s| :: MatchesIPv6Alternative(s[i..j])
  }

  /** Because the pattern is not anchored and `::` alone is one of its
      alternatives, every text containing `::` passes the IPv6 test,
      whatever surrounds it. */
  lemma DoubleColonPasses(s: string, k: nat)
    requires k + 2 <= |s| && s[k] == ':' && s[k + 1] == ':'
    ensures IPv6Test(s)
  {
    var t := s[k..k + 2];
    assert t == "::";
    assert Split(t, ':') == [[], [], []] by {
      assert t[1..] == ":" && t[1..][1..] == [];
      assert Split([], ':') == [[]];
      assert Split(":", ':') == [[]] + [[]];
      assert Split(t, ':') == [[]] + Split(":", ':');
    }
    assert LeadingGap(Split(t, ':'));
    assert MatchesIPv6Alternative(s[k..k + 2]);
  }

  /** Every alternative contains a colon. */
  lemma AlternativeHasColon(t: string)
    requires MatchesIPv6Alternative(t)
    ensures ':' in t
  {
    if !LinkLocalZone(t) {
      assert |Split(t, ':')| != 1;
    } else {
      assert t[..5][4] == ':';
    }
  }

  /** Any text in which the IPv6 pattern finds a match contains a colon. */
  lemma IPv6HasColon(s: string)
    requires IPv6Test(s)
    ensures ':' in s
  {
    var i, j :| 0 <= i <= j <= |s| && MatchesIPv6Alternative(s[i..j]);
    AlternativeHasColon(s[i..j]);
    var k :| 0 <= k < j - i && s[i..j][k] == ':';
    assert s[i + k] == ':';
  }

  /** No text is both an accepted IPv4 text and one where the IPv6 pattern
      finds a match. */
  lemma FamiliesDisjoint(s: string)
    ensures !(IsIPv4(s) && IPv6Test(s))
  {
    if IsIPv4(s) && IPv6Test(s) {
      IPv4HasNoColon(s);
      IPv6HasColon(s);
    }
  }

  // ----- The address-family requirement of lines 300-306 -----

  /** `addresses.some(addr => ipv4Regex.test(addr))`. */
  predicate HasIPv4(xs: seq<string>) {
    exists i | 0 <= i < |xs| :: IsIPv4(xs[i])
  }

  /** `addresses.some(addr => ipv6Regex.test(addr))`. */
  predicate HasIPv6(xs: seq<string>) {
    exists i | 0 <= i < |xs| :: IPv6Test(xs[i])
  }

  /** The custom configuration goes ahead only when both families are
      present. */
  predicate Accepted(xs: seq<string>) {
    HasIPv4(xs) && HasIPv6(xs)
  }

  /** An accepted list holds two different entries, one per family, so a
      cleaned list of fewer than two entries is always turned down. */
  lemma AcceptedNeedsTwoEntries(xs: seq<string>)
    requires Accepted(xs)
    ensures exists i, j | 0 <= i < |xs| && 0 <= j < |xs| :: i != j && IsIPv4(xs[i]) && IPv6Test(xs[j])
    ensures |xs| >= 2
  {
    var i :| 0 <= i < |xs| && IsIPv4(xs[i]);
    var j :| 0 <= j < |xs| && IPv6Test(xs[j]);
    FamiliesDisjoint(xs[i]);
  }
}
