/** internal/platformpath: absolute paths as strings, and containment as a test on string prefixes.
    Case folding is ASCII's, for both ToLower and EqualFold. */
module PlatformPath {
  import opened Segments
  import opened Protocol

  datatype Platform = Linux | Windows

  const MAX_PATH_BYTES := 1024

  function Separator(platform: Platform): char { if platform.Windows? then '\\' else '/' }

  const RESERVED_NAMES := {"aux", "con", "nul", "prn"}
  const NUMBERED_NAMES := {"com", "lpt"}

  /** A device name, bare or with an extension, in any case. */
  predicate ReservedWindowsName(segment: string)
  {
    var base := Lower(Split(segment, '.')[0]);
    base in RESERVED_NAMES || (|base| == 4 && base[..3] in NUMBERED_NAMES && '1' <= base[3] <= '9')
  }

  const FORBIDDEN_WINDOWS := {'<', '>', ':', '\"', '/', '|', '?', '*'}

  predicate SegmentValid(platform: Platform, segment: string)
  {
    && segment != "" && segment != "." && segment != ".." && !HasControlCharacter(segment)
    && (platform.Windows? ==>
          && (forall k :: 0 <= k < |segment| ==> segment[k] !in FORBIDDEN_WINDOWS)
          && segment[|segment| - 1] != '.' && segment[|segment| - 1] != ' '
          && !ReservedWindowsName(segment))
  }

  /** How much of the string is the root: `/`, or a drive, a colon and a backslash. */
  function RootLength(platform: Platform): nat { if platform.Windows? then 3 else 1 }

  predicate Rooted(platform: Platform, value: string)
  {
    if platform.Windows? then |value| >= 3 && 'A' <= value[0] <= 'Z' && value[1] == ':' && value[2] == '\\'
    else |value| >= 1 && value[0] == '/'
  }

  function Body(platform: Platform, value: string): string
    requires Rooted(platform, value)
  {
    value[RootLength(platform)..]
  }

  predicate AbsoluteValid(validUtf8: string -> bool, platform: Platform, value: string)
  {
    && validUtf8(value) && 0 < |value| <= MAX_PATH_BYTES && '\0' !in value && Rooted(platform, value)
    && (if platform.Windows? then '/' else '\\') !in value
    && (Body(platform, value) == "" ||
        var segments := Split(Body(platform, value), Separator(platform));
        forall k :: 0 <= k < |segments| ==> SegmentValid(platform, segments[k]))
  }

  predicate IsFilesystemRoot(platform: Platform, value: string)
  {
    if platform.Windows? then |value| == 3 && 'A' <= value[0] <= 'Z' && value[1..] == ":\\" else value == "/"
  }

  function Folded(platform: Platform, value: string): string { if platform.Windows? then Lower(value) else value }

  predicate Equal(platform: Platform, left: string, right: string) { Folded(platform, left) == Folded(platform, right) }

  /** The code's test: equal, or a string prefix once the root ends in a separator. */
  predicate Contains(platform: Platform, root: string, candidate: string)
  {
    Equal(platform, root, candidate) ||
    var prefix := if root != "" && root[|root| - 1] == Separator(platform) then root else root + [Separator(platform)];
    Folded(platform, prefix) <= Folded(platform, candidate)
  }

  predicate Overlaps(platform: Platform, left: string, right: string)
  {
    Contains(platform, left, right) || Contains(platform, right, left)
  }

  // ----- The reading by segments -----

  /** Rooted, and without a trailing separator unless it is a filesystem root. */
  predicate Canonical(platform: Platform, value: string)
  {
    && Rooted(platform, value)
    && (|value| == RootLength(platform) || value[|value| - 1] != Separator(platform))
  }

  /** A path as the sequence of its case-folded segments, the drive first. */
  function Key(platform: Platform, value: string): seq<string>
    requires Rooted(platform, value)
  {
    var folded := Folded(platform, value);
    var body := folded[RootLength(platform)..];
    (if platform.Windows? then [folded[..1]] else [])
    + (if body == "" then [] else Split(body, Separator(platform)))
  }

  lemma ValidIsCanonical(validUtf8: string -> bool, platform: Platform, value: string)
    requires AbsoluteValid(validUtf8, platform, value)
    ensures Canonical(platform, value)
    ensures IsFilesystemRoot(platform, value) <==> |value| == RootLength(platform)
  {
    var body, sep := Body(platform, value), Separator(platform);
    assert value == value[..RootLength(platform)] + body;
    if body != "" {
      TrailingSeparator(body, sep);
      var segments := Split(body, sep);
      assert SegmentValid(platform, segments[|segments| - 1]);
    }
  }

  lemma TrailingSeparator(body: string, sep: char)
    requires body != ""
    ensures body[|body| - 1] == sep ==> Split(body, sep)[|Split(body, sep)| - 1] == ""
  {
    if body[|body| - 1] == sep {
      assert body == body[..|body| - 1] + [sep] + "";
      SplitAppend(body[..|body| - 1], "", sep);
    }
  }

  lemma SplitPrefix(root: string, candidate: string, sep: char)
    ensures Split(root, sep) <= Split(candidate, sep) <==> root == candidate || root + [sep] <= candidate
  {
    hide Split, Join;
    if root + [sep] <= candidate {
      assert candidate == root + [sep] + candidate[|root| + 1..];
      SplitAppend(root, candidate[|root| + 1..], sep);
    }
    if Split(root, sep) <= Split(candidate, sep) {
      SplitPrefixJoins(root, candidate, sep);
    }
  }

  lemma SplitPrefixJoins(root: string, candidate: string, sep: char)
    requires Split(root, sep) <= Split(candidate, sep)
    ensures root == candidate || root + [sep] <= candidate
  {
    hide Split, Join;
    var r, c := Split(root, sep), Split(candidate, sep);
    JoinSplit(root, sep);
    JoinSplit(candidate, sep);
    assert c == r + c[|r|..];
    if |r| == |c| {
      assert r == c;
    } else {
      JoinAppend(r, c[|r|..], sep);
    }
  }

  /** Rooted strings compare as their roots and their bodies do. */
  lemma RootedPrefix(platform: Platform, left: string, right: string)
    requires Rooted(platform, left) && Rooted(platform, right)
    ensures var l, r, n := Folded(platform, left), Folded(platform, right), RootLength(platform);
            && (l == r <==> l[..1] == r[..1] && l[n..] == r[n..])
            && (l + [Separator(platform)] <= r <==> l[..1] == r[..1] && l[n..] + [Separator(platform)] <= r[n..])
            && (l[..n] <= r <==> l[..1] == r[..1])
  {
    var l, r, n := Folded(platform, left), Folded(platform, right), RootLength(platform);
    assert l[1..n] == r[1..n];
    HeadsAndBodies(l, r, n);
    PrefixByParts(l, r, n, Separator(platform));
  }

  lemma HeadsAndBodies(l: string, r: string, n: nat)
    requires 1 <= n <= |l| && n <= |r| && l[1..n] == r[1..n]
    ensures l == r <==> l[..1] == r[..1] && l[n..] == r[n..]
    ensures l[..n] <= r <==> l[..1] == r[..1]
  {
    assert l[..n] == l[..1] + l[1..n] && r[..n] == r[..1] + r[1..n];
    assert l == l[..n] + l[n..] && r == r[..n] + r[n..];
  }

  lemma PrefixByParts(l: string, r: string, n: nat, sep: char)
    requires 1 <= n <= |l| && n <= |r| && l[1..n] == r[1..n]
    ensures l + [sep] <= r <==> l[..1] == r[..1] && l[n..] + [sep] <= r[n..]
  {
    HeadsAndBodies(l, r, n);
    assert r == r[..n] + r[n..] && l + [sep] == l[..n] + (l[n..] + [sep]);
    if l + [sep] <= r {
      assert r == (l + [sep]) + r[|l| + 1..];
      assert r[n..] == (l[n..] + [sep]) + r[|l| + 1..];
    }
    if l[..1] == r[..1] && l[n..] + [sep] <= r[n..] {
      assert r[n..] == (l[n..] + [sep]) + r[n..][|l| - n + 1..];
      assert r == (l + [sep]) + r[n..][|l| - n + 1..];
    }
  }

  lemma FoldedAppend(platform: Platform, value: string)
    ensures Folded(platform, value + [Separator(platform)]) == Folded(platform, value) + [Separator(platform)]
  {
  }

  lemma KeyPrefix(platform: Platform, root: string, candidate: string)
    requires Rooted(platform, root) && Rooted(platform, candidate)
    ensures var f, g, n := Folded(platform, root), Folded(platform, candidate), RootLength(platform);
            Key(platform, root) <= Key(platform, candidate) <==>
              (f[..1] == g[..1] &&
               (f[n..] == ""
                || (g[n..] != "" && Split(f[n..], Separator(platform)) <= Split(g[n..], Separator(platform)))))
  {
    var f, g, n := Folded(platform, root), Folded(platform, candidate), RootLength(platform);
    var a, b := Key(platform, root), Key(platform, candidate);
    if platform.Windows? {
      assert a[0] == f[..1] && b[0] == g[..1];
      assert a[1..] == (if f[n..] == "" then [] else Split(f[n..], Separator(platform)));
      assert b[1..] == (if g[n..] == "" then [] else Split(g[n..], Separator(platform)));
      assert a <= b <==> a[0] == b[0] && a[1..] <= b[1..] by {
        assert a == [a[0]] + a[1..] && b == [b[0]] + b[1..];
      }
    } else {
      assert f[..1] == "/" && g[..1] == "/";
      assert a == (if f[n..] == "" then [] else Split(f[n..], Separator(platform)));
      assert b == (if g[n..] == "" then [] else Split(g[n..], Separator(platform)));
    }
  }

  /** String-prefix containment is segment-prefix containment; equality is equality of segments. */
  lemma ContainsIsPrefix(platform: Platform, root: string, candidate: string)
    requires Canonical(platform, root) && Rooted(platform, candidate)
    ensures Contains(platform, root, candidate) <==> Key(platform, root) <= Key(platform, candidate)
  {
    var f, g, n, sep := Folded(platform, root), Folded(platform, candidate), RootLength(platform), Separator(platform);
    KeyPrefix(platform, root, candidate);
    RootedPrefix(platform, root, candidate);
    FoldedAppend(platform, root);
    if f[n..] == "" {
      assert f == f[..n];
    } else {
      SplitPrefix(f[n..], g[n..], sep);
    }
  }

  lemma EqualIsSameKey(platform: Platform, left: string, right: string)
    requires Canonical(platform, left) && Canonical(platform, right)
    ensures Equal(platform, left, right) <==> Key(platform, left) == Key(platform, right)
  {
    ContainsIsPrefix(platform, left, right);
    ContainsIsPrefix(platform, right, left);
    if Key(platform, left) == Key(platform, right) {
      assert |Folded(platform, left)| == |left| && |Folded(platform, right)| == |right|;
    }
  }

  // ----- Order -----

  lemma ContainsReflexive(platform: Platform, a: string)
    ensures Contains(platform, a, a)
  {
  }

  lemma ContainsTransitive(platform: Platform, a: string, b: string, c: string)
    requires Canonical(platform, a) && Canonical(platform, b) && Rooted(platform, c)
    requires Contains(platform, a, b) && Contains(platform, b, c)
    ensures Contains(platform, a, c)
  {
    ContainsIsPrefix(platform, a, b);
    ContainsIsPrefix(platform, b, c);
    ContainsIsPrefix(platform, a, c);
  }

  lemma ContainsAntisymmetric(platform: Platform, a: string, b: string)
    requires Canonical(platform, a) && Canonical(platform, b)
    ensures Contains(platform, a, b) && Contains(platform, b, a) <==> Equal(platform, a, b)
  {
    ContainsIsPrefix(platform, a, b);
    ContainsIsPrefix(platform, b, a);
    EqualIsSameKey(platform, a, b);
  }

  /** Two roots that contain a common path overlap. */
  lemma CommonPathOverlaps(platform: Platform, a: string, b: string, path: string)
    requires Canonical(platform, a) && Canonical(platform, b) && Rooted(platform, path)
    requires Contains(platform, a, path) && Contains(platform, b, path)
    ensures Overlaps(platform, a, b)
  {
    hide Contains, Key;
    ContainsIsPrefix(platform, a, path);
    ContainsIsPrefix(platform, b, path);
    ContainsIsPrefix(platform, a, b);
    ContainsIsPrefix(platform, b, a);
    CommonPrefixes(Key(platform, a), Key(platform, b), Key(platform, path));
  }

  lemma CommonPrefixes(k: seq<string>, l: seq<string>, p: seq<string>)
    requires k <= p && l <= p
    ensures k <= l || l <= k
  {
    assert k == p[..|k|] && l == p[..|l|];
    if |k| <= |l| {
      assert k == l[..|k|];
    } else {
      assert l == k[..|l|];
    }
  }

  /** Disjointness passes down: below a root that overlaps nothing of X, nothing overlaps X. */
  lemma OverlapsNothingBelow(platform: Platform, root: string, below: string, other: string)
    requires Canonical(platform, root) && Canonical(platform, below) && Canonical(platform, other)
    requires Contains(platform, root, below) && !Overlaps(platform, root, other)
    ensures !Overlaps(platform, below, other)
  {
    if Contains(platform, below, other) {
      ContainsTransitive(platform, root, below, other);
    }
    if Contains(platform, other, below) {
      CommonPathOverlaps(platform, root, other, below);
    }
  }
}
