/** The regular expressions the content script applies to scraped text, each
    written out as a scan. A pattern is a literal prefix, a capturing run of
    one character class, and a literal suffix:

      /\$([0-9.]+)/        DollarAmount
      /([0-9.]+)%/         DecimalPercent
      /(\d+)%/             WholePercent
      /promo code: (.*)/   PromoCodeLine

    In each, the suffix cannot start with a character of the class, so the
    greedy run that the regex engine tries first is the only one that can
    succeed: a match at position `i` is exactly "prefix, maximal run of at
    least `minRun` characters, suffix". */
module Patterns {
  import opened Opt
  import opened JsStrings
  import opened JsNumbers

  datatype CharClass = Digits | DigitsAndDots | AnyButLineTerminator

  predicate InClass(c: char, cls: CharClass) {
    match cls
    case Digits => IsDigit(c)
    case DigitsAndDots => IsDigitOrDot(c)
    case AnyButLineTerminator => !IsLineTerminator(c)
  }

  datatype Pattern = Pattern(prefix: string, cls: CharClass, minRun: nat, suffix: string)

  /** The patterns for which the greedy run is the only candidate. */
  predicate Deterministic(p: Pattern) {
    p.suffix == [] || !InClass(p.suffix[0], p.cls)
  }

  const DollarAmount: Pattern := Pattern("$", DigitsAndDots, 1, "")
  const DecimalPercent: Pattern := Pattern("", DigitsAndDots, 1, "%")
  const WholePercent: Pattern := Pattern("", Digits, 1, "%")
  const PromoCodeLine: Pattern := Pattern("promo code: ", AnyButLineTerminator, 0, "")

  lemma PatternsDeterministic()
    ensures Deterministic(DollarAmount) && Deterministic(DecimalPercent)
    ensures Deterministic(WholePercent) && Deterministic(PromoCodeLine)
  {
  }

  /** The length of the longest run of class characters at the start of `s`. */
  function ClassRun(s: string, cls: CharClass): (n: nat)
    ensures n <= |s|
    ensures forall i :: 0 <= i < n ==> InClass(s[i], cls)
    ensures n == |s| || !InClass(s[n], cls)
  {
    if s != [] && InClass(s[0], cls) then 1 + ClassRun(s[1..], cls) else 0
  }

  /** Where the run of a match at `i` starts. */
  function RunStart(p: Pattern, i: nat): nat {
    i + |p.prefix|
  }

  /** The pattern matches `s` at position `i`. */
  predicate MatchesAt(s: string, p: Pattern, i: nat) {
    var r := RunStart(p, i);
    r <= |s| && s[i..r] == p.prefix
    && var n := ClassRun(s[r..], p.cls);
    n >= p.minRun && r + n + |p.suffix| <= |s| && s[r + n..r + n + |p.suffix|] == p.suffix
  }

  /** The leftmost position at or after `from` where the pattern matches. */
  function FindFrom(s: string, p: Pattern, from: nat): (r: Option<nat>)
    ensures r.Some? ==> from <= r.value <= |s| && MatchesAt(s, p, r.value)
    ensures forall j :: from <= j && (r.None? || j < r.value) ==> !MatchesAt(s, p, j)
    decreases |s| - from
  {
    if from > |s| then None
    else if MatchesAt(s, p, from) then Some(from)
    else FindFrom(s, p, from + 1)
  }

  /** The leftmost match of the pattern in `s`. */
  function Find(s: string, p: Pattern): (r: Option<nat>)
    ensures r.Some? ==> r.value <= |s| && MatchesAt(s, p, r.value)
    ensures forall j: nat :: (r.None? || j < r.value) ==> !MatchesAt(s, p, j)
  {
    FindFrom(s, p, 0)
  }

  /** `s.match(p)?.[1]`: the captured run of the leftmost match. */
  function Capture(s: string, p: Pattern): (r: Option<string>)
    ensures r.None? <==> forall j: nat :: !MatchesAt(s, p, j)
    ensures r.Some? ==> |r.value| >= p.minRun && forall c :: c in r.value ==> InClass(c, p.cls)
  {
    match Find(s, p)
    case None => None
    case Some(i) => Some(RunAt(s, p, i))
  }

  /** The run a match at `i` captures: the longest class run after the prefix. */
  function RunAt(s: string, p: Pattern, i: nat): (d: string)
    requires MatchesAt(s, p, i)
    ensures |d| >= p.minRun && forall c :: c in d ==> InClass(c, p.cls)
  {
    var start := RunStart(p, i);
    s[start..start + ClassRun(s[start..], p.cls)]
  }

  /** The run of class characters at the start of `d + t` is `d` when `t`
      does not continue it. */
  lemma {:induction false} ClassRunOf(d: string, t: string, cls: CharClass)
    requires forall i :: 0 <= i < |d| ==> InClass(d[i], cls)
    requires t == [] || !InClass(t[0], cls)
    ensures ClassRun(d + t, cls) == |d|
    decreases |d|
  {
    if d == [] {
      assert d + t == t;
    } else {
      assert (d + t)[1..] == d[1..] + t;
      ClassRunOf(d[1..], t, cls);
    }
  }

  /** The capture read off a decomposition of the text: when the pattern
      does not match anywhere in `a`, and `a` is followed by the prefix, a
      run `d` that the text after it does not continue, and the suffix, the
      capture is exactly `d`. */
  lemma CaptureAt(s: string, p: Pattern, a: string, d: string, b: string)
    requires s == a + p.prefix + d + p.suffix + b
    requires forall j :: 0 <= j < |a| ==> !MatchesAt(s, p, j)
    requires |d| >= p.minRun && forall i :: 0 <= i < |d| ==> InClass(d[i], p.cls)
    requires p.suffix + b == [] || !InClass((p.suffix + b)[0], p.cls)
    ensures Capture(s, p) == Some(d)
  {
    DecompositionSlices(s, a, p.prefix, d, p.suffix, b);
    CaptureAtRun(s, p, |a|, d, p.suffix + b);
  }

  /** The same, with the text after the prefix given as the run `d`
      followed by a text `t` that starts with the suffix. */
  lemma CaptureAtRun(s: string, p: Pattern, i: nat, d: string, t: string)
    requires i + |p.prefix| <= |s| && s[i..i + |p.prefix|] == p.prefix
    requires s[i + |p.prefix|..] == d + t
    requires |p.suffix| <= |t| && t[..|p.suffix|] == p.suffix
    requires forall j :: 0 <= j < i ==> !MatchesAt(s, p, j)
    requires |d| >= p.minRun && forall k :: 0 <= k < |d| ==> InClass(d[k], p.cls)
    requires t == [] || !InClass(t[0], p.cls)
    ensures Capture(s, p) == Some(d)
  {
    var r := i + |p.prefix|;
    RunSlices(s, r, d, t, p.suffix);
    ClassRunOf(d, t, p.cls);
    assert ClassRun(s[r..], p.cls) == |d|;
    MatchesAtRun(s, p, i, |d|);
    FindIs(s, p, i);
    CaptureIsRun(s, p, i, d);
  }

  lemma CaptureIsRun(s: string, p: Pattern, i: nat, d: string)
    requires Find(s, p) == Some(i)
    requires i + |p.prefix| + |d| <= |s| && ClassRun(s[i + |p.prefix|..], p.cls) == |d|
    requires s[i + |p.prefix|..i + |p.prefix| + |d|] == d
    ensures Capture(s, p) == Some(d)
  {
    assert RunAt(s, p, i) == d;
  }

  /** The definition of a match, read forwards. */
  lemma MatchesAtRun(s: string, p: Pattern, i: nat, n: nat)
    requires i + |p.prefix| <= |s| && s[i..i + |p.prefix|] == p.prefix
    requires ClassRun(s[i + |p.prefix|..], p.cls) == n >= p.minRun
    requires i + |p.prefix| + n + |p.suffix| <= |s|
    requires s[i + |p.prefix| + n..i + |p.prefix| + n + |p.suffix|] == p.suffix
    ensures MatchesAt(s, p, i)
  {
    var r := RunStart(p, i);
    assert r == i + |p.prefix| && s[i..r] == p.prefix;
    assert ClassRun(s[r..], p.cls) == n;
  }

  /** Slices of a text whose tail from `r` is `d + t`, where `t` starts with `y`. */
  lemma RunSlices(s: string, r: nat, d: string, t: string, y: string)
    requires r <= |s| && s[r..] == d + t && |y| <= |t| && t[..|y|] == y
    ensures r + |d| + |y| <= |s|
    ensures s[r..r + |d|] == d && s[r + |d|..r + |d| + |y|] == y
  {
    assert s[r..][..|d|] == d;
    assert s[r..][|d|..|d| + |y|] == y;
  }

  /** A match with no match before it is the leftmost one. */
  lemma FindIs(s: string, p: Pattern, i: nat)
    requires MatchesAt(s, p, i)
    requires forall j :: 0 <= j < i ==> !MatchesAt(s, p, j)
    ensures Find(s, p) == Some(i)
  {
  }



  /** The slices of `s = a + x + d + y + b` that a match at the end of `a` reads. */
  lemma DecompositionSlices(s: string, a: string, x: string, d: string, y: string, b: string)
    requires s == a + x + d + y + b
    ensures |a| + |x| <= |s| && s[|a|..|a| + |x|] == x
    ensures s[|a| + |x|..] == d + (y + b)
    ensures (y + b)[..|y|] == y
  {
  }

  /** A pattern with a prefix cannot match inside a text without the
      prefix's first character. */
  lemma NoMatchWithoutPrefix(s: string, p: Pattern, a: string)
    requires p.prefix != [] && |a| <= |s| && s[..|a|] == a
    requires forall i :: 0 <= i < |a| ==> a[i] != p.prefix[0]
    ensures forall j :: 0 <= j < |a| ==> !MatchesAt(s, p, j)
  {
    forall j | 0 <= j < |a| ensures !MatchesAt(s, p, j) {
      assert s[j] == a[j] != p.prefix[0];
    }
  }

  /** A pattern with no prefix and a non-empty run cannot match inside a
      text without class characters. */
  lemma NoMatchWithoutClass(s: string, p: Pattern, a: string)
    requires p.prefix == [] && p.minRun >= 1 && |a| <= |s| && s[..|a|] == a
    requires forall i :: 0 <= i < |a| ==> !InClass(a[i], p.cls)
    ensures forall j :: 0 <= j < |a| ==> !MatchesAt(s, p, j)
  {
    forall j | 0 <= j < |a| ensures !MatchesAt(s, p, j) {
      assert s[j..][0] == a[j];
    }
  }

  /** A pattern without a prefix does not match at a character outside its
      class. */
  lemma NoMatchOutsideClass(s: string, p: Pattern, j: nat)
    requires p.prefix == [] && p.minRun >= 1 && j < |s| && !InClass(s[j], p.cls)
    ensures !MatchesAt(s, p, j)
  {
    assert s[j..][0] == s[j];
  }

  /** Nor does it match where a run of one character is followed by
      something other than the start of its suffix. */
  lemma NoMatchShortRun(s: string, p: Pattern, j: nat)
    requires p.prefix == [] && |p.suffix| >= 1 && j + 1 < |s|
    requires InClass(s[j], p.cls) && !InClass(s[j + 1], p.cls) && s[j + 1] != p.suffix[0]
    ensures !MatchesAt(s, p, j)
  {
    assert s[j..] == [s[j]] + s[j + 1..];
    ClassRunOf([s[j]], s[j + 1..], p.cls);
    assert RunStart(p, j) == j;
  }

  /** `s.replace(/[^class]/g, '')`: only the characters of the class, in order. */
  function Keep(s: string, cls: CharClass): (r: string)
    ensures |r| <= |s|
    ensures forall c :: c in r ==> InClass(c, cls)
    ensures (forall i :: 0 <= i < |s| ==> InClass(s[i], cls)) ==> r == s
  {
    if s == [] then ""
    else if InClass(s[0], cls) then [s[0]] + Keep(s[1..], cls)
    else Keep(s[1..], cls)
  }

  /** Stripping works piece by piece: nothing is dropped or reordered. */
  lemma {:induction false} KeepAppend(a: string, b: string, cls: CharClass)
    ensures Keep(a + b, cls) == Keep(a, cls) + Keep(b, cls)
    decreases |a|
  {
    if a == [] {
      assert a + b == b;
    } else {
      assert (a + b)[1..] == a[1..] + b;
      KeepAppend(a[1..], b, cls);
    }
  }

  /** One character is kept exactly when it is in the class. */
  lemma KeepOne(c: char, cls: CharClass)
    ensures Keep([c], cls) == if InClass(c, cls) then [c] else []
  {
    assert [c][1..] == [];
  }

  /** A character outside the class drops out from between two texts. */
  lemma KeepDrop(a: string, y: char, b: string, cls: CharClass)
    requires !InClass(y, cls)
    ensures Keep(a + [y] + b, cls) == Keep(a, cls) + Keep(b, cls)
  {
    KeepAppend(a + [y], b, cls);
    KeepAppend(a, [y], cls);
    KeepOne(y, cls);
    assert Keep(a, cls) + [] == Keep(a, cls);
  }

  /** Two characters outside the class around and between two runs of it
      drop out, and the runs are joined. */
  lemma KeepAround(x: char, a: string, y: char, b: string, cls: CharClass)
    requires !InClass(x, cls) && !InClass(y, cls)
    requires forall i :: 0 <= i < |a| ==> InClass(a[i], cls)
    requires forall i :: 0 <= i < |b| ==> InClass(b[i], cls)
    ensures Keep([x] + a + [y] + b, cls) == a + b
  {
    var xa := [x] + a;
    assert Keep(a, cls) == a;
    assert Keep(b, cls) == b;
    assert Keep(xa, cls) == Keep(a, cls) by {
      assert xa[0] == x && xa[1..] == a;
    }
    KeepDrop(xa, y, b, cls);
  }

  /** Stripping twice is stripping once. */
  lemma KeepIdempotent(s: string, cls: CharClass)
    ensures Keep(Keep(s, cls), cls) == Keep(s, cls)
  {
  }

  /** A capture of digits and dots never parses to a negative value. */
  lemma ParseDigitsAndDots(t: string)
    requires forall c :: c in t ==> InClass(c, DigitsAndDots)
    ensures ParseFloat(t).Finite? ==> ParseFloat(t).value >= 0.0
  {
    assert forall i :: 0 <= i < |t| ==> t[i] in t;
    ParseFloatOfDigitsAndDots(t);
  }

  /** A non-empty digit capture parses to its decimal value. */
  lemma ParseDigitsCapture(t: string)
    requires |t| >= 1 && forall c :: c in t ==> InClass(c, Digits)
    ensures AllDigits(t) && ParseFloat(t) == Finite(DigitsValue(t) as real)
  {
    assert forall i :: 0 <= i < |t| ==> t[i] in t;
    ParseFloatDigits(t);
  }
}
