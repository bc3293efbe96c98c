/** The JavaScript string operations the extension relies on, stated over
    `seq<char>`: trim, indexOf, lastIndexOf, split, join and a global
    literal replace. */
module JsStrings {

  /** The ECMAScript WhiteSpace and LineTerminator code points: exactly what
      `String.prototype.trim` removes and `parseFloat` skips. */
  predicate IsWhitespace(c: char) {
    || c == ' ' || c == '\t' || c == '\n' || c == '\r'
    || c == '\U{000B}' || c == '\U{000C}' || c == '\U{00A0}' || c == '\U{1680}'
    || ('\U{2000}' <= c <= '\U{200A}')
    || c == '\U{2028}' || c == '\U{2029}' || c == '\U{202F}' || c == '\U{205F}'
    || c == '\U{3000}' || c == '\U{FEFF}'
  }

  /** The characters the regular-expression `.` does not match. */
  predicate IsLineTerminator(c: char) {
    c == '\n' || c == '\r' || c == '\U{2028}' || c == '\U{2029}'
  }

  /** `String.prototype.trimStart`: the suffix left after leading white space. */
  function TrimStart(s: string): (r: string)
    ensures |r| <= |s| && r == s[|s| - |r|..]
    ensures r == [] || !IsWhitespace(r[0])
    ensures forall i :: 0 <= i < |s| - |r| ==> IsWhitespace(s[i])
  {
    if s != [] && IsWhitespace(s[0]) then TrimStart(s[1..]) else s
  }

  /** A string not starting with white space is left as it is. */
  lemma TrimStartPlain(s: string)
    requires s == [] || !IsWhitespace(s[0])
    ensures TrimStart(s) == s
  {
  }

  /** `String.prototype.trimEnd`: the prefix left before trailing white space. */
  function TrimEnd(s: string): (r: string)
    ensures |r| <= |s| && r == s[..|r|]
    ensures r == [] || !IsWhitespace(r[|r| - 1])
    ensures forall i :: |r| <= i < |s| ==> IsWhitespace(s[i])
  {
    if s != [] && IsWhitespace(s[|s| - 1]) then TrimEnd(s[..|s| - 1]) else s
  }

  /** `String.prototype.trim`. The result neither starts nor ends with white
      space, it is empty exactly when `s` is all white space, and every
      character of it comes from `s`. */
  function Trim(s: string): (r: string)
    ensures r == [] || (!IsWhitespace(r[0]) && !IsWhitespace(r[|r| - 1]))
    ensures r == [] <==> forall i :: 0 <= i < |s| ==> IsWhitespace(s[i])
    ensures forall c :: c in r ==> c in s
  {
    var t := TrimStart(s);
    var r := TrimEnd(t);
    assert forall c :: c in r ==> c in t;
    assert r == [] ==> t == [];
    assert r != [] ==> r[0] == t[0];
    r
  }

  /** Trimming twice trims nothing more. */
  lemma TrimIdempotent(s: string)
    ensures Trim(Trim(s)) == Trim(s)
  {
    var r := Trim(s);
    if r != [] {
      assert TrimStart(r) == r;
      assert TrimEnd(r) == r;
    }
  }

  /** `pat` occurs in `s` starting at index `i`. */
  predicate OccursAt(s: string, pat: string, i: int) {
    0 <= i && i + |pat| <= |s| && s[i..i + |pat|] == pat
  }

  /** `s.indexOf(pat, from)`: the first occurrence at or after `from`, or -1. */
  function IndexOfFrom(s: string, pat: string, from: nat): (r: int)
    ensures r == -1 || (from <= r && OccursAt(s, pat, r))
    ensures forall i :: from <= i && (r == -1 || i < r) ==> !OccursAt(s, pat, i)
    decreases |s| - from
  {
    if from + |pat| > |s| then -1
    else if s[from..from + |pat|] == pat then from
    else IndexOfFrom(s, pat, from + 1)
  }

  /** `s.indexOf(pat)`. */
  function IndexOf(s: string, pat: string): (r: int)
    ensures r == -1 || OccursAt(s, pat, r)
    ensures forall i :: (r == -1 || i < r) ==> !OccursAt(s, pat, i)
  {
    IndexOfFrom(s, pat, 0)
  }

  /** `s.lastIndexOf(c)` for a one-character search string. */
  function LastIndexOf(s: string, c: char): (r: int)
    ensures -1 <= r < |s|
    ensures r >= 0 ==> s[r] == c
    ensures forall i :: r < i < |s| ==> s[i] != c
  {
    if s == [] then -1
    else if s[|s| - 1] == c then |s| - 1
    else LastIndexOf(s[..|s| - 1], c)
  }

  /** The number of times `c` occurs in `s`. */
  function CountChar(s: string, c: char): nat {
    if s == [] then 0 else (if s[0] == c then 1 else 0) + CountChar(s[1..], c)
  }

  lemma {:induction false} CountCharAppend(a: string, b: string, c: char)
    ensures CountChar(a + b, c) == CountChar(a, c) + CountChar(b, c)
  {
    if a == [] {
      assert a + b == b;
    } else {
      assert (a + b)[1..] == a[1..] + b;
      CountCharAppend(a[1..], b, c);
    }
  }

  lemma {:induction false} CountCharAbsent(s: string, c: char)
    ensures CountChar(s, c) == 0 <==> c !in s
  {
    if s != [] {
      CountCharAbsent(s[1..], c);
      assert s == [s[0]] + s[1..];
    }
  }

  /** A character that can only be at position `j` is counted at most once. */
  lemma {:induction false} CountCharAtMostOnce(s: string, c: char, j: int)
    requires forall i :: 0 <= i < |s| && i != j ==> s[i] != c
    ensures CountChar(s, c) <= 1
    decreases |s|
  {
    if s != [] {
      var t := s[1..];
      assert forall i :: 0 <= i < |t| ==> t[i] == s[i + 1];
      if j == 0 {
        assert c !in t;
        CountCharAbsent(t, c);
      } else {
        CountCharAtMostOnce(t, c, j - 1);
      }
    }
  }

  /** `s.split(sep)` for a non-empty separator string: the pieces between the
      leftmost non-overlapping occurrences of `sep`. */
  function Split(s: string, sep: string): (parts: seq<string>)
    requires |sep| > 0
    ensures |parts| >= 1
    decreases |s|
  {
    var i := IndexOf(s, sep);
    if i < 0 then [s] else [s[..i]] + Split(s[i + |sep|..], sep)
  }

  /** A text without the separator splits into itself alone. */
  lemma SplitNoSeparator(s: string, sep: string)
    requires |sep| == 1 && sep[0] !in s
    ensures Split(s, sep) == [s]
  {
    forall k | 0 <= k < |s| ensures !OccursAt(s, sep, k) {
      assert s[k] in s;
      assert k + 1 <= |s| ==> s[k..k + 1][0] == s[k];
    }
  }

  /** `parts.join(sep)`. */
  function Join(parts: seq<string>, sep: string): string
    decreases |parts|
  {
    if |parts| == 0 then ""
    else if |parts| == 1 then parts[0]
    else parts[0] + sep + Join(parts[1..], sep)
  }

  /** Splitting at a separator and joining with it gives back the string. */
  lemma {:induction false} JoinSplit(s: string, sep: string)
    requires |sep| > 0
    ensures Join(Split(s, sep), sep) == s
    decreases |s|
  {
    var i := IndexOf(s, sep);
    if i >= 0 {
      var rest := s[i + |sep|..];
      var parts := Split(s, sep);
      assert parts == [s[..i]] + Split(rest, sep);
      assert parts[1..] == Split(rest, sep);
      JoinSplit(rest, sep);
      assert Join(parts, sep) == s[..i] + sep + rest;
      assert s[i..i + |sep|] == sep;
      assert s == s[..i] + s[i..i + |sep|] + rest;
    }
  }

  /** No piece of a split contains the separator. */
  lemma {:induction false} SplitPiecesFree(s: string, sep: string)
    requires |sep| > 0
    ensures forall p, j :: p in Split(s, sep) ==> !OccursAt(p, sep, j)
    decreases |s|
  {
    var i := IndexOf(s, sep);
    if i >= 0 {
      SplitPiecesFree(s[i + |sep|..], sep);
      forall j | OccursAt(s[..i], sep, j) ensures false {
        assert s[..i][j..j + |sep|] == s[j..j + |sep|];
        assert OccursAt(s, sep, j);
      }
    }
  }

  /** The pieces of `Split(s, [c])`, joined up to piece `m`, form a prefix of `s`. */
  lemma {:induction false} JoinPrefix(parts: seq<string>, sep: string, m: nat)
    requires 1 <= m <= |parts|
    ensures Join(parts[..m], sep) <= Join(parts, sep)
    decreases |parts|
  {
    if m > 1 {
      JoinPrefix(parts[1..], sep, m - 1);
      assert parts[..m][1..] == parts[1..][..m - 1];
    } else if |parts| > 1 {
      assert parts[..m] == [parts[0]];
    }
  }

  /** Joining pieces that avoid a character `c` with a one-character
      separator `c` puts exactly one `c` between consecutive pieces. */
  lemma {:induction false} JoinCount(parts: seq<string>, c: char)
    requires |parts| >= 1
    requires forall p :: p in parts ==> c !in p
    ensures CountChar(Join(parts, [c]), c) == |parts| - 1
    decreases |parts|
  {
    if |parts| == 1 {
      CountCharAbsent(parts[0], c);
    } else {
      assert parts[1..][0] in parts;
      JoinCount(parts[1..], c);
      CountCharAbsent(parts[0], c);
      CountCharAppend(parts[0] + [c], Join(parts[1..], [c]), c);
      CountCharAppend(parts[0], [c], c);
    }
  }

  /** `s.replace(/pat/g, rep)` with `pat` a literal and `rep` taken literally:
      scanning left to right, each occurrence of `pat` is replaced, and the
      scan resumes after it, so replacements never overlap. */
  function ReplaceAll(s: string, pat: string, rep: string): string
    requires |pat| > 0
    decreases |s|
  {
    if |s| < |pat| then s
    else if s[..|pat|] == pat then rep + ReplaceAll(s[|pat|..], pat, rep)
    else [s[0]] + ReplaceAll(s[1..], pat, rep)
  }

  lemma OccursAtTail(s: string, pat: string, j: int)
    requires |s| > 0 && j >= 0
    ensures OccursAt(s[1..], pat, j) <==> OccursAt(s, pat, j + 1)
  {
    if 0 <= j && j + |pat| <= |s| - 1 {
      assert s[1..][j..j + |pat|] == s[j + 1..j + 1 + |pat|];
    }
  }

  /** When `s` does not start with `pat`, dropping its first character moves
      the first occurrence one place to the left. */
  lemma IndexOfTail(s: string, pat: string)
    requires |s| > 0 && !OccursAt(s, pat, 0)
    ensures IndexOf(s[1..], pat) == if IndexOf(s, pat) < 0 then -1 else IndexOf(s, pat) - 1
  {
    var i, k := IndexOf(s, pat), IndexOf(s[1..], pat);
    if k >= 0 {
      OccursAtTail(s, pat, k);
      assert OccursAt(s, pat, k + 1);
      assert i != -1 && i <= k + 1;
    }
    if i >= 0 {
      assert i >= 1;
      OccursAtTail(s, pat, i - 1);
      assert OccursAt(s[1..], pat, i - 1);
      assert k != -1 && k <= i - 1;
    }
  }

  lemma JoinCons(a: string, parts: seq<string>, sep: string)
    requires |parts| >= 1
    ensures Join([a] + parts, sep) == a + sep + Join(parts, sep)
  {
    assert ([a] + parts)[1..] == parts;
  }

  /** The scanning replace agrees with the split/join formulation: every
      occurrence found by `Split` is replaced by `rep`. */
  lemma {:induction false} ReplaceAllIsSplitJoin(s: string, pat: string, rep: string)
    requires |pat| > 0
    ensures ReplaceAll(s, pat, rep) == Join(Split(s, pat), rep)
    decreases |s|
  {
    if |s| < |pat| {
      assert IndexOf(s, pat) == -1;
    } else if s[..|pat|] == pat {
      ReplaceAllIsSplitJoin(s[|pat|..], pat, rep);
      ReplaceAtStart(s, pat, rep);
    } else {
      ReplaceAllIsSplitJoin(s[1..], pat, rep);
      ReplaceAfterMiss(s, pat, rep);
    }
  }

  lemma ReplaceAtStart(s: string, pat: string, rep: string)
    requires |pat| > 0 && |s| >= |pat| && s[..|pat|] == pat
    requires ReplaceAll(s[|pat|..], pat, rep) == Join(Split(s[|pat|..], pat), rep)
    ensures ReplaceAll(s, pat, rep) == Join(Split(s, pat), rep)
  {
    assert OccursAt(s, pat, 0);
    assert IndexOf(s, pat) == 0;
    assert Split(s, pat) == [""] + Split(s[|pat|..], pat);
    JoinCons("", Split(s[|pat|..], pat), rep);
  }

  lemma ReplaceAfterMiss(s: string, pat: string, rep: string)
    requires |pat| > 0 && |s| >= |pat| && s[..|pat|] != pat
    requires ReplaceAll(s[1..], pat, rep) == Join(Split(s[1..], pat), rep)
    ensures ReplaceAll(s, pat, rep) == Join(Split(s, pat), rep)
  {
    assert ReplaceAll(s, pat, rep) == [s[0]] + ReplaceAll(s[1..], pat, rep);
    assert !OccursAt(s, pat, 0);
    IndexOfTail(s, pat);
    if IndexOf(s, pat) < 0 {
      assert Split(s[1..], pat) == [s[1..]];
      assert [s[0]] + s[1..] == s;
    } else {
      JoinAfterMiss(s, pat, rep);
    }
  }

  /** The first piece ends at the first occurrence. */
  lemma SplitUnfold(s: string, sep: string)
    requires |sep| > 0 && IndexOf(s, sep) >= 0
    ensures Split(s, sep) == [s[..IndexOf(s, sep)]] + Split(s[IndexOf(s, sep) + |sep|..], sep)
  {
  }

  /** Slices of `s[1..]` are slices of `s`, one place on. */
  lemma TailSlices(s: string, i: int, n: nat)
    requires 0 < i && i + n <= |s|
    ensures s[1..][..i - 1] == s[1..i] && s[1..][i - 1 + n..] == s[i + n..]
  {
  }

  /** When `s` has an occurrence at `i > 0` and `s[1..]` has its first one
      at `i - 1`, `s[1..]` splits into the same pieces after the first. */
  lemma SplitAfterMiss(s: string, pat: string, i: int)
    requires |pat| > 0 && |s| > 0 && 0 < i && i + |pat| <= |s|
    requires IndexOf(s[1..], pat) == i - 1
    ensures Split(s[1..], pat) == [s[1..i]] + Split(s[i + |pat|..], pat)
  {
    TailSlices(s, i, |pat|);
    SplitFirstPieceIs(s[1..], pat, i - 1, s[1..i], s[i + |pat|..]);
  }

  /** The split of `t` whose first occurrence is at `k`, with the parts
      around it given. */
  lemma SplitFirstPieceIs(t: string, pat: string, k: int, head: string, tail: string)
    requires |pat| > 0 && IndexOf(t, pat) == k >= 0
    requires t[..k] == head && t[k + |pat|..] == tail
    ensures Split(t, pat) == [head] + Split(tail, pat)
  {
    SplitUnfold(t, pat);
  }

  /** A character put before the first piece comes first in the join. */
  lemma JoinConsHead(ps: seq<string>, qs: seq<string>, c: char, a: string, rest: seq<string>, sep: string)
    requires |rest| >= 1 && ps == [[c] + a] + rest && qs == [a] + rest
    ensures Join(ps, sep) == [c] + Join(qs, sep)
  {
    JoinCons([c] + a, rest, sep);
    JoinCons(a, rest, sep);
  }

  /** So joining the pieces of `s` is joining those of `s[1..]` after `s[0]`. */
  lemma JoinAfterMiss(s: string, pat: string, rep: string)
    requires |pat| > 0 && |s| > 0 && IndexOf(s, pat) > 0
    requires IndexOf(s[1..], pat) == IndexOf(s, pat) - 1
    ensures Join(Split(s, pat), rep) == [s[0]] + Join(Split(s[1..], pat), rep)
  {
    var i := IndexOf(s, pat);
    var rest := Split(s[i + |pat|..], pat);
    SplitUnfold(s, pat);
    SplitAfterMiss(s, pat, i);
    assert s[..i] == [s[0]] + s[1..i];
    JoinConsHead(Split(s, pat), Split(s[1..], pat), s[0], s[1..i], rest, rep);
  }

  /** A string in which the first character of `pat` never appears has no
      occurrence to replace. */
  lemma {:induction false} ReplaceAllAbsent(s: string, pat: string, rep: string)
    requires |pat| > 0 && pat[0] !in s
    ensures ReplaceAll(s, pat, rep) == s
    decreases |s|
  {
    if |s| >= |pat| {
      assert s[..|pat|][0] == s[0];
      ReplaceAllAbsent(s[1..], pat, rep);
      assert [s[0]] + s[1..] == s;
    }
  }

  /** Characters that cannot start an occurrence are copied unchanged, and
      the scan continues after them. */
  lemma {:induction false} ReplaceAllSkips(a: string, b: string, pat: string, rep: string)
    requires |pat| > 0 && pat[0] !in a
    ensures ReplaceAll(a + b, pat, rep) == a + ReplaceAll(b, pat, rep)
    decreases |a|
  {
    if a != [] {
      var s := a + b;
      assert s[0] == a[0];
      if |s| >= |pat| {
        assert s[..|pat|][0] == a[0];
        assert s[1..] == a[1..] + b;
        ReplaceAllSkips(a[1..], b, pat, rep);
        assert [a[0]] + a[1..] == a;
      } else {
        ReplaceAllAbsentShort(b, pat, rep);
      }
    } else {
      assert a + b == b;
    }
  }

  lemma ReplaceAllAbsentShort(s: string, pat: string, rep: string)
    requires |pat| > 0 && |s| < |pat|
    ensures ReplaceAll(s, pat, rep) == s
  {
  }

  /** Dropping the first character of such a prefix keeps it free of
      occurrences. */
  lemma NoOccurrenceInTail(a: string, b: string, pat: string)
    requires |a| > 0
    requires forall j :: 0 <= j < |a| ==> !OccursAt(a + b, pat, j)
    ensures (a + b)[1..] == a[1..] + b
    ensures forall j :: 0 <= j < |a[1..]| ==> !OccursAt(a[1..] + b, pat, j)
  {
    var s := a + b;
    assert s[1..] == a[1..] + b;
    forall j | 0 <= j < |a[1..]| ensures !OccursAt(a[1..] + b, pat, j) {
      OccursAtTail(s, pat, j);
    }
  }

  /** A prefix at none of whose positions `pat` occurs is copied unchanged,
      and the scan continues after it. */
  lemma {:induction false} ReplaceAllSkipsPrefix(a: string, b: string, pat: string, rep: string)
    requires |pat| > 0
    requires forall j :: 0 <= j < |a| ==> !OccursAt(a + b, pat, j)
    ensures ReplaceAll(a + b, pat, rep) == a + ReplaceAll(b, pat, rep)
    decreases |a|
  {
    if a == [] {
      assert a + b == b;
    } else {
      var s := a + b;
      assert !OccursAt(s, pat, 0);
      if |s| >= |pat| {
        assert s[..|pat|] != pat;
        NoOccurrenceInTail(a, b, pat);
        ReplaceAllSkipsPrefix(a[1..], b, pat, rep);
        assert [a[0]] + a[1..] == a;
      } else {
        ReplaceAllAbsentShort(b, pat, rep);
      }
    }
  }

  /** An occurrence at the start is replaced, and the scan resumes after it. */
  lemma ReplaceAllAtStart(b: string, pat: string, rep: string)
    requires |pat| > 0
    ensures ReplaceAll(pat + b, pat, rep) == rep + ReplaceAll(b, pat, rep)
  {
    var s := pat + b;
    assert s[..|pat|] == pat;
    assert s[|pat|..] == b;
  }
}
