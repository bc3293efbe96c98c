/** The two pure string helpers of src/utils/utils.ts that the content script
    and the side panel use. */
module Utils {
  import opened Opt
  import opened JsStrings

  /** The size tag `modifyImageLink` puts in place of the image's own. */
  const SizeTag: string := "_AC_SL1500_"

  /** The index of the last dot of `link`, or -1. */
  function LastDot(link: string): (r: int)
    ensures -1 <= r < |link|
    ensures r >= 0 ==> link[r] == '.'
    ensures forall i :: r < i < |link| ==> link[i] != '.'
  {
    LastIndexOf(link, '.')
  }

  /** The index of the last dot before the last dot (the source searches
      `link.substring(0, lastDot)`, which is "" when there is no dot), or -1. */
  function SecondLastDot(link: string): (r: int)
    ensures -1 <= r < |link|
    ensures r >= 0 ==> LastDot(link) > r && link[r] == '.'
    ensures r < 0 ==> forall i :: 0 <= i < LastDot(link) ==> link[i] != '.'
    ensures r >= 0 ==> forall i :: r < i < LastDot(link) ==> link[i] != '.'
  {
    var last := LastDot(link);
    var head := if last < 0 then "" else link[..last];
    LastIndexOf(head, '.')
  }

  /** `modifyImageLink`: when the link has at least two dots, everything from
      the second-last dot up to the last one is replaced by a dot and `SizeTag`;
      otherwise the link is returned unchanged. */
  function ModifyImageLink(link: string): (r: string) {
    var last := LastDot(link);
    var second := SecondLastDot(link);
    if last != -1 && second != -1 then link[..second] + "." + SizeTag + link[last..] else link
  }

  lemma CountCharPositive(s: string, i: nat, c: char)
    requires i < |s| && s[i] == c
    ensures CountChar(s, c) >= 1
  {
    CountCharAbsent(s, c);
  }

  /** Two dots found means at least two dots counted. */
  lemma DotsFoundCounted(link: string)
    requires SecondLastDot(link) >= 0
    ensures CountChar(link, '.') >= 2
  {
    var last := LastDot(link);
    var head := link[..last];
    var tail := link[last..];
    assert link == head + tail;
    CountCharAppend(head, tail, '.');
    CountCharPositive(head, SecondLastDot(link), '.');
    CountCharPositive(tail, 0, '.');
  }

  /** A link with fewer than two dots is returned unchanged. */
  lemma ModifyImageLinkFewDots(link: string)
    requires CountChar(link, '.') < 2
    ensures ModifyImageLink(link) == link
  {
    if SecondLastDot(link) >= 0 {
      DotsFoundCounted(link);
    }
  }

  /** The rewrite on a link spelled out around its last two dots: `b` and
      `c` are dot-free, so the dots shown are the last two. */
  lemma ModifyImageLinkShape(a: string, b: string, c: string)
    requires '.' !in b && '.' !in c
    ensures ModifyImageLink(a + "." + b + "." + c) == a + "." + SizeTag + "." + c
  {
    var link := a + "." + b + "." + c;
    ShapeDots(a, b, c);
    assert ModifyImageLink(link) == link[..|a|] + "." + SizeTag + link[|a| + 1 + |b|..];
    ShapePieces(a, b, c);
    ConcatAssoc(a + "." + SizeTag, ".", c);
  }

  lemma ConcatAssoc(x: string, y: string, z: string)
    ensures x + (y + z) == x + y + z
  {
  }

  /** The last two dots of `a.b.c` are the two shown when `b` and `c` are dot-free. */
  lemma ShapeDots(a: string, b: string, c: string)
    requires '.' !in b && '.' !in c
    ensures LastDot(a + "." + b + "." + c) == |a| + 1 + |b|
    ensures SecondLastDot(a + "." + b + "." + c) == |a|
  {
    var link := a + "." + b + "." + c;
    var last := |a| + 1 + |b|;
    assert link[last] == '.';
    forall i | last < i < |link| ensures link[i] != '.' {
      assert link[i] == c[i - last - 1];
    }
    LastDotAt(link, last);
    assert link[|a|] == '.';
    forall i | |a| < i < last ensures link[i] != '.' {
      assert link[i] == b[i - |a| - 1];
    }
    SecondLastDotAt(link, |a|);
  }

  lemma ShapePieces(a: string, b: string, c: string)
    ensures (a + "." + b + "." + c)[..|a|] == a
    ensures (a + "." + b + "." + c)[|a| + 1 + |b|..] == "." + c
  {
  }

  /** A dot with no dot after it is the last dot. */
  lemma LastDotAt(link: string, j: nat)
    requires j < |link| && link[j] == '.'
    requires forall i :: j < i < |link| ==> link[i] != '.'
    ensures LastDot(link) == j
  {
  }

  /** A dot before the last one, with no dot between them, is the second-last dot. */
  lemma SecondLastDotAt(link: string, j: nat)
    requires j < LastDot(link) && link[j] == '.'
    requires forall i :: j < i < LastDot(link) ==> link[i] != '.'
    ensures SecondLastDot(link) == j
  {
  }

  /** No second-last dot found means at most one dot counted. */
  lemma NoSecondDotCounted(link: string)
    requires SecondLastDot(link) < 0
    ensures CountChar(link, '.') <= 1
  {
    CountCharAtMostOnce(link, '.', LastDot(link));
  }

  /** Every link with at least two dots can be spelled that way: `a` ends
      before the second-last dot and `c` starts after the last one. */
  lemma TwoDotsShape(link: string) returns (a: string, b: string, c: string)
    requires CountChar(link, '.') >= 2
    ensures link == a + "." + b + "." + c && '.' !in b && '.' !in c
  {
    var second := SecondLastDot(link);
    if second < 0 {
      NoSecondDotCounted(link);
    }
    var last := LastDot(link);
    a := link[..second];
    b := link[second + 1..last];
    c := link[last + 1..];
    SplitAround(link, second, last);
    assert [link[second]] == "." && [link[last]] == ".";
    assert '.' !in b by {
      forall k | 0 <= k < |b| ensures b[k] != '.' {
        assert b[k] == link[second + 1 + k];
      }
    }
    assert '.' !in c by {
      forall k | 0 <= k < |c| ensures c[k] != '.' {
        assert c[k] == link[last + 1 + k];
      }
    }
  }

  /** A string cut around two of its positions. */
  lemma SplitAround(s: string, i: nat, j: nat)
    requires i < j < |s|
    ensures s == s[..i] + [s[i]] + s[i + 1..j] + [s[j]] + s[j + 1..]
  {
  }

  /** Rewriting a rewritten link changes nothing. */
  lemma ModifyImageLinkIdempotent(link: string)
    ensures ModifyImageLink(ModifyImageLink(link)) == ModifyImageLink(link)
  {
    if CountChar(link, '.') < 2 {
      ModifyImageLinkFewDots(link);
    } else {
      var a, b, c := TwoDotsShape(link);
      ModifyImageLinkShape(a, b, c);
      ModifyImageLinkShape(a, SizeTag, c);
    }
  }

  /** The example of the helper's own documentation. */
  lemma ModifyImageLinkExample()
    ensures ModifyImageLink("https://m.media-amazon.com/images/I/41oV5VxVpFL._AC_SY1000_.jpg")
         == "https://m.media-amazon.com/images/I/41oV5VxVpFL._AC_SL1500_.jpg"
  {
    var a := "https://m.media-amazon.com/images/I/41oV5VxVpFL";
    var c := "jpg";
    assert a + "." + "_AC_SY1000_" + "." + c == "https://m.media-amazon.com/images/I/41oV5VxVpFL._AC_SY1000_.jpg";
    assert a + "." + SizeTag + "." + c == "https://m.media-amazon.com/images/I/41oV5VxVpFL._AC_SL1500_.jpg" by {
      assert SizeTag == "_AC_SL1500_";
    }
    ModifyImageLinkShape(a, "_AC_SY1000_", c);
  }

  /** The end index that `slice(0, end)` uses on a list of `len` items: a
      negative end counts from the back, and both are clamped to the list. */
  function SliceEnd(len: nat, end: int): (m: nat)
    ensures m <= len
    ensures 0 <= end ==> m == if end < len then end else len
    ensures end < 0 ==> m == if len + end < 0 then 0 else len + end
  {
    if end < 0 then (if len + end < 0 then 0 else len + end)
    else if end < len then end else len
  }

  /** The words of a name: its pieces between single spaces. */
  function Words(name: string): (words: seq<string>)
    ensures |words| >= 1
  {
    Split(name, " ")
  }

  /** `shortenProductName`: the first `titleLimit` space-separated words of
      the name, or "" when either is missing. */
  function ShortenProductName(productName: Option<string>, titleLimit: Option<int>): (r: string)
    ensures productName.None? || titleLimit.None? ==> r == ""
    ensures productName.Some? ==> r <= productName.value
  {
    if productName.None? || titleLimit.None? then ""
    else
      var words := Words(productName.value);
      var m := SliceEnd(|words|, titleLimit.value);
      ShortenedIsPrefix(productName.value, m);
      Join(words[..m], " ")
  }

  lemma ShortenedIsPrefix(name: string, m: nat)
    requires m <= |Words(name)|
    ensures Join(Words(name)[..m], " ") <= name
  {
    JoinSplit(name, " ");
    if m >= 1 {
      JoinPrefix(Words(name), " ", m);
    }
  }

  /** A limit of zero gives the empty string. */
  lemma ShortenToZero(name: string)
    ensures ShortenProductName(Some(name), Some(0)) == ""
  {
  }

  /** A limit of at least the number of words keeps the whole name. */
  lemma ShortenKeepsShortName(name: string, limit: int)
    requires limit >= |Words(name)|
    ensures ShortenProductName(Some(name), Some(limit)) == name
  {
    var words := Words(name);
    assert words[..|words|] == words;
    JoinSplit(name, " ");
  }

  lemma WordsSpaceFree(name: string)
    ensures forall w :: w in Words(name) ==> ' ' !in w
  {
    SplitPiecesFree(name, " ");
    forall w | w in Words(name) ensures ' ' !in w {
      if ' ' in w {
        var j :| 0 <= j < |w| && w[j] == ' ';
        assert OccursAt(w, " ", j);
      }
    }
  }

  /** A positive limit `k` keeps exactly `min(k, number of words)` words: the
      result has one space fewer than that. */
  lemma ShortenWordCount(name: string, limit: int)
    requires limit > 0
    ensures CountChar(ShortenProductName(Some(name), Some(limit)), ' ')
         == (if limit < |Words(name)| then limit else |Words(name)|) - 1
  {
    var words := Words(name);
    var m := SliceEnd(|words|, limit);
    WordsSpaceFree(name);
    assert forall w :: w in words[..m] ==> ' ' !in w;
    JoinCount(words[..m], ' ');
  }
}
