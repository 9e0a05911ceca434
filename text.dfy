/** The Python `str` operations the price core relies on: case mapping over ASCII
    letters, whitespace stripping, `title`, `capitalize`, substring search
    (`in`, `find`), `split`, `replace(p, '')` and code-point ordering. */
module Text {
  import opened Wrappers

  predicate IsUpper(c: char) { 'A' <= c <= 'Z' }
  predicate IsLowerLetter(c: char) { 'a' <= c <= 'z' }
  predicate IsLetter(c: char) { IsUpper(c) || IsLowerLetter(c) }

  function LowerChar(c: char): char { if IsUpper(c) then (c as int + 32) as char else c }
  function UpperChar(c: char): char { if IsLowerLetter(c) then (c as int - 32) as char else c }

  /** `s.lower()` */
  function Lower(s: string): (r: string)
    ensures |r| == |s|
    ensures forall i :: 0 <= i < |s| ==> r[i] == LowerChar(s[i])
  {
    seq(|s|, i requires 0 <= i < |s| => LowerChar(s[i]))
  }

  /** The characters for which Python's `str.isspace()` holds. */
  predicate IsSpace(c: char) {
    || c == ' ' || '\t' <= c <= '\r' || '\U{1C}' <= c <= '\U{1F}'
    || c == '\U{85}' || c == '\U{A0}' || c == '\U{1680}'
    || '\U{2000}' <= c <= '\U{200A}' || c == '\U{2028}' || c == '\U{2029}'
    || c == '\U{202F}' || c == '\U{205F}' || c == '\U{3000}'
  }

  function StripLeft(s: string): (r: string)
    ensures |r| <= |s| && r == s[|s| - |r|..]
    ensures |r| > 0 ==> !IsSpace(r[0])
    ensures forall i :: 0 <= i < |s| - |r| ==> IsSpace(s[i])
    decreases |s|
  {
    if |s| > 0 && IsSpace(s[0]) then StripLeft(s[1..]) else s
  }

  function StripRight(s: string): (r: string)
    ensures |r| <= |s| && r == s[..|r|]
    ensures |r| > 0 ==> !IsSpace(r[|r| - 1])
    ensures forall i :: |r| <= i < |s| ==> IsSpace(s[i])
    decreases |s|
  {
    if |s| > 0 && IsSpace(s[|s| - 1]) then StripRight(s[..|s| - 1]) else s
  }

  /** `s.strip()`: neither end of the result is whitespace. */
  function Strip(s: string): (r: string)
    ensures |r| <= |s|
    ensures |r| > 0 ==> !IsSpace(r[0]) && !IsSpace(r[|r| - 1])
  {
    StripRight(StripLeft(s))
  }

  /** `s.strip()` is the slice of `s` left between a whitespace prefix and a whitespace suffix. */
  lemma StripSlice(s: string) returns (p: int, q: int)
    ensures 0 <= p <= q <= |s| && Strip(s) == s[p..q]
    ensures forall k :: 0 <= k < p ==> IsSpace(s[k])
    ensures forall k :: q <= k < |s| ==> IsSpace(s[k])
  {
    var l := StripLeft(s);
    var r := StripRight(l);
    p := |s| - |l|;
    q := p + |r|;
    PrefixOfSuffix(s, l, r, p);
  }

  /** `t` is `s` with whitespace cut from its ends: a slice of `s` with only whitespace
      before it and after it. */
  ghost predicate TrimmedFrom(t: string, s: string) {
    exists p, q :: && 0 <= p <= q <= |s| && t == s[p..q]
                   && (forall k :: 0 <= k < p ==> IsSpace(s[k]))
                   && (forall k :: q <= k < |s| ==> IsSpace(s[k]))
  }

  lemma StripTrims(s: string)
    ensures TrimmedFrom(Strip(s), s)
  {
    var p, q := StripSlice(s);
  }

  /** Only one slice of `s` has whitespace alone around it and none at its own ends:
      `s.strip()`. */
  lemma {:induction false} TrimmedUnique(t: string, s: string)
    requires TrimmedFrom(t, s)
    requires |t| > 0 ==> !IsSpace(t[0]) && !IsSpace(t[|t| - 1])
    ensures t == Strip(s)
  {
    var p, q :| && 0 <= p <= q <= |s| && t == s[p..q]
                && (forall k :: 0 <= k < p ==> IsSpace(s[k]))
                && (forall k :: q <= k < |s| ==> IsSpace(s[k]));
    var p2, q2 := StripSlice(s);
    SameTrim(s, t, p, q, Strip(s), p2, q2);
  }

  /** Two slices with whitespace alone around them and none at their own ends are equal. */
  lemma SameTrim(s: string, t: string, p: int, q: int, r: string, p2: int, q2: int)
    requires 0 <= p <= q <= |s| && t == s[p..q] && 0 <= p2 <= q2 <= |s| && r == s[p2..q2]
    requires forall k :: 0 <= k < p ==> IsSpace(s[k])
    requires forall k :: q <= k < |s| ==> IsSpace(s[k])
    requires forall k :: 0 <= k < p2 ==> IsSpace(s[k])
    requires forall k :: q2 <= k < |s| ==> IsSpace(s[k])
    requires |t| > 0 ==> !IsSpace(t[0]) && !IsSpace(t[|t| - 1])
    requires |r| > 0 ==> !IsSpace(r[0]) && !IsSpace(r[|r| - 1])
    ensures t == r
  {
    if p < q {
      assert t[0] == s[p] && t[|t| - 1] == s[q - 1];
    }
    if p2 < q2 {
      assert r[0] == s[p2] && r[|r| - 1] == s[q2 - 1];
    }
    if p < q && p2 < q2 {
      SameFirstNonSpace(s, p, p2);
      SameLastNonSpace(s, q, q2);
    }
  }

  /** Two positions of non-whitespace with only whitespace before each are the same. */
  lemma SameFirstNonSpace(s: string, p: int, p2: int)
    requires 0 <= p < |s| && 0 <= p2 < |s| && !IsSpace(s[p]) && !IsSpace(s[p2])
    requires forall k :: 0 <= k < p ==> IsSpace(s[k])
    requires forall k :: 0 <= k < p2 ==> IsSpace(s[k])
    ensures p == p2
  {
  }

  /** Two ends of non-whitespace with only whitespace after each are the same. */
  lemma SameLastNonSpace(s: string, q: int, q2: int)
    requires 0 < q <= |s| && 0 < q2 <= |s| && !IsSpace(s[q - 1]) && !IsSpace(s[q2 - 1])
    requires forall k :: q <= k < |s| ==> IsSpace(s[k])
    requires forall k :: q2 <= k < |s| ==> IsSpace(s[k])
    ensures q == q2
  {
  }

  /** A prefix `r` of the suffix `l == s[p..]` is the slice `s[p..p + |r|]`. */
  lemma PrefixOfSuffix(s: string, l: string, r: string, p: int)
    requires 0 <= p <= |s| && l == s[p..] && |r| <= |l| && r == l[..|r|]
    ensures r == s[p..p + |r|]
    ensures forall k :: p + |r| <= k < |s| ==> s[k] == l[k - p]
  {
  }

  /** One character of `s.title()`: a letter is lower-cased after a letter, upper-cased otherwise. */
  function TitleChar(c: char, afterLetter: bool): char {
    if !IsLetter(c) then c else if afterLetter then LowerChar(c) else UpperChar(c)
  }

  /** `s.title()`, continuing after a letter or not. */
  function TitleAfter(s: string, afterLetter: bool): (r: string)
    ensures |r| == |s|
    decreases |s|
  {
    if |s| == 0 then "" else [TitleChar(s[0], afterLetter)] + TitleAfter(s[1..], IsLetter(s[0]))
  }

  function Title(s: string): string { TitleAfter(s, false) }

  lemma {:induction false} TitleAfterAt(s: string, afterLetter: bool, i: int)
    requires 0 <= i < |s|
    ensures TitleAfter(s, afterLetter)[i] == TitleChar(s[i], if i == 0 then afterLetter else IsLetter(s[i - 1]))
    decreases |s|
  {
    if i > 0 {
      TitleAfterAt(s[1..], IsLetter(s[0]), i - 1);
    }
  }

  /** In `s.title()` no lower-case letter follows a character that is not a letter. */
  lemma TitleNoLowerAfterNonLetter(s: string, i: int)
    requires 0 < i < |Title(s)| && !IsLetter(Title(s)[i - 1])
    ensures !IsLowerLetter(Title(s)[i])
  {
    TitleAfterAt(s, false, i - 1);
    TitleAfterAt(s, false, i);
  }

  /** A pattern with a lower-case letter right after a non-letter (at `m`) does not occur in
      `pre + s.title() + post`, provided it cannot start in `pre` (where it starts with
      `pre`'s character it differs at `m`), cannot run into `post` (whose first character
      it lacks), and cannot start in `post`. */
  lemma TitledTextMisses(pre: string, s: string, post: string, pat: string, m: int)
    requires 0 < m < |pat| && !IsLetter(pat[m - 1]) && IsLowerLetter(pat[m])
    requires forall j :: 0 <= j < |pre| && pre[j] == pat[0] ==> j + m < |pre| && pre[j + m] != pat[m]
    requires |post| > 0 && post[0] !in pat
    requires pat[0] !in post
    ensures !Contains(pre + Title(s) + post, pat)
  {
    forall j | 0 <= j ensures !OccursAt(pre + Title(s) + post, pat, j) {
      TitledTextMissesAt(pre, s, post, pat, m, j);
    }
  }

  /** The case of `TitledTextMisses` for an occurrence starting at `j`. */
  lemma TitledTextMissesAt(pre: string, s: string, post: string, pat: string, m: int, j: int)
    requires 0 < m < |pat| && !IsLetter(pat[m - 1]) && IsLowerLetter(pat[m])
    requires forall j :: 0 <= j < |pre| && pre[j] == pat[0] ==> j + m < |pre| && pre[j + m] != pat[m]
    requires |post| > 0 && post[0] !in pat
    requires pat[0] !in post
    requires 0 <= j
    ensures !OccursAt(pre + Title(s) + post, pat, j)
  {
    var t := Title(s);
    var text := pre + t + post;
    if j + |pat| <= |text| {
      var k: int;
      if j < |pre| {
        k := if pre[j] == pat[0] then m else 0;
      } else if j + |pat| <= |pre| + |t| {
        if text[j + m - 1] == pat[m - 1] {
          assert t[j - |pre| + m - 1] == text[j + m - 1];
          TitleNoLowerAfterNonLetter(s, j - |pre| + m);
          assert t[j - |pre| + m] == text[j + m];
          k := m;
        } else {
          k := m - 1;
        }
      } else if j < |pre| + |t| {
        k := |pre| + |t| - j;
        assert text[j + k] == post[0];
        assert pat[k] in pat;
      } else {
        k := 0;
        assert text[j] == post[j - |pre| - |t|];
        assert post[j - |pre| - |t|] in post;
      }
      MismatchMisses(text, pat, j, k);
    }
  }

  /** A position where the text and the pattern differ rules out an occurrence there. */
  lemma MismatchMisses(text: string, pat: string, j: int, k: int)
    requires 0 <= j && 0 <= k < |pat| && j + |pat| <= |text| && text[j + k] != pat[k]
    ensures !OccursAt(text, pat, j)
  {
    assert text[j..j + |pat|][k] == text[j + k];
  }

  /** `s.capitalize()`: the first character upper-cased, the rest lower-cased. */
  function Capitalize(s: string): (r: string)
    ensures |r| == |s|
  {
    if |s| == 0 then "" else [UpperChar(s[0])] + Lower(s[1..])
  }

  /** Capitalizing changes no letter's lower-case form. */
  lemma LowerCapitalize(s: string)
    ensures Lower(Capitalize(s)) == Lower(s)
  {
    if |s| > 0 {
      var r := Capitalize(s);
      forall i | 0 <= i < |s|
        ensures Lower(r)[i] == Lower(s)[i]
      {
        if i > 0 {
          assert r[i] == Lower(s[1..])[i - 1] == LowerChar(s[i]);
        }
      }
    }
  }

  /** `p` occurs in `s` starting at index `i`. */
  predicate OccursAt(s: string, p: string, i: int) {
    0 <= i && i + |p| <= |s| && s[i..i + |p|] == p
  }

  /** `s.find(p)`: the first index at which `p` occurs, if any. */
  function IndexOf(s: string, p: string): (r: Option<nat>)
    ensures r.Some? ==> OccursAt(s, p, r.value)
    ensures r.Some? ==> forall j :: 0 <= j < r.value ==> !OccursAt(s, p, j)
    ensures r.None? ==> forall j :: !OccursAt(s, p, j)
    decreases |s|
  {
    if |s| < |p| then None
    else if s[..|p|] == p then Some(0)
    else
      var rest := IndexOf(s[1..], p);
      assert forall j :: 1 <= j ==> (OccursAt(s, p, j) <==> OccursAt(s[1..], p, j - 1)) by {
        forall j | 1 <= j ensures OccursAt(s, p, j) <==> OccursAt(s[1..], p, j - 1) {
          if j + |p| <= |s| {
            assert s[1..][j - 1..j - 1 + |p|] == s[j..j + |p|];
          }
        }
      }
      assert !OccursAt(s, p, 0);
      match rest
      case None => None
      case Some(i) => Some(i + 1)
  }

  /** `p in s` */
  predicate Contains(s: string, p: string) {
    IndexOf(s, p).Some?
  }

  /** An occurrence with none before it is the one `IndexOf` finds. */
  lemma FirstOccurrence(s: string, p: string, i: int)
    requires OccursAt(s, p, i)
    requires forall j :: 0 <= j < i ==> !OccursAt(s, p, j)
    ensures IndexOf(s, p) == Some(i)
  {
    var r := IndexOf(s, p);
    assert r.Some?;
    assert !(r.value < i) && !(i < r.value);
  }

  /** An occurrence anywhere makes `p in s` hold. */
  lemma OccursContains(s: string, p: string, i: int)
    requires OccursAt(s, p, i)
    ensures Contains(s, p)
  {
  }

  /** `p in p + t` */
  lemma PrefixContains(p: string, t: string)
    ensures Contains(p + t, p)
  {
    assert (p + t)[0..|p|] == p;
    OccursContains(p + t, p, 0);
  }

  lemma InfixContains(a: string, p: string, b: string)
    ensures Contains(a + p + b, p)
  {
    assert (a + p + b)[|a|..|a| + |p|] == p;
    OccursContains(a + p + b, p, |a|);
  }

  /** What does not occur in a string does not occur in any slice of it. */
  lemma SliceMisses(s: string, p: int, q: int, pat: string)
    requires 0 <= p <= q <= |s| && !Contains(s, pat)
    ensures !Contains(s[p..q], pat)
  {
    forall j | 0 <= j
      ensures !OccursAt(s[p..q], pat, j)
    {
      if j + |pat| <= q - p {
        var inner, outer := s[p..q][j..j + |pat|], s[p + j..p + j + |pat|];
        assert |inner| == |outer| && forall k :: 0 <= k < |inner| ==> inner[k] == outer[k];
        assert !OccursAt(s, pat, p + j);
      }
    }
  }

  /** `s.split(sep)` for a non-empty separator: the pieces between the leftmost
      non-overlapping occurrences of `sep`; no piece contains `sep`. */
  function SplitOn(s: string, sep: string): (parts: seq<string>)
    requires |sep| > 0
    ensures |parts| > 0
    ensures forall k :: 0 <= k < |parts| ==> !Contains(parts[k], sep)
    decreases |s|
  {
    match IndexOf(s, sep)
    case None => [s]
    case Some(i) =>
      var head := s[..i];
      assert !Contains(head, sep) by {
        forall j | OccursAt(head, sep, j) ensures false {
          assert head[j..j + |sep|] == s[j..j + |sep|];
          assert OccursAt(s, sep, j);
        }
      }
      [head] + SplitOn(s[i + |sep|..], sep)
  }

  /** `sep.join(parts)` */
  function Join(parts: seq<string>, sep: string): string
    decreases |parts|
  {
    if |parts| == 0 then ""
    else if |parts| == 1 then parts[0]
    else parts[0] + sep + Join(parts[1..], sep)
  }

  /** `s.replace(p, '')`: every leftmost non-overlapping occurrence of `p` removed. */
  function RemoveAll(s: string, p: string): string
    requires |p| > 0
  {
    Join(SplitOn(s, p), "")
  }

  /** Python's string ordering: lexicographic by code point. */
  predicate LexLe(a: string, b: string)
    decreases |a|
  {
    |a| == 0 || (|b| > 0 && (a[0] < b[0] || (a[0] == b[0] && LexLe(a[1..], b[1..]))))
  }

  predicate LexLt(a: string, b: string) { LexLe(a, b) && a != b }

  lemma {:induction false} LexTotal(a: string, b: string)
    ensures LexLe(a, b) || LexLe(b, a)
    decreases |a|
  {
    if |a| > 0 && |b| > 0 && a[0] == b[0] {
      LexTotal(a[1..], b[1..]);
    }
  }

  lemma {:induction false} LexTransitive(a: string, b: string, c: string)
    requires LexLe(a, b) && LexLe(b, c)
    ensures LexLe(a, c)
    decreases |a|
  {
    if |a| > 0 && a[0] == b[0] && b[0] == c[0] {
      LexTransitive(a[1..], b[1..], c[1..]);
    }
  }
}
